/** The parts of a signaling request's body besides its candidates, read back with the getters
    of the message parser (p2p_signaling.c). */
module BodyParts {
  import opened Machine
  import opened Text
  import opened JsonText
  import opened CandidateArray
  import opened SignalingLimits

  // ---------- No key inside the array ----------

  /** No quote in the text ends a key: it has no name in front of it, or no colon behind it. */
  ghost predicate EndsNoKey(t: string) {
    forall e :: 0 < e < |t| - 1 && t[e] == QUOTE ==> !NameChar(t[e - 1]) || t[e + 1] != ':'
  }

  /** A quoted item, behind a comma or at the start, and in front of more. */
  lemma {:induction false} ItemEndsNoKey(sep: string, esc: string, more: string)
    requires (sep == "" || sep == ",") && QuotesEscaped(esc) && EndsNoKey(more)
    requires more != "" && (more[0] == ',' || more[0] == ']')
    ensures EndsNoKey(sep + ("\"" + esc + "\"") + more)
  {
    var t := sep + ("\"" + esc + "\"") + more;
    var o, c := |sep|, |sep| + 1 + |esc|;
    assert t[o] == QUOTE && t[c] == QUOTE;
    assert forall j :: 0 <= j < |esc| ==> t[o + 1 + j] == esc[j];
    assert forall j :: 0 <= j < |more| ==> t[c + 1 + j] == more[j];
    forall e | 0 < e < |t| - 1 && t[e] == QUOTE ensures !NameChar(t[e - 1]) || t[e + 1] != ':' {
      if e == o {
        assert t[e - 1] == ',';
      } else if e < c {
        assert esc[e - o - 1] == QUOTE && t[e - 1] == BACKSLASH;
      } else if e == c {
        assert t[e + 1] == more[0];
      } else {
        assert more[e - c - 1] == QUOTE && e - c - 1 > 0;
        assert t[e - 1] == more[e - c - 2] && t[e + 1] == more[e - c];
      }
    }
  }

  lemma {:induction false} ItemsEndNoKey(cs: seq<string>, i: nat)
    requires i <= |cs|
    ensures var t := ItemsFrom(cs, i) + "]";
            && EndsNoKey(t) && t[|t| - 1] == ']'
            && (t[0] == ']' || t[0] == if i > 0 then ',' else QUOTE)
    decreases |cs| - i
  {
    if i == |cs| {
    } else {
      var sep, esc := if i > 0 then "," else "", Escaped(cs[i], MAX_CAND_SIZE * 2);
      var more := ItemsFrom(cs, i + 1) + "]";
      ItemsEndNoKey(cs, i + 1);
      EscapedIntoQuotes(cs[i], MAX_CAND_SIZE * 2);
      ItemEndsNoKey(sep, esc, more);
      Associate(sep + Item(cs[i]), ItemsFrom(cs, i + 1), "]");
    }
  }

  /** The text a of the array's field: its key, and behind the bracket the items t. */
  ghost predicate Layout(a: string, t: string) {
    && |a| == 15 + |t| && t != "" && t[|t| - 1] == ']' && (t[0] == ']' || t[0] == QUOTE)
    && a[0] == QUOTE && a[11] == QUOTE && a[12] == ':' && a[13] == '[' && a[|a| - 1] == '}'
    && (forall m :: 0 <= m < 10 ==> a[m + 1] == "candidates"[m])
    && a[14..|a| - 1] == t
  }

  lemma {:induction false} ArrayLayout(items: string)
    requires var t := items + "]"; t[0] == ']' || t[0] == QUOTE
    ensures Layout(FieldText(Arr("candidates", items)) + "}", items + "]")
  {
    var t, k := items + "]", KeyPattern("candidates");
    assert |k| == 13 && k[0] == QUOTE && k[11] == QUOTE && k[12] == ':';
    assert forall m :: 0 <= m < 10 ==> k[m + 1] == "candidates"[m];
    Associate(k + "[", items, "]");
    PutTogether(k, t);
  }

  lemma {:induction false} PutTogether(k: string, t: string)
    requires |k| == 13
    ensures var a := k + "[" + t + "}";
            && |a| == 15 + |t| && a[..13] == k && a[13] == '[' && a[14..|a| - 1] == t && a[|a| - 1] == '}'
            && forall m :: 0 <= m < 13 ==> a[m] == k[m]
  {}

  lemma {:induction false} ArrayName()
    ensures KeyName("candidates") && |"candidates"| == 10
  {}

  lemma {:induction false} ItemsLaidOut(a: string, t: string, e: nat)
    requires Layout(a, t) && EndsNoKey(t) && 14 < e < |a| - 1 && a[e] == QUOTE
    ensures !NameChar(a[e - 1]) || a[e + 1] != ':'
  {
    assert a[14..|a| - 1][e - 14] == t[e - 14] && a[14..|a| - 1][e - 15] == t[e - 15];
    assert e - 14 < |t| - 1;
    assert a[14..|a| - 1][e - 13] == t[e - 13];
  }

  /** In the field of the array a key pattern matches nowhere but at the start, and there only
      for its own key. */
  lemma {:induction false} NoKeyInArray(a: string, t: string, key: string, i: nat)
    requires KeyName(key) && Layout(a, t) && EndsNoKey(t)
    requires i < |a| && KeyPattern(key) <= a[i..]
    ensures i == 0 && key == "candidates"
  {
    MatchShape(a, i, key);
    var e := i + |key| + 1;
    MatchedQuotes(a, i, e, key);
    assert NameChar(a[e - 1]);
    EndsAtArrayKey(a, t, e);
    ArrayName();
    OwnKey(a, i, "candidates", key);
  }

  lemma {:induction false} EndsAtArrayKey(a: string, t: string, e: nat)
    requires Layout(a, t) && EndsNoKey(t)
    requires 1 < e < |a| - 1 && a[e] == QUOTE && NameChar(a[e - 1]) && a[e + 1] == ':'
    ensures e == 11
  {
    ArrayName();
    forall k | 1 <= k <= 10 ensures a[k] != QUOTE {
      assert a[k] == "candidates"[k - 1];
    }
    if 14 < e {
      ItemsLaidOut(a, t, e);
    }
  }

  /** A key that no field has is not found, the array included. */
  lemma {:induction false} AbsentPart(strs: seq<Field>, cs: seq<string>, key: string, pat: string)
    requires AllPassed(strs) && KeyName(key) && key != "candidates" && KeyPattern(key) <= pat
    requires forall i :: 0 <= i < |strs| ==> strs[i].key != key
    ensures After(FieldsText(strs + Optional(Arr("candidates", ItemsFrom(cs, 0)), cs != [])), pat) == None
  {
    var last := Arr("candidates", ItemsFrom(cs, 0));
    if cs == [] {
      assert strs + [] == strs;
      AbsentKey(strs, key, pat);
    } else if strs == [] {
      var a := FieldText(last) + "}";
      ItemsEndNoKey(cs, 0);
      ArrayLayout(ItemsFrom(cs, 0));
      forall i | 0 <= i < |a| ensures !(pat <= (a + "")[i..]) {
        assert a + "" == a;
        if pat <= a[i..] {
          assert KeyPattern(key) <= a[i..];
          NoKeyInArray(a, ItemsFrom(cs, 0) + "]", key, i);
        }
      }
      AfterSkips(a, "", pat);
      assert a + "" == a && pat[0] == QUOTE;
      assert After("", pat) == None;
      assert [] + [last] == [last];
    } else {
      var fs := strs + [last];
      AbsentPart(strs[1..], cs, key, pat);
      assert fs[1..] == strs[1..] + [last];
      OtherFieldSkipped(fs[0], ',', FieldsText(fs[1..]), key, pat);
      assert FieldsText(fs) == FieldText(fs[0]) + [','] + FieldsText(fs[1..]);
    }
  }

  // ---------- The parts ----------

  /** The parts printed as they are hold no quote and no backslash. */
  predicate PlainParts(b: Body) {
    Plain(b.mtype) && Plain(b.peerId) && Plain(b.token) && Plain(b.to) && Plain(b.room)
  }

  /** There is room for each part behind a getter. */
  predicate Short(b: Body, size: nat) {
    && |b.mtype| < size && |b.peerId| < size && |b.token| < size && |b.to| < size && |b.room| < size
    && |b.sdp| < size
  }

  lemma {:induction false} PlainHasNoQuotes(b: Body)
    requires PlainParts(b)
    ensures NoQuotes(b)
  {}

  // What a getter returns that has found a part.

  lemma {:induction false} PlainResult(r: (int, string), s: string, rest: string, size: nat)
    requires |s| < size && r == (0, Decode(s + "\"" + rest, size - 1))
    ensures r.0 == 0 && (r.1 == s <==> Plain(s))
  {
    PlainRoundTrip(s, rest, size - 1);
  }

  lemma {:induction false} EscapedResult(r: (int, string), s: string, rest: string, size: nat)
    requires |s| < size && r == (0, Decode(Escaped(s, MAX_SDP_SIZE * 2) + "\"" + rest, size - 1))
    ensures r.0 == 0 && (r.1 == s <==> Decodable(s) && EscapeFits(s, MAX_SDP_SIZE * 2, 0))
  {
    EscapeRoundTrip(s, MAX_SDP_SIZE * 2, rest, size - 1);
  }

  /** A part printed as it is, behind fields with other keys, comes back exactly when it is
      plain. */
  lemma {:induction false} PlainPart(fs: seq<Field>, k: nat, key: string, s: string, size: nat)
    requires Reachable(fs, k) && fs[k] == Str(key, s) && |s| < size
    ensures var r := GetString(ObjectText(fs), key, size); r.0 == 0 && (r.1 == s <==> Plain(s))
  {
    ReadString(fs, k, size);
    PlainResult(GetString(ObjectText(fs), key, size), s, Behind(fs, k), size);
  }

  lemma {:induction false} EscapedPart(fs: seq<Field>, k: nat, key: string, s: string, size: nat)
    requires Reachable(fs, k) && fs[k] == Str(key, Escaped(s, MAX_SDP_SIZE * 2)) && |s| < size
    ensures var r := GetString(ObjectText(fs), key, size);
            r.0 == 0 && (r.1 == s <==> Decodable(s) && EscapeFits(s, MAX_SDP_SIZE * 2, 0))
  {
    ReadString(fs, k, size);
    EscapedResult(GetString(ObjectText(fs), key, size), s, Behind(fs, k), size);
  }

  lemma {:induction false} PartMissing(b: Body, key: string, size: nat)
    requires NoQuotes(b) && size > 0 && KeyName(key) && key != "candidates"
    requires forall i :: 0 <= i < |Strings(b)| ==> Strings(b)[i].key != key
    ensures GetString(BodyText(b), key, size) == (-1, "")
  {
    var pat := StringPattern(key);
    StringsPassed(b);
    AbsentPart(Strings(b), b.candidates, key, pat);
    assert BodyText(b)[1..] == FieldsText(FieldsOf(b)) && BodyText(b)[0] == '{' && pat[0] == QUOTE;
  }

  lemma {:induction false} PartNames()
    ensures KeyName("type") && KeyName("peer_id") && KeyName("token") && KeyName("to") && KeyName("room_id")
    ensures KeyName("sdp")
    ensures "peer_id" != "room_id"
  {
    assert "peer_id"[0] == 'p' && "room_id"[0] == 'r';
  }

  /** The fields in front of the room, and in front of the SDP. */
  function UpToRecipient(b: Body): seq<Field> {
    [Str("type", b.mtype), Str("peer_id", b.peerId), Str("token", b.token)] + Optional(Str("to", b.to), b.to != "")
  }

  function UpToRoom(b: Body): seq<Field> {
    UpToRecipient(b) + Optional(Str("room_id", b.room), b.room != "")
  }

  lemma {:induction false} FieldsInParts(b: Body)
    ensures UpToRecipient(b) <= UpToRoom(b) <= FieldsOf(b)
    ensures b.to != "" ==> FieldsOf(b)[3] == Str("to", b.to)
    ensures b.room != "" ==> |UpToRecipient(b)| < |FieldsOf(b)|
                             && FieldsOf(b)[|UpToRecipient(b)|] == Str("room_id", b.room)
    ensures b.sdp != "" ==> |UpToRoom(b)| < |FieldsOf(b)|
                            && FieldsOf(b)[|UpToRoom(b)|] == Str("sdp", Escaped(b.sdp, MAX_SDP_SIZE * 2))
  {}

  lemma {:induction false} TypeBack(b: Body, size: nat)
    requires Short(b, size)
    ensures var r := GetString(BodyText(b), "type", size); r.0 == 0 && (r.1 == b.mtype <==> Plain(b.mtype))
  {
    PartNames();
    PlainPart(FieldsOf(b), 0, "type", b.mtype, size);
  }

  lemma {:induction false} PeerIdBack(b: Body, size: nat)
    requires Short(b, size) && Plain(b.mtype)
    ensures var r := GetString(BodyText(b), "peer_id", size); r.0 == 0 && (r.1 == b.peerId <==> Plain(b.peerId))
  {
    PartNames();
    PlainPart(FieldsOf(b), 1, "peer_id", b.peerId, size);
  }

  lemma {:induction false} TokenBack(b: Body, size: nat)
    requires Short(b, size) && Plain(b.mtype) && Plain(b.peerId)
    ensures var r := GetString(BodyText(b), "token", size); r.0 == 0 && (r.1 == b.token <==> Plain(b.token))
  {
    PartNames();
    PlainPart(FieldsOf(b), 2, "token", b.token, size);
  }

  lemma {:induction false} RecipientBack(b: Body, size: nat)
    requires Short(b, size) && Plain(b.mtype) && Plain(b.peerId) && Plain(b.token) && b.to != ""
    ensures var r := GetString(BodyText(b), "to", size); r.0 == 0 && (r.1 == b.to <==> Plain(b.to))
  {
    PartNames();
    PlainPart(FieldsOf(b), 3, "to", b.to, size);
  }

  lemma {:induction false} RoomBack(b: Body, size: nat)
    requires Short(b, size) && Plain(b.mtype) && Plain(b.peerId) && Plain(b.token) && Plain(b.to) && b.room != ""
    ensures var r := GetString(BodyText(b), "room_id", size); r.0 == 0 && (r.1 == b.room <==> Plain(b.room))
  {
    PartNames();
    FieldsInParts(b);
    var fs, front := FieldsOf(b), UpToRecipient(b);
    assert forall i :: 0 <= i < |front| ==> fs[i] == front[i] && FieldOk(front[i]) && front[i].key != "room_id";
    PlainPart(fs, |front|, "room_id", b.room, size);
  }

  lemma {:induction false} SdpBack(b: Body, size: nat)
    requires Short(b, size) && PlainParts(b) && b.sdp != ""
    ensures var r := GetString(BodyText(b), "sdp", size);
            r.0 == 0 && (r.1 == b.sdp <==> Decodable(b.sdp) && EscapeFits(b.sdp, MAX_SDP_SIZE * 2, 0))
  {
    PartNames();
    FieldsInParts(b);
    var fs, front := FieldsOf(b), UpToRoom(b);
    assert forall i :: 0 <= i < |front| ==> fs[i] == front[i] && FieldOk(front[i]) && front[i].key != "sdp";
    EscapedPart(fs, |front|, "sdp", b.sdp, size);
  }

  lemma {:induction false} KeysOfStrings(b: Body)
    ensures b.to == "" ==> forall i :: 0 <= i < |Strings(b)| ==> Strings(b)[i].key != "to"
    ensures b.room == "" ==> forall i :: 0 <= i < |Strings(b)| ==> Strings(b)[i].key != "room_id"
    ensures b.sdp == "" ==> forall i :: 0 <= i < |Strings(b)| ==> Strings(b)[i].key != "sdp"
  {
    PartNames();
  }

  /** A part that is left out is reported missing, whatever the candidates hold. */
  lemma {:induction false} MissingParts(b: Body, size: nat)
    requires NoQuotes(b) && size > 0
    ensures b.to == "" ==> GetString(BodyText(b), "to", size) == (-1, "")
    ensures b.room == "" ==> GetString(BodyText(b), "room_id", size) == (-1, "")
    ensures b.sdp == "" ==> GetString(BodyText(b), "sdp", size) == (-1, "")
  {
    PartNames();
    KeysOfStrings(b);
    if b.to == "" {
      PartMissing(b, "to", size);
    }
    if b.room == "" {
      PartMissing(b, "room_id", size);
    }
    if b.sdp == "" {
      PartMissing(b, "sdp", size);
    }
  }

  /** When the parts printed as they are hold no quote and no backslash, every part comes back
      under its own key, and the getters report exactly the parts that were given. */
  lemma {:induction false} PartsComeBack(b: Body, size: nat)
    requires PlainParts(b) && Short(b, size)
    ensures GetString(BodyText(b), "type", size) == (0, b.mtype)
    ensures GetString(BodyText(b), "peer_id", size) == (0, b.peerId)
    ensures GetString(BodyText(b), "token", size) == (0, b.token)
    ensures GetString(BodyText(b), "to", size) == (if b.to != "" then 0 else -1, b.to)
    ensures GetString(BodyText(b), "room_id", size) == (if b.room != "" then 0 else -1, b.room)
    ensures var r := GetString(BodyText(b), "sdp", size);
            && r.0 == (if b.sdp != "" then 0 else -1)
            && (r.1 == b.sdp <==> Decodable(b.sdp) && EscapeFits(b.sdp, MAX_SDP_SIZE * 2, 0))
  {
    TypeBack(b, size);
    PeerIdBack(b, size);
    TokenBack(b, size);
    PlainHasNoQuotes(b);
    MissingParts(b, size);
    if b.to != "" {
      RecipientBack(b, size);
    }
    if b.room != "" {
      RoomBack(b, size);
    }
    if b.sdp != "" {
      SdpBack(b, size);
    }
  }

  predicate AllPartsBack(b: Body, t: string, size: nat)
    requires size > 0
  {
    && GetString(t, "type", size).1 == b.mtype && GetString(t, "peer_id", size).1 == b.peerId
    && GetString(t, "token", size).1 == b.token && GetString(t, "to", size).1 == b.to
    && GetString(t, "room_id", size).1 == b.room && GetString(t, "sdp", size).1 == b.sdp
  }

  /** All parts come back if and only if those printed as they are hold no quote and no
      backslash, and the SDP fits its buffer when escaped and holds no control character other
      than newline, return and tab. */
  lemma {:induction false} AllPartsBackIff(b: Body, size: nat)
    requires Short(b, size)
    ensures AllPartsBack(b, BodyText(b), size)
       <==> PlainParts(b) && Decodable(b.sdp) && EscapeFits(b.sdp, MAX_SDP_SIZE * 2, 0)
  {
    if PlainParts(b) {
      PartsComeBack(b, size);
    } else {
      TypeBack(b, size);
      if Plain(b.mtype) {
        PeerIdBack(b, size);
        if Plain(b.peerId) {
          TokenBack(b, size);
          if Plain(b.token) && !Plain(b.to) {
            RecipientBack(b, size);
          } else if Plain(b.token) {
            RoomBack(b, size);
          }
        }
      }
    }
  }

  /** A number that is not there is read as 0. */
  lemma {:induction false} MissingNumberIsZero(b: Body, key: string)
    requires NoQuotes(b) && KeyName(key) && key != "candidates"
    requires forall i :: 0 <= i < |Strings(b)| ==> Strings(b)[i].key != key
    ensures GetInt(BodyText(b), key) == Some(0)
  {
    var pat := KeyPattern(key);
    StringsPassed(b);
    AbsentPart(Strings(b), b.candidates, key, pat);
    assert BodyText(b)[1..] == FieldsText(FieldsOf(b)) && BodyText(b)[0] == '{' && pat[0] == QUOTE;
  }

  /** Blanks and commas in front of an item make no difference to the array parser. */
  lemma {:induction false} SeparatorsAreSkipped(sep: string, p: string, max: nat)
    requires forall i :: 0 <= i < |sep| ==> sep[i] == ' ' || sep[i] == ','
    requires p != "" && p[0] == QUOTE
    ensures ReadItems(sep + p, max) == ReadItems(p, max)
  {
    SkipsTo(sep, p);
    SkipsTo("", p);
    assert "" + p == p;
  }

  lemma {:induction false} SkipsTo(sep: string, p: string)
    requires forall i :: 0 <= i < |sep| ==> sep[i] == ' ' || sep[i] == ','
    requires p != "" && p[0] == QUOTE
    ensures SkipSeparators(sep + p) == p
  {
    if sep == "" {
      assert sep + p == p;
    } else {
      SkipsTo(sep[1..], p);
      assert (sep + p)[1..] == sep[1..] + p;
    }
  }
}
