/** The body of a signaling request with its array of candidates, and the parser of such an
    array (p2p_signaling.c). */
module CandidateArray {
  import opened Machine
  import opened Text
  import opened JsonText
  import opened SignalingLimits

  // ---------- Specification of the printer ----------

  /** What build_signal_json prints; an absent part is empty. */
  datatype Body = Body(mtype: string, peerId: string, token: string, to: string, room: string, sdp: string,
                       candidates: seq<string>)

  function Item(c: string): string {
    "\"" + Escaped(c, MAX_CAND_SIZE * 2) + "\""
  }

  /** The candidates from number i on, with a comma in front of each but the first. */
  function ItemsFrom(cs: seq<string>, i: nat): string
    requires i <= |cs|
    decreases |cs| - i
  {
    if i == |cs| then "" else (if i > 0 then "," else "") + Item(cs[i]) + ItemsFrom(cs, i + 1)
  }

  function Optional(f: Field, present: bool): seq<Field> {
    if present then [f] else []
  }

  function Strings(b: Body): seq<Field> {
    [Str("type", b.mtype), Str("peer_id", b.peerId), Str("token", b.token)]
    + Optional(Str("to", b.to), b.to != "")
    + Optional(Str("room_id", b.room), b.room != "")
    + Optional(Str("sdp", Escaped(b.sdp, MAX_SDP_SIZE * 2)), b.sdp != "")
  }

  function FieldsOf(b: Body): seq<Field> {
    Strings(b) + Optional(Arr("candidates", ItemsFrom(b.candidates, 0)), b.candidates != [])
  }

  function BodyText(b: Body): string {
    ObjectText(FieldsOf(b))
  }

  // ---------- Specification of the parser ----------

  /** The array parser undoes fewer escapes than json_get_string. */
  function UnescapeItem(c: char): char {
    if c == 'n' then '\n' else c
  }

  /** One quoted item from behind its opening quote: its text, and what is left of the input. */
  function ReadItem(p: string, room: nat): (string, string) {
    if p == "" || p[0] == QUOTE || room == 0 then ("", p)
    else if p[0] == BACKSLASH && |p| > 1 then
      var (s, q) := ReadItem(p[2..], room - 1);
      ([UnescapeItem(p[1])] + s, q)
    else
      var (s, q) := ReadItem(p[1..], room - 1);
      ([p[0]] + s, q)
  }

  function SkipSeparators(p: string): (q: string)
    ensures |q| <= |p|
    ensures q == "" || (q[0] != ' ' && q[0] != ',')
  {
    if p != "" && (p[0] == ' ' || p[0] == ',') then SkipSeparators(p[1..]) else p
  }

  function CloseQuote(p: string): string {
    if p != "" && p[0] == QUOTE then p[1..] else p
  }

  /** The items of an array from behind its bracket on, at most max of them. */
  function ReadItems(p: string, max: nat): (r: seq<string>)
    ensures |r| <= max
    decreases max
  {
    if p == "" || p[0] == ']' || max == 0 then []
    else
      var q := SkipSeparators(p);
      if q == "" || q[0] != QUOTE then []
      else
        var (s, rest) := ReadItem(q[1..], MAX_CAND_SIZE - 1);
        [s] + ReadItems(CloseQuote(rest), max - 1)
  }

  function ArrayPattern(key: string): string {
    KeyPattern(key) + "["
  }

  function ReadArray(json: string, key: string, max: nat): (r: seq<string>)
    ensures |r| <= max
  {
    match After(json, ArrayPattern(key))
    case None => []
    case Some(p) => ReadItems(p, max)
  }

  // ---------- One candidate ----------

  /** A character the array parser gives back. */
  predicate Kept(c: char) {
    !Control(c) || c == '\n'
  }

  predicate AllKept(s: string) {
    s == "" || (Kept(s[0]) && AllKept(s[1..]))
  }

  /** Nothing of the candidate is cut off on either side, and no character is changed. */
  predicate Survives(c: string) {
    |c| < MAX_CAND_SIZE && AllKept(c) && EscapeFits(c, MAX_CAND_SIZE * 2, 0)
  }

  lemma {:induction false} KeptIsDecodable(s: string)
    requires AllKept(s)
    ensures Decodable(s)
  {
    if s == "" {
    } else {
      KeptIsDecodable(s[1..]);
    }
  }

  /** Candidates of up to 253 characters always fit. */
  lemma {:induction false} ShortSurvives(c: string)
    requires AllKept(c) && |c| <= 253
    ensures Survives(c)
  {
    KeptIsDecodable(c);
    ShortTextFits(c, MAX_CAND_SIZE * 2, 0);
  }

  lemma {:induction false} ReadItemStep(c: char, tail: string, room: nat)
    requires Kept(c) && room > 0
    ensures ReadItem(EscapeChar(c) + tail, room)
         == ([c] + ReadItem(tail, room - 1).0, ReadItem(tail, room - 1).1)
  {
    var p := EscapeChar(c) + tail;
    if |EscapeChar(c)| == 1 {
      assert p[0] == c && p[1..] == tail;
    } else {
      assert p[0] == BACKSLASH && UnescapeItem(p[1]) == c && p[2..] == tail;
    }
  }

  lemma {:induction false} ReadItemChanges(c: char, tail: string, room: nat)
    requires !Kept(c) && room > 0
    ensures var s := ReadItem(EscapeChar(c) + tail, room).0; s != "" && s[0] != c
  {
    var p := EscapeChar(c) + tail;
    assert p[0] == BACKSLASH && (p[1] == 'r' || p[1] == 't' || p[1] == 'u');
  }

  lemma {:induction false} KeptLater(s: string, tail: string, rest: string, room: nat)
    requires s != "" && Kept(s[0]) && room > 0
    requires ReadItem(tail, room - 1) == (s[1..], rest)
    ensures ReadItem(EscapeChar(s[0]) + tail, room) == (s, rest)
  {
    ReadItemStep(s[0], tail, room);
    SameCons(s[0], s[1..], s);
  }

  lemma {:induction false} ItemKept(s: string, size: nat, j: nat, rest: string, room: nat)
    requires rest != "" && rest[0] == QUOTE
    requires AllKept(s) && EscapeFits(s, size, j) && |s| <= room
    ensures ReadItem(EscapeInto(s, size, j) + rest, room) == (s, rest)
  {
    if s == "" {
      assert EscapeInto(s, size, j) + rest == rest;
    } else {
      var n := j + |EscapeChar(s[0])|;
      EscapeIntoHead(s, size, j, rest);
      ItemKept(s[1..], size, n, rest, room - 1);
      KeptLater(s, EscapeInto(s[1..], size, n) + rest, rest, room);
    }
  }

  lemma {:induction false} LostLater(s: string, tail: string, room: nat)
    requires s != "" && Kept(s[0]) && room > 0
    requires ReadItem(tail, room - 1).0 != s[1..]
    ensures ReadItem(EscapeChar(s[0]) + tail, room).0 != s
  {
    ReadItemStep(s[0], tail, room);
    SameCons(s[0], ReadItem(tail, room - 1).0, s);
  }

  /** All of s comes through what is left of both buffers. */
  predicate Through(s: string, size: nat, j: nat, room: nat) {
    AllKept(s) && EscapeFits(s, size, j) && |s| <= room
  }

  lemma {:induction false} ThroughStep(s: string, size: nat, j: nat, room: nat)
    requires s != "" && j + 6 < size && room > 0 && Kept(s[0])
    ensures Through(s, size, j, room) <==> Through(s[1..], size, j + |EscapeChar(s[0])|, room - 1)
  {}

  lemma {:induction false} ItemLost(s: string, size: nat, j: nat, rest: string, room: nat)
    requires rest != "" && rest[0] == QUOTE
    requires !Through(s, size, j, room)
    ensures ReadItem(EscapeInto(s, size, j) + rest, room).0 != s
  {
    if j + 6 >= size {
      assert EscapeInto(s, size, j) + rest == rest;
    } else if room > 0 {
      var n := j + |EscapeChar(s[0])|;
      EscapeIntoHead(s, size, j, rest);
      if Kept(s[0]) {
        ThroughStep(s, size, j, room);
        ItemLost(s[1..], size, n, rest, room - 1);
        LostLater(s, EscapeInto(s[1..], size, n) + rest, room);
      } else {
        ReadItemChanges(s[0], EscapeInto(s[1..], size, n) + rest, room);
      }
    }
  }

  // ---------- The whole array ----------

  lemma {:induction false} SkipToQuote(q: string)
    requires q != "" && q[0] == QUOTE
    ensures SkipSeparators(q) == q && SkipSeparators("," + q) == q
  {
    assert ("," + q)[1..] == q;
  }

  lemma {:induction false} ItemInText(a: string, t: string, rest: string)
    ensures "\"" + a + "\"" + t + rest == "\"" + (a + ("\"" + (t + rest)))
  {
    Associate("\"" + a, "\"", t);
    Associate("\"" + a, "\"" + t, rest);
    Associate("\"", t, rest);
    Associate("\"", a, "\"" + (t + rest));
  }

  /** The text of the items from number i on, in front of some other text. */
  lemma {:induction false} ItemsHead(cs: seq<string>, i: nat, rest: string)
    requires i < |cs|
    ensures var q := "\"" + (Escaped(cs[i], MAX_CAND_SIZE * 2) + ("\"" + (ItemsFrom(cs, i + 1) + rest)));
            ItemsFrom(cs, i) + rest == if i > 0 then "," + q else q
  {
    var t := ItemsFrom(cs, i + 1);
    ItemInText(Escaped(cs[i], MAX_CAND_SIZE * 2), t, rest);
    if i > 0 {
      Associate(",", Item(cs[i]), t);
      Associate(",", Item(cs[i]) + t, rest);
    } else {
      assert "" + Item(cs[i]) == Item(cs[i]);
    }
  }

  lemma {:induction false} ReadItemsStep(p: string, q: string, max: nat)
    requires q != "" && q[0] == QUOTE && (p == q || p == "," + q) && max > 0
    ensures var (s, rest) := ReadItem(q[1..], MAX_CAND_SIZE - 1);
            ReadItems(p, max) == [s] + ReadItems(CloseQuote(rest), max - 1)
  {
    SkipToQuote(q);
  }

  /** The first printed item is read, and then the others. */
  lemma {:induction false} ItemThenOthers(cs: seq<string>, i: nat, rest: string, max: nat)
    requires i < |cs| && max > 0
    ensures var behind := ItemsFrom(cs, i + 1) + rest;
            var item := ReadItem(Escaped(cs[i], MAX_CAND_SIZE * 2) + ("\"" + behind), MAX_CAND_SIZE - 1);
            ReadItems(ItemsFrom(cs, i) + rest, max) == [item.0] + ReadItems(CloseQuote(item.1), max - 1)
  {
    var a := Escaped(cs[i], MAX_CAND_SIZE * 2) + ("\"" + (ItemsFrom(cs, i + 1) + rest));
    var q := "\"" + a;
    ItemsHead(cs, i, rest);
    assert q[0] == QUOTE && q[1..] == a;
    ReadItemsStep(ItemsFrom(cs, i) + rest, q, max);
  }

  /** The first item is right if and only if the candidate survives, and then the others are
      read from where they start. */
  lemma {:induction false} FirstItem(c: string, behind: string)
    ensures var item := ReadItem(Escaped(c, MAX_CAND_SIZE * 2) + ("\"" + behind), MAX_CAND_SIZE - 1);
            (item.0 == c <==> Survives(c)) && (Survives(c) ==> CloseQuote(item.1) == behind)
  {
    if Survives(c) {
      ItemKept(c, MAX_CAND_SIZE * 2, 0, "\"" + behind, MAX_CAND_SIZE - 1);
      assert ("\"" + behind)[1..] == behind;
    } else {
      ItemLost(c, MAX_CAND_SIZE * 2, 0, "\"" + behind, MAX_CAND_SIZE - 1);
    }
  }

  lemma {:induction false} FirstRead(cs: seq<string>, i: nat, rest: string, max: nat)
    requires i < |cs| && max > 0
    ensures var r := ReadItems(ItemsFrom(cs, i) + rest, max);
            && r != [] && (r[0] == cs[i] <==> Survives(cs[i]))
            && (Survives(cs[i]) ==> r[1..] == ReadItems(ItemsFrom(cs, i + 1) + rest, max - 1))
  {
    var behind := ItemsFrom(cs, i + 1) + rest;
    ItemThenOthers(cs, i, rest, max);
    FirstItem(cs[i], behind);
  }

  /** All candidates from number i on survive. */
  predicate AllSurvive(cs: seq<string>, i: nat)
    requires i <= |cs|
  {
    forall k :: i <= k < |cs| ==> Survives(cs[k])
  }

  lemma {:induction false} SurviveSplit(cs: seq<string>, i: nat)
    requires i < |cs|
    ensures AllSurvive(cs, i) <==> Survives(cs[i]) && AllSurvive(cs, i + 1)
  {}

  lemma {:induction false} SameFrom<T>(r: seq<T>, t: seq<T>, tail: seq<T>, here: bool, there: bool)
    requires r != [] && t != [] && (r[0] == t[0] <==> here)
    requires (here ==> r[1..] == tail) && (tail == t[1..] <==> there)
    ensures r == t <==> here && there
  {
    SameCons(r[0], r[1..], t);
    SameCons(r[0], r[1..], r);
  }

  lemma {:induction false} ItemsReadBack(cs: seq<string>, i: nat, rest: string, max: nat)
    requires i <= |cs| && rest != "" && rest[0] == ']'
    ensures ReadItems(ItemsFrom(cs, i) + rest, max) == cs[i..] <==> |cs| - i <= max && AllSurvive(cs, i)
    decreases |cs| - i
  {
    if i == |cs| {
      assert ItemsFrom(cs, i) + rest == rest;
    } else if max > 0 {
      FirstRead(cs, i, rest, max);
      ItemsReadBack(cs, i + 1, rest, max - 1);
      SurviveSplit(cs, i);
      assert cs[i..][1..] == cs[i + 1..] && cs[i..][0] == cs[i];
      SameFrom(ReadItems(ItemsFrom(cs, i) + rest, max), cs[i..], ReadItems(ItemsFrom(cs, i + 1) + rest, max - 1),
               Survives(cs[i]), |cs| - (i + 1) <= max - 1 && AllSurvive(cs, i + 1));
    }
  }

  // ---------- The whole body ----------

  /** The parts that are printed as they are hold no quote. */
  predicate NoQuotes(b: Body) {
    && QUOTE !in b.mtype && QUOTE !in b.peerId && QUOTE !in b.token && QUOTE !in b.to && QUOTE !in b.room
  }

  /** A string field that the array is not mistaken for. */
  ghost predicate Passed(f: Field) {
    FieldOk(f) && f.Str? && f.key != "candidates"
  }

  ghost predicate AllPassed(fs: seq<Field>) {
    forall i :: 0 <= i < |fs| ==> Passed(fs[i])
  }

  lemma {:induction false} PassedTogether(fs: seq<Field>, f: Field, present: bool)
    requires AllPassed(fs) && Passed(f)
    ensures AllPassed(fs + Optional(f, present))
  {}

  lemma {:induction false} StringPassed(key: string, body: string)
    requires KeyName(key) && |key| < 10 && QuotesEscaped(body)
    ensures Passed(Str(key, body))
  {}

  lemma {:induction false} StringsPassed(b: Body)
    requires NoQuotes(b)
    ensures AllPassed(Strings(b))
  {
    EscapedIntoQuotes(b.sdp, MAX_SDP_SIZE * 2);
    var esc := Escaped(b.sdp, MAX_SDP_SIZE * 2);
    StringPassed("type", b.mtype);
    StringPassed("peer_id", b.peerId);
    StringPassed("token", b.token);
    StringPassed("to", b.to);
    StringPassed("room_id", b.room);
    StringPassed("sdp", esc);
    var fs := [Str("type", b.mtype), Str("peer_id", b.peerId), Str("token", b.token)];
    PassedTogether(fs, Str("to", b.to), b.to != "");
    fs := fs + Optional(Str("to", b.to), b.to != "");
    PassedTogether(fs, Str("room_id", b.room), b.room != "");
    fs := fs + Optional(Str("room_id", b.room), b.room != "");
    PassedTogether(fs, Str("sdp", esc), b.sdp != "");
  }

  /** A key that no field has is not found. */
  lemma {:induction false} AbsentKey(fs: seq<Field>, key: string, pat: string)
    requires KeyName(key) && KeyPattern(key) <= pat
    requires forall i :: 0 <= i < |fs| ==> FieldOk(fs[i]) && !fs[i].Arr? && fs[i].key != key
    ensures After(FieldsText(fs), pat) == None
  {
    assert pat[0] == QUOTE;
    if fs == [] {
      assert After("", pat) == None;
    } else if |fs| == 1 {
      OtherFieldSkipped(fs[0], '}', "", key, pat);
      assert FieldsText(fs) == FieldText(fs[0]) + ['}'] + "";
    } else {
      AbsentKey(fs[1..], key, pat);
      OtherFieldSkipped(fs[0], ',', FieldsText(fs[1..]), key, pat);
      assert FieldsText(fs) == FieldText(fs[0]) + [','] + FieldsText(fs[1..]);
    }
  }

  lemma {:induction false} ArrayAbsent(fs: seq<Field>)
    requires AllPassed(fs)
    ensures After(ObjectText(fs), ArrayPattern("candidates")) == None
  {
    var pat := ArrayPattern("candidates");
    AbsentKey(fs, "candidates", pat);
    assert ObjectText(fs)[1..] == FieldsText(fs) && pat[0] == QUOTE && ObjectText(fs)[0] == '{';
  }

  lemma {:induction false} ArrayFound(strs: seq<Field>, items: string)
    requires AllPassed(strs)
    ensures After(ObjectText(strs + [Arr("candidates", items)]), ArrayPattern("candidates")) == Some(items + "]}")
  {
    var fs := strs + [Arr("candidates", items)];
    var k := |strs|;
    assert fs[k] == Arr("candidates", items) && Opening(fs[k]) == ArrayPattern("candidates");
    LookupObject(fs, k);
    assert Behind(fs, k) == "}";
    Associate(items, "]", "}");
    assert "]" + "}" == "]}";
  }

  // ---------- What may stand in front of the array ----------

  /** The text of all fields but the last, with their commas. */
  function Before(fs: seq<Field>): string
    requires fs != []
  {
    if |fs| == 1 then "" else FieldText(fs[0]) + "," + Before(fs[1..])
  }

  lemma {:induction false} TextCons(fs: seq<Field>)
    requires |fs| > 1
    ensures FieldsText(fs) == FieldText(fs[0]) + "," + FieldsText(fs[1..])
  {}

  lemma {:induction false} Regroup(first: string, before: string, last: string, rest: string)
    requires rest == before + last
    ensures first + rest == first + before + last
  {
    Associate(first, before, last);
  }

  lemma {:induction false} LastField(fs: seq<Field>)
    requires fs != []
    ensures FieldsText(fs) == Before(fs) + (FieldText(fs[|fs| - 1]) + "}")
  {
    if |fs| == 1 {
    } else {
      var last := FieldText(fs[|fs| - 1]) + "}";
      assert fs[1..][|fs[1..]| - 1] == fs[|fs| - 1];
      LastField(fs[1..]);
      TextCons(fs);
      Regroup(FieldText(fs[0]) + ",", Before(fs[1..]), last, FieldsText(fs[1..]));
    }
  }

  /** What is printed of the body up to the array, or all of it when there is none. */
  function FrontText(b: Body): string {
    if b.candidates == [] then BodyText(b) else "{" + Before(FieldsOf(b))
  }

  function ArrayText(b: Body): string {
    if b.candidates == [] then "" else ArrayPattern("candidates") + (ItemsFrom(b.candidates, 0) + "]}")
  }

  lemma {:induction false} ArrayField(items: string)
    ensures FieldText(Arr("candidates", items)) + "}" == ArrayPattern("candidates") + (items + "]}")
  {
    var pat := ArrayPattern("candidates");
    Associate(pat, items, "]");
    Associate(pat, items + "]", "}");
    Associate(items, "]", "}");
    assert "]" + "}" == "]}";
  }

  lemma {:induction false} FrontThenArray(b: Body)
    ensures BodyText(b) == FrontText(b) + ArrayText(b)
  {
    if b.candidates == [] {
      assert BodyText(b) + "" == BodyText(b);
    } else {
      var fs, items := FieldsOf(b), ItemsFrom(b.candidates, 0);
      assert fs[|fs| - 1] == Arr("candidates", items);
      LastField(fs);
      ArrayField(items);
      Associate("{", Before(fs), ArrayText(b));
    }
  }

  /** The key of the array is printed nowhere in front of it. */
  ghost predicate Undisturbed(b: Body) {
    forall i :: 0 <= i < |FrontText(b)| ==> !(ArrayPattern("candidates") <= (FrontText(b) + ArrayText(b))[i..])
  }

  /** Then the array is found, if there is one. */
  lemma {:induction false} UndisturbedIsFound(b: Body)
    requires Undisturbed(b)
    ensures After(BodyText(b), ArrayPattern("candidates"))
         == if b.candidates == [] then None else Some(ItemsFrom(b.candidates, 0) + "]}")
  {
    var pat := ArrayPattern("candidates");
    FrontThenArray(b);
    AfterSkips(FrontText(b), ArrayText(b), pat);
    if b.candidates == [] {
      assert pat[0] == QUOTE;
      assert After("", pat) == None;
    } else {
      AfterHere(pat, ItemsFrom(b.candidates, 0) + "]}");
    }
  }

  /** strstr finds the first match. */
  lemma {:induction false} NoneBefore(s: string, pat: string, i: nat)
    requires i <= |s| && pat != ""
    requires After(s, pat).Some? ==> i + |pat| + |After(s, pat).value| < |s|
    ensures !(pat <= s[i..])
  {
    if i == 0 {
      assert s[0..] == s;
    } else if pat <= s {
      assert false;
    } else {
      NoneBefore(s[1..], pat, i - 1);
      assert s[1..][i - 1..] == s[i..];
    }
  }

  /** It is enough that the parts printed as they are hold no quote. */
  lemma {:induction false} NoQuotesIsUndisturbed(b: Body)
    requires NoQuotes(b)
    ensures Undisturbed(b)
  {
    var pat, items := ArrayPattern("candidates"), ItemsFrom(b.candidates, 0);
    StringsPassed(b);
    FrontThenArray(b);
    if b.candidates == [] {
      assert FieldsOf(b) == Strings(b);
      ArrayAbsent(Strings(b));
    } else {
      ArrayFound(Strings(b), items);
    }
    forall i | 0 <= i < |FrontText(b)| ensures !(pat <= (FrontText(b) + ArrayText(b))[i..]) {
      NoneBefore(BodyText(b), pat, i);
    }
  }

  /** The array parser recovers exactly the printed candidates if and only if there are no more
      than it has room for and each of them survives. */
  lemma {:induction false} CandidatesRoundTrip(b: Body, max: nat)
    requires Undisturbed(b)
    ensures ReadArray(BodyText(b), "candidates", max) == b.candidates
       <==> |b.candidates| <= max && AllSurvive(b.candidates, 0)
  {
    UndisturbedIsFound(b);
    if b.candidates != [] {
      ItemsReadBack(b.candidates, 0, "]}", max);
      assert b.candidates[0..] == b.candidates;
    }
  }

  /** What the signaling client relies on: up to sixteen candidates of ordinary length come
      through, whatever quotes, backslashes and line breaks they hold. */
  lemma {:induction false} OrdinaryCandidatesComeThrough(b: Body)
    requires NoQuotes(b) && |b.candidates| <= MAX_CANDIDATES
    requires forall k :: 0 <= k < |b.candidates| ==> AllKept(b.candidates[k]) && |b.candidates[k]| <= 253
    ensures ReadArray(BodyText(b), "candidates", MAX_CANDIDATES) == b.candidates
  {
    forall k | 0 <= k < |b.candidates| ensures Survives(b.candidates[k]) {
      ShortSurvives(b.candidates[k]);
    }
    NoQuotesIsUndisturbed(b);
    CandidatesRoundTrip(b, MAX_CANDIDATES);
  }

  /** A carriage return is printed as an escape that the array parser does not undo. */
  lemma {:induction false} CarriageReturnIsLost(b: Body)
    requires NoQuotes(b) && b.candidates == ["a\rb"]
    ensures ReadArray(BodyText(b), "candidates", MAX_CANDIDATES) != b.candidates
  {
    NoQuotesIsUndisturbed(b);
    CandidatesRoundTrip(b, MAX_CANDIDATES);
    assert b.candidates[0][1..][0] == '\r';
    assert !AllKept(b.candidates[0][1..]) && !Survives(b.candidates[0]);
  }
}
