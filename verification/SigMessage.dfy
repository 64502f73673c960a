/** A signaling message as JSON text and back (p2p_signaling.c). */
module SigMessage {
  import opened Machine
  import opened Text
  import opened JsonText
  import opened JsonCode
  import opened SignalingLimits

  type i32 = x: int | -0x8000_0000 <= x < 0x8000_0000

  datatype Message = Message(mtype: i32, from: string, to: string, room: string, sdp: string, candidate: string,
                             turnUsername: string, turnPassword: string, turnServer: string,
                             turnPort: u16, turnTtl: u32)

  // ---------- Specification ----------

  const KEYS: seq<string> := ["type", "from", "to", "room", "sdp", "candidate", "turn_username", "turn_password",
                              "turn_server", "turn_port", "turn_ttl"]

  /** The format string of p2p_sig_message_to_json, field by field. */
  function FieldsOf(m: Message): seq<Field> {
    [Num("type", m.mtype), Str("from", m.from), Str("to", m.to), Str("room", m.room),
     Str("sdp", Escaped(m.sdp, MAX_SDP_SIZE * 2)), Str("candidate", Escaped(m.candidate, MAX_SDP_SIZE * 2)),
     Str("turn_username", m.turnUsername), Str("turn_password", m.turnPassword), Str("turn_server", m.turnServer),
     Num("turn_port", m.turnPort), Num("turn_ttl", m.turnTtl)]
  }

  function MessageText(m: Message): string {
    ObjectText(FieldsOf(m))
  }

  /** The uint16_t and uint32_t casts. */
  function Cast16(n: int): u16 {
    n % 0x1_0000
  }

  function Cast32(n: int): u32 {
    n % TWO32
  }

  /** p2p_sig_message_from_json; nothing when a number is outside int, where C defines no
      result. */
  function FromText(json: string): Option<Message> {
    match (GetInt(json, "type"), GetInt(json, "turn_port"), GetInt(json, "turn_ttl"))
    case (Some(t), Some(port), Some(ttl)) =>
      Some(Message(t,
                   GetString(json, "from", MAX_PEER_ID).1,
                   GetString(json, "to", MAX_PEER_ID).1,
                   GetString(json, "room", MAX_ROOM_ID).1,
                   GetString(json, "sdp", MAX_SDP_SIZE).1,
                   GetString(json, "candidate", MAX_SDP_SIZE).1,
                   GetString(json, "turn_username", TURN_CRED_SIZE).1,
                   GetString(json, "turn_password", TURN_CRED_SIZE).1,
                   GetString(json, "turn_server", TURN_SERVER_SIZE).1,
                   Cast16(port), Cast32(ttl)))
    case _ => None
  }

  /** A C string that its field of the structure can hold. */
  predicate Held(s: string, size: nat) {
    |s| < size && '\0' !in s
  }

  /** The message fits the structure. */
  predicate Fits(m: Message) {
    && Held(m.from, MAX_PEER_ID) && Held(m.to, MAX_PEER_ID) && Held(m.room, MAX_ROOM_ID)
    && Held(m.sdp, MAX_SDP_SIZE) && Held(m.candidate, MAX_SDP_SIZE)
    && Held(m.turnUsername, TURN_CRED_SIZE) && Held(m.turnPassword, TURN_CRED_SIZE)
    && Held(m.turnServer, TURN_SERVER_SIZE)
  }

  /** An escaped field fits its buffer and holds no control character that changes. */
  predicate Escapable(s: string) {
    Decodable(s) && EscapeFits(s, MAX_SDP_SIZE * 2, 0)
  }

  // ---------- Round trip ----------

  lemma {:induction false} KeysAreNames()
    ensures |KEYS| == 11 && forall i :: 0 <= i < |KEYS| ==> KeyName(KEYS[i])
  {}

  /** No two keys are alike in length, first and sixth character. */
  lemma {:induction false} KeysAreDifferent()
    ensures forall i, j :: 0 <= i < j < |KEYS| ==> KEYS[i] != KEYS[j]
  {
    assert |KEYS[0]| == |KEYS[1]| == |KEYS[3]| == 4 && |KEYS[2]| == 2 && |KEYS[4]| == 3;
    assert |KEYS[5]| == |KEYS[9]| == 9 && |KEYS[6]| == |KEYS[7]| == 13 && |KEYS[8]| == 11 && |KEYS[10]| == 8;
    assert KEYS[0][0] == 't' && KEYS[1][0] == 'f' && KEYS[3][0] == 'r' && KEYS[5][0] == 'c' && KEYS[9][0] == 't';
    assert KEYS[6][5] == 'u' && KEYS[7][5] == 'p';
  }

  /** A field that holds a string. */
  predicate IsString(k: nat) {
    1 <= k <= 8
  }

  /** The string that belongs into field k, and the size of its place in the structure. */
  function StringAt(m: Message, k: nat): string
    requires IsString(k)
  {
    match k
    case 1 => m.from
    case 2 => m.to
    case 3 => m.room
    case 4 => m.sdp
    case 5 => m.candidate
    case 6 => m.turnUsername
    case 7 => m.turnPassword
    case _ => m.turnServer
  }

  function SizeAt(k: nat): nat
    requires IsString(k)
  {
    match k
    case 1 => MAX_PEER_ID
    case 2 => MAX_PEER_ID
    case 3 => MAX_ROOM_ID
    case 4 => MAX_SDP_SIZE
    case 5 => MAX_SDP_SIZE
    case 6 => TURN_CRED_SIZE
    case 7 => TURN_CRED_SIZE
    case _ => TURN_SERVER_SIZE
  }

  predicate IsEscaped(k: nat) {
    k == 4 || k == 5
  }

  predicate Survives(m: Message, k: nat)
    requires IsString(k)
  {
    if IsEscaped(k) then Escapable(StringAt(m, k)) else Plain(StringAt(m, k))
  }

  /** The getter for field k finds m's string in the text. */
  predicate ReadsFrom(json: string, m: Message, k: nat)
    requires IsString(k)
  {
    |KEYS| == 11 && GetString(json, KEYS[k], SizeAt(k)).1 == StringAt(m, k)
  }

  predicate ReadsBack(m: Message, k: nat)
    requires IsString(k)
  {
    ReadsFrom(MessageText(m), m, k)
  }

  lemma {:induction false} FieldAt(m: Message, k: nat)
    requires IsString(k)
    ensures var s := StringAt(m, k);
            FieldsOf(m)[k] == Str(KEYS[k], if IsEscaped(k) then Escaped(s, MAX_SDP_SIZE * 2) else s)
  {}

  lemma {:induction false} SurvivorIsOk(m: Message, k: nat)
    requires IsString(k) && Survives(m, k)
    ensures FieldOk(FieldsOf(m)[k]) && FieldsOf(m)[k].Str?
  {
    KeysAreNames();
    FieldAt(m, k);
    if IsEscaped(k) {
      EscapedIntoQuotes(StringAt(m, k), MAX_SDP_SIZE * 2);
    }
  }

  lemma {:induction false} FieldKeys(m: Message)
    ensures |FieldsOf(m)| == |KEYS| == 11
    ensures forall k :: 0 <= k < 11 ==> FieldsOf(m)[k].key == KEYS[k]
  {}

  /** Behind survivors a field is found. */
  lemma {:induction false} FieldReachable(m: Message, k: nat)
    requires k < 11 && forall i: nat :: IsString(i) && i < k ==> Survives(m, i)
    ensures Reachable(FieldsOf(m), k)
  {
    var fs := FieldsOf(m);
    KeysAreNames();
    KeysAreDifferent();
    FieldKeys(m);
    forall i | 0 <= i < k ensures FieldOk(fs[i]) && !fs[i].Arr? && fs[i].key != fs[k].key {
      if IsString(i) {
        SurvivorIsOk(m, i);
      }
    }
  }

  lemma {:induction false} HeldAt(m: Message, k: nat)
    requires Fits(m) && IsString(k)
    ensures |StringAt(m, k)| < SizeAt(k)
  {}

  /** A printed string, read into a place with room for it. */
  lemma {:induction false} StringValue(s: string, escaped: bool, rest: string, size: nat)
    requires |s| < size
    ensures var body := if escaped then Escaped(s, MAX_SDP_SIZE * 2) else s;
            Decode(body + "\"" + rest, size - 1) == s <==> if escaped then Escapable(s) else Plain(s)
  {
    if escaped {
      EscapeRoundTrip(s, MAX_SDP_SIZE * 2, rest, size - 1);
    } else {
      PlainRoundTrip(s, rest, size - 1);
    }
  }

  /** The getter for a string that is found. */
  lemma {:induction false} GetterFinds(m: Message, k: nat)
    requires IsString(k) && Reachable(FieldsOf(m), k)
    ensures var s := StringAt(m, k);
            var body := if IsEscaped(k) then Escaped(s, MAX_SDP_SIZE * 2) else s;
            GetString(MessageText(m), KEYS[k], SizeAt(k)).1 ==
            Decode(body + "\"" + Behind(FieldsOf(m), k), SizeAt(k) - 1)
  {
    FieldAt(m, k);
    ReadString(FieldsOf(m), k, SizeAt(k));
  }

  /** Behind survivors, a string comes back exactly when it survives. */
  lemma {:induction false} FieldBack(m: Message, k: nat)
    requires Fits(m) && IsString(k) && forall i: nat :: IsString(i) && i < k ==> Survives(m, i)
    ensures ReadsBack(m, k) <==> Survives(m, k)
  {
    HeldAt(m, k);
    FieldReachable(m, k);
    GetterFinds(m, k);
    StringValue(StringAt(m, k), IsEscaped(k), Behind(FieldsOf(m), k), SizeAt(k));
  }

  /** The first string that does not survive does not come back, so that all come back exactly
      when all survive. */
  lemma {:induction false} StringsBack(m: Message, n: nat)
    requires Fits(m) && n <= 9
    ensures (forall k: nat :: IsString(k) && k < n ==> ReadsBack(m, k))
       <==> (forall k: nat :: IsString(k) && k < n ==> Survives(m, k))
  {
    if n <= 1 {
    } else {
      StringsBack(m, n - 1);
      if forall k: nat :: IsString(k) && k < n - 1 ==> Survives(m, k) {
        FieldBack(m, n - 1);
      }
    }
  }

  lemma {:induction false} NumbersBack(m: Message)
    requires forall k: nat :: IsString(k) ==> Survives(m, k)
    ensures GetInt(MessageText(m), "type") == Some(m.mtype)
    ensures GetInt(MessageText(m), "turn_port") == Some(m.turnPort)
    ensures GetInt(MessageText(m), "turn_ttl") == if m.turnTtl < TWO31 then Some(m.turnTtl) else None
  {
    FieldReachable(m, 0);
    FieldReachable(m, 9);
    FieldReachable(m, 10);
    ReadNumber(FieldsOf(m), 0);
    ReadNumber(FieldsOf(m), 9);
    ReadNumber(FieldsOf(m), 10);
  }

  lemma {:induction false} CastsKeep(port: u16, ttl: u32)
    ensures Cast16(port) == port && Cast32(ttl) == ttl
  {}

  /** A parsed message has every string as its getter finds it. */
  lemma {:induction false} ParsedString(json: string, m: Message, k: nat)
    requires FromText(json) == Some(m) && IsString(k)
    ensures ReadsFrom(json, m, k)
  {
    match k
    case 1 =>
    case 2 =>
    case 3 =>
    case 4 =>
    case 5 =>
    case 6 =>
    case 7 =>
    case _ =>
  }

  /** The parsed message is m when each getter finds m's field. */
  lemma {:induction false} Assembled(json: string, m: Message)
    requires GetInt(json, "type") == Some(m.mtype) && GetInt(json, "turn_port") == Some(m.turnPort)
    requires forall k: nat :: IsString(k) ==> ReadsFrom(json, m, k)
    ensures GetInt(json, "turn_ttl") == Some(m.turnTtl) ==> FromText(json) == Some(m)
    ensures GetInt(json, "turn_ttl") == None ==> FromText(json) == None
  {
    CastsKeep(m.turnPort, m.turnTtl);
    assert ReadsFrom(json, m, 1) && ReadsFrom(json, m, 2) && ReadsFrom(json, m, 3) && ReadsFrom(json, m, 4);
    assert ReadsFrom(json, m, 5) && ReadsFrom(json, m, 6) && ReadsFrom(json, m, 7) && ReadsFrom(json, m, 8);
  }

  /** What a message must be like to be understood as it was meant. */
  predicate Intact(m: Message) {
    && Plain(m.from) && Plain(m.to) && Plain(m.room)
    && Plain(m.turnUsername) && Plain(m.turnPassword) && Plain(m.turnServer)
    && Escapable(m.sdp) && Escapable(m.candidate)
    && m.turnTtl < TWO31
  }

  /** A message that fits the structure is understood as it was meant if and only if the fields
      printed as they are hold no quote and no backslash; SDP and candidate fit their buffers
      when escaped, and hold no control characters other than newline, return and tab; and
      the TTL is below 2^31. */
  lemma {:induction false} MessageRoundTrip(m: Message)
    requires Fits(m)
    ensures FromText(MessageText(m)) == Some(m) <==> Intact(m)
  {
    StringsBack(m, 9);
    AllSurviveIff(m);
    if FromText(MessageText(m)) == Some(m) {
      forall k: nat | IsString(k) ensures ReadsBack(m, k) {
        ParsedString(MessageText(m), m, k);
      }
    }
    if forall k: nat :: IsString(k) ==> Survives(m, k) {
      NumbersBack(m);
      assert forall k: nat :: IsString(k) ==> ReadsBack(m, k);
      Assembled(MessageText(m), m);
    }
  }

  lemma {:induction false} AllSurviveIff(m: Message)
    ensures (forall k: nat :: IsString(k) ==> Survives(m, k)) && m.turnTtl < TWO31 <==> Intact(m)
  {
    if forall k: nat :: IsString(k) ==> Survives(m, k) {
      assert Survives(m, 1) && Survives(m, 2) && Survives(m, 3) && Survives(m, 4);
      assert Survives(m, 5) && Survives(m, 6) && Survives(m, 7) && Survives(m, 8);
    }
  }

  /** Then each part stands in the text under its own key, and the getters find it there. */
  lemma {:induction false} EachUnderItsKey(m: Message)
    requires Fits(m) && Intact(m)
    ensures var t := MessageText(m);
            && GetInt(t, "type") == Some(m.mtype)
            && GetString(t, "from", 64).1 == m.from && GetString(t, "to", 64).1 == m.to
            && GetString(t, "room", 64).1 == m.room
            && GetString(t, "sdp", 4096).1 == m.sdp && GetString(t, "candidate", 4096).1 == m.candidate
            && GetString(t, "turn_username", 128).1 == m.turnUsername
            && GetString(t, "turn_password", 128).1 == m.turnPassword
            && GetString(t, "turn_server", 256).1 == m.turnServer
            && GetInt(t, "turn_port") == Some(m.turnPort) && GetInt(t, "turn_ttl") == Some(m.turnTtl)
  {
    AllSurviveIff(m);
    NumbersBack(m);
    StringsBack(m, 9);
    KeysSpelled();
    assert ReadsBack(m, 1) && ReadsBack(m, 2) && ReadsBack(m, 3) && ReadsBack(m, 4);
    assert ReadsBack(m, 5) && ReadsBack(m, 6) && ReadsBack(m, 7) && ReadsBack(m, 8);
  }

  lemma {:induction false} KeysSpelled()
    ensures KEYS[1] == "from" && KEYS[2] == "to" && KEYS[3] == "room" && KEYS[4] == "sdp" && KEYS[5] == "candidate"
    ensures KEYS[6] == "turn_username" && KEYS[7] == "turn_password" && KEYS[8] == "turn_server"
  {}

  /** The parser takes port and TTL as the rest of what it reads by 2^16 and by 2^32, and every
      string from its key. */
  lemma {:induction false} ParsedFromItsKeys(json: string, m: Message)
    requires FromText(json) == Some(m)
    ensures GetInt(json, "type") == Some(m.mtype)
    ensures var (port, ttl) := (GetInt(json, "turn_port"), GetInt(json, "turn_ttl"));
            port.Some? && ttl.Some? && (port.value - m.turnPort) % 65536 == 0 && (ttl.value - m.turnTtl) % TWO32 == 0
    ensures m.from == GetString(json, "from", 64).1 && m.to == GetString(json, "to", 64).1
    ensures m.room == GetString(json, "room", 64).1
    ensures m.sdp == GetString(json, "sdp", 4096).1 && m.candidate == GetString(json, "candidate", 4096).1
    ensures m.turnUsername == GetString(json, "turn_username", 128).1
    ensures m.turnPassword == GetString(json, "turn_password", 128).1
    ensures m.turnServer == GetString(json, "turn_server", 256).1
  {
    var port, ttl := GetInt(json, "turn_port"), GetInt(json, "turn_ttl");
    CastsAreRests(port.value, ttl.value);
  }

  lemma {:induction false} CastsAreRests(port: int, ttl: int)
    ensures (port - Cast16(port)) % 65536 == 0 && (ttl - Cast32(ttl)) % TWO32 == 0
  {}

  const GREETING: Message := Message(1, "ann", "bob", "hall", "", "", "", "", "", 0, 0)

  // Messages that are lost: for a quote in a name, a vertical tab in an SDP, a TTL of 2^31.

  lemma {:induction false} QuoteIsLost()
    ensures var m := GREETING.(from := "a\"n"); Fits(m) && FromText(MessageText(m)) != Some(m)
  {
    var m := GREETING.(from := "a\"n");
    assert m.from[1] == QUOTE;
    MessageRoundTrip(m);
  }

  lemma {:induction false} ControlIsLost()
    ensures var m := GREETING.(sdp := [11 as char]); Fits(m) && FromText(MessageText(m)) != Some(m)
  {
    var m := GREETING.(sdp := [11 as char]);
    assert !Decodable(m.sdp);
    MessageRoundTrip(m);
  }

  lemma {:induction false} LongTtlIsLost()
    ensures var m := GREETING.(turnTtl := 0x8000_0000); Fits(m) && FromText(MessageText(m)) != Some(m)
  {
    MessageRoundTrip(GREETING.(turnTtl := 0x8000_0000));
  }

  // ---------- The code ----------

  /** The fields are C strings. */
  predicate CStrings(m: Message) {
    && '\0' !in m.from && '\0' !in m.to && '\0' !in m.room && '\0' !in m.sdp && '\0' !in m.candidate
    && '\0' !in m.turnUsername && '\0' !in m.turnPassword && '\0' !in m.turnServer
  }

  lemma {:induction false} PartNoNul(m: Message, k: nat)
    requires CStrings(m) && k < 11
    ensures NoNul(FieldsOf(m)[k])
  {
    KeysAreNames();
    FieldKeys(m);
    if IsString(k) {
      FieldAt(m, k);
      EscapeIntoNoNul(StringAt(m, k), MAX_SDP_SIZE * 2, 0);
    }
  }

  lemma {:induction false} MessageNoNul(m: Message)
    requires CStrings(m)
    ensures '\0' !in MessageText(m)
  {
    FieldKeys(m);
    forall k | 0 <= k < 11 ensures NoNul(FieldsOf(m)[k]) {
      PartNoNul(m, k);
    }
    FieldsNoNul(FieldsOf(m));
  }

  /** snprintf keeps what fits in front of the terminator, and reports the full length. */
  method Snprintf(buf: array<char>, text: string) returns (n: nat)
    requires buf.Length > 0 && '\0' !in text
    modifies buf
    ensures n == |text|
    ensures CStr(buf[..]) == if n < buf.Length then text else text[..buf.Length - 1]
  {
    n := |text|;
    var kept := if n < buf.Length then text else text[..buf.Length - 1];
    PutText(buf, 0, kept);
    Terminate(buf, |kept|);
  }

  /** p2p_sig_message_to_json. */
  method ToJson(m: Message, buf: array<char>) returns (rc: int)
    requires CStrings(m)
    modifies buf
    ensures rc == 0 || rc == -1
    ensures rc == 0 <==> |MessageText(m)| < buf.Length
    ensures rc == 0 ==> CStr(buf[..]) == MessageText(m)
    ensures rc != 0 && buf.Length > 0 ==> CStr(buf[..]) == MessageText(m)[..buf.Length - 1]
  {
    if buf.Length == 0 {
      return -1;
    }
    var escSdp := EscapeText(m.sdp, MAX_SDP_SIZE * 2);
    var escCand := EscapeText(m.candidate, MAX_SDP_SIZE * 2);
    var text := ObjectText([Num("type", m.mtype), Str("from", m.from), Str("to", m.to), Str("room", m.room),
                            Str("sdp", escSdp), Str("candidate", escCand),
                            Str("turn_username", m.turnUsername), Str("turn_password", m.turnPassword),
                            Str("turn_server", m.turnServer), Num("turn_port", m.turnPort),
                            Num("turn_ttl", m.turnTtl)]);
    MessageNoNul(m);
    var n := Snprintf(buf, text);
    return if n < buf.Length then 0 else -1;
  }

  /** p2p_sig_message_from_json. */
  method FromJson(json: string) returns (msg: Option<Message>)
    requires '\0' !in json
    ensures msg == FromText(json)
  {
    var t, port, ttl := GetInt(json, "type"), GetInt(json, "turn_port"), GetInt(json, "turn_ttl");
    var from := GetField(json, "from", MAX_PEER_ID);
    var to := GetField(json, "to", MAX_PEER_ID);
    var room := GetField(json, "room", MAX_ROOM_ID);
    var sdp := GetField(json, "sdp", MAX_SDP_SIZE);
    var candidate := GetField(json, "candidate", MAX_SDP_SIZE);
    var user := GetField(json, "turn_username", TURN_CRED_SIZE);
    var pass := GetField(json, "turn_password", TURN_CRED_SIZE);
    var server := GetField(json, "turn_server", TURN_SERVER_SIZE);
    if t.None? || port.None? || ttl.None? {
      return None;
    }
    return Some(Message(t.value, from, to, room, sdp, candidate, user, pass, server,
                        Cast16(port.value), Cast32(ttl.value)));
  }
}
