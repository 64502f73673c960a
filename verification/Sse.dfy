/** Server-sent events: the writer in the signaling server (sse_handler.go) and the reader in
    the client (p2p_tls.c), for the line format of sections 9.2.5 and 9.2.6 of the WHATWG HTML
    standard. The byte stream is a string of characters. */
module Sse {
  import opened Machine
  import opened Text

  const LINE_SIZE: nat := 8192

  datatype Event = Event(etype: string, data: string)

  const PING: Event := Event("ping", "{}")

  // ---------- The writer ----------

  function Wire(e: Event): string {
    "event: " + e.etype + "\n" + ("data: " + e.data + "\n" + "\n")
  }

  function Print(es: seq<Event>): string {
    if es == [] then "" else Wire(es[0]) + Print(es[1..])
  }

  /** What the handler's select loop is woken up by. */
  datatype Wakeup = Queued(e: Event) | Ticked

  function Sent(w: Wakeup): Event {
    if w.Queued? then w.e else PING
  }

  function EventsOf(ws: seq<Wakeup>): seq<Event> {
    if ws == [] then [] else EventsOf(ws[..|ws| - 1]) + [Sent(ws[|ws| - 1])]
  }

  lemma {:induction false} PrintSnoc(es: seq<Event>, e: Event)
    ensures Print(es + [e]) == Print(es) + Wire(e)
  {
    if es == [] {
      assert es + [e] == [e];
    } else {
      PrintSnoc(es[1..], e);
      assert (es + [e])[0] == es[0] && (es + [e])[1..] == es[1..] + [e];
      Associate(Wire(es[0]), Print(es[1..]), Wire(e));
    }
  }

  class ResponseStream {
    var out: string

    constructor ()
      ensures out == ""
    {
      out := "";
    }

    method Write(text: string)
      modifies this
      ensures out == old(out) + text
    {
      out := out + text;
    }

    /** The loop of HandleSSE while nothing fails: one event or ping at a time. */
    method Serve(ws: seq<Wakeup>)
      modifies this
      ensures out == old(out) + Print(EventsOf(ws))
    {
      for i := 0 to |ws|
        invariant out == old(out) + Print(EventsOf(ws[..i]))
      {
        assert ws[..i + 1][..i] == ws[..i];
        PrintSnoc(EventsOf(ws[..i]), Sent(ws[i]));
        Associate(old(out), Print(EventsOf(ws[..i])), Wire(Sent(ws[i])));
        match ws[i] {
          case Queued(e) => Write(Wire(e));
          case Ticked => Write(Wire(PING));
        }
      }
      assert ws[..|ws|] == ws;
    }
  }

  // ---------- The reader, as functions of the stream ----------

  /** tls_read_line with a buffer of the given size: the line with its newline, or as much as
      the buffer holds; nothing when the stream ends first. */
  function ReadLine(s: string, size: nat): Option<(string, string)> {
    if size <= 1 then Some(("", s))
    else if s == "" then None
    else if s[0] == '\n' then Some(("\n", s[1..]))
    else
      match ReadLine(s[1..], size - 1)
      case None => None
      case Some((line, rest)) => Some(([s[0]] + line, rest))
  }

  predicate LineEnd(c: char) {
    c == '\n' || c == '\r'
  }

  function Trim(line: string): string {
    if line != "" && LineEnd(line[|line| - 1]) then Trim(line[..|line| - 1]) else line
  }

  function SkipSpaces(s: string): string {
    if s != "" && s[0] == ' ' then SkipSpaces(s[1..]) else s
  }

  function Value(line: string, prefix: nat): string
    requires prefix <= |line|
  {
    SkipSpaces(CStr(line[prefix..]))
  }

  function Clip(s: string, size: nat): string {
    if size == 0 then "" else if |s| < size then s else s[..size - 1]
  }

  /** What a non-blank line adds to the event being read. */
  function TakeLine(e: Event, line: string, typeSize: nat, dataSize: nat): Event {
    if "event:" <= line then e.(etype := Clip(Value(line, 6), typeSize))
    else if "data:" <= line then
      var v := Value(line, 5);
      if |e.data| + |v| < dataSize then e.(data := e.data + v) else e
    else e
  }

  lemma {:induction false} ReadLineConsumes(s: string, size: nat)
    requires ReadLine(s, size).Some?
    ensures var (line, rest) := ReadLine(s, size).value;
            s == line + rest && |line| < (if size == 0 then 1 else size) && (size > 1 ==> |rest| < |s|)
    decreases size
  {
    if size <= 1 || s == "" || s[0] == '\n' {
    } else {
      ReadLineConsumes(s[1..], size - 1);
    }
  }

  /** p2p_sse_read_event, with the event collected so far. */
  function ReadEvent(s: string, e: Event, typeSize: nat, dataSize: nat): Option<(Event, string)>
    decreases |s|
  {
    match ReadLine(s, LINE_SIZE)
    case None => None
    case Some((line, rest)) =>
      ReadLineConsumes(s, LINE_SIZE);
      var text := Trim(line);
      if text != "" then ReadEvent(rest, TakeLine(e, text, typeSize, dataSize), typeSize, dataSize)
      else if e.etype != "" || e.data != "" then Some((e, rest))
      else ReadEvent(rest, e, typeSize, dataSize)
  }

  const NOTHING: Event := Event("", "")

  /** n calls in a row. */
  function ReadMany(s: string, n: nat, typeSize: nat, dataSize: nat): Option<(seq<Event>, string)>
    decreases n
  {
    if n == 0 then Some(([], s))
    else
      match ReadEvent(s, NOTHING, typeSize, dataSize)
      case None => None
      case Some((e, rest)) =>
        match ReadMany(rest, n - 1, typeSize, dataSize)
        case None => None
        case Some((es, rest')) => Some(([e] + es, rest'))
  }

  // ---------- One line ----------

  lemma {:induction false} ReadLineOfText(text: string, rest: string, size: nat)
    requires '\n' !in text && |text| + 1 < size
    ensures ReadLine(text + "\n" + rest, size) == Some((text + "\n", rest))
  {
    var s := text + "\n" + rest;
    if text == "" {
      assert s == "\n" + rest && text + "\n" == "\n";
    } else {
      ReadLineOfText(text[1..], rest, size - 1);
      assert s[1..] == text[1..] + "\n" + rest;
      assert [s[0]] + (text[1..] + "\n") == text + "\n";
    }
  }

  lemma {:induction false} TrimKeepsPrefix(prefix: string, s: string)
    requires prefix != "" && !LineEnd(prefix[|prefix| - 1])
    ensures Trim(prefix + s) == prefix + Trim(s)
  {
    var t := prefix + s;
    if s == "" {
      assert t == prefix;
    } else if LineEnd(s[|s| - 1]) {
      TrimKeepsPrefix(prefix, s[..|s| - 1]);
      assert t[..|t| - 1] == prefix + s[..|s| - 1];
    }
  }

  lemma {:induction false} TrimShortens(s: string)
    ensures Trim(s) <= s && (Trim(s) == s <==> s == "" || !LineEnd(s[|s| - 1]))
  {
    if s == "" || !LineEnd(s[|s| - 1]) {
    } else {
      TrimShortens(s[..|s| - 1]);
    }
  }

  lemma {:induction false} SkipShortens(s: string)
    ensures |SkipSpaces(s)| <= |s| && (SkipSpaces(s) == s <==> s == "" || s[0] != ' ')
  {
    if s == "" || s[0] != ' ' {
    } else {
      SkipShortens(s[1..]);
    }
  }

  // ---------- One event ----------

  /** What is left of a printed field after reading. */
  function Cleaned(s: string): string {
    SkipSpaces(Trim(s))
  }

  predicate OneLine(s: string) {
    '\n' !in s && '\0' !in s
  }

  /** The field starts with no space and ends with no carriage return. */
  predicate Clean(s: string) {
    s == "" || (s[0] != ' ' && s[|s| - 1] != '\r')
  }

  lemma {:induction false} CleanedIfClean(s: string)
    requires '\n' !in s
    ensures Cleaned(s) == s <==> Clean(s)
  {
    TrimShortens(s);
    SkipShortens(Trim(s));
  }

  predicate Fits(e: Event, typeSize: nat, dataSize: nat) {
    && OneLine(e.etype) && OneLine(e.data)
    && |e.etype| < typeSize && |"event: "| + |e.etype| + 1 < LINE_SIZE
    && |e.data| < dataSize && |"data: "| + |e.data| + 1 < LINE_SIZE
  }

  /** A line "prefix: field" is read as the cleaned field. */
  lemma {:induction false} FieldLine(prefix: string, field: string, rest: string)
    requires prefix != "" && prefix[|prefix| - 1] == ':' && '\n' !in prefix
    requires OneLine(field) && |prefix| + 1 + |field| + 1 < LINE_SIZE
    ensures ReadLine(prefix + " " + field + "\n" + rest, LINE_SIZE) == Some((prefix + " " + field + "\n", rest))
    ensures var text := Trim(prefix + " " + field + "\n"); prefix <= text && Value(text, |prefix|) == Cleaned(field)
  {
    var full := prefix + " " + field;
    ReadLineOfText(full, rest, LINE_SIZE);
    assert (full + "\n")[..|full|] == full;
    TrimKeepsPrefix(prefix + " ", field);
    TrimShortens(field);
    var text := Trim(full);
    assert text == prefix + " " + Trim(field) && text[|prefix|..] == " " + Trim(field);
    CStrOfText(" " + Trim(field));
    assert (" " + Trim(field))[1..] == Trim(field);
  }

  /** A blank line ends the event, if there is one. */
  lemma {:induction false} BlankLine(e: Event, rest: string, typeSize: nat, dataSize: nat)
    ensures ReadEvent("\n" + rest, e, typeSize, dataSize) ==
            if e == NOTHING then ReadEvent(rest, e, typeSize, dataSize) else Some((e, rest))
  {
    ReadLineOfText("", rest, LINE_SIZE);
    assert "" + "\n" + rest == "\n" + rest && "" + "\n" == "\n";
  }

  /** A type that is too long for its place is cut off. */
  lemma {:induction false} TypeLine(e: Event, field: string, rest: string, typeSize: nat, dataSize: nat)
    requires OneLine(field) && typeSize > 0 && |"event: "| + |field| + 1 < LINE_SIZE
    ensures var v := Cleaned(field);
            ReadEvent("event:" + " " + field + "\n" + rest, e, typeSize, dataSize) ==
            ReadEvent(rest, e.(etype := if |v| < typeSize then v else v[..typeSize - 1]), typeSize, dataSize)
  {
    FieldLine("event:", field, rest);
  }

  /** Data is put behind the data read before, without a break; where there is no room for all
      of it, the line is dropped. */
  lemma {:induction false} DataLine(e: Event, field: string, rest: string, typeSize: nat, dataSize: nat)
    requires OneLine(field) && |"data: "| + |field| + 1 < LINE_SIZE
    ensures var v := Cleaned(field);
            ReadEvent("data:" + " " + field + "\n" + rest, e, typeSize, dataSize) ==
            ReadEvent(rest, if |e.data| + |v| < dataSize then e.(data := e.data + v) else e, typeSize, dataSize)
  {
    FieldLine("data:", field, rest);
    assert Trim("data:" + " " + field + "\n")[0] == 'd';
  }

  /** A line that is neither, and not blank, changes nothing. */
  lemma {:induction false} OtherLine(line: string, rest: string, e: Event, typeSize: nat, dataSize: nat)
    requires '\n' !in line && |line| + 1 < LINE_SIZE
    requires Trim(line) != "" && !("event:" <= Trim(line)) && !("data:" <= Trim(line))
    ensures ReadEvent(line + "\n" + rest, e, typeSize, dataSize) == ReadEvent(rest, e, typeSize, dataSize)
  {
    ReadLineOfText(line, rest, LINE_SIZE);
    assert (line + "\n")[..|line|] == line;
  }

  /** A line longer than the buffer comes in pieces. */
  lemma {:induction false} LongLineIsCut(text: string, rest: string, size: nat)
    requires '\n' !in text && |text| + 1 == size
    ensures ReadLine(text + rest, size) == Some((text, rest))
  {
    if text == "" {
      assert text + rest == rest;
    } else {
      LongLineIsCut(text[1..], rest, size - 1);
      assert (text + rest)[1..] == text[1..] + rest && text == [text[0]] + text[1..];
    }
  }

  lemma {:induction false} CleanedFits(field: string)
    ensures |Cleaned(field)| <= |field|
  {
    TrimShortens(field);
    SkipShortens(Trim(field));
  }

  /** Reading one printed event: its fields, cleaned; an event with nothing left is skipped. */
  lemma {:induction false} ReadPrinted(e: Event, rest: string, typeSize: nat, dataSize: nat)
    requires Fits(e, typeSize, dataSize)
    ensures var got := Event(Cleaned(e.etype), Cleaned(e.data));
            ReadEvent(Wire(e) + rest, NOTHING, typeSize, dataSize) ==
            if got == NOTHING then ReadEvent(rest, NOTHING, typeSize, dataSize) else Some((got, rest))
  {
    var s2 := "\n" + rest;
    var s1 := "data:" + " " + e.data + "\n" + s2;
    assert Wire(e) + rest == "event:" + " " + e.etype + "\n" + s1;
    CleanedFits(e.etype);
    CleanedFits(e.data);
    TypeLine(NOTHING, e.etype, s1, typeSize, dataSize);
    DataLine(Event(Cleaned(e.etype), ""), e.data, s2, typeSize, dataSize);
    assert "" + Cleaned(e.data) == Cleaned(e.data);
    BlankLine(Event(Cleaned(e.etype), Cleaned(e.data)), rest, typeSize, dataSize);
  }

  lemma {:induction false} ReadEventConsumes(s: string, e: Event, typeSize: nat, dataSize: nat)
    requires ReadEvent(s, e, typeSize, dataSize).Some?
    ensures |ReadEvent(s, e, typeSize, dataSize).value.1| < |s|
    decreases |s|
  {
    var (line, rest) := ReadLine(s, LINE_SIZE).value;
    ReadLineConsumes(s, LINE_SIZE);
    var text := Trim(line);
    if text != "" {
      ReadEventConsumes(rest, TakeLine(e, text, typeSize, dataSize), typeSize, dataSize);
    } else if e.etype == "" && e.data == "" {
      ReadEventConsumes(rest, e, typeSize, dataSize);
    }
  }

  /** An event comes back as it was printed if and only if it has something in it, and no
      field starts with a space or ends with a carriage return. */
  lemma {:induction false} EventRoundTrip(e: Event, rest: string, typeSize: nat, dataSize: nat)
    requires Fits(e, typeSize, dataSize)
    ensures ReadEvent(Wire(e) + rest, NOTHING, typeSize, dataSize) == Some((e, rest)) <==>
            e != NOTHING && Clean(e.etype) && Clean(e.data)
  {
    ReadPrinted(e, rest, typeSize, dataSize);
    CleanedIfClean(e.etype);
    CleanedIfClean(e.data);
    if ReadEvent(rest, NOTHING, typeSize, dataSize).Some? {
      ReadEventConsumes(rest, NOTHING, typeSize, dataSize);
    }
  }

  predicate Readable(e: Event, typeSize: nat, dataSize: nat) {
    Fits(e, typeSize, dataSize) && e != NOTHING && Clean(e.etype) && Clean(e.data)
  }

  /** Whatever the server has sent, that many calls give back exactly the events sent, in
      order, and leave the rest of the stream untouched. */
  lemma {:induction false} StreamRoundTrip(es: seq<Event>, rest: string, typeSize: nat, dataSize: nat)
    requires forall i :: 0 <= i < |es| ==> Readable(es[i], typeSize, dataSize)
    ensures ReadMany(Print(es) + rest, |es|, typeSize, dataSize) == Some((es, rest))
  {
    if es == [] {
      assert Print(es) + rest == rest;
    } else {
      var more := Print(es[1..]) + rest;
      EventRoundTrip(es[0], more, typeSize, dataSize);
      StreamRoundTrip(es[1..], rest, typeSize, dataSize);
      Associate(Wire(es[0]), Print(es[1..]), rest);
      assert ReadMany(more, |es| - 1, typeSize, dataSize) == Some((es[1..], rest));
      assert [es[0]] + es[1..] == es;
    }
  }

  /** In particular the stream of the handler's loop: as many calls give back each queued event
      as it was, and for each tick a ping. */
  lemma {:induction false} ServedIsRead(ws: seq<Wakeup>, typeSize: nat, dataSize: nat)
    requires typeSize > |"ping"| && dataSize > |"{}"|
    requires forall i :: 0 <= i < |ws| && ws[i].Queued? ==> Readable(ws[i].e, typeSize, dataSize)
    ensures var r := ReadMany(Print(EventsOf(ws)), |ws|, typeSize, dataSize);
            && r.Some? && r.value.1 == "" && |r.value.0| == |ws|
            && forall i :: 0 <= i < |ws| ==> r.value.0[i] == if ws[i].Queued? then ws[i].e else Event("ping", "{}")
  {
    var es := EventsOf(ws);
    SentOneByOne(ws);
    StreamRoundTrip(es, "", typeSize, dataSize);
    assert Print(es) + "" == Print(es);
  }

  lemma {:induction false} SentOneByOne(ws: seq<Wakeup>)
    ensures |EventsOf(ws)| == |ws|
    ensures forall i :: 0 <= i < |ws| ==> EventsOf(ws)[i] == if ws[i].Queued? then ws[i].e else Event("ping", "{}")
  {
    if ws == [] {
    } else {
      SentOneByOne(ws[..|ws| - 1]);
    }
  }

  /** On the wire an event is a line with its type, a line with its data and a blank line. */
  lemma {:induction false} WireFormat(e: Event)
    ensures Wire(e) == "event: " + e.etype + "\ndata: " + e.data + "\n\n"
  {
    var head, line := "event: " + e.etype, "data: " + e.data;
    assert "\n\n" == "\n" + "\n";
    Associate(line, "\n", "\n");
    Associate(head + "\n", line, "\n\n");
    assert head + "\n" + line == head + "\ndata: " + e.data;
  }

  // ---------- Chunked framing ----------

  /** Over HTTP/1.1 each event the handler flushes is one chunk, with its length in front and a
      line break behind. The client does not undo that; its reader sees the framing. */
  function Chunks(es: seq<Event>, sizes: seq<string>): string
    requires |es| == |sizes|
  {
    if es == [] then "" else sizes[0] + "\r" + "\n" + (Wire(es[0]) + ("\r\n" + Chunks(es[1..], sizes[1..])))
  }

  predicate HexLine(s: string) {
    && s != "" && |s| + 2 < LINE_SIZE
    && forall i :: 0 <= i < |s| ==> '0' <= s[i] <= '9' || 'a' <= s[i] <= 'f'
  }

  /** The length of a chunk is a line that is neither an event nor data. */
  lemma {:induction false} SizeLine(size: string, rest: string, e: Event, typeSize: nat, dataSize: nat)
    requires HexLine(size)
    ensures ReadEvent(size + "\r" + "\n" + rest, e, typeSize, dataSize) == ReadEvent(rest, e, typeSize, dataSize)
  {
    var line := size + "\r" + "\n";
    ReadLineOfText(size + "\r", rest, LINE_SIZE);
    Associate(size, "\r", "\n");
    TrimKeepsPrefix(size, "\r" + "\n");
    TrimBreak();
    assert size + "" == size && Trim(line) == size;
    assert !("event:" <= size) by {
      assert "event:"[1] == 'v';
    }
    assert !("data:" <= size) by {
      assert "data:"[2] == 't';
    }
  }

  lemma {:induction false} TrimBreak()
    ensures Trim("\r" + "\n") == ""
  {
    assert ("\r" + "\n")[..1] == "\r" && "\r"[..0] == "";
    assert Trim("\r") == "";
  }

  /** The line break behind a chunk is a blank line with nothing to end. */
  lemma {:induction false} BreakLine(rest: string, typeSize: nat, dataSize: nat)
    ensures ReadEvent("\r\n" + rest, NOTHING, typeSize, dataSize) == ReadEvent(rest, NOTHING, typeSize, dataSize)
  {
    ReadLineOfText("\r", rest, LINE_SIZE);
    assert "\r\n" + rest == "\r" + "\n" + rest;
    TrimBreak();
  }

  lemma {:induction false} ReadChunk(size: string, e: Event, rest: string, typeSize: nat, dataSize: nat)
    requires HexLine(size) && Readable(e, typeSize, dataSize)
    ensures ReadEvent(size + "\r" + "\n" + (Wire(e) + rest), NOTHING, typeSize, dataSize) == Some((e, rest))
  {
    SizeLine(size, Wire(e) + rest, NOTHING, typeSize, dataSize);
    EventRoundTrip(e, rest, typeSize, dataSize);
  }

  /** The framing does no harm: the events come back as they were sent. */
  lemma {:induction false} ChunkedRoundTrip(es: seq<Event>, sizes: seq<string>, rest: string,
                                            typeSize: nat, dataSize: nat)
    requires |es| == |sizes| && forall i :: 0 <= i < |es| ==> Readable(es[i], typeSize, dataSize) && HexLine(sizes[i])
    ensures var r := ReadMany(Chunks(es, sizes) + rest, |es|, typeSize, dataSize); r.Some? && r.value.0 == es
  {
    if es == [] {
    } else {
      var more := Chunks(es[1..], sizes[1..]);
      var head, tail := sizes[0] + "\r" + "\n", "\r\n" + more;
      Associate(head, Wire(es[0]) + tail, rest);
      Associate(Wire(es[0]), tail, rest);
      Associate("\r\n", more, rest);
      ReadChunk(sizes[0], es[0], "\r\n" + (more + rest), typeSize, dataSize);
      BreakLine(more + rest, typeSize, dataSize);
      ChunkedRoundTrip(es[1..], sizes[1..], rest, typeSize, dataSize);
      BreakBefore(more + rest, |es| - 1, typeSize, dataSize);
      assert [es[0]] + es[1..] == es;
    }
  }

  lemma {:induction false} BreakBefore(s: string, n: nat, typeSize: nat, dataSize: nat)
    requires ReadMany(s, n, typeSize, dataSize).Some?
    ensures var r := ReadMany("\r\n" + s, n, typeSize, dataSize);
            r.Some? && r.value.0 == ReadMany(s, n, typeSize, dataSize).value.0
  {
    BreakLine(s, typeSize, dataSize);
  }

  // ---------- The reader's code ----------

  /** The outcome of reading a line of which some characters are in the buffer already. */
  function Prepend(line: string, r: Option<(string, string)>): Option<(string, string)> {
    match r
    case None => None
    case Some((text, rest)) => Some((line + text, rest))
  }

  lemma {:induction false} PrependNothing(r: Option<(string, string)>)
    ensures Prepend("", r) == r
  {
    if r.Some? {
      assert "" + r.value.0 == r.value.0;
    }
  }

  lemma {:induction false} PrependChar(line: string, s: string, size: nat)
    requires s != "" && size > 1
    ensures Prepend(line, ReadLine(s, size)) ==
            if s[0] == '\n' then Some((line + [s[0]], s[1..])) else Prepend(line + [s[0]], ReadLine(s[1..], size - 1))
  {
    var r := ReadLine(s[1..], size - 1);
    if s[0] != '\n' && r.Some? {
      assert line + ([s[0]] + r.value.0) == line + [s[0]] + r.value.0;
    }
  }

  class Connection {
    const stream: string
    var pos: nat

    ghost predicate Valid()
      reads this
    {
      pos <= |stream|
    }

    ghost function Rest(): string
      requires Valid()
      reads this
    {
      stream[pos..]
    }

    constructor (stream: string)
      ensures Valid() && Rest() == stream
    {
      this.stream := stream;
      pos := 0;
    }

    /** tls_read_line: -1 at the end of the stream. */
    method TlsReadLine(bufSize: nat) returns (n: int, line: string)
      requires Valid() && bufSize > 0
      modifies this
      ensures Valid()
      ensures match ReadLine(old(Rest()), bufSize)
              case None => n == -1
              case Some((text, rest)) => n == |text| && line == text && Rest() == rest
    {
      ghost var s := Rest();
      line := "";
      PrependNothing(ReadLine(s, bufSize));
      while |line| < bufSize - 1
        invariant Valid() && |line| <= bufSize - 1
        invariant ReadLine(s, bufSize) == Prepend(line, ReadLine(Rest(), bufSize - |line|))
        decreases bufSize - |line|
      {
        if pos == |stream| {
          return -1, "";
        }
        var c := stream[pos];
        PrependChar(line, Rest(), bufSize - |line|);
        assert Rest()[1..] == stream[pos + 1..];
        pos := pos + 1;
        line := line + [c];
        if c == '\n' {
          return |line|, line;
        }
      }
      assert line + "" == line;
      return |line|, line;
    }

    /** p2p_sse_read_event. */
    method ReadSseEvent(typeSize: nat, dataSize: nat) returns (rc: int, e: Event)
      requires Valid() && typeSize > 0 && dataSize > 0
      modifies this
      ensures Valid()
      ensures match ReadEvent(old(Rest()), NOTHING, typeSize, dataSize)
              case None => rc == -1
              case Some((got, rest)) => rc == 0 && e == got && Rest() == rest
    {
      e := NOTHING;
      ghost var s := Rest();
      while true
        invariant Valid()
        invariant ReadEvent(Rest(), e, typeSize, dataSize) == ReadEvent(s, NOTHING, typeSize, dataSize)
        decreases |Rest()|
      {
        if ReadLine(Rest(), LINE_SIZE).Some? {
          ReadLineConsumes(Rest(), LINE_SIZE);
        }
        var n, line := TlsReadLine(LINE_SIZE);
        if n < 0 {
          return -1, e;
        }
        ghost var whole := line;
        while n > 0 && LineEnd(line[n - 1])
          invariant 0 <= n == |line|
          invariant Trim(line) == Trim(whole)
        {
          n := n - 1;
          line := line[..n];
        }
        if n == 0 {
          if e.etype != "" || e.data != "" {
            return 0, e;
          }
          continue;
        }
        e := TakeLine(e, line, typeSize, dataSize);
      }
    }
  }
}
