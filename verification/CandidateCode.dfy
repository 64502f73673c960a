/** build_signal_json and parse_candidates_array (p2p_signaling.c), which write into
    caller-provided buffers. */
module CandidateCode {
  import opened Machine
  import opened Text
  import opened JsonText
  import opened JsonCode
  import opened CandidateArray
  import opened SignalingLimits

  // ---------- Parsing ----------

  lemma {:induction false} ReadItemNext(p: string, room: nat, front: string)
    requires p != "" && p[0] != QUOTE && room > 0
    ensures var two := p[0] == BACKSLASH && |p| > 1;
            var rest := ReadItem(p[if two then 2 else 1..], room - 1);
            && front + ReadItem(p, room).0 == front + [if two then UnescapeItem(p[1]) else p[0]] + rest.0
            && ReadItem(p, room).1 == rest.1
  {
    if p[0] == BACKSLASH && |p| > 1 {
      Associate(front, [UnescapeItem(p[1])], ReadItem(p[2..], room - 1).0);
    } else {
      Associate(front, [p[0]], ReadItem(p[1..], room - 1).0);
    }
  }

  /** The inner loop of parse_candidates_array: one row of the result. */
  method FillRow(input: string, dst: array<char>) returns (p: string)
    requires '\0' !in input && dst.Length > 0
    modifies dst
    ensures (CStr(dst[..]), p) == ReadItem(input, dst.Length - 1)
  {
    p := input;
    var i := 0;
    ghost var all := ReadItem(input, dst.Length - 1);
    assert dst[..0] + all.0 == all.0;
    while p != "" && p[0] != QUOTE && i + 1 < dst.Length
      invariant 0 <= i < dst.Length && '\0' !in p && '\0' !in dst[..i]
      invariant all.0 == dst[..i] + ReadItem(p, dst.Length - 1 - i).0
      invariant all.1 == ReadItem(p, dst.Length - 1 - i).1
      decreases |p|
    {
      ReadItemNext(p, dst.Length - 1 - i, dst[..i]);
      ghost var done := dst[..i];
      if p[0] == BACKSLASH && |p| > 1 {
        dst[i] := UnescapeItem(p[1]);
        p := p[2..];
      } else {
        dst[i] := p[0];
        p := p[1..];
      }
      assert dst[..i + 1] == done + [dst[i]];
      i := i + 1;
    }
    assert dst[..i] + "" == dst[..i];
    Terminate(dst, i);
  }

  lemma {:induction false} ReadItemIsPart(p: string, room: nat)
    requires '\0' !in p
    ensures '\0' !in ReadItem(p, room).1
  {
    if p == "" || p[0] == QUOTE || room == 0 {
    } else {
      ReadItemIsPart(p[if p[0] == BACKSLASH && |p| > 1 then 2 else 1..], room - 1);
    }
  }

  /** Runs of blanks and commas between the items. */
  method SkipRun(input: string) returns (p: string)
    requires '\0' !in input
    ensures p == SkipSeparators(input) && '\0' !in p
  {
    p := input;
    while p != "" && (p[0] == ' ' || p[0] == ',')
      invariant '\0' !in p && SkipSeparators(p) == SkipSeparators(input)
      decreases |p|
    {
      p := p[1..];
    }
  }

  /** One row, and the input behind its closing quote. */
  method ReadRow(input: string) returns (row: string, p: string)
    requires '\0' !in input
    ensures row == ReadItem(input, MAX_CAND_SIZE - 1).0 && '\0' !in p
    ensures p == CloseQuote(ReadItem(input, MAX_CAND_SIZE - 1).1)
  {
    ReadItemIsPart(input, MAX_CAND_SIZE - 1);
    var dst := new char[MAX_CAND_SIZE](_ => '\0');
    p := FillRow(input, dst);
    row := FromBuffer(dst);
    p := CloseQuote(p);
  }

  lemma {:induction false} ReadItemsNext(p: string, max: nat, front: seq<string>)
    requires p != "" && p[0] != ']' && max > 0
    ensures var q := SkipSeparators(p);
            if q == "" || q[0] != QUOTE then ReadItems(p, max) == []
            else
              var (s, rest) := ReadItem(q[1..], MAX_CAND_SIZE - 1);
              front + ReadItems(p, max) == front + [s] + ReadItems(CloseQuote(rest), max - 1)
  {}

  method PutRow(rows: array<string>, count: nat, row: string)
    requires count < rows.Length
    modifies rows
    ensures rows[..count + 1] == old(rows[..count]) + [row]
  {
    rows[count] := row;
  }

  /** parse_candidates_array; each row of the result is one C string. */
  method ParseCandidatesArray(json: string, key: string, rows: array<string>, max: nat) returns (count: nat)
    requires '\0' !in json && max <= rows.Length
    modifies rows
    ensures count <= max && rows[..count] == ReadArray(json, key, max)
  {
    count := 0;
    var found := After(json, ArrayPattern(key));
    if found.None? {
      return;
    }
    AfterIsPart(json, ArrayPattern(key));
    var p := found.value;
    ghost var all := ReadItems(p, max);
    while p != "" && p[0] != ']' && count < max
      invariant 0 <= count <= max && '\0' !in p
      invariant all == rows[..count] + ReadItems(p, max - count)
      decreases max - count
    {
      ReadItemsNext(p, max - count, rows[..count]);
      p := SkipRun(p);
      if p == "" || p[0] != QUOTE {
        assert all == rows[..count];
        return;
      }
      var row: string;
      row, p := ReadRow(p[1..]);
      PutRow(rows, count, row);
      count := count + 1;
    }
  }

  // ---------- Printing ----------

  /** The object without its closing brace. */
  function Front(fs: seq<Field>): string
    requires fs != []
  {
    if |fs| == 1 then "{" + FieldText(fs[0]) else Front(fs[..|fs| - 1]) + ("," + FieldText(fs[|fs| - 1]))
  }

  lemma {:induction false} FrontGrows(fs: seq<Field>, f: Field)
    requires fs != []
    ensures Front(fs + [f]) == Front(fs) + ("," + FieldText(f))
  {
    assert (fs + [f])[..|fs + [f]| - 1] == fs;
  }

  /** What follows the fields printed so far when those of gs are still to come. */
  function Rest(gs: seq<Field>): string {
    if gs == [] then "}" else "," + FieldsText(gs)
  }

  lemma {:induction false} RestHead(gs: seq<Field>)
    requires gs != []
    ensures Rest(gs) == "," + FieldText(gs[0]) + Rest(gs[1..])
  {
    assert FieldsText(gs) == FieldText(gs[0]) + Rest(gs[1..]);
    Associate(",", FieldText(gs[0]), Rest(gs[1..]));
  }

  lemma {:induction false} FrontStep(fs: seq<Field>, gs: seq<Field>)
    requires fs != [] && gs != []
    ensures Front(fs + [gs[0]]) + Rest(gs[1..]) == Front(fs) + Rest(gs)
  {
    var front := Front(fs);
    FrontGrows(fs, gs[0]);
    RestHead(gs);
    Associate(front, "," + FieldText(gs[0]), Rest(gs[1..]));
  }

  lemma {:induction false} MoveOne<T>(xs: seq<T>, ys: seq<T>)
    requires ys != []
    ensures xs + [ys[0]] + ys[1..] == xs + ys
  {}

  lemma {:induction false} FrontAndRest(fs: seq<Field>, gs: seq<Field>)
    requires fs != []
    ensures Front(fs + gs) + "}" == Front(fs) + Rest(gs)
    decreases |gs|
  {
    if gs == [] {
      assert fs + gs == fs;
    } else {
      var more := fs + [gs[0]];
      FrontStep(fs, gs);
      MoveOne(fs, gs);
      FrontAndRest(more, gs[1..]);
    }
  }

  /** Closing the brace completes the text of the object. */
  lemma {:induction false} FrontClosed(fs: seq<Field>)
    requires fs != []
    ensures Front(fs) + "}" == ObjectText(fs)
  {
    FrontAndRest([fs[0]], fs[1..]);
    assert [fs[0]] + fs[1..] == fs;
    assert FieldsText(fs) == FieldText(fs[0]) + Rest(fs[1..]);
    Associate("{", FieldText(fs[0]), Rest(fs[1..]));
  }

  /** A text that fits stands at the front of the buffer, terminated. */
  ghost predicate Holds(buf: array<char>, text: string)
    reads buf
  {
    |text| < buf.Length ==> buf[..|text|] == text && buf[|text|] == '\0'
  }

  /** The same before anything has been terminated. */
  ghost predicate Begins(buf: array<char>, text: string)
    reads buf
  {
    |text| < buf.Length ==> buf[..|text|] == text
  }

  /** off += snprintf(buf + off, buf_sz - off, ...). The call is inside the buffer unless off is
      past it: then the size has wrapped around, C leaves open what happens, and only the count
      goes on here. */
  method Append(buf: array<char>, off: nat, text: string, ghost front: string) returns (n: nat, inside: bool)
    requires off == |front| && Begins(buf, front)
    modifies buf
    ensures n == |front + text| && Holds(buf, front + text)
    ensures inside <==> off <= buf.Length
  {
    n, inside := off + |text|, off <= buf.Length;
    if off < buf.Length {
      var kept := if n < buf.Length then text else text[..buf.Length - 1 - off];
      PutText(buf, off, kept);
      ghost var done := buf[..off + |kept|];
      buf[off + |kept|] := '\0';
      assert buf[..off + |kept|] == done;
    }
  }

  method AppendString(buf: array<char>, off: nat, f: Field, present: bool, ghost fs: seq<Field>)
    returns (n: nat, inside: bool)
    requires fs != [] && off == |Front(fs)| && Holds(buf, Front(fs)) && f.Str?
    modifies buf
    ensures n == |Front(fs + Optional(f, present))| && Holds(buf, Front(fs + Optional(f, present)))
    ensures off <= n && (n <= buf.Length ==> inside)
  {
    if present {
      FrontGrows(fs, f);
      n, inside := Append(buf, off, "," + FieldText(f), Front(fs));
    } else {
      assert fs + [] == fs;
      n, inside := off, true;
    }
  }

  method AppendItems(buf: array<char>, off: nat, cs: seq<string>, ghost front: string)
    returns (n: nat, inside: bool)
    requires off == |front| && Holds(buf, front)
    requires forall i :: 0 <= i < |cs| ==> '\0' !in cs[i]
    modifies buf
    ensures n == |front + ItemsFrom(cs, 0)| && Holds(buf, front + ItemsFrom(cs, 0))
    ensures off <= n && (n <= buf.Length ==> inside)
  {
    n, inside := off, true;
    ghost var done := front;
    for i := 0 to |cs|
      invariant n == |done| && Holds(buf, done)
      invariant off <= n && (n <= buf.Length ==> inside)
      invariant done + ItemsFrom(cs, i) == front + ItemsFrom(cs, 0)
    {
      var esc := EscapeText(cs[i], MAX_CAND_SIZE * 2);
      var text := (if i > 0 then "," else "") + ("\"" + esc + "\"");
      var fits: bool;
      n, fits := Append(buf, n, text, done);
      inside := inside && fits;
      Associate(done, text, ItemsFrom(cs, i + 1));
      done := done + text;
    }
    assert done + "" == done;
  }

  lemma {:induction false} ArrayPieces(front: string, items: string)
    ensures var f := Arr("candidates", items);
            front + ("," + ArrayPattern("candidates")) + items + "]" == front + ("," + FieldText(f))
  {
    var a := ArrayPattern("candidates");
    Associate(front + ("," + a), items, "]");
    Associate(front, "," + a, items + "]");
    Associate(",", a, items + "]");
    Associate(a, items, "]");
  }

  method AppendArray(buf: array<char>, off: nat, cs: seq<string>, ghost fs: seq<Field>)
    returns (n: nat, inside: bool)
    requires fs != [] && off == |Front(fs)| && Holds(buf, Front(fs))
    requires forall i :: 0 <= i < |cs| ==> '\0' !in cs[i]
    modifies buf
    ensures var f := Arr("candidates", ItemsFrom(cs, 0));
            n == |Front(fs + [f])| && Holds(buf, Front(fs + [f]))
    ensures off <= n && (n <= buf.Length ==> inside)
  {
    ghost var front, items := Front(fs), ItemsFrom(cs, 0);
    ArrayPieces(front, items);
    FrontGrows(fs, Arr("candidates", items));
    var opening := "," + ArrayPattern("candidates");
    var fits1, fits2, fits3;
    n, fits1 := Append(buf, off, opening, front);
    n, fits2 := AppendItems(buf, n, cs, front + opening);
    n, fits3 := Append(buf, n, "]", front + opening + items);
    inside := fits1 && fits2 && fits3;
  }

  /** Every part is a C string. */
  predicate CStrings(b: Body) {
    && '\0' !in b.mtype && '\0' !in b.peerId && '\0' !in b.token && '\0' !in b.to && '\0' !in b.room
    && '\0' !in b.sdp && forall i :: 0 <= i < |b.candidates| ==> '\0' !in b.candidates[i]
  }

  lemma {:induction false} ThreeFields(a: Field, b: Field, c: Field)
    ensures Front([a, b, c]) == "{" + FieldText(a) + ("," + FieldText(b)) + ("," + FieldText(c))
  {
    FrontGrows([a], b);
    FrontGrows([a, b], c);
    assert [a] + [b] == [a, b] && [a, b] + [c] == [a, b, c];
  }

  /** The snprintf calls up to the SDP. */
  method AppendStrings(b: Body, buf: array<char>) returns (off: nat, inside: bool)
    requires CStrings(b)
    modifies buf
    ensures off == |Front(Strings(b))| && Holds(buf, Front(Strings(b)))
    ensures off <= buf.Length ==> inside
  {
    var esc := EscapeText(b.sdp, MAX_SDP_SIZE * 2);
    var mtype, id, token := Str("type", b.mtype), Str("peer_id", b.peerId), Str("token", b.token);
    var to, room, sdp := Str("to", b.to), Str("room_id", b.room), Str("sdp", esc);
    ghost var fs := [mtype, id, token];
    ThreeFields(mtype, id, token);
    var fits0, fits1, fits2, fits3;
    off, fits0 := Append(buf, 0, "{" + FieldText(mtype) + ("," + FieldText(id)) + ("," + FieldText(token)), "");
    assert "" + Front(fs) == Front(fs);
    off, fits1 := AppendString(buf, off, to, b.to != "", fs);
    ghost var fs1 := fs + Optional(to, b.to != "");
    off, fits2 := AppendString(buf, off, room, b.room != "", fs1);
    ghost var fs2 := fs1 + Optional(room, b.room != "");
    off, fits3 := AppendString(buf, off, sdp, b.sdp != "", fs2);
    inside := fits0 && fits1 && fits2 && fits3;
  }

  /** build_signal_json; inside tells whether all its calls stay inside the buffer. */
  method BuildSignalJson(b: Body, buf: array<char>) returns (rc: int, inside: bool)
    requires CStrings(b)
    modifies buf
    ensures rc == 0 || rc == -1
    ensures rc == 0 <==> |BodyText(b)| < buf.Length
    ensures rc == 0 ==> buf[..|BodyText(b)|] == BodyText(b) && buf[|BodyText(b)|] == '\0'
    ensures inside <==> |BodyText(b)| <= buf.Length + 1
  {
    ghost var strs, fs := Strings(b), FieldsOf(b);
    var off, fits1, fits2, fits3;
    off, fits1 := AppendStrings(b, buf);
    fits2 := true;
    if b.candidates != [] {
      off, fits2 := AppendArray(buf, off, b.candidates, strs);
    }
    assert b.candidates == [] ==> fs == strs;
    off, fits3 := Append(buf, off, "}", Front(fs));
    FrontClosed(fs);
    return if off < buf.Length then 0 else -1, fits1 && fits2 && fits3;
  }
}
