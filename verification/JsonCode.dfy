/** The loops of p2p_signaling.c that write into caller-provided character buffers. */
module JsonCode {
  import opened Machine
  import opened Text
  import opened JsonText

  lemma {:induction false} EscapeCharNoNul(c: char)
    requires c != '\0'
    ensures '\0' !in EscapeChar(c)
  {}

  lemma {:induction false} AfterIsPart(s: string, pat: string)
    requires '\0' !in s && After(s, pat).Some?
    ensures '\0' !in After(s, pat).value
  {
    if pat <= s || s == "" {
    } else {
      AfterIsPart(s[1..], pat);
    }
  }

  method PutText(dst: array<char>, j: nat, text: string)
    requires j + |text| <= dst.Length
    modifies dst
    ensures dst[..j + |text|] == old(dst[..j]) + text
  {
    forall k | 0 <= k < |text| {
      dst[j + k] := text[k];
    }
  }

  lemma {:induction false} EscapeNext(src: string, size: nat, j: nat, front: string)
    requires src != "" && j + 6 < size
    ensures var c := EscapeChar(src[0]);
            front + EscapeInto(src, size, j) == front + c + EscapeInto(src[1..], size, j + |c|)
  {
    var c := EscapeChar(src[0]);
    Associate(front, c, EscapeInto(src[1..], size, j + |c|));
  }

  /** Terminates the text in the first j characters. */
  method Terminate(dst: array<char>, j: nat)
    requires j < dst.Length && '\0' !in dst[..j]
    modifies dst
    ensures CStr(dst[..]) == old(dst[..j])
  {
    ghost var done := dst[..j];
    dst[j] := '\0';
    assert dst[..][..j] == done;
    CStrTerminated(dst[..], j);
  }

  /** json_escape: fills dst up to the last escape that surely fits, and terminates it. */
  method JsonEscape(src: string, dst: array<char>)
    requires '\0' !in src && dst.Length > 0
    modifies dst
    ensures CStr(dst[..]) == EscapeInto(src, dst.Length, 0)
  {
    var i, j := 0, 0;
    ghost var front := "";
    assert src[0..] == src && front + EscapeInto(src, dst.Length, 0) == EscapeInto(src, dst.Length, 0);
    while i < |src| && j + 6 < dst.Length
      invariant 0 <= i <= |src| && 0 <= j < dst.Length
      invariant front == dst[..j] && '\0' !in front
      invariant EscapeInto(src, dst.Length, 0) == front + EscapeInto(src[i..], dst.Length, j)
      decreases |src| - i
    {
      var c := EscapeChar(src[i]);
      EscapeCharNoNul(src[i]);
      EscapeNext(src[i..], dst.Length, j, front);
      assert src[i..][1..] == src[i + 1..];
      PutText(dst, j, c);
      i, j, front := i + 1, j + |c|, front + c;
    }
    assert front + "" == front;
    Terminate(dst, j);
  }

  lemma {:induction false} DecodeNext(p: string, room: nat, front: string)
    requires p != "" && p[0] != QUOTE && room > 0
    ensures var two := p[0] == BACKSLASH && |p| > 1;
            front + Decode(p, room) ==
            front + [if two then Unescape(p[1]) else p[0]] + Decode(p[if two then 2 else 1..], room - 1)
  {
    if p[0] == BACKSLASH && |p| > 1 {
      Associate(front, [Unescape(p[1])], Decode(p[2..], room - 1));
    } else {
      Associate(front, [p[0]], Decode(p[1..], room - 1));
    }
  }

  /** json_get_string. */
  method JsonGetString(json: string, key: string, dst: array<char>) returns (rc: int)
    requires '\0' !in json && dst.Length > 0
    modifies dst
    ensures (rc, CStr(dst[..])) == GetString(json, key, dst.Length)
  {
    var found := After(json, StringPattern(key));
    if found.None? {
      Terminate(dst, 0);
      return -1;
    }
    AfterIsPart(json, StringPattern(key));
    var p := found.value;
    var i := 0;
    assert dst[..0] + Decode(p, dst.Length - 1) == Decode(p, dst.Length - 1);
    while p != "" && p[0] != QUOTE && i + 1 < dst.Length
      invariant 0 <= i < dst.Length && '\0' !in p && '\0' !in dst[..i]
      invariant Decode(found.value, dst.Length - 1) == dst[..i] + Decode(p, dst.Length - 1 - i)
      decreases |p|
    {
      DecodeNext(p, dst.Length - 1 - i, dst[..i]);
      ghost var done := dst[..i];
      if p[0] == BACKSLASH && |p| > 1 {
        dst[i] := Unescape(p[1]);
        p := p[2..];
      } else {
        dst[i] := p[0];
        p := p[1..];
      }
      assert dst[..i + 1] == done + [dst[i]];
      i := i + 1;
    }
    assert dst[..i] + "" == dst[..i];
    Terminate(dst, i);
    return 0;
  }

  /** A field of a zeroed structure, read through its buffer. */
  method GetField(json: string, key: string, size: nat) returns (value: string)
    requires '\0' !in json && size > 0
    ensures value == GetString(json, key, size).1
  {
    var dst := new char[size](_ => '\0');
    var _ := JsonGetString(json, key, dst);
    value := FromBuffer(dst);
  }

  /** strlen and a copy. */
  method FromBuffer(dst: array<char>) returns (s: string)
    ensures s == CStr(dst[..])
  {
    s := "";
    while |s| < dst.Length && dst[|s|] != '\0'
      invariant |s| <= dst.Length && CStr(dst[..]) == s + CStr(dst[|s|..])
      decreases dst.Length - |s|
    {
      Associate(s, [dst[|s|]], CStr(dst[|s| + 1..]));
      assert dst[|s|..][1..] == dst[|s| + 1..];
      s := s + [dst[|s|]];
    }
    assert s + "" == s;
  }

  /** json_escape into a buffer of the given size. */
  method EscapeText(s: string, size: nat) returns (esc: string)
    requires '\0' !in s && size > 0
    ensures esc == Escaped(s, size)
  {
    var dst := new char[size](_ => '\0');
    JsonEscape(s, dst);
    esc := FromBuffer(dst);
  }

  // ---------- Printed texts hold no NUL ----------

  lemma {:induction false} EscapeIntoNoNul(src: string, size: nat, j: nat)
    requires '\0' !in src
    ensures '\0' !in EscapeInto(src, size, j)
  {
    if src == "" || j + 6 >= size {
    } else {
      EscapeCharNoNul(src[0]);
      EscapeIntoNoNul(src[1..], size, j + |EscapeChar(src[0])|);
    }
  }

  predicate NoNul(f: Field) {
    '\0' !in f.key && (!f.Num? ==> '\0' !in f.body)
  }

  lemma {:induction false} FieldNoNul(f: Field)
    requires NoNul(f)
    ensures '\0' !in FieldText(f)
  {
    if f.Num? {
      NumberText(if f.n < 0 then -f.n else f.n);
    }
  }

  lemma {:induction false} FieldsNoNul(fs: seq<Field>)
    requires forall i :: 0 <= i < |fs| ==> NoNul(fs[i])
    ensures '\0' !in FieldsText(fs)
  {
    if fs == [] {
    } else {
      FieldNoNul(fs[0]);
      FieldsNoNul(fs[1..]);
    }
  }
}
