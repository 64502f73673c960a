/** The hand-written JSON helpers of p2p_signaling.c: escaping, the strstr-based getters, and
    the text of an object. Strings hold no NUL; strings follow section 7 of RFC 8259. */
module JsonText {
  import opened Machine
  import opened Text

  const QUOTE: char := '\"'
  const BACKSLASH: char := '\\'

  // ---------- Escaping ----------

  function HexDigit(d: nat): char
    requires d < 16
  {
    "0123456789abcdef"[d]
  }

  predicate Control(c: char) {
    c < ' '
  }

  /** Control characters that the printer has no short form for, and the parser no inverse. */
  predicate BareControl(c: char) {
    Control(c) && c != '\n' && c != '\r' && c != '\t'
  }

  /** No character for which the parser lacks the inverse. */
  predicate Decodable(s: string) {
    s == "" || (!BareControl(s[0]) && Decodable(s[1..]))
  }

  function EscapeChar(c: char): (r: string)
    ensures 1 <= |r| <= 6
  {
    if c == QUOTE then "\\\""
    else if c == BACKSLASH then "\\\\"
    else if c == '\n' then "\\n"
    else if c == '\r' then "\\r"
    else if c == '\t' then "\\t"
    else if Control(c) then "\\u00" + [HexDigit(c as int / 16), HexDigit(c as int % 16)]
    else [c]
  }

  function Escape(src: string): string {
    if src == "" then "" else EscapeChar(src[0]) + Escape(src[1..])
  }

  /** json_escape with j characters written already into a buffer of the given size: stops
      while a longest escape still fits. */
  function EscapeInto(src: string, size: nat, j: nat): string {
    if src == "" || j + 6 >= size then ""
    else EscapeChar(src[0]) + EscapeInto(src[1..], size, j + |EscapeChar(src[0])|)
  }

  /** A string as json_escape leaves it in a buffer of the given size. */
  function Escaped(src: string, size: nat): string {
    EscapeInto(src, size, 0)
  }

  predicate EscapeFits(src: string, size: nat, j: nat) {
    src == "" || (j + 6 < size && EscapeFits(src[1..], size, j + |EscapeChar(src[0])|))
  }

  function HexValue(c: char): (n: nat)
    requires '0' <= c <= '9' || 'a' <= c <= 'f'
    ensures n < 16
  {
    if c <= '9' then c as int - '0' as int else c as int - 'a' as int + 10
  }

  lemma {:induction false} DigitHasItsValue(d: nat)
    requires d < 16
    ensures var c := HexDigit(d); ('0' <= c <= '9' || 'a' <= c <= 'f') && HexValue(c) == d
  {
    var digits := "0123456789abcdef";
    assert digits[0] == '0' && digits[1] == '1' && digits[2] == '2' && digits[3] == '3' && digits[4] == '4';
    assert digits[5] == '5' && digits[6] == '6' && digits[7] == '7' && digits[8] == '8' && digits[9] == '9';
    assert digits[10] == 'a' && digits[11] == 'b' && digits[12] == 'c' && digits[13] == 'd' && digits[14] == 'e';
  }

  /** A control character without a short form is printed as the four hexadecimal digits of its
      code. */
  lemma {:induction false} ControlIsPrintedAsItsCode(c: char)
    requires BareControl(c)
    ensures var t := EscapeChar(c);
            && |t| == 6 && t[..4] == "\\u00"
            && ('0' <= t[4] <= '9' || 'a' <= t[4] <= 'f') && ('0' <= t[5] <= '9' || 'a' <= t[5] <= 'f')
            && 16 * HexValue(t[4]) + HexValue(t[5]) == c as int
  {
    DigitHasItsValue(c as int / 16);
    DigitHasItsValue(c as int % 16);
  }

  lemma {:induction false} EscapeGrows(src: string)
    ensures |Escape(src)| >= |src|
  {
    if src == "" {
    } else {
      EscapeGrows(src[1..]);
    }
  }

  lemma {:induction false} EscapeIntoIsPrefix(src: string, size: nat, j: nat)
    ensures EscapeInto(src, size, j) <= Escape(src)
  {
    if src == "" || j + 6 >= size {
    } else {
      EscapeIntoIsPrefix(src[1..], size, j + |EscapeChar(src[0])|);
    }
  }

  lemma {:induction false} EscapeWhole(src: string, size: nat, j: nat)
    requires EscapeFits(src, size, j)
    ensures EscapeInto(src, size, j) == Escape(src)
  {
    if src == "" {
    } else {
      EscapeWhole(src[1..], size, j + |EscapeChar(src[0])|);
    }
  }

  lemma {:induction false} EscapeCut(src: string, size: nat, j: nat)
    requires !EscapeFits(src, size, j)
    ensures |EscapeInto(src, size, j)| < |Escape(src)|
  {
    if j + 6 >= size {
      EscapeGrows(src);
    } else {
      EscapeCut(src[1..], size, j + |EscapeChar(src[0])|);
    }
  }

  /** The buffer receives the whole escaped text exactly when it fits. */
  lemma {:induction false} EscapeWholeIffFits(src: string, size: nat, j: nat)
    ensures EscapeInto(src, size, j) == Escape(src) <==> EscapeFits(src, size, j)
  {
    if EscapeFits(src, size, j) {
      EscapeWhole(src, size, j);
    } else {
      EscapeCut(src, size, j);
    }
  }

  /** A length that always fits: no escape is longer than two characters without bare
      control characters. */
  lemma {:induction false} ShortTextFits(src: string, size: nat, j: nat)
    requires Decodable(src)
    requires src != "" ==> j + 2 * (|src| - 1) + 6 < size
    ensures EscapeFits(src, size, j)
  {
    if src == "" {
    } else {
      ShortTextFits(src[1..], size, j + |EscapeChar(src[0])|);
    }
  }

  /** Every quote in the text has a backslash right before it. */
  ghost predicate QuotesEscaped(b: string) {
    forall j :: 0 <= j < |b| && b[j] == QUOTE ==> j > 0 && b[j - 1] == BACKSLASH
  }

  lemma {:induction false} EscapedQuotes(src: string)
    ensures QuotesEscaped(Escape(src))
  {
    if src == "" {
    } else {
      EscapedQuotes(src[1..]);
      var c, rest := EscapeChar(src[0]), Escape(src[1..]);
      assert QuotesEscaped(c);
      forall j | 0 <= j < |c + rest| && (c + rest)[j] == QUOTE ensures j > 0 && (c + rest)[j - 1] == BACKSLASH {
        if j >= |c| {
          assert rest[j - |c|] == QUOTE;
        }
      }
    }
  }

  lemma {:induction false} EscapedIntoQuotes(src: string, size: nat)
    ensures QuotesEscaped(Escaped(src, size))
  {
    EscapedQuotes(src);
    EscapeIntoIsPrefix(src, size, 0);
    var b, whole := Escaped(src, size), Escape(src);
    assert forall j :: 0 <= j < |b| ==> b[j] == whole[j];
  }

  // ---------- Finding a key ----------

  /** What follows the first occurrence of a pattern: strstr, then a step over the pattern. */
  function After(s: string, pat: string): Option<string> {
    if pat <= s then Some(s[|pat|..])
    else if s == "" then None
    else After(s[1..], pat)
  }

  function KeyPattern(key: string): string {
    "\"" + key + "\":"
  }

  function StringPattern(key: string): string {
    KeyPattern(key) + "\""
  }

  /** A key as this protocol uses them. */
  predicate KeyName(key: string) {
    key != "" && forall i :: 0 <= i < |key| ==> NameChar(key[i])
  }

  lemma {:induction false} AfterSkips(a: string, rest: string, pat: string)
    requires forall i :: 0 <= i < |a| ==> !(pat <= (a + rest)[i..])
    ensures After(a + rest, pat) == After(rest, pat)
  {
    if a == "" {
      assert a + rest == rest;
    } else {
      var t := a + rest;
      assert t[0..] == t && !(pat <= t);
      assert t[1..] == a[1..] + rest;
      forall i | 0 <= i < |a[1..]| ensures !(pat <= (a[1..] + rest)[i..]) {
        assert (a[1..] + rest)[i..] == t[i + 1..];
      }
      AfterSkips(a[1..], rest, pat);
    }
  }

  // ---------- The text of an object ----------

  datatype Field = Str(key: string, body: string) | Num(key: string, n: int) | Arr(key: string, body: string)

  function Digit(d: nat): char
    requires d < 10
  {
    '0' + d as char
  }

  function PrintNat(n: nat): string {
    if n < 10 then [Digit(n)] else PrintNat(n / 10) + [Digit(n % 10)]
  }

  /** %d and %u. */
  function PrintInt(n: int): string {
    if n < 0 then "-" + PrintNat(-n) else PrintNat(n)
  }

  function FieldText(f: Field): string {
    match f
    case Str(key, body) => StringPattern(key) + body + "\""
    case Num(key, n) => KeyPattern(key) + PrintInt(n)
    case Arr(key, body) => KeyPattern(key) + "[" + body + "]"
  }

  /** The fields, separated by commas, and the closing brace. */
  function FieldsText(fs: seq<Field>): string {
    if fs == [] then "}"
    else if |fs| == 1 then FieldText(fs[0]) + "}"
    else FieldText(fs[0]) + "," + FieldsText(fs[1..])
  }

  function ObjectText(fs: seq<Field>): string {
    "{" + FieldsText(fs)
  }

  ghost predicate FieldOk(f: Field) {
    KeyName(f.key) && (f.Str? ==> QuotesEscaped(f.body))
  }

  lemma {:induction false} NumberText(n: nat)
    ensures PrintNat(n) != "" && forall i :: 0 <= i < |PrintNat(n)| ==> '0' <= PrintNat(n)[i] <= '9'
  {
    if n < 10 {
    } else {
      NumberText(n / 10);
    }
  }

  /** Where a key pattern matches, a quote is followed by the key, a quote and a colon. */
  lemma {:induction false} MatchShape(t: string, i: nat, key: string)
    requires i <= |t| && KeyPattern(key) <= t[i..]
    ensures i + |key| + 2 < |t| && t[i] == QUOTE && t[i + |key| + 1] == QUOTE && t[i + |key| + 2] == ':'
    ensures forall m :: 0 <= m < |key| ==> t[i + 1 + m] == key[m]
  {
    var p := KeyPattern(key);
    assert forall m :: 0 <= m < |p| ==> t[i..][m] == p[m];
    assert p[0] == QUOTE && p[|key| + 1] == QUOTE && p[|key| + 2] == ':';
    assert forall m :: 0 <= m < |key| ==> p[m + 1] == key[m];
  }

  predicate NameChar(c: char) {
    'a' <= c <= 'z' || c == '_'
  }

  /** Between the two quotes of a match there are only characters of names. */
  lemma {:induction false} MatchedQuotes(t: string, i: nat, e: nat, key: string)
    requires KeyName(key) && e == i + |key| + 1 < |t|
    requires forall m :: 0 <= m < |key| ==> t[i + 1 + m] == key[m]
    ensures forall m :: i < m < e ==> NameChar(t[m])
  {
    assert forall m :: i < m < e ==> t[m] == key[m - i - 1];
  }

  /** A match that ends at or before the closing quote of the field's own key is that key. */
  lemma {:induction false} OwnKey(t: string, i: nat, k: string, key: string)
    requires KeyName(k) && KeyName(key) && i + |key| + 1 <= |k| + 1 < |t|
    requires t[i] == QUOTE && t[i + |key| + 1] == QUOTE
    requires forall m :: 0 <= m < |k| ==> t[m + 1] == k[m]
    requires forall m :: 0 <= m < |key| ==> t[i + 1 + m] == key[m]
    ensures i == 0 && key == k
  {
    assert forall m :: 1 <= m <= |k| ==> t[m] == k[m - 1];
    assert i == 0;
    assert |key| == |k|;
  }

  /** In a text laid out as a string field, with its key's closing quote at n + 1 and its
      value between the quotes at n + 3 and c, a match that starts at i cannot end after its key. */
  lemma {:induction false} EndsAtOwnKey(t: string, n: nat, c: nat, i: nat, e: nat)
    requires n + 3 < c && c + 1 < |t|
    requires t[n + 1] == QUOTE && t[n + 2] == ':' && t[n + 3] == QUOTE && t[c] == QUOTE
    requires t[c + 1] == ',' || t[c + 1] == '}'
    requires forall m :: n + 3 < m < c && t[m] == QUOTE ==> t[m - 1] == BACKSLASH
    requires i + 1 < e < |t| - 1 && i <= c + 1 && t[i] == QUOTE && t[e] == QUOTE && t[e + 1] == ':'
    requires forall m :: i < m < e ==> NameChar(t[m])
    ensures e <= n + 1
  {
    assert NameChar(t[e - 1]) && NameChar(t[i + 1]);
    assert e != n + 2 && e != n + 3 && e != c;
    assert i != c && i != c + 1;
    assert !(n + 3 < e < c);
    assert !NameChar(t[c]);
    assert !(i < c < e);
  }

  /** The heart of the getters' correctness: in a printed string field, followed by a comma or
      a brace, a key pattern matches nowhere but at the field's own start, and there only for
      its own key; not inside the value, nor across its ends. */
  lemma {:induction false} NoKeyInString(k: string, body: string, sep: char, rest: string, key: string, i: nat)
    requires KeyName(k) && KeyName(key) && QuotesEscaped(body) && (sep == ',' || sep == '}')
    requires var a := StringPattern(k) + body + "\"" + [sep];
             i < |a| && KeyPattern(key) <= (a + rest)[i..]
    ensures i == 0 && key == k
  {
    var a := StringPattern(k) + body + "\"" + [sep];
    var t := a + rest;
    var n, c := |k|, |k| + 4 + |body|;
    assert t[0] == QUOTE && t[n + 1] == QUOTE && t[n + 2] == ':' && t[n + 3] == QUOTE;
    assert t[c] == QUOTE && t[c + 1] == sep;
    assert forall m :: 0 <= m < n ==> t[m + 1] == k[m];
    assert forall m :: 0 <= m < |body| ==> t[n + 4 + m] == body[m];
    MatchShape(t, i, key);
    var e := i + |key| + 1;
    MatchedQuotes(t, i, e, key);
    forall m | n + 3 < m < c && t[m] == QUOTE ensures t[m - 1] == BACKSLASH {
      assert body[m - n - 4] == QUOTE;
    }
    EndsAtOwnKey(t, n, c, i, e);
    OwnKey(t, i, k, key);
  }

  lemma {:induction false} NoKeyInNumber(k: string, digits: string, sep: char, rest: string, key: string, i: nat)
    requires KeyName(k) && KeyName(key) && (sep == ',' || sep == '}')
    requires forall m :: 0 <= m < |digits| ==> digits[m] != QUOTE
    requires var a := KeyPattern(k) + digits + [sep];
             i < |a| && KeyPattern(key) <= (a + rest)[i..]
    ensures i == 0 && key == k
  {
    var a := KeyPattern(k) + digits + [sep];
    var t := a + rest;
    var n, c := |k|, |k| + 3 + |digits|;
    assert t[0] == QUOTE && t[n + 1] == QUOTE && t[n + 2] == ':' && t[c] == sep;
    assert forall m :: 0 <= m < n ==> t[m + 1] == k[m];
    assert forall m :: 0 <= m < |digits| ==> t[n + 3 + m] == digits[m];
    MatchShape(t, i, key);
    var e := i + |key| + 1;
    MatchedQuotes(t, i, e, key);
    assert forall m :: n + 1 < m < c ==> t[m] != QUOTE;
    assert i <= n + 1;
    assert i != n + 1;
    assert e <= n + 1;
    OwnKey(t, i, k, key);
  }

  /** A field in front of which the pattern of another key is looked for is passed over. */
  lemma {:induction false} OtherFieldSkipped(f: Field, sep: char, rest: string, key: string, pat: string)
    requires FieldOk(f) && !f.Arr? && KeyName(key) && key != f.key && KeyPattern(key) <= pat
    requires sep == ',' || sep == '}'
    ensures After(FieldText(f) + [sep] + rest, pat) == After(rest, pat)
  {
    var a := FieldText(f) + [sep];
    forall i | 0 <= i < |a| ensures !(pat <= (a + rest)[i..]) {
      if pat <= (a + rest)[i..] {
        assert KeyPattern(key) <= (a + rest)[i..];
        if f.Str? {
          NoKeyInString(f.key, f.body, sep, rest, key, i);
        } else {
          NumberText(if f.n < 0 then -f.n else f.n);
          NoKeyInNumber(f.key, PrintInt(f.n), sep, rest, key, i);
        }
      }
    }
    AfterSkips(a, rest, pat);
  }

  /** The pattern a getter for field f looks for, and the value text it should find there. */
  function Opening(f: Field): string {
    match f
    case Str(key, _) => StringPattern(key)
    case Num(key, _) => KeyPattern(key)
    case Arr(key, _) => KeyPattern(key) + "["
  }

  function ValueText(f: Field): string {
    match f
    case Str(_, body) => body + "\""
    case Num(_, n) => PrintInt(n)
    case Arr(_, body) => body + "]"
  }

  lemma {:induction false} FieldSplits(f: Field)
    ensures FieldText(f) == Opening(f) + ValueText(f) && KeyPattern(f.key) <= Opening(f)
  {}

  /** The text behind field k: the other fields, or just the closing brace. */
  function Behind(fs: seq<Field>, k: nat): string
    requires k < |fs|
  {
    if k + 1 < |fs| then "," + FieldsText(fs[k + 1..]) else "}"
  }

  lemma {:induction false} FieldsTextHead(fs: seq<Field>)
    requires fs != []
    ensures FieldsText(fs) == FieldText(fs[0]) + Behind(fs, 0)
  {}

  lemma {:induction false} AfterHere(pat: string, rest: string)
    ensures After(pat + rest, pat) == Some(rest)
  {
    assert (pat + rest)[|pat|..] == rest;
  }

  lemma {:induction false} BehindShift(fs: seq<Field>, k: nat)
    requires 0 < k < |fs|
    ensures Behind(fs[1..], k - 1) == Behind(fs, k)
  {
    assert fs[1..][k..] == fs[k + 1..];
  }

  lemma {:induction false} LookupFirst(fs: seq<Field>)
    requires fs != []
    ensures After(FieldsText(fs), Opening(fs[0])) == Some(ValueText(fs[0]) + Behind(fs, 0))
  {
    FieldsTextHead(fs);
    FieldSplits(fs[0]);
    AfterHere(Opening(fs[0]), ValueText(fs[0]) + Behind(fs, 0));
    Associate(Opening(fs[0]), ValueText(fs[0]), Behind(fs, 0));
  }

  lemma {:induction false} LookupFields(fs: seq<Field>, k: nat)
    requires k < |fs| && KeyName(fs[k].key)
    requires forall i :: 0 <= i < k ==> FieldOk(fs[i]) && !fs[i].Arr? && fs[i].key != fs[k].key
    ensures After(FieldsText(fs), Opening(fs[k])) == Some(ValueText(fs[k]) + Behind(fs, k))
    decreases k
  {
    if k == 0 {
      LookupFirst(fs);
    } else {
      var others := FieldsText(fs[1..]);
      LookupFields(fs[1..], k - 1);
      BehindShift(fs, k);
      FieldSplits(fs[k]);
      OtherFieldSkipped(fs[0], ',', others, fs[k].key, Opening(fs[k]));
      assert FieldsText(fs) == FieldText(fs[0]) + [','] + others;
    }
  }

  /** In an object whose fields have different names, a getter for field k stops right behind
      that field's opening. */
  lemma {:induction false} LookupObject(fs: seq<Field>, k: nat)
    requires k < |fs| && KeyName(fs[k].key)
    requires forall i :: 0 <= i < k ==> FieldOk(fs[i]) && !fs[i].Arr? && fs[i].key != fs[k].key
    ensures After(ObjectText(fs), Opening(fs[k])) == Some(ValueText(fs[k]) + Behind(fs, k))
  {
    LookupFields(fs, k);
    assert ObjectText(fs)[1..] == FieldsText(fs);
    assert Opening(fs[k])[0] == QUOTE && ObjectText(fs)[0] == '{';
  }

  // ---------- Reading a string ----------

  function Unescape(c: char): char {
    if c == 'n' then '\n' else if c == 'r' then '\r' else if c == 't' then '\t' else c
  }

  /** The loop of json_get_string from p on, with room for so many more characters. */
  function Decode(p: string, room: nat): string {
    if p == "" || p[0] == QUOTE || room == 0 then ""
    else if p[0] == BACKSLASH && |p| > 1 then [Unescape(p[1])] + Decode(p[2..], room - 1)
    else [p[0]] + Decode(p[1..], room - 1)
  }

  function Take(s: string, n: nat): string {
    if |s| <= n then s else s[..n]
  }

  predicate Plain(s: string) {
    forall i :: 0 <= i < |s| ==> s[i] != QUOTE && s[i] != BACKSLASH
  }

  lemma {:induction false} DecodePlain(s: string, rest: string, room: nat)
    requires Plain(s)
    ensures Decode(s + "\"" + rest, room) == Take(s, room)
  {
    var p := s + "\"" + rest;
    if s == "" {
      assert p[0] == QUOTE;
    } else if room > 0 {
      assert p[1..] == s[1..] + "\"" + rest && p[0] == s[0];
      DecodePlain(s[1..], rest, room - 1);
    }
  }

  lemma {:induction false} DecodeStep(c: char, tail: string, room: nat)
    requires !BareControl(c) && room > 0
    ensures Decode(EscapeChar(c) + tail, room) == [c] + Decode(tail, room - 1)
  {
    var p := EscapeChar(c) + tail;
    if |EscapeChar(c)| == 1 {
      assert p[0] == c && p[1..] == tail;
    } else {
      assert p[0] == BACKSLASH && Unescape(p[1]) == c && p[2..] == tail;
    }
  }

  lemma {:induction false} EscapeIntoHead(s: string, size: nat, j: nat, rest: string)
    requires s != "" && j + 6 < size
    ensures var c := EscapeChar(s[0]);
            EscapeInto(s, size, j) + rest == c + (EscapeInto(s[1..], size, j + |c|) + rest)
  {
    var c := EscapeChar(s[0]);
    Associate(c, EscapeInto(s[1..], size, j + |c|), rest);
  }

  lemma {:induction false} SameCons<T>(x: T, xs: seq<T>, s: seq<T>)
    requires s != []
    ensures [x] + xs == s <==> x == s[0] && xs == s[1..]
  {
    assert ([x] + xs)[0] == x && ([x] + xs)[1..] == xs && s == [s[0]] + s[1..];
  }

  lemma {:induction false} DecodeBare(c: char, tail: string, room: nat)
    requires BareControl(c) && room > 0
    ensures Decode(EscapeChar(c) + tail, room) != "" && Decode(EscapeChar(c) + tail, room)[0] == 'u'
  {
    var p := EscapeChar(c) + tail;
    assert p[0] == BACKSLASH && p[1] == 'u';
  }

  lemma {:induction false} EscapedComesBack(s: string, size: nat, j: nat, rest: string, room: nat)
    requires rest != "" && rest[0] == QUOTE
    requires Decodable(s) && EscapeFits(s, size, j) && |s| <= room
    ensures Decode(EscapeInto(s, size, j) + rest, room) == s
  {
    if s == "" {
      assert EscapeInto(s, size, j) + rest == rest;
    } else {
      var n := j + |EscapeChar(s[0])|;
      EscapeIntoHead(s, size, j, rest);
      EscapedComesBack(s[1..], size, n, rest, room - 1);
      DecodeStep(s[0], EscapeInto(s[1..], size, n) + rest, room);
      SameCons(s[0], s[1..], s);
    }
  }

  lemma {:induction false} WrongLater(s: string, tail: string, room: nat)
    requires s != "" && !BareControl(s[0]) && room > 0
    requires Decode(tail, room - 1) != s[1..]
    ensures Decode(EscapeChar(s[0]) + tail, room) != s
  {
    DecodeStep(s[0], tail, room);
    SameCons(s[0], Decode(tail, room - 1), s);
  }

  lemma {:induction false} WrongHere(s: string, size: nat, j: nat, rest: string, room: nat)
    requires s != "" && BareControl(s[0]) && j + 6 < size && room > 0
    ensures Decode(EscapeInto(s, size, j) + rest, room) != s
  {
    EscapeIntoHead(s, size, j, rest);
    DecodeBare(s[0], EscapeInto(s[1..], size, j + |EscapeChar(s[0])|) + rest, room);
  }

  lemma {:induction false} WrongBehind(s: string, size: nat, j: nat, rest: string, room: nat)
    requires s != "" && !BareControl(s[0]) && j + 6 < size && room > 0
    requires Decode(EscapeInto(s[1..], size, j + |EscapeChar(s[0])|) + rest, room - 1) != s[1..]
    ensures Decode(EscapeInto(s, size, j) + rest, room) != s
  {
    EscapeIntoHead(s, size, j, rest);
    WrongLater(s, EscapeInto(s[1..], size, j + |EscapeChar(s[0])|) + rest, room);
  }

  lemma {:induction false} EscapedGoesWrong(s: string, size: nat, j: nat, rest: string, room: nat)
    requires rest != "" && rest[0] == QUOTE
    requires !(Decodable(s) && EscapeFits(s, size, j)) && |s| <= room
    ensures Decode(EscapeInto(s, size, j) + rest, room) != s
  {
    if j + 6 >= size {
      assert EscapeInto(s, size, j) + rest == rest;
    } else if BareControl(s[0]) {
      WrongHere(s, size, j, rest, room);
    } else {
      EscapedGoesWrong(s[1..], size, j + |EscapeChar(s[0])|, rest, room - 1);
      WrongBehind(s, size, j, rest, room);
    }
  }

  /** A string with room to spare behind the getter survives escaping into a buffer and
      reading back exactly when it fits the buffer and has no bare control character. */
  lemma {:induction false} EscapeRoundTrip(s: string, size: nat, rest: string, room: nat)
    requires |s| <= room
    ensures Decode(Escaped(s, size) + "\"" + rest, room) == s <==> Decodable(s) && EscapeFits(s, size, 0)
  {
    Associate(Escaped(s, size), "\"", rest);
    if Decodable(s) && EscapeFits(s, size, 0) {
      EscapedComesBack(s, size, 0, "\"" + rest, room);
    } else {
      EscapedGoesWrong(s, size, 0, "\"" + rest, room);
    }
  }

  function Backslashes(k: nat): string {
    seq(k, _ => BACKSLASH)
  }

  lemma {:induction false} BackslashFirst(k: nat, t: string)
    requires k > 0
    ensures (Backslashes(k) + t)[0] == BACKSLASH && (Backslashes(k) + t)[1..] == Backslashes(k - 1) + t
  {}

  /** Reading undoes escapes, so it never makes backslashes more. */
  lemma {:induction false} NoBackslashesGained(k: nat, t: string, rest: string, room: nat)
    requires k > 0 && rest != "" && rest[0] == QUOTE
    ensures Decode(t + rest, room) != Backslashes(k) + t
    decreases |t|
  {
    var p := t + rest;
    BackslashFirst(k, t);
    if t != "" && t[0] == BACKSLASH && room > 0 {
      assert |p| > 1 && p[1] == if |t| > 1 then t[1] else QUOTE;
      if |t| > 1 && t[1] == BACKSLASH {
        assert p[2..] == t[2..] + rest;
        NoBackslashesGained(k + 1, t[2..], rest, room - 1);
        assert Backslashes(k - 1) + t == Backslashes(k + 1) + t[2..];
        SameCons(BACKSLASH, Decode(p[2..], room - 1), Backslashes(k) + t);
      } else {
        assert Decode(p, room)[0] == Unescape(p[1]);
      }
    } else if t != "" && t[0] != QUOTE && room > 0 {
      assert Decode(p, room)[0] == t[0];
    }
  }

  lemma {:induction false} UnplainGoesWrong(s: string, rest: string, room: nat)
    requires rest != "" && rest[0] == QUOTE && !Plain(s) && |s| <= room
    ensures Decode(s + rest, room) != s
  {
    var p := s + rest;
    if s[0] == BACKSLASH && |s| > 1 && s[1] == BACKSLASH {
      assert p[2..] == s[2..] + rest;
      NoBackslashesGained(1, s[2..], rest, room - 1);
      assert s[1..] == Backslashes(1) + s[2..];
      SameCons(BACKSLASH, Decode(p[2..], room - 1), s);
    } else if s[0] == BACKSLASH {
      assert |p| > 1 && p[1] == if |s| > 1 then s[1] else QUOTE;
      assert Decode(p, room)[0] == Unescape(p[1]);
    } else if s[0] != QUOTE {
      assert p[1..] == s[1..] + rest;
      UnplainGoesWrong(s[1..], rest, room - 1);
      SameCons(s[0], Decode(p[1..], room - 1), s);
    }
  }

  /** A string printed as it is comes back exactly when it holds no quote and no backslash. */
  lemma {:induction false} PlainRoundTrip(s: string, rest: string, room: nat)
    requires |s| <= room
    ensures Decode(s + "\"" + rest, room) == s <==> Plain(s)
  {
    if Plain(s) {
      DecodePlain(s, rest, room);
    } else {
      Associate(s, "\"", rest);
      UnplainGoesWrong(s, "\"" + rest, room);
    }
  }

  // ---------- Reading a number ----------

  predicate IsDigit(c: char) {
    '0' <= c <= '9'
  }

  predicate IsSpace(c: char) {
    c == ' ' || '\t' <= c <= '\r'
  }

  function ParseDigits(s: string, acc: nat): nat {
    if s == "" || !IsDigit(s[0]) then acc else ParseDigits(s[1..], acc * 10 + (s[0] as int - '0' as int))
  }

  function SkipBlanks(s: string): string {
    if s != "" && IsSpace(s[0]) then SkipBlanks(s[1..]) else s
  }

  /** atoi; C leaves open what it returns for a number outside int. */
  function Atoi(s: string): (r: Option<int>)
    ensures r.Some? ==> -TWO31 <= r.value < TWO31
  {
    var t := SkipBlanks(s);
    var signed := t != "" && (t[0] == '-' || t[0] == '+');
    var d: int := ParseDigits(if signed then t[1..] else t, 0);
    var n := if signed && t[0] == '-' then -d else d;
    if -TWO31 <= n < TWO31 then Some(n) else None
  }

  lemma {:induction false} ParsePrinted(n: nat, rest: string)
    ensures ParseDigits(PrintNat(n) + rest, 0) == ParseDigits(rest, n)
  {
    if n < 10 {
      assert (PrintNat(n) + rest)[1..] == rest;
    } else {
      var d := [Digit(n % 10)];
      assert PrintNat(n) + rest == PrintNat(n / 10) + (d + rest);
      ParsePrinted(n / 10, d + rest);
      assert (d + rest)[1..] == rest;
    }
  }

  lemma {:induction false} DigitsReadBack(n: nat, rest: string)
    requires rest != "" && !IsDigit(rest[0])
    ensures var t := PrintNat(n) + rest; IsDigit(t[0]) && ParseDigits(t, 0) == n
  {
    NumberText(n);
    ParsePrinted(n, rest);
    assert (PrintNat(n) + rest)[0] == PrintNat(n)[0];
  }

  /** A printed number is read back, exactly when it is one of type int. */
  lemma {:induction false} AtoiPrinted(n: int, rest: string)
    requires rest != "" && !IsDigit(rest[0])
    ensures Atoi(PrintInt(n) + rest) == if -TWO31 <= n < TWO31 then Some(n) else None
  {
    var t := PrintInt(n) + rest;
    if n < 0 {
      DigitsReadBack(-n, rest);
      Associate("-", PrintNat(-n), rest);
      assert t[0] == '-' && t[1..] == PrintNat(-n) + rest;
    } else {
      DigitsReadBack(n, rest);
    }
    assert SkipBlanks(t) == t;
  }

  /** Blanks in front of a number, and a plus sign, make no difference. */
  lemma {:induction false} AtoiOfBlanksAndPlus(blanks: string, n: nat, rest: string)
    requires (forall i :: 0 <= i < |blanks| ==> IsSpace(blanks[i])) && rest != "" && !IsDigit(rest[0]) && n < TWO31
    ensures Atoi(blanks + ("+" + PrintNat(n) + rest)) == Some(n)
  {
    var t := "+" + PrintNat(n) + rest;
    SkipsBlanks(blanks, t);
    DigitsReadBack(n, rest);
    Associate("+", PrintNat(n), rest);
    assert t[0] == '+' && t[1..] == PrintNat(n) + rest;
  }

  lemma {:induction false} SkipsBlanks(blanks: string, t: string)
    requires (forall i :: 0 <= i < |blanks| ==> IsSpace(blanks[i])) && t != "" && !IsSpace(t[0])
    ensures SkipBlanks(blanks + t) == t
  {
    if blanks == "" {
      assert blanks + t == t;
    } else {
      SkipsBlanks(blanks[1..], t);
      assert (blanks + t)[1..] == blanks[1..] + t;
    }
  }

  // ---------- The getters ----------

  /** What json_get_string returns and stores. */
  function GetString(json: string, key: string, size: nat): (int, string)
    requires size > 0
  {
    match After(json, StringPattern(key))
    case None => (-1, "")
    case Some(p) => (0, Decode(p, size - 1))
  }

  /** json_get_int: 0 for a missing key; nothing where C defines no result. */
  function GetInt(json: string, key: string): (r: Option<int>)
    ensures r.Some? ==> -TWO31 <= r.value < TWO31
  {
    match After(json, KeyPattern(key))
    case None => Some(0)
    case Some(p) => Atoi(p)
  }

  // ---------- Reading one field of a printed object ----------

  /** Field k is found: the fields in front of it are well-formed, and none has its name. */
  ghost predicate Reachable(fs: seq<Field>, k: nat) {
    && k < |fs| && KeyName(fs[k].key)
    && forall i :: 0 <= i < k ==> FieldOk(fs[i]) && !fs[i].Arr? && fs[i].key != fs[k].key
  }

  lemma {:induction false} ReadNumber(fs: seq<Field>, k: nat)
    requires Reachable(fs, k) && fs[k].Num?
    ensures GetInt(ObjectText(fs), fs[k].key) == if -TWO31 <= fs[k].n < TWO31 then Some(fs[k].n) else None
  {
    LookupObject(fs, k);
    AtoiPrinted(fs[k].n, Behind(fs, k));
  }

  lemma {:induction false} ReadString(fs: seq<Field>, k: nat, size: nat)
    requires Reachable(fs, k) && fs[k].Str? && size > 0
    ensures GetString(ObjectText(fs), fs[k].key, size) == (0, Decode(fs[k].body + "\"" + Behind(fs, k), size - 1))
  {
    LookupObject(fs, k);
  }
}
