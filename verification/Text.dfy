/** Facts about strings that several codecs use. */
module Text {

  lemma {:induction false} Associate(a: string, b: string, c: string)
    ensures a + b + c == a + (b + c)
  {}

  /** A C string ends at its first NUL. */
  function CStr(s: string): string {
    if s == "" || s[0] == '\0' then "" else [s[0]] + CStr(s[1..])
  }

  lemma {:induction false} CStrOfText(s: string)
    requires '\0' !in s
    ensures CStr(s) == s
  {
    if s == "" {
    } else {
      CStrOfText(s[1..]);
    }
  }

  /** A buffer that holds a text and a terminator behind it holds that text. */
  lemma {:induction false} CStrTerminated(s: string, n: nat)
    requires n < |s| && s[n] == '\0' && '\0' !in s[..n]
    ensures CStr(s) == s[..n]
  {
    if n == 0 {
    } else {
      assert s[..n][0] == s[0] && s[0] in s[..n];
      assert s[1..][..n - 1] == s[..n][1..];
      CStrTerminated(s[1..], n - 1);
      assert [s[0]] + s[1..][..n - 1] == s[..n];
    }
  }
}
