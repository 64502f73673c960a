/** Subsequences: what is left of a sequence after dropping some of its elements. */
module Subsequences {

  ghost predicate Sub<T>(a: seq<T>, b: seq<T>) {
    if a == [] then true
    else if b == [] then false
    else
      || (a[|a| - 1] == b[|b| - 1] && Sub(a[..|a| - 1], b[..|b| - 1]))
      || Sub(a, b[..|b| - 1])
  }

  lemma {:induction false} SubSame<T>(a: seq<T>)
    ensures Sub(a, a)
  {
    if a == [] {
    } else {
      SubSame(a[..|a| - 1]);
    }
  }

  lemma {:induction false} SubSnoc<T>(a: seq<T>, b: seq<T>, x: T)
    requires Sub(a, b)
    ensures Sub(a, b + [x]) && Sub(a + [x], b + [x])
  {
    assert (b + [x])[..|b|] == b && (a + [x])[..|a|] == a;
  }

  lemma {:induction false} SubTrans<T>(a: seq<T>, b: seq<T>, c: seq<T>)
    requires Sub(a, b) && Sub(b, c)
    ensures Sub(a, c)
    decreases |c|
  {
    if a == [] || b == [] {
    } else {
      var a', b', c' := a[..|a| - 1], b[..|b| - 1], c[..|c| - 1];
      if b[|b| - 1] == c[|c| - 1] && Sub(b', c') {
        if a[|a| - 1] == b[|b| - 1] && Sub(a', b') {
          SubTrans(a', b', c');
        } else {
          SubTrans(a, b', c');
        }
      } else {
        SubTrans(a, b, c');
      }
    }
  }

  lemma {:induction false} SubConcat<T>(a: seq<T>, b: seq<T>, c: seq<T>, d: seq<T>)
    requires Sub(a, b) && Sub(c, d)
    ensures Sub(a + c, b + d)
    decreases |d|
  {
    if d == [] {
      assert a + c == a && b + d == b;
    } else {
      var n := |d| - 1;
      assert b + d == b + d[..n] + [d[n]];
      if c != [] && c[|c| - 1] == d[n] && Sub(c[..|c| - 1], d[..n]) {
        SubConcat(a, b, c[..|c| - 1], d[..n]);
        assert a + c == a + c[..|c| - 1] + [d[n]];
        SubSnoc(a + c[..|c| - 1], b + d[..n], d[n]);
      } else {
        SubConcat(a, b, c, d[..n]);
        SubSnoc(a + c, b + d[..n], d[n]);
      }
    }
  }

  lemma {:induction false} SubTail<T>(a: seq<T>)
    requires a != []
    ensures Sub(a[1..], a)
  {
    SubSame(a[1..]);
    SubConcat([], a[..1], a[1..], a[1..]);
    assert [] + a[1..] == a[1..] && a[..1] + a[1..] == a;
  }

  function Map<S, T>(f: S -> T, a: seq<S>): (r: seq<T>)
    ensures |r| == |a|
  {
    seq(|a|, i requires 0 <= i < |a| => f(a[i]))
  }

  lemma {:induction false} SubMap<S, T>(f: S -> T, a: seq<S>, b: seq<S>)
    requires Sub(a, b)
    ensures Sub(Map(f, a), Map(f, b))
    decreases |b|
  {
    if a == [] {
    } else {
      var a', b' := a[..|a| - 1], b[..|b| - 1];
      assert Map(f, b)[..|b| - 1] == Map(f, b') && Map(f, a)[..|a| - 1] == Map(f, a');
      if a[|a| - 1] == b[|b| - 1] && Sub(a', b') {
        SubMap(f, a', b');
      } else {
        SubMap(f, a, b');
      }
    }
  }

  /** A property of pairs in order passes to subsequences. */
  lemma {:induction false} SubPairs<T(!new)>(r: (T, T) -> bool, a: seq<T>, b: seq<T>)
    requires Sub(a, b) && forall i, j :: 0 <= i < j < |b| ==> r(b[i], b[j])
    ensures forall i, j :: 0 <= i < j < |a| ==> r(a[i], a[j])
    decreases |b|
  {
    if a == [] {
    } else {
      var a', b' := a[..|a| - 1], b[..|b| - 1];
      if a[|a| - 1] == b[|b| - 1] && Sub(a', b') {
        SubPairs(r, a', b');
        forall i | 0 <= i < |a'| ensures r(a[i], a[|a| - 1]) {
          SubMember(a', b', i);
        }
      } else {
        SubPairs(r, a, b');
      }
    }
  }

  lemma {:induction false} SubMember<T>(a: seq<T>, b: seq<T>, i: nat)
    requires Sub(a, b) && i < |a|
    ensures exists k :: 0 <= k < |b| && b[k] == a[i]
    decreases |b|
  {
    var a', b' := a[..|a| - 1], b[..|b| - 1];
    if i == |a| - 1 && a[i] == b[|b| - 1] {
    } else if a[|a| - 1] == b[|b| - 1] && Sub(a', b') {
      SubMember(a', b', i);
    } else {
      SubMember(a, b', i);
    }
  }
}
