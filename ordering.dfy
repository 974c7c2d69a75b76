/**
 * Python's `<` on `str` (lexicographic by code point, a proper prefix first)
 * and `sorted` applied to a set of strings.
 */
module Ordering {

  predicate Less(a: string, b: string)
    decreases |a|
  {
    if a == [] then b != []
    else if b == [] then false
    else if a[0] != b[0] then a[0] < b[0]
    else Less(a[1..], b[1..])
  }

  lemma {:induction false} LessIrreflexive(a: string)
    ensures !Less(a, a)
    decreases |a|
  {
    if a != [] {
      LessIrreflexive(a[1..]);
    }
  }

  lemma {:induction false} LessTransitive(a: string, b: string, c: string)
    requires Less(a, b) && Less(b, c)
    ensures Less(a, c)
    decreases |a|
  {
    if a != [] && a[0] == b[0] && b[0] == c[0] {
      LessTransitive(a[1..], b[1..], c[1..]);
    }
  }

  lemma {:induction false} LessTotal(a: string, b: string)
    requires a != b
    ensures Less(a, b) || Less(b, a)
    decreases |a|
  {
    if a != [] && b != [] && a[0] == b[0] {
      assert a == [a[0]] + a[1..] && b == [b[0]] + b[1..];
      LessTotal(a[1..], b[1..]);
    }
  }

  predicate StrictlyIncreasing(s: seq<string>) {
    forall i, j :: 0 <= i < j < |s| ==> Less(s[i], s[j])
  }

  /** The smallest element of a non-empty set of strings. */
  method Least(s: set<string>) returns (m: string)
    requires s != {}
    ensures m in s
    ensures forall x :: x in s && x != m ==> Less(m, x)
  {
    m :| m in s;
    var rest := s - {m};
    while rest != {}
      invariant rest <= s && m in s && m !in rest
      invariant forall x :: x in s && x !in rest && x != m ==> Less(m, x)
      decreases rest
    {
      var x :| x in rest;
      if Less(x, m) {
        forall y | y in s && y !in rest && y != x
          ensures Less(x, y)
        {
          if y != m {
            LessTransitive(x, m, y);
          }
        }
        m := x;
      } else {
        LessTotal(x, m);
      }
      rest := rest - {x};
    }
  }

  /** `sorted(s)`: the elements of `s`, each once, in increasing order. */
  method SortedList(s: set<string>) returns (r: seq<string>)
    ensures StrictlyIncreasing(r)
    ensures forall x :: x in r <==> x in s
    ensures |r| == |s|
    ensures forall i, j :: 0 <= i < j < |r| ==> r[i] != r[j]
  {
    r := [];
    var rest := s;
    while rest != {}
      invariant rest <= s
      invariant forall x :: x in r <==> x in s && x !in rest
      invariant StrictlyIncreasing(r)
      invariant forall i, y :: 0 <= i < |r| && y in rest ==> Less(r[i], y)
      invariant |r| + |rest| == |s|
      decreases |rest|
    {
      var m := Least(rest);
      r := r + [m];
      rest := rest - {m};
    }
    forall i, j | 0 <= i < j < |r|
      ensures r[i] != r[j]
    {
      LessIrreflexive(r[i]);
    }
  }
}
