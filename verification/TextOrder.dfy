/** Python's `sorted` on text: code-point order on strings, and the one strictly
    increasing listing of a finite set of strings. */
module TextOrder {

  predicate Less(a: string, b: string) {
    if b == [] then false
    else if a == [] then true
    else a[0] < b[0] || (a[0] == b[0] && Less(a[1..], b[1..]))
  }

  lemma {:induction false} LessTotal(a: string, b: string)
    ensures a == b || Less(a, b) || Less(b, a)
    ensures !(Less(a, b) && Less(b, a))
    ensures !Less(a, a)
  {
    if a != [] && b != [] {
      LessTotal(a[1..], b[1..]);
      assert a == [a[0]] + a[1..] && b == [b[0]] + b[1..];
    }
    if a != [] {
      LessTotal(a[1..], a[1..]);
    }
  }

  lemma {:induction false} LessTransitive(a: string, b: string, c: string)
    requires Less(a, b) && Less(b, c)
    ensures Less(a, c)
  {
    if a != [] && a[0] == b[0] == c[0] {
      LessTransitive(a[1..], b[1..], c[1..]);
    }
  }

  predicate IsLeast(x: string, s: set<string>) {
    x in s && forall y | y in s :: y == x || Less(x, y)
  }

  lemma {:induction false} LeastExists(s: set<string>) returns (x: string)
    requires s != {}
    ensures IsLeast(x, s)
  {
    var z :| z in s;
    if s == {z} {
      x := z;
    } else {
      x := LeastExists(s - {z});
      LessTotal(x, z);
      if Less(z, x) {
        forall y | y in s ensures y == z || Less(z, y) {
          if y != z && y != x {
            LessTransitive(z, x, y);
          }
        }
        x := z;
      }
    }
  }

  lemma LeastUnique(s: set<string>)
    requires s != {}
    ensures exists x :: IsLeast(x, s)
    ensures forall x, y | IsLeast(x, s) && IsLeast(y, s) :: x == y
  {
    var w := LeastExists(s);
    forall x, y | IsLeast(x, s) && IsLeast(y, s) ensures x == y {
      LessTotal(x, y);
    }
  }

  predicate StrictlySorted(xs: seq<string>) {
    forall i, j :: 0 <= i < j < |xs| ==> Less(xs[i], xs[j])
  }

  /** `sorted(s)` of a set, or of a dictionary's keys. */
  function SortKeys(s: set<string>): (xs: seq<string>)
    ensures forall x :: x in xs <==> x in s
    ensures StrictlySorted(xs)
    ensures |xs| == |s|
  {
    if s == {} then []
    else
      LeastUnique(s);
      var x :| IsLeast(x, s);
      [x] + SortKeys(s - {x})
  }

  lemma TailExcludesHead(xs: seq<string>)
    requires StrictlySorted(xs) && xs != []
    ensures xs[0] !in xs[1..]
  {
    LessTotal(xs[0], xs[0]);
    assert forall k :: 0 <= k < |xs[1..]| ==> xs[1..][k] == xs[k + 1] && Less(xs[0], xs[k + 1]);
  }

  /** A strictly sorted listing is determined by its set of elements. */
  lemma {:induction false} SortedUnique(xs: seq<string>, ys: seq<string>)
    requires StrictlySorted(xs) && StrictlySorted(ys)
    requires forall x :: x in xs <==> x in ys
    ensures xs == ys
  {
    assert |xs| > 0 ==> xs[0] in ys;
    assert |ys| > 0 ==> ys[0] in xs;
    if xs != [] {
      LessTotal(xs[0], ys[0]);
      assert xs[0] == ys[0];
      TailExcludesHead(xs);
      TailExcludesHead(ys);
      forall x ensures x in xs[1..] <==> x in ys[1..] {
        assert x in xs <==> x == xs[0] || x in xs[1..];
        assert x in ys <==> x == ys[0] || x in ys[1..];
      }
      SortedUnique(xs[1..], ys[1..]);
    }
  }
}
