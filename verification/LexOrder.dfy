/** The lexicographic order of Rust's `Ord` on strings and byte slices, and stable sorting by a key. */
module LexOrder {

  /** Strictly before, element by element; a proper prefix comes first. */
  predicate Below(a: seq<int>, b: seq<int>) {
    if b == [] then false
    else a == [] || a[0] < b[0] || (a[0] == b[0] && Below(a[1..], b[1..]))
  }

  lemma {:induction false} BelowIsIrreflexive(a: seq<int>)
    ensures !Below(a, a)
  {
    if a != [] {
      BelowIsIrreflexive(a[1..]);
    }
  }

  lemma {:induction false} BelowIsTransitive(a: seq<int>, b: seq<int>, c: seq<int>)
    requires Below(a, b) && Below(b, c)
    ensures Below(a, c)
  {
    if a != [] && a[0] == b[0] == c[0] {
      BelowIsTransitive(a[1..], b[1..], c[1..]);
    }
  }

  lemma {:induction false} BelowIsTotal(a: seq<int>, b: seq<int>)
    ensures a == b || Below(a, b) || Below(b, a)
  {
    if a != [] && b != [] && a[0] == b[0] {
      BelowIsTotal(a[1..], b[1..]);
      assert a == [a[0]] + a[1..] && b == [b[0]] + b[1..];
    }
  }

  /** `a` comes first where they first differ, or ends where `b` goes on. */
  lemma {:induction false} BelowIsLexicographic(a: seq<int>, b: seq<int>)
    ensures Below(a, b) <==>
      exists k :: 0 <= k <= |a| && k < |b| && a[..k] == b[..k] && (k < |a| ==> a[k] < b[k])
  {
    if b == [] {
    } else if a == [] || a[0] < b[0] {
      assert a[..0] == b[..0];
    } else if a[0] == b[0] {
      BelowIsLexicographic(a[1..], b[1..]);
      if Below(a, b) {
        var x, y := a[1..], b[1..];
        var k :| 0 <= k <= |x| && k < |y| && x[..k] == y[..k] && (k < |x| ==> x[k] < y[k]);
        assert a[..k + 1] == [a[0]] + a[1..][..k] && b[..k + 1] == [b[0]] + b[1..][..k];
      }
      if k :| 0 <= k <= |a| && k < |b| && a[..k] == b[..k] && (k < |a| ==> a[k] < b[k]) {
        assert k > 0;
        assert a[1..][..k - 1] == a[..k][1..] && b[1..][..k - 1] == b[..k][1..];
      }
    } else {
      assert forall k :: 0 < k <= |a| && k <= |b| ==> a[..k][0] == a[0] && b[..k][0] == b[0];
    }
  }

  /** `a` does not come after `b`. */
  predicate AtMost(a: seq<int>, b: seq<int>) {
    !Below(b, a)
  }

  lemma AtMostIsTransitive(a: seq<int>, b: seq<int>, c: seq<int>)
    requires AtMost(a, b) && AtMost(b, c)
    ensures AtMost(a, c)
  {
    if Below(c, a) {
      BelowIsTotal(a, b);
      if Below(a, b) {
        BelowIsTransitive(c, a, b);
      }
    }
  }

  ghost predicate SortedBy<T(!new)>(xs: seq<T>, key: T -> seq<int>) {
    forall i, j :: 0 <= i < j < |xs| ==> AtMost(key(xs[i]), key(xs[j]))
  }

  /** Puts `x` before the first element it does not come after, so that equal keys keep their order. */
  function InsertBy<T>(x: T, xs: seq<T>, key: T -> seq<int>): seq<T> {
    if xs == [] || AtMost(key(x), key(xs[0])) then [x] + xs
    else [xs[0]] + InsertBy(x, xs[1..], key)
  }

  /** `slice::sort_by`: a stable sort. */
  function SortBy<T>(xs: seq<T>, key: T -> seq<int>): seq<T> {
    if xs == [] then [] else InsertBy(xs[0], SortBy(xs[1..], key), key)
  }

  lemma {:induction false} InsertByKeeps<T>(x: T, xs: seq<T>, key: T -> seq<int>)
    ensures multiset(InsertBy(x, xs, key)) == multiset(xs) + multiset{x}
    ensures |InsertBy(x, xs, key)| == |xs| + 1
  {
    if xs == [] || AtMost(key(x), key(xs[0])) {
    } else {
      InsertByKeeps(x, xs[1..], key);
      assert xs == [xs[0]] + xs[1..];
    }
  }

  lemma {:induction false} SortByKeeps<T>(xs: seq<T>, key: T -> seq<int>)
    ensures multiset(SortBy(xs, key)) == multiset(xs)
    ensures |SortBy(xs, key)| == |xs|
  {
    if xs != [] {
      SortByKeeps(xs[1..], key);
      InsertByKeeps(xs[0], SortBy(xs[1..], key), key);
      assert xs == [xs[0]] + xs[1..];
    }
  }

  lemma {:induction false} InsertBySorts<T(!new)>(x: T, xs: seq<T>, key: T -> seq<int>)
    requires SortedBy(xs, key)
    ensures SortedBy(InsertBy(x, xs, key), key)
  {
    if xs == [] {
    } else if AtMost(key(x), key(xs[0])) {
      var r := [x] + xs;
      forall i, j | 0 <= i < j < |r| ensures AtMost(key(r[i]), key(r[j])) {
        if i == 0 && j > 1 {
          AtMostIsTransitive(key(x), key(xs[0]), key(xs[j - 1]));
        }
      }
    } else {
      var tail := InsertBy(x, xs[1..], key);
      assert SortedBy(xs[1..], key);
      InsertBySorts(x, xs[1..], key);
      InsertByKeeps(x, xs[1..], key);
      BelowIsTotal(key(x), key(xs[0]));
      forall k | 0 <= k < |tail| ensures AtMost(key(xs[0]), key(tail[k])) {
        assert tail[k] in multiset(tail);
        if tail[k] != x {
          assert tail[k] in xs[1..];
        } else {
          BelowNotBoth(key(xs[0]), key(x));
        }
      }
    }
  }

  lemma BelowNotBoth(a: seq<int>, b: seq<int>)
    requires Below(a, b)
    ensures AtMost(a, b)
  {
    if Below(b, a) {
      BelowIsTransitive(a, b, a);
      BelowIsIrreflexive(a);
    }
  }

  lemma {:induction false} SortBySorts<T(!new)>(xs: seq<T>, key: T -> seq<int>)
    ensures SortedBy(SortBy(xs, key), key)
  {
    if xs != [] {
      SortBySorts(xs[1..], key);
      InsertBySorts(xs[0], SortBy(xs[1..], key), key);
    }
  }

  /** The scalar values of a string: comparing them compares its UTF-8 bytes. */
  function Codes(s: string): seq<int> {
    seq(|s|, i requires 0 <= i < |s| => s[i] as int)
  }

  function SortStrings(xs: seq<string>): seq<string> {
    SortBy(xs, Codes)
  }
}
