/**
 * Sequences that come from others by leaving elements out.
 */
module Subsequences {

  predicate Subsequence<T(==)>(a: seq<T>, b: seq<T>) {
    if a == [] then true
    else if b == [] then false
    else if a[0] == b[0] then Subsequence(a[1..], b[1..])
    else Subsequence(a, b[1..])
  }

  lemma {:induction false} SubsequenceSkips<T>(a: seq<T>, b: seq<T>)
    requires b != [] && Subsequence(a, b[1..])
    ensures Subsequence(a, b)
    decreases |b|, 0
  {
    if a == [] {
    } else if a[0] == b[0] {
      SubsequenceDropsHead(a, b[1..]);
    }
  }

  lemma {:induction false} SubsequenceDropsHead<T>(a: seq<T>, b: seq<T>)
    requires a != [] && Subsequence(a, b)
    ensures Subsequence(a[1..], b)
    decreases |b|, 1
  {
    if a[0] == b[0] {
      SubsequenceSkips(a[1..], b);
    } else {
      SubsequenceDropsHead(a, b[1..]);
      SubsequenceSkips(a[1..], b);
    }
  }

  lemma {:induction false} SubsequenceGrows<T>(a: seq<T>, b: seq<T>, x: T)
    requires Subsequence(a, b)
    ensures Subsequence(a + [x], b + [x]) && Subsequence(a, b + [x])
    decreases |b|
  {
    if b == [] {
    } else {
      assert (b + [x])[1..] == b[1..] + [x];
      if a == [] {
        SubsequenceGrows(a, b[1..], x);
        assert [x][1..] == [];
        if b[0] != x {
          assert a + [x] == [x];
        }
      } else if a[0] == b[0] {
        SubsequenceGrows(a[1..], b[1..], x);
        assert (a + [x])[1..] == a[1..] + [x];
      } else {
        SubsequenceGrows(a, b[1..], x);
      }
    }
  }

  lemma {:induction false} SubsequencePrefix<T>(a: seq<T>, c: seq<T>, b: seq<T>)
    requires Subsequence(a + c, b)
    ensures Subsequence(a, b)
    decreases |b|
  {
    if a == [] || b == [] {
    } else if a[0] == b[0] {
      assert (a + c)[1..] == a[1..] + c;
      SubsequencePrefix(a[1..], c, b[1..]);
    } else {
      SubsequencePrefix(a, c, b[1..]);
    }
  }

  // Only the whole is as long as the whole.
  lemma {:induction false} SubsequenceSize<T>(a: seq<T>, b: seq<T>)
    requires Subsequence(a, b)
    ensures |a| <= |b| && (|a| == |b| ==> a == b)
    decreases |b|
  {
    if a == [] || b == [] {
    } else if a[0] == b[0] {
      SubsequenceSize(a[1..], b[1..]);
      assert a == [a[0]] + a[1..] && b == [b[0]] + b[1..];
    } else {
      SubsequenceSize(a, b[1..]);
    }
  }

  lemma {:induction false} SubsequenceTransitive<T>(a: seq<T>, b: seq<T>, c: seq<T>)
    requires Subsequence(a, b) && Subsequence(b, c)
    ensures Subsequence(a, c)
    decreases |c|
  {
    if a == [] || c == [] {
    } else if b[0] != c[0] {
      SubsequenceTransitive(a, b, c[1..]);
      SubsequenceSkips(a, c);
    } else if a[0] == b[0] {
      SubsequenceTransitive(a[1..], b[1..], c[1..]);
    } else {
      SubsequenceTransitive(a, b[1..], c[1..]);
    }
  }

  // The same sequence before both.
  lemma {:induction false} SubsequenceAfter<T>(p: seq<T>, a: seq<T>, b: seq<T>)
    requires Subsequence(a, b)
    ensures Subsequence(p + a, p + b)
    decreases |p|
  {
    if p == [] {
      assert p + a == a && p + b == b;
    } else {
      assert (p + a)[1..] == p[1..] + a && (p + b)[1..] == p[1..] + b;
      SubsequenceAfter(p[1..], a, b);
    }
  }

  // The same sequence after both.
  lemma {:induction false} SubsequenceBefore<T>(a: seq<T>, b: seq<T>, p: seq<T>)
    requires Subsequence(a, b)
    ensures Subsequence(a + p, b + p)
    decreases |p|
  {
    if p == [] {
      assert a + p == a && b + p == b;
    } else {
      SubsequenceGrows(a, b, p[0]);
      SubsequenceBefore(a + [p[0]], b + [p[0]], p[1..]);
      assert a + [p[0]] + p[1..] == a + p && b + [p[0]] + p[1..] == b + p;
    }
  }
}
