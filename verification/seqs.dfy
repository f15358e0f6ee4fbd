/** Generic facts about sequences that the scanners and the chunker share. */
module Seqs {
  import opened Options

  /** A sequence is its prefix, a middle slice and its suffix. */
  lemma ThreeParts<T>(s: seq<T>, i: nat, j: nat)
    requires i <= j <= |s|
    ensures s == (s[..i] + s[i..j]) + s[j..]
  {
  }

  /** A suffix is a slice followed by the suffix after it. */
  lemma SplitSuffix<T>(s: seq<T>, i: nat, j: nat)
    requires i <= j <= |s|
    ensures s[i..] == s[i..j] + s[j..]
  {
  }

  /** Sequences that agree on a prefix agree on every slice inside it. */
  lemma SameSlice<T>(t1: seq<T>, t2: seq<T>, n: nat, i: nat, j: nat)
    requires n <= |t1| && n <= |t2| && t1[..n] == t2[..n] && i <= j <= n
    ensures t1[i..j] == t2[i..j]
  {
    forall k | i <= k < j
      ensures t1[k] == t2[k]
    {
      assert t1[k] == t1[..n][k] && t2[k] == t2[..n][k];
    }
  }

  /** A slice of a run of elements of one class stays in that class. */
  lemma SliceKeepsClass<T>(s: seq<T>, i: nat, j: nat, p: T -> bool)
    requires i <= j <= |s| && forall k :: i <= k < j ==> p(s[k])
    ensures forall k :: 0 <= k < |s[i..j]| ==> p(s[i..j][k])
  {
  }

  /** `f` applied to every element, in order. */
  function Map<A, B>(f: A -> B, xs: seq<A>): (r: seq<B>)
    ensures |r| == |xs|
    ensures forall k :: 0 <= k < |xs| ==> r[k] == f(xs[k])
  {
    seq(|xs|, k requires 0 <= k < |xs| => f(xs[k]))
  }

  lemma MapAppend<A, B>(f: A -> B, a: seq<A>, b: seq<A>)
    ensures Map(f, a + b) == Map(f, a) + Map(f, b)
  {
  }

  /** The present values, in order. */
  function Somes<T>(xs: seq<Option<T>>): (r: seq<T>)
    ensures |r| <= |xs|
  {
    if xs == [] then []
    else (if xs[0].Some? then [xs[0].value] else []) + Somes(xs[1..])
  }

  /** Keeping order: the values of `a` come before those of `b`. */
  lemma {:induction false} SomesAppend<T>(a: seq<Option<T>>, b: seq<Option<T>>)
    ensures Somes(a + b) == Somes(a) + Somes(b)
  {
    if a == [] {
      assert a + b == b;
    } else {
      assert (a + b)[0] == a[0];
      assert (a + b)[1..] == a[1..] + b;
      SomesAppend(a[1..], b);
    }
  }

  /** Every kept value is one of the inputs' values. */
  lemma {:induction false} SomesFrom<T>(xs: seq<Option<T>>, k: nat)
    requires k < |Somes(xs)|
    ensures exists i :: 0 <= i < |xs| && xs[i] == Some(Somes(xs)[k])
  {
    if xs[0].Some? {
      if k > 0 {
        SomesFrom(xs[1..], k - 1);
        var i :| 0 <= i < |xs[1..]| && xs[1..][i] == Some(Somes(xs[1..])[k - 1]);
        assert xs[i + 1] == xs[1..][i];
      }
    } else {
      SomesFrom(xs[1..], k);
      var i :| 0 <= i < |xs[1..]| && xs[1..][i] == Some(Somes(xs[1..])[k]);
      assert xs[i + 1] == xs[1..][i];
    }
  }
}
