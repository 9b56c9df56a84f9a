/**
 * Insertion-ordered counts: the shape of a Python dict built by
 * `counts[k] = counts.get(k, 0) + 1` over a list, as the diff report of the
 * security advisor and the analytics summary of the sheets logger build it.
 */
module Tally {

  type Counts<K> = seq<(K, nat)>

  /** `list(counts.keys())`. */
  function Keys<K>(c: Counts<K>): (ks: seq<K>)
    ensures |ks| == |c|
    ensures forall i :: 0 <= i < |c| ==> ks[i] == c[i].0
  {
    seq(|c|, i requires 0 <= i < |c| => c[i].0)
  }

  /** `counts[k] = counts.get(k, 0) + 1`: bump the key where it stands, or add it last with count 1. */
  function Bump<K(==)>(c: Counts<K>, k: K): Counts<K> {
    if c == [] then [(k, 1)]
    else if c[0].0 == k then [(k, c[0].1 + 1)] + c[1..]
    else [c[0]] + Bump(c[1..], k)
  }

  /** `sum(counts.values())`. */
  function Total<K>(c: Counts<K>): nat {
    if c == [] then 0 else c[0].1 + Total(c[1..])
  }

  /** `counts.get(k, 0)`. */
  function CountOf<K(==)>(c: Counts<K>, k: K): nat {
    if c == [] then 0 else if c[0].0 == k then c[0].1 else CountOf(c[1..], k)
  }

  /** How many elements of `xs` equal `k`. */
  function Occurrences<K(==)>(xs: seq<K>, k: K): nat {
    if xs == [] then 0
    else Occurrences(xs[..|xs| - 1], k) + (if xs[|xs| - 1] == k then 1 else 0)
  }

  /** The counts the loop `for x in xs: counts[x] = counts.get(x, 0) + 1` leaves behind. */
  function TallyOf<K(==)>(xs: seq<K>): Counts<K> {
    if xs == [] then [] else Bump(TallyOf(xs[..|xs| - 1]), xs[|xs| - 1])
  }

  predicate DistinctKeys<K(==)>(c: Counts<K>) {
    forall i, j :: 0 <= i < j < |c| ==> c[i].0 != c[j].0
  }

  lemma {:induction false} BumpTotal<K>(c: Counts<K>, k: K)
    ensures Total(Bump(c, k)) == Total(c) + 1
  {
    if c != [] && c[0].0 != k {
      BumpTotal(c[1..], k);
    }
  }

  lemma {:induction false} BumpCount<K>(c: Counts<K>, k: K, j: K)
    ensures CountOf(Bump(c, k), j) == CountOf(c, j) + (if j == k then 1 else 0)
  {
    if c != [] && c[0].0 != k {
      BumpCount(c[1..], k, j);
    }
  }

  /** Bumping keeps the key order; a new key goes last. */
  lemma {:induction false} BumpKeyOrder<K>(c: Counts<K>, k: K)
    ensures k in Keys(c) ==> Keys(Bump(c, k)) == Keys(c)
    ensures k !in Keys(c) ==> Keys(Bump(c, k)) == Keys(c) + [k]
  {
    if c == [] {
      assert Keys(Bump(c, k)) == [k];
    } else if c[0].0 == k {
      assert Keys(Bump(c, k)) == Keys(c);
    } else {
      var t := c[1..];
      var kt, kb := Keys(t), Keys(Bump(t, k));
      BumpKeyOrder(t, k);
      assert Keys(c) == [c[0].0] + kt by { KeysCons(c); }
      assert Keys(Bump(c, k)) == [c[0].0] + kb by {
        KeysCons(Bump(c, k));
        assert Bump(c, k)[1..] == Bump(t, k);
      }
      if k !in kt {
        assert [c[0].0] + (kt + [k]) == ([c[0].0] + kt) + [k];
      }
    }
  }

  lemma KeysCons<K>(c: Counts<K>)
    requires c != []
    ensures Keys(c) == [c[0].0] + Keys(c[1..])
  {
  }

  lemma BumpKeys<K>(c: Counts<K>, k: K)
    requires DistinctKeys(c)
    ensures DistinctKeys(Bump(c, k))
    ensures forall j :: j in Keys(Bump(c, k)) <==> j in Keys(c) || j == k
    ensures k in Keys(c) ==> Keys(Bump(c, k)) == Keys(c)
    ensures k !in Keys(c) ==> Keys(Bump(c, k)) == Keys(c) + [k]
  {
    BumpKeyOrder(c, k);
    var b := Bump(c, k);
    forall i, j | 0 <= i < j < |b| ensures b[i].0 != b[j].0 {
      assert b[i].0 == Keys(b)[i] && b[j].0 == Keys(b)[j];
      if j < |c| {
        assert Keys(b)[i] == c[i].0 && Keys(b)[j] == c[j].0;
      } else {
        assert Keys(b)[i] == Keys(c)[i] && Keys(c)[i] in Keys(c);
      }
    }
  }

  /** The counts add up to the number of elements counted. */
  lemma {:induction false} TallyTotal<K>(xs: seq<K>)
    ensures Total(TallyOf(xs)) == |xs|
  {
    if xs != [] {
      TallyTotal(xs[..|xs| - 1]);
      BumpTotal(TallyOf(xs[..|xs| - 1]), xs[|xs| - 1]);
    }
  }

  /** Each key's count is the number of its occurrences. */
  lemma {:induction false} TallyCount<K>(xs: seq<K>, k: K)
    ensures CountOf(TallyOf(xs), k) == Occurrences(xs, k)
  {
    if xs != [] {
      TallyCount(xs[..|xs| - 1], k);
      BumpCount(TallyOf(xs[..|xs| - 1]), xs[|xs| - 1], k);
    }
  }

  /** Keys are distinct and are exactly the values that occur. */
  lemma {:induction false} TallyKeys<K>(xs: seq<K>)
    ensures DistinctKeys(TallyOf(xs))
    ensures forall k :: k in Keys(TallyOf(xs)) <==> k in xs
  {
    if xs != [] {
      var init := xs[..|xs| - 1];
      TallyKeys(init);
      BumpKeys(TallyOf(init), xs[|xs| - 1]);
      assert xs == init + [xs[|xs| - 1]];
    }
  }
}
