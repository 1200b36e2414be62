/** Generic sequence facts shared by the bookkeeping helpers: distinctness
    and order-preserving de-duplication. */
module Seqs {

  predicate Distinct<T(==)>(xs: seq<T>) {
    forall i, j :: 0 <= i < j < |xs| ==> xs[i] != xs[j]
  }

  /** The position of the first occurrence of `x` in `xs`. */
  function FirstIndex<T(==)>(xs: seq<T>, x: T): (k: nat)
    requires x in xs
    ensures k < |xs| && xs[k] == x
    ensures forall j :: 0 <= j < k ==> xs[j] != x
  {
    if xs[0] == x then 0 else 1 + FirstIndex(xs[1..], x)
  }

  /** Every element of `xs` once, in the order of its first occurrence: the
      reference for loops that skip what an auxiliary `seen` set holds. */
  function Dedup<T(==)>(xs: seq<T>): (r: seq<T>)
    ensures Distinct(r)
    ensures forall i :: 0 <= i < |r| ==> r[i] in xs
    ensures forall i :: 0 <= i < |xs| ==> xs[i] in r
    ensures |r| <= |xs|
    decreases |xs|
  {
    if |xs| == 0 then []
    else
      var init := Dedup(xs[..|xs| - 1]);
      assert forall i :: 0 <= i < |xs| - 1 ==> xs[i] == xs[..|xs| - 1][i];
      if xs[|xs| - 1] in init then init else init + [xs[|xs| - 1]]
  }

  /** De-duplication keeps the order of first occurrences: an element that
      comes earlier in the result first occurs earlier in the input. */
  lemma {:induction false} DedupFirstOccurrence<T>(xs: seq<T>)
    ensures forall i, j :: 0 <= i < j < |Dedup(xs)| ==> FirstIndex(xs, Dedup(xs)[i]) < FirstIndex(xs, Dedup(xs)[j])
    decreases |xs|
  {
    if |xs| > 0 {
      var init := xs[..|xs| - 1];
      var last := xs[|xs| - 1];
      DedupFirstOccurrence(init);
      assert init + [last] == xs;
      var di := Dedup(init);
      if last !in init {
        assert Dedup(xs) == di + [last];
        NewLastKeepsOrder(init, last, di);
      } else {
        assert Dedup(xs) == di;
        OldLastKeepsOrder(init, last, di);
      }
    }
  }

  /** Appending an element moves no first occurrence of the elements before it. */
  lemma FirstIndexSnoc<T>(init: seq<T>, last: T)
    ensures forall x :: x in init ==> x in init + [last] && FirstIndex(init + [last], x) == FirstIndex(init, x)
  {
    forall x | x in init ensures x in init + [last] && FirstIndex(init + [last], x) == FirstIndex(init, x) {
      FirstIndexPrefix(init, [last], x);
    }
  }

  lemma NewLastKeepsOrder<T>(init: seq<T>, last: T, di: seq<T>)
    requires last !in init
    requires forall i :: 0 <= i < |di| ==> di[i] in init
    requires forall i, j :: 0 <= i < j < |di| ==> FirstIndex(init, di[i]) < FirstIndex(init, di[j])
    ensures var xs, d := init + [last], di + [last];
            forall i, j :: 0 <= i < j < |d| ==> FirstIndex(xs, d[i]) < FirstIndex(xs, d[j])
  {
    var xs, d := init + [last], di + [last];
    FirstIndexSnoc(init, last);
    assert FirstIndex(xs, last) == |init|;
    forall i, j | 0 <= i < j < |d| ensures FirstIndex(xs, d[i]) < FirstIndex(xs, d[j]) {
      assert d[i] == di[i];
      if j < |di| {
        assert d[j] == di[j];
      }
    }
  }

  lemma OldLastKeepsOrder<T>(init: seq<T>, last: T, di: seq<T>)
    requires forall i :: 0 <= i < |di| ==> di[i] in init
    requires forall i, j :: 0 <= i < j < |di| ==> FirstIndex(init, di[i]) < FirstIndex(init, di[j])
    ensures forall i, j :: 0 <= i < j < |di| ==> FirstIndex(init + [last], di[i]) < FirstIndex(init + [last], di[j])
  {
    FirstIndexSnoc(init, last);
  }

  lemma {:induction false} FirstIndexPrefix<T>(a: seq<T>, b: seq<T>, x: T)
    requires x in a
    ensures x in a + b && FirstIndex(a + b, x) == FirstIndex(a, x)
    decreases |a|
  {
    if a[0] != x {
      assert (a + b)[1..] == a[1..] + b;
      FirstIndexPrefix(a[1..], b, x);
    }
  }

  /** A sequence without repetitions is its own de-duplication. */
  lemma {:induction false} DedupDistinct<T>(xs: seq<T>)
    requires Distinct(xs)
    ensures Dedup(xs) == xs
    decreases |xs|
  {
    if |xs| > 0 {
      var init := xs[..|xs| - 1];
      DedupDistinct(init);
      assert xs[|xs| - 1] !in init;
      assert init + [xs[|xs| - 1]] == xs;
    }
  }
}
