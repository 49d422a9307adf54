/**
 * Concatenating the lists one function makes of each element of a sequence:
 * the shape of every validator loop that pushes zero or more messages per
 * item.
 */
module Seqs {
  import opened Strings

  function ConcatMap<T, U>(xs: seq<T>, f: T -> seq<U>): (r: seq<U>)
    ensures |xs| == 0 ==> r == []
  {
    if |xs| == 0 then [] else ConcatMap(xs[..|xs| - 1], f) + f(xs[|xs| - 1])
  }

  lemma ConcatMapSnoc<T, U>(xs: seq<T>, f: T -> seq<U>, i: nat)
    requires i < |xs|
    ensures ConcatMap(xs[..i + 1], f) == ConcatMap(xs[..i], f) + f(xs[i])
  {
    assert xs[..i + 1][..i] == xs[..i];
  }

  /** An element of the concatenation comes from the list of some item, and every such element is kept. */
  lemma {:induction false} ConcatMapIn<T, U>(xs: seq<T>, f: T -> seq<U>, e: U)
    ensures e in ConcatMap(xs, f) <==> exists i :: 0 <= i < |xs| && e in f(xs[i])
  {
    if |xs| > 0 {
      var init := xs[..|xs| - 1];
      ConcatMapIn(init, f, e);
      if e in ConcatMap(xs, f) {
        if e in ConcatMap(init, f) {
          var i :| 0 <= i < |init| && e in f(init[i]);
          assert xs[i] == init[i];
        }
      } else {
        forall i | 0 <= i < |xs| ensures e !in f(xs[i]) {
          if i < |init| {
            assert xs[i] == init[i];
          }
        }
      }
    }
  }

  /** The concatenation of one list per item, each without repeats and no two sharing an element, has no repeats. */
  lemma {:induction false} ConcatMapDistinct<T, U>(xs: seq<T>, f: T -> seq<U>)
    requires forall i :: 0 <= i < |xs| ==> forall p, q :: 0 <= p < q < |f(xs[i])| ==> f(xs[i])[p] != f(xs[i])[q]
    requires forall i, j :: 0 <= i < j < |xs| ==> forall e :: e in f(xs[i]) ==> e !in f(xs[j])
    ensures forall p, q :: 0 <= p < q < |ConcatMap(xs, f)| ==> ConcatMap(xs, f)[p] != ConcatMap(xs, f)[q]
  {
    if |xs| > 0 {
      var init := xs[..|xs| - 1];
      var last := f(xs[|xs| - 1]);
      var a := ConcatMap(init, f);
      ConcatMapDistinct(init, f);
      forall p, q | 0 <= p < q < |a + last| ensures (a + last)[p] != (a + last)[q] {
        if q >= |a| && p < |a| {
          ConcatMapIn(init, f, a[p]);
          var i :| 0 <= i < |init| && a[p] in f(init[i]);
          assert init[i] == xs[i];
          assert last[q - |a|] in last;
        }
      }
    }
  }

  /** A loop over `items` whose body may throw: `None` once a step has thrown. */
  function FoldOpt<S, T>(step: (S, T) -> Option<S>, start: S, items: seq<T>): (r: Option<S>)
    ensures |items| == 0 ==> r == Some(start)
  {
    if |items| == 0 then Some(start)
    else
      match FoldOpt(step, start, items[..|items| - 1])
      case None => None
      case Some(s) => step(s, items[|items| - 1])
  }

  lemma FoldOptSnoc<S, T>(step: (S, T) -> Option<S>, start: S, items: seq<T>, i: nat)
    requires i < |items|
    ensures FoldOpt(step, start, items[..i + 1]) ==
      match FoldOpt(step, start, items[..i])
      case None => None
      case Some(s) => step(s, items[i])
  {
    assert items[..i + 1][..i] == items[..i];
  }

  /** Once a step has thrown, the loop as a whole throws. */
  lemma {:induction false} FoldOptStuck<S, T>(step: (S, T) -> Option<S>, start: S, items: seq<T>, i: nat)
    requires i <= |items| && FoldOpt(step, start, items[..i]).None?
    ensures FoldOpt(step, start, items).None?
  {
    if i < |items| {
      var init := items[..|items| - 1];
      assert init[..i] == items[..i];
      if i < |items| - 1 {
        FoldOptStuck(step, start, init, i);
      } else {
        assert init == items[..i];
      }
    } else {
      assert items[..i] == items;
    }
  }

  /** Item `j` satisfies `p` and no later item does. */
  predicate LastWhere<T>(xs: seq<T>, p: T -> bool, j: nat) {
    j < |xs| && p(xs[j]) && forall k :: j < k < |xs| ==> !p(xs[k])
  }

  /** Appending an item that fails `p` keeps the last one that satisfies it. */
  lemma LastWhereSnoc<T>(xs: seq<T>, x: T, p: T -> bool, j: nat)
    requires LastWhere(xs, p, j) && !p(x)
    ensures LastWhere(xs + [x], p, j)
  {
    var ys := xs + [x];
    assert ys[j] == xs[j];
    forall k | j < k < |ys| ensures !p(ys[k]) {
      if k < |xs| {
        assert ys[k] == xs[k];
      }
    }
  }

  /** At most one item is the last to satisfy `p`. */
  lemma LastWhereUnique<T>(xs: seq<T>, p: T -> bool, j: nat, k: nat)
    requires LastWhere(xs, p, j) && LastWhere(xs, p, k)
    ensures j == k
  {
  }
}
