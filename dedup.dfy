/**
 * First-occurrence-wins deduplication: what a JavaScript `Map` or `Set`
 * holds after `if (!seen.has(k)) { seen.add(k); keep(x) }` has run over a
 * sequence in order. The catalog keeps the first article per slug this way,
 * the date index the first date per slug, and a `Set` of strings is this
 * with the identity as key.
 */
module Dedup {

  /** The keys of the elements of `s`. */
  function KeySet<T, K(==)>(s: seq<T>, key: T -> K): set<K> {
    set i | 0 <= i < |s| :: key(s[i])
  }

  lemma KeySetSnoc<T, K>(s: seq<T>, x: T, key: T -> K)
    ensures KeySet(s + [x], key) == KeySet(s, key) + {key(x)}
  {
    var t := s + [x];
    forall k | k in KeySet(t, key) ensures k in KeySet(s, key) + {key(x)} {
      var i :| 0 <= i < |t| && key(t[i]) == k;
      if i < |s| { assert t[i] == s[i]; }
    }
    forall k | k in KeySet(s, key) + {key(x)} ensures k in KeySet(t, key) {
      if k == key(x) {
        assert t[|s|] == x;
      } else {
        var i :| 0 <= i < |s| && key(s[i]) == k;
        assert t[i] == s[i];
      }
    }
  }

  /** Every element whose key was not seen earlier, in encounter order. */
  function DedupFirst<T, K(==)>(s: seq<T>, key: T -> K): (r: seq<T>)
    ensures KeySet(r, key) == KeySet(s, key)
    ensures forall i, j :: 0 <= i < j < |r| ==> key(r[i]) != key(r[j])
    decreases |s|
  {
    if |s| == 0 then []
    else
      var init, x := s[..|s| - 1], s[|s| - 1];
      var r := DedupFirst(init, key);
      assert s == init + [x];
      KeySetSnoc(init, x, key);
      if key(x) in KeySet(init, key) then r
      else
        KeySetSnoc(r, x, key);
        r + [x]
  }

  /** Appending an element keeps it exactly when its key is new. */
  lemma DedupSnoc<T, K>(s: seq<T>, x: T, key: T -> K)
    ensures DedupFirst(s + [x], key) ==
      if key(x) in KeySet(s, key) then DedupFirst(s, key) else DedupFirst(s, key) + [x]
  {
    assert (s + [x])[..|s|] == s;
  }

  /** A sequence whose keys are already distinct is its own deduplication. */
  lemma {:induction false} DedupDistinct<T, K>(s: seq<T>, key: T -> K)
    requires forall i, j :: 0 <= i < j < |s| ==> key(s[i]) != key(s[j])
    ensures DedupFirst(s, key) == s
  {
    if |s| > 0 {
      var init, x := s[..|s| - 1], s[|s| - 1];
      DedupDistinct(init, key);
      assert s == init + [x];
      assert key(x) !in KeySet(init, key);
    }
  }

  /** The first element of `s` carrying key `k`. */
  function FirstWithKey<T, K(==)>(s: seq<T>, key: T -> K, k: K): (x: T)
    requires k in KeySet(s, key)
    ensures x in s && key(x) == k
  {
    if key(s[0]) == k then s[0]
    else
      assert k in KeySet(s[1..], key) by {
        var i :| 0 <= i < |s| && key(s[i]) == k;
        assert s[1..][i - 1] == s[i];
      }
      FirstWithKey(s[1..], key, k)
  }

  /** Appending never changes which element came first for a key already present. */
  lemma {:induction false} FirstWithKeySnoc<T, K>(s: seq<T>, x: T, key: T -> K, k: K)
    requires k in KeySet(s, key)
    ensures k in KeySet(s + [x], key) && FirstWithKey(s + [x], key, k) == FirstWithKey(s, key, k)
  {
    KeySetSnoc(s, x, key);
    var t := s + [x];
    if key(s[0]) == k {
      assert t[0] == s[0];
    } else {
      assert t[1..] == s[1..] + [x];
      var i :| 0 <= i < |s| && key(s[i]) == k;
      assert s[1..][i - 1] == s[i];
      FirstWithKeySnoc(s[1..], x, key, k);
    }
  }

  /** The first element with a key that appears only at the end is that last element. */
  lemma {:induction false} FirstWithKeyFresh<T, K>(s: seq<T>, x: T, key: T -> K)
    requires key(x) !in KeySet(s, key)
    ensures key(x) in KeySet(s + [x], key) && FirstWithKey(s + [x], key, key(x)) == x
    decreases |s|
  {
    KeySetSnoc(s, x, key);
    var t := s + [x];
    if |s| == 0 {
      assert t[0] == x;
    } else {
      assert key(s[0]) in KeySet(s, key);
      assert t[0] == s[0];
      assert t[1..] == s[1..] + [x];
      assert KeySet(s[1..], key) <= KeySet(s, key) by {
        forall k | k in KeySet(s[1..], key) ensures k in KeySet(s, key) {
          var i :| 0 <= i < |s[1..]| && key(s[1..][i]) == k;
          assert s[1..][i] == s[i + 1];
        }
      }
      FirstWithKeyFresh(s[1..], x, key);
    }
  }

  /** Every element kept is the first one the input holds for its key. */
  lemma {:induction false} DedupKeepsFirst<T, K>(s: seq<T>, key: T -> K)
    ensures forall x :: x in DedupFirst(s, key) ==>
      key(x) in KeySet(s, key) && x == FirstWithKey(s, key, key(x))
    decreases |s|
  {
    if |s| > 0 {
      var init, last := s[..|s| - 1], s[|s| - 1];
      assert s == init + [last];
      DedupKeepsFirst(init, key);
      KeySetSnoc(init, last, key);
      forall x | x in DedupFirst(s, key)
        ensures key(x) in KeySet(s, key) && x == FirstWithKey(s, key, key(x))
      {
        if x in DedupFirst(init, key) {
          FirstWithKeySnoc(init, last, key, key(x));
        } else {
          assert x == last;
          FirstWithKeyFresh(init, last, key);
        }
      }
    }
  }

  /** Looking a key up in the deduplicated sequence finds the first element the input held for it. */
  lemma DedupLookup<T, K>(s: seq<T>, key: T -> K, k: K)
    requires k in KeySet(s, key)
    ensures k in KeySet(DedupFirst(s, key), key)
    ensures FirstWithKey(DedupFirst(s, key), key, k) == FirstWithKey(s, key, k)
  {
    var r := DedupFirst(s, key);
    DedupKeepsFirst(s, key);
    var y := FirstWithKey(r, key, k);
    assert y in r;
  }

  /** `set.add(x)` on a `Set` kept as its insertion order. */
  function AddNew(s: seq<string>, x: string): (r: seq<string>)
    ensures x in r
    ensures forall y :: y in r <==> y in s || y == x
  {
    if x in s then s else s + [x]
  }

  /** No element occurs twice. */
  predicate Distinct<T(==)>(s: seq<T>) {
    forall i, j :: 0 <= i < j < |s| ==> s[i] != s[j]
  }
}
