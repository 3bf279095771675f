/**
 * A JavaScript object filled key by key inside a `forEach`: each entry either
 * assigns `obj[key] = value` or is skipped, and a later assignment to the same
 * key replaces an earlier one.
 */
module Dict {
  import opened Wrappers

  /** `obj[key]` on an object whose every value is a string: `undefined` when absent. */
  function Get<V>(m: map<string, V>, k: string): Option<V> {
    if k in m then Some(m[k]) else None
  }

  /** One `obj[key] = value` assignment, or `None` for a skipped element. */
  type Entry<V> = Option<(string, V)>

  function Assign<V>(m: map<string, V>, e: Entry<V>): map<string, V> {
    if e.Some? then m[e.value.0 := e.value.1] else m
  }

  /** The object after applying `es` in order, starting from `m`. */
  function Fold<V>(m: map<string, V>, es: seq<Entry<V>>): map<string, V>
    decreases |es|
  {
    if |es| == 0 then m else Assign(Fold(m, es[..|es| - 1]), es[|es| - 1])
  }

  /** One more element of the sequence is one more assignment. */
  lemma FoldStep<V>(m: map<string, V>, es: seq<Entry<V>>, i: nat)
    requires i < |es|
    ensures Fold(m, es[..i + 1]) == Assign(Fold(m, es[..i]), es[i])
  {
    assert es[..i + 1][..i] == es[..i];
  }

  predicate Sets<V>(es: seq<Entry<V>>, i: int, k: string)
    requires 0 <= i < |es|
  {
    es[i].Some? && es[i].value.0 == k
  }

  /** A key no entry assigns keeps its presence and value. */
  lemma {:induction false} FoldUntouched<V>(m: map<string, V>, es: seq<Entry<V>>, k: string)
    requires forall i :: 0 <= i < |es| ==> !Sets(es, i, k)
    ensures k in Fold(m, es) <==> k in m
    ensures k in m ==> Fold(m, es)[k] == m[k]
    decreases |es|
  {
    if |es| > 0 {
      var init := es[..|es| - 1];
      assert forall i :: 0 <= i < |init| ==> Sets(init, i, k) == Sets(es, i, k);
      FoldUntouched(m, init, k);
      assert !Sets(es, |es| - 1, k);
    }
  }

  /** The last entry that assigns a key decides its value. */
  lemma {:induction false} FoldLastWins<V>(m: map<string, V>, es: seq<Entry<V>>, k: string, i: int)
    requires 0 <= i < |es| && Sets(es, i, k)
    requires forall j :: i < j < |es| ==> !Sets(es, j, k)
    ensures k in Fold(m, es) && Fold(m, es)[k] == es[i].value.1
    decreases |es|
  {
    var init := es[..|es| - 1];
    assert forall j :: 0 <= j < |init| ==> Sets(init, j, k) == Sets(es, j, k);
    if i < |es| - 1 {
      FoldLastWins(m, init, k, i);
      assert !Sets(es, |es| - 1, k);
    }
  }

  /** Assignments never remove a key. */
  lemma {:induction false} FoldKeepsKeys<V>(m: map<string, V>, es: seq<Entry<V>>)
    ensures m.Keys <= Fold(m, es).Keys
    decreases |es|
  {
    if |es| > 0 {
      FoldKeepsKeys(m, es[..|es| - 1]);
    }
  }

  /** A present key holds its value from `m` or the value of some entry that assigns it. */
  lemma {:induction false} FoldValueFrom<V>(m: map<string, V>, es: seq<Entry<V>>, k: string)
    requires k in Fold(m, es)
    ensures (k in m && Fold(m, es)[k] == m[k]) ||
      exists i :: 0 <= i < |es| && Sets(es, i, k) && Fold(m, es)[k] == es[i].value.1
    decreases |es|
  {
    if |es| > 0 {
      var init := es[..|es| - 1];
      if Sets(es, |es| - 1, k) {
        assert Fold(m, es)[k] == es[|es| - 1].value.1;
      } else {
        FoldValueFrom(m, init, k);
        if !(k in m && Fold(m, init)[k] == m[k]) {
          var i :| 0 <= i < |init| && Sets(init, i, k) && Fold(m, init)[k] == init[i].value.1;
          assert Sets(es, i, k);
        }
      }
    }
  }

  /** Assigning every key of `m` once, starting from the empty object, builds `m`. */
  lemma FoldOfListing<V>(m: map<string, V>, ks: seq<string>, es: seq<Entry<V>>)
    requires |es| == |ks|
    requires forall i :: 0 <= i < |ks| ==> ks[i] in m && es[i] == Some((ks[i], m[ks[i]]))
    requires forall k :: k in m ==> k in ks
    requires forall i, j :: 0 <= i < j < |ks| ==> ks[i] != ks[j]
    ensures Fold(map[], es) == m
  {
    var p := Fold(map[], es);
    forall k | k in m
      ensures k in p && p[k] == m[k]
    {
      var i :| 0 <= i < |ks| && ks[i] == k;
      assert Sets(es, i, k);
      FoldLastWins(map[], es, k, i);
    }
    forall k | k in p
      ensures k in m
    {
      FoldKeys(map[], es, k);
    }
  }

  /** Only keys of `m` or keys some entry assigns are present afterwards. */
  lemma {:induction false} FoldKeys<V>(m: map<string, V>, es: seq<Entry<V>>, k: string)
    requires k in Fold(m, es)
    ensures k in m || exists i :: 0 <= i < |es| && Sets(es, i, k)
    decreases |es|
  {
    if |es| > 0 {
      var init := es[..|es| - 1];
      assert forall j :: 0 <= j < |init| ==> Sets(init, j, k) == Sets(es, j, k);
      if !Sets(es, |es| - 1, k) {
        FoldKeys(m, init, k);
        if !(k in m) {
          var i :| 0 <= i < |init| && Sets(init, i, k);
          assert Sets(es, i, k);
        }
      }
    }
  }
}
