/** `std::map<std::string, V>` as an association list kept in strictly
    ascending key order.  Iterating a `std::map` visits keys in that order,
    which both the configuration serialiser and the status line of the
    value display rely on, so the order is part of the model rather than
    an implementation detail.  `ToMap` abstracts a list to a Dafny map. */
module OrderedMap {
  import opened Wrappers
  import opened Strings

  type Entries<V> = seq<(String, V)>

  /** Keys strictly ascending: the representation invariant of `std::map`. */
  predicate Ordered<V>(es: Entries<V>) {
    forall i, j :: 0 <= i < j < |es| ==> Less(es[i].0, es[j].0)
  }

  /** Every key of `es` sorts strictly after `lo`. */
  predicate AllAbove<V>(lo: String, es: Entries<V>) {
    forall i :: 0 <= i < |es| ==> Less(lo, es[i].0)
  }

  /** The set of keys present. */
  function KeySet<V>(es: Entries<V>): set<String> {
    set i | 0 <= i < |es| :: es[i].0
  }

  /** The abstract map; an earlier entry wins over a later one with the same key. */
  function ToMap<V>(es: Entries<V>): (m: map<String, V>)
    ensures m.Keys == KeySet(es)
  {
    if |es| == 0 then map[]
    else
      var m := ToMap(es[1..])[es[0].0 := es[0].1];
      assert KeySet(es) == KeySet(es[1..]) + {es[0].0} by {
        forall k | k in KeySet(es) ensures k in KeySet(es[1..]) + {es[0].0} {
          var i :| 0 <= i < |es| && es[i].0 == k;
          if i > 0 { assert es[1..][i - 1].0 == k; }
        }
        forall k | k in KeySet(es[1..]) ensures k in KeySet(es) {
          var i :| 0 <= i < |es[1..]| && es[1..][i].0 == k;
          assert es[i + 1].0 == k;
        }
      }
      m
  }

  /** The keys in iteration order (`getKeys`). */
  function Keys<V>(es: Entries<V>): (r: seq<String>)
    ensures |r| == |es|
    ensures forall i :: 0 <= i < |es| ==> r[i] == es[i].0
  {
    seq(|es|, i requires 0 <= i < |es| => es[i].0)
  }

  /** `map::find`: the value stored under `k`, if any. */
  function Lookup<V>(es: Entries<V>, k: String): (r: Option<V>)
    ensures r.Some? <==> k in ToMap(es)
    ensures r.Some? ==> r.value == ToMap(es)[k]
  {
    if |es| == 0 then None
    else if es[0].0 == k then Some(es[0].1)
    else Lookup(es[1..], k)
  }

  /** `m[k] = v`: overwrite the entry for `k`, or insert it in key order. */
  function Insert<V>(es: Entries<V>, k: String, v: V): (r: Entries<V>)
    ensures ToMap(r) == ToMap(es)[k := v]
  {
    if |es| == 0 then [(k, v)]
    else if es[0].0 == k then [(k, v)] + es[1..]
    else if Less(k, es[0].0) then [(k, v)] + es
    else
      var r := [es[0]] + Insert(es[1..], k, v);
      assert r[1..] == Insert(es[1..], k, v);
      r
  }

  /** `map::erase(k)`: drop the entry for `k`; absent keys change nothing. */
  function Remove<V>(es: Entries<V>, k: String): (r: Entries<V>)
    ensures ToMap(r) == ToMap(es) - {k}
  {
    if |es| == 0 then es
    else if es[0].0 == k then
      var r := Remove(es[1..], k);
      assert ToMap(es) - {k} == ToMap(es[1..]) - {k};
      r
    else
      var tail := Remove(es[1..], k);
      var r := [es[0]] + tail;
      assert ToMap(r) == ToMap(es) - {k} by {
        assert r[1..] == tail;
        assert ToMap(r) == ToMap(tail)[es[0].0 := es[0].1];
        MapUpdateRemove(ToMap(es[1..]), k, es[0].0, es[0].1);
      }
      r
  }

  /** Updating one key and removing a different one commute. */
  lemma MapUpdateRemove<V>(m: map<String, V>, k: String, a: String, v: V)
    requires a != k
    ensures (m - {k})[a := v] == m[a := v] - {k}
  {
  }

  /** Erasing a key that is absent leaves the list as it was. */
  lemma {:induction false} RemoveAbsent<V>(es: Entries<V>, k: String)
    requires k !in ToMap(es)
    ensures Remove(es, k) == es
  {
    if |es| > 0 {
      assert es[0].0 in KeySet(es);
      assert KeySet(es[1..]) <= KeySet(es) by {
        forall x | x in KeySet(es[1..]) ensures x in KeySet(es) {
          var i :| 0 <= i < |es[1..]| && es[1..][i].0 == x;
          assert es[i + 1].0 == x;
        }
      }
      RemoveAbsent(es[1..], k);
      assert es == [es[0]] + es[1..];
    }
  }

  // ---------------------------------------------------------------------
  // Order is preserved
  // ---------------------------------------------------------------------

  lemma {:induction false} InsertAbove<V>(es: Entries<V>, lo: String, k: String, v: V)
    requires AllAbove(lo, es) && Less(lo, k)
    ensures AllAbove(lo, Insert(es, k, v))
  {
    if |es| > 0 && es[0].0 != k && !Less(k, es[0].0) {
      InsertAbove(es[1..], lo, k, v);
      var r := Insert(es, k, v);
      assert r[1..] == Insert(es[1..], k, v);
    }
  }

  /** Inserting keeps the keys strictly ascending. */
  lemma {:induction false} InsertOrdered<V>(es: Entries<V>, k: String, v: V)
    requires Ordered(es)
    ensures Ordered(Insert(es, k, v))
  {
    if |es| == 0 {
    } else if es[0].0 == k {
    } else if Less(k, es[0].0) {
      var r := Insert(es, k, v);
      forall i, j | 0 <= i < j < |r| ensures Less(r[i].0, r[j].0) {
        if i == 0 && j > 1 {
          LessTransitive(k, es[0].0, es[j - 1].0);
        }
      }
    } else {
      LessTotal(k, es[0].0);
      InsertOrdered(es[1..], k, v);
      assert AllAbove(es[0].0, es[1..]);
      InsertAbove(es[1..], es[0].0, k, v);
      var r := Insert(es, k, v);
      assert r[1..] == Insert(es[1..], k, v);
    }
  }

  /** Removing keeps the keys strictly ascending. */
  lemma {:induction false} RemoveOrdered<V>(es: Entries<V>, k: String)
    requires Ordered(es)
    ensures Ordered(Remove(es, k))
    ensures forall lo :: AllAbove(lo, es) ==> AllAbove(lo, Remove(es, k))
  {
    if |es| > 0 {
      RemoveOrdered(es[1..], k);
      var r := Remove(es, k);
      forall lo | AllAbove(lo, es) ensures AllAbove(lo, es[1..]) {
        assert forall i :: 0 <= i < |es[1..]| ==> es[1..][i] == es[i + 1];
      }
      if es[0].0 != k {
        assert AllAbove(es[0].0, es[1..]);
        assert r[1..] == Remove(es[1..], k);
      }
    }
  }

  /** In an ordered list no key appears twice. */
  lemma OrderedDistinct<V>(es: Entries<V>)
    requires Ordered(es)
    ensures forall i, j :: 0 <= i < j < |es| ==> es[i].0 != es[j].0
  {
    forall i, j | 0 <= i < j < |es| ensures es[i].0 != es[j].0 {
      LessIrreflexive(es[i].0);
    }
  }

  /** Inserting a key above every present key appends it. */
  lemma {:induction false} InsertGreatest<V>(es: Entries<V>, k: String, v: V)
    requires forall i :: 0 <= i < |es| ==> Less(es[i].0, k)
    ensures Insert(es, k, v) == es + [(k, v)]
  {
    if |es| > 0 {
      LessIrreflexive(k);
      LessAsymmetric(es[0].0, k);
      InsertGreatest(es[1..], k, v);
      assert es == [es[0]] + es[1..];
    }
  }
}
