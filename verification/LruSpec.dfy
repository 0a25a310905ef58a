/** The LRU cache of internal/cache/lru.go as a sequence of entries, most recently used first. */
module LruSpec {

  datatype Entry = Entry(key: string, value: int, hits: int)

  predicate Has(es: seq<Entry>, key: string)
  {
    exists i :: 0 <= i < |es| && es[i].key == key
  }

  ghost predicate DistinctKeys(es: seq<Entry>)
  {
    forall i, j :: 0 <= i < j < |es| ==> es[i].key != es[j].key
  }

  /** The entry of a key that is present. */
  function Find(es: seq<Entry>, key: string): (e: Entry)
    requires Has(es, key)
    ensures e in es && e.key == key
  {
    if es[0].key == key then es[0] else Find(es[1..], key)
  }

  function Without(es: seq<Entry>, key: string): (r: seq<Entry>)
    ensures |r| <= |es|
  {
    if es == [] then []
    else if es[0].key == key then Without(es[1..], key)
    else [es[0]] + Without(es[1..], key)
  }

  /** A capacity below zero acts as zero: the eviction loop stops on an empty list. */
  function Limit(capacity: int): nat
  {
    if capacity < 0 then 0 else capacity
  }

  function Evict(capacity: int, es: seq<Entry>): seq<Entry>
  {
    if |es| <= Limit(capacity) then es else es[..Limit(capacity)]
  }

  /** What evictIfNeeded does: its zero-capacity case drops the entry in front. */
  function EvictIfNeeded(capacity: int, es: seq<Entry>): seq<Entry>
  {
    if capacity == 0 then (if es == [] then [] else es[1..]) else Evict(capacity, es)
  }

  /** The special case does what the loop would have done exactly when there is at most
      one entry to drop, which is all that Add leaves it. */
  lemma ZeroCapacityAgrees(es: seq<Entry>)
    ensures EvictIfNeeded(0, es) == Evict(0, es) <==> |es| <= 1
  {
    if |es| > 1 {
      assert |es[1..]| > 0;
    }
  }

  function Add(capacity: int, es: seq<Entry>, key: string, value: int): seq<Entry>
  {
    if Has(es, key) then [Entry(key, value, Find(es, key).hits + 1)] + Without(es, key)
    else Evict(capacity, [Entry(key, value, 1)] + es)
  }

  function Get(es: seq<Entry>, key: string): seq<Entry>
  {
    if Has(es, key) then
      var e := Find(es, key);
      [e.(hits := e.hits + 1)] + Without(es, key)
    else es
  }

  // ---------------------------------------------------------------- facts about the operations

  lemma {:induction false} WithoutHas(es: seq<Entry>, key: string, other: string)
    ensures Has(Without(es, key), other) <==> other != key && Has(es, other)
  {
    if es != [] {
      var rest := es[1..];
      WithoutHas(rest, key, other);
      HasFirst(es, other);
      if es[0].key != key {
        assert ([es[0]] + Without(rest, key))[1..] == Without(rest, key);
        HasFirst([es[0]] + Without(rest, key), other);
      }
    }
  }

  lemma HasFirst(es: seq<Entry>, key: string)
    requires es != []
    ensures Has(es, key) <==> es[0].key == key || Has(es[1..], key)
  {
    if Has(es[1..], key) {
      var i :| 0 <= i < |es[1..]| && es[1..][i].key == key;
      assert es[i + 1].key == key;
    }
    if Has(es, key) && es[0].key != key {
      var i :| 0 <= i < |es| && es[i].key == key;
      assert es[1..][i - 1].key == key;
    }
  }

  lemma {:induction false} WithoutAbsent(es: seq<Entry>, key: string)
    requires !Has(es, key)
    ensures Without(es, key) == es
  {
    if es != [] {
      HasFirst(es, key);
      WithoutAbsent(es[1..], key);
    }
  }

  /** With distinct keys, one entry goes and the others keep their places. */
  lemma {:induction false} WithoutAt(es: seq<Entry>, i: nat)
    requires DistinctKeys(es) && i < |es|
    ensures Without(es, es[i].key) == es[..i] + es[i + 1..]
    ensures Has(es, es[i].key) && Find(es, es[i].key) == es[i]
  {
    if i == 0 {
      assert !Has(es[1..], es[0].key);
      WithoutAbsent(es[1..], es[0].key);
    } else {
      assert es[1..][i - 1] == es[i];
      WithoutAt(es[1..], i - 1);
      assert es[..i] + es[i + 1..] == [es[0]] + (es[1..][..i - 1] + es[1..][i..]);
    }
  }

  ghost function Cut<T>(s: seq<T>, i: nat): seq<T>
    requires i < |s|
  {
    s[..i] + s[i + 1..]
  }

  lemma GetAt(es: seq<Entry>, i: nat)
    requires DistinctKeys(es) && i < |es|
    ensures Get(es, es[i].key) == [es[i].(hits := es[i].hits + 1)] + Cut(es, i)
  {
    WithoutAt(es, i);
  }

  lemma AddAt(capacity: int, es: seq<Entry>, i: nat, value: int)
    requires DistinctKeys(es) && i < |es|
    ensures Add(capacity, es, es[i].key, value) == [Entry(es[i].key, value, es[i].hits + 1)] + Cut(es, i)
  {
    WithoutAt(es, i);
  }

  lemma AddNew(capacity: int, es: seq<Entry>, key: string, value: int)
    requires !Has(es, key) && |es| <= Limit(capacity)
    ensures Add(capacity, es, key, value) == EvictIfNeeded(capacity, [Entry(key, value, 1)] + es)
  {
    if capacity == 0 {
      ZeroCapacityAgrees([Entry(key, value, 1)] + es);
    }
  }
}
