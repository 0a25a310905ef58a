/** Facts about whole runs of the LRU cache: what it holds, and how capacities compare. */
module LruTheorems {
  import opened LruSpec

  datatype Op = AddOp(key: string, value: int) | GetOp(key: string) | RemoveOp(key: string)

  function Apply(capacity: int, es: seq<Entry>, op: Op): seq<Entry>
  {
    match op
    case AddOp(key, value) => Add(capacity, es, key, value)
    case GetOp(key) => Get(es, key)
    case RemoveOp(key) => Without(es, key)
  }

  /** The contents of a new cache after the operations, the last one at the end. */
  function Run(capacity: int, ops: seq<Op>): seq<Entry>
    decreases |ops|
  {
    if ops == [] then []
    else Apply(capacity, Run(capacity, ops[..|ops| - 1]), ops[|ops| - 1])
  }

  /** What every reachable cache satisfies. */
  ghost predicate Sound(capacity: int, es: seq<Entry>)
  {
    DistinctKeys(es) && |es| <= Limit(capacity) && forall i :: 0 <= i < |es| ==> es[i].hits >= 1
  }

  lemma WithoutSound(capacity: int, es: seq<Entry>, key: string)
    requires Sound(capacity, es)
    ensures Sound(capacity, Without(es, key)) && !Has(Without(es, key), key)
    ensures Has(es, key) ==> |Without(es, key)| == |es| - 1
  {
    WithoutHas(es, key, key);
    if Has(es, key) {
      var i :| 0 <= i < |es| && es[i].key == key;
      WithoutAt(es, i);
      CutSound(capacity, es, i);
    } else {
      WithoutAbsent(es, key);
    }
  }

  lemma CutSound(capacity: int, es: seq<Entry>, i: nat)
    requires Sound(capacity, es) && i < |es|
    ensures Sound(capacity, Cut(es, i)) && |Cut(es, i)| == |es| - 1
  {
    var cut := Cut(es, i);
    assert forall k :: 0 <= k < |cut| ==> cut[k] == es[if k < i then k else k + 1];
  }

  /** An entry comes to the front of others with room for it. */
  lemma FrontSound(capacity: int, e: Entry, rest: seq<Entry>)
    requires Sound(capacity, rest) && !Has(rest, e.key) && e.hits >= 1 && |rest| < Limit(capacity)
    ensures Sound(capacity, [e] + rest)
  {
  }

  /** Or takes the place of the last one. */
  lemma PushSound(capacity: int, e: Entry, rest: seq<Entry>)
    requires Sound(capacity, rest) && !Has(rest, e.key) && e.hits >= 1
    ensures Sound(capacity, Evict(capacity, [e] + rest))
  {
    var pushed := [e] + rest;
    assert DistinctKeys(pushed) && forall k :: 0 <= k < |pushed| ==> pushed[k].hits >= 1;
    var evicted := Evict(capacity, pushed);
    assert evicted == pushed[..|evicted|];
  }

  lemma ApplySound(capacity: int, es: seq<Entry>, op: Op)
    requires Sound(capacity, es)
    ensures Sound(capacity, Apply(capacity, es, op))
  {
    WithoutSound(capacity, es, op.key);
    if Has(es, op.key) {
      if !op.RemoveOp? {
        assert Find(es, op.key).hits >= 1;
        FrontSound(capacity, Apply(capacity, es, op)[0], Without(es, op.key));
      }
    } else if op.AddOp? {
      PushSound(capacity, Entry(op.key, op.value, 1), es);
    } else {
      WithoutAbsent(es, op.key);
    }
  }

  lemma {:induction false} RunSound(capacity: int, ops: seq<Op>)
    ensures Sound(capacity, Run(capacity, ops))
    decreases |ops|
  {
    if ops != [] {
      RunSound(capacity, ops[..|ops| - 1]);
      ApplySound(capacity, Run(capacity, ops[..|ops| - 1]), ops[|ops| - 1]);
    }
  }

  // ---------------------------------------------------------------- a smaller cache beside a larger one

  /** The same key and value, and no more hits. */
  predicate Matches(e: Entry, f: Entry)
  {
    e.key == f.key && e.value == f.value && e.hits <= f.hits
  }

  /** `small` is `large` with some entries left out. */
  predicate Within(small: seq<Entry>, large: seq<Entry>)
  {
    if small == [] then true
    else if large == [] then false
    else if small[0].key == large[0].key then Matches(small[0], large[0]) && Within(small[1..], large[1..])
    else Within(small, large[1..])
  }

  lemma {:induction false} WithinHas(small: seq<Entry>, large: seq<Entry>, key: string)
    requires Within(small, large) && Has(small, key)
    ensures Has(large, key)
    ensures DistinctKeys(large) && DistinctKeys(small) ==> Matches(Find(small, key), Find(large, key))
  {
    HasFirst(small, key);
    HasFirst(large, key);
    if small[0].key == large[0].key {
      if small[0].key != key {
        WithinHas(small[1..], large[1..], key);
      }
    } else {
      WithinHas(small, large[1..], key);
      HasFirst(small, key);
    }
  }

  lemma {:induction false} WithinWithout(small: seq<Entry>, large: seq<Entry>, key: string)
    requires Within(small, large) && DistinctKeys(small) && DistinctKeys(large)
    ensures Within(Without(small, key), Without(large, key))
    decreases |large|
  {
    if small != [] {
      if small[0].key == large[0].key {
        WithinWithout(small[1..], large[1..], key);
        if small[0].key != key {
          var s, l := [small[0]] + Without(small[1..], key), [large[0]] + Without(large[1..], key);
          assert s[1..] == Without(small[1..], key) && l[1..] == Without(large[1..], key);
        }
      } else {
        WithinWithout(small, large[1..], key);
        if large[0].key != key {
          if Has(small, large[0].key) {
            WithinHas(small, large[1..], large[0].key);
          }
          assert !Has(small, large[0].key);
          WithoutHas(small, key, large[0].key);
          var s, l := Without(small, key), [large[0]] + Without(large[1..], key);
          assert l[1..] == Without(large[1..], key);
          if s != [] {
            HasFirst(s, large[0].key);
          }
        }
      }
    }
  }

  /** Dropping from the end of the smaller list. */
  lemma {:induction false} WithinTake(small: seq<Entry>, large: seq<Entry>, n: nat)
    requires Within(small, large) && n <= |small|
    ensures Within(small[..n], large)
    decreases |large|
  {
    if n > 0 {
      if small[0].key == large[0].key {
        WithinTake(small[1..], large[1..], n - 1);
        assert small[..n][1..] == small[1..][..n - 1];
      } else {
        WithinTake(small, large[1..], n);
      }
    }
  }

  /** Dropping the last entry of both. */
  lemma {:induction false} WithinDropLast(small: seq<Entry>, large: seq<Entry>)
    requires Within(small, large) && small != []
    ensures large != [] && Within(small[..|small| - 1], large[..|large| - 1])
    decreases |large|
  {
    if small[0].key == large[0].key {
      if |small| > 1 {
        WithinDropLast(small[1..], large[1..]);
        assert small[..|small| - 1][1..] == small[1..][..|small| - 2];
        assert large[..|large| - 1][1..] == large[1..][..|large| - 2];
      }
    } else {
      WithinDropLast(small, large[1..]);
      assert large[..|large| - 1][1..] == large[1..][..|large| - 2];
    }
  }

  lemma WithinPush(e: Entry, small: seq<Entry>, f: Entry, large: seq<Entry>)
    requires Matches(e, f) && Within(small, large)
    ensures Within([e] + small, [f] + large)
  {
    assert ([e] + small)[1..] == small && ([f] + large)[1..] == large;
  }

  /** Under the bound on what the larger cache has beyond the smaller, a new key keeps the
      lists nested: when the larger one must drop its last entry, so must the smaller. */
  lemma WithinNew(c: int, d: int, small: seq<Entry>, large: seq<Entry>, e: Entry, f: Entry)
    requires c <= d && Within(small, large) && Matches(e, f)
    requires |small| <= Limit(c) && |large| <= Limit(d) && |large| - |small| <= Limit(d) - Limit(c)
    ensures Within(Evict(c, [e] + small), Evict(d, [f] + large))
  {
    WithinPush(e, small, f, large);
    WithinEvict(c, d, [e] + small, [f] + large);
  }

  lemma WithinEvict(c: int, d: int, small: seq<Entry>, large: seq<Entry>)
    requires c <= d && Within(small, large)
    requires |small| <= Limit(c) + 1 && |large| <= Limit(d) + 1 && |large| - |small| <= Limit(d) - Limit(c)
    ensures Within(Evict(c, small), Evict(d, large))
  {
    if |large| > Limit(d) {
      WithinDropLast(small, large);
    } else if |small| > Limit(c) {
      WithinTake(small, large, Limit(c));
    }
  }

  /** A new key in the smaller cache that the larger one still had. */
  lemma WithinRevived(c: int, small: seq<Entry>, large: seq<Entry>, e: Entry, f: Entry)
    requires Within(small, large) && Matches(e, f)
    ensures Within(Evict(c, [e] + small), [f] + large)
  {
    WithinPush(e, small, f, large);
    if |small| + 1 > Limit(c) {
      WithinTake([e] + small, [f] + large, Limit(c));
    }
  }

  /** Two caches of capacities c <= d stand side by side after the same operations. */
  ghost predicate Nested(c: int, d: int, small: seq<Entry>, large: seq<Entry>)
  {
    && Sound(c, small) && Sound(d, large)
    && Within(small, large) && |large| - |small| <= Limit(d) - Limit(c)
  }

  lemma NestedRemove(c: int, d: int, small: seq<Entry>, large: seq<Entry>, key: string)
    requires c <= d && Nested(c, d, small, large)
    ensures Nested(c, d, Without(small, key), Without(large, key))
  {
    WithinWithout(small, large, key);
    WithoutSound(c, small, key);
    WithoutSound(d, large, key);
    if Has(small, key) {
      WithinHas(small, large, key);
    } else {
      WithoutAbsent(small, key);
    }
  }

  /** A key that both hold moves to the front of both. */
  lemma NestedHit(c: int, d: int, small: seq<Entry>, large: seq<Entry>, op: Op)
    requires c <= d && Nested(c, d, small, large) && Has(small, op.key) && !op.RemoveOp?
    ensures Nested(c, d, Apply(c, small, op), Apply(d, large, op))
  {
    NestedRemove(c, d, small, large, op.key);
    WithinHas(small, large, op.key);
    WithoutSound(c, small, op.key);
    WithoutSound(d, large, op.key);
    ApplySound(c, small, op);
    ApplySound(d, large, op);
    WithinPush(Apply(c, small, op)[0], Without(small, op.key), Apply(d, large, op)[0], Without(large, op.key));
  }

  lemma NestedGetMiss(c: int, d: int, small: seq<Entry>, large: seq<Entry>, key: string)
    requires c <= d && Nested(c, d, small, large) && !Has(small, key)
    ensures Nested(c, d, small, Get(large, key))
  {
    if Has(large, key) {
      NestedRemove(c, d, small, large, key);
      WithoutAbsent(small, key);
      WithoutSound(d, large, key);
      ApplySound(d, large, GetOp(key));
      WithinSkip(small, Get(large, key)[0], Without(large, key));
    }
  }

  lemma NestedAddMiss(c: int, d: int, small: seq<Entry>, large: seq<Entry>, key: string, value: int)
    requires c <= d && Nested(c, d, small, large) && !Has(small, key)
    ensures Nested(c, d, Add(c, small, key, value), Add(d, large, key, value))
  {
    ApplySound(c, small, AddOp(key, value));
    ApplySound(d, large, AddOp(key, value));
    var e := Entry(key, value, 1);
    if Has(large, key) {
      NestedRemove(c, d, small, large, key);
      WithoutAbsent(small, key);
      WithoutSound(d, large, key);
      WithinRevived(c, small, Without(large, key), e, Add(d, large, key, value)[0]);
    } else {
      WithinNew(c, d, small, large, e, e);
    }
  }

  lemma NestedApply(c: int, d: int, small: seq<Entry>, large: seq<Entry>, op: Op)
    requires c <= d && Nested(c, d, small, large)
    ensures Nested(c, d, Apply(c, small, op), Apply(d, large, op))
  {
    match op
    case RemoveOp(key) => NestedRemove(c, d, small, large, key);
    case AddOp(key, value) =>
      if Has(small, key) { NestedHit(c, d, small, large, op); } else { NestedAddMiss(c, d, small, large, key, value); }
    case GetOp(key) =>
      if Has(small, key) { NestedHit(c, d, small, large, op); } else { NestedGetMiss(c, d, small, large, key); }
  }

  lemma WithinSkip(small: seq<Entry>, f: Entry, large: seq<Entry>)
    requires Within(small, large) && !Has(small, f.key)
    ensures Within(small, [f] + large)
  {
    assert ([f] + large)[1..] == large;
    if small != [] {
      HasFirst(small, f.key);
    }
  }

  lemma {:induction false} RunsNest(c: int, d: int, ops: seq<Op>)
    requires c <= d
    ensures Nested(c, d, Run(c, ops), Run(d, ops))
    decreases |ops|
  {
    if ops != [] {
      var before := ops[..|ops| - 1];
      RunsNest(c, d, before);
      NestedApply(c, d, Run(c, before), Run(d, before), ops[|ops| - 1]);
    }
  }

  /** `at` says where each entry of `small` is in `large`. */
  ghost predicate Embeds(small: seq<Entry>, large: seq<Entry>, at: seq<nat>)
  {
    && |at| == |small|
    && (forall i, j :: 0 <= i < j < |at| ==> at[i] < at[j])
    && (forall i :: 0 <= i < |at| ==> at[i] < |large| && Matches(small[i], large[at[i]]))
  }

  lemma {:induction false} WithinEmbeds(small: seq<Entry>, large: seq<Entry>) returns (at: seq<nat>)
    requires Within(small, large)
    ensures Embeds(small, large, at)
    decreases |large|
  {
    if small == [] {
      at := [];
    } else {
      var rest;
      if small[0].key == large[0].key {
        rest := WithinEmbeds(small[1..], large[1..]);
        at := [0] + seq(|rest|, i requires 0 <= i < |rest| => rest[i] + 1);
        assert forall i :: 0 < i < |small| ==> small[i] == small[1..][i - 1];
      } else {
        rest := WithinEmbeds(small, large[1..]);
        at := seq(|rest|, i requires 0 <= i < |rest| => rest[i] + 1);
      }
    }
  }

  /** LRU inclusion: after the same operations, removals included, a cache of smaller
      capacity holds a subsequence of what the larger one holds, with equal values. */
  lemma Inclusion(c: int, d: int, ops: seq<Op>)
    requires c <= d
    ensures exists at :: Embeds(Run(c, ops), Run(d, ops), at)
    ensures |Run(d, ops)| - |Run(c, ops)| <= Limit(d) - Limit(c)
    ensures forall key :: Has(Run(c, ops), key) ==>
              Has(Run(d, ops), key) && Find(Run(c, ops), key).value == Find(Run(d, ops), key).value
  {
    RunsNest(c, d, ops);
    var at := WithinEmbeds(Run(c, ops), Run(d, ops));
    forall key | Has(Run(c, ops), key)
      ensures Has(Run(d, ops), key) && Find(Run(c, ops), key).value == Find(Run(d, ops), key).value
    {
      WithinHas(Run(c, ops), Run(d, ops), key);
    }
  }

  // ---------------------------------------------------------------- the last N distinct keys

  function Minus(keys: seq<string>, key: string): seq<string>
  {
    if keys == [] then []
    else if keys[0] == key then Minus(keys[1..], key)
    else [keys[0]] + Minus(keys[1..], key)
  }

  function First(n: nat, keys: seq<string>): seq<string>
  {
    if |keys| <= n then keys else keys[..n]
  }

  /** The distinct keys of a trace, the one used last in front. */
  function Recent(trace: seq<string>): seq<string>
    decreases |trace|
  {
    if trace == [] then []
    else
      var key := trace[|trace| - 1];
      [key] + Minus(Recent(trace[..|trace| - 1]), key)
  }

  /** The effective accesses: every Add, and each Get of one of the last N distinct keys.
      This says what an LRU cache is without any cache. */
  function Accesses(capacity: int, ops: seq<Op>): seq<string>
    decreases |ops|
  {
    if ops == [] then []
    else
      var trace := Accesses(capacity, ops[..|ops| - 1]);
      match ops[|ops| - 1]
      case AddOp(key, _) => trace + [key]
      case GetOp(key) => if key in First(Limit(capacity), Recent(trace)) then trace + [key] else trace
      case RemoveOp(_) => trace
  }

  function Keys(es: seq<Entry>): (keys: seq<string>)
    ensures |keys| == |es| && forall i :: 0 <= i < |es| ==> keys[i] == es[i].key
  {
    if es == [] then [] else [es[0].key] + Keys(es[1..])
  }

  lemma {:induction false} KeysWithout(es: seq<Entry>, key: string)
    ensures Keys(Without(es, key)) == Minus(Keys(es), key)
  {
    if es != [] {
      KeysWithout(es[1..], key);
    }
  }

  lemma {:induction false} MinusMember(keys: seq<string>, key: string, other: string)
    ensures other in Minus(keys, key) <==> other in keys && other != key
  {
    if keys != [] {
      MinusMember(keys[1..], key, other);
    }
  }

  ghost predicate Unrepeated(keys: seq<string>)
  {
    forall i, j :: 0 <= i < j < |keys| ==> keys[i] != keys[j]
  }

  /** Taking a key out of a list without repetitions moves only what stands behind it. */
  lemma {:induction false} MinusAt(keys: seq<string>, key: string) returns (i: nat)
    requires Unrepeated(keys)
    ensures i <= |keys| && (i < |keys| <==> key in keys) && (i < |keys| ==> keys[i] == key)
    ensures Minus(keys, key) == if i < |keys| then keys[..i] + keys[i + 1..] else keys
  {
    if keys == [] || keys[0] == key {
      i := 0;
      if keys != [] {
        assert key !in keys[1..];
        var k := MinusAt(keys[1..], key);
      }
    } else {
      i := MinusAt(keys[1..], key);
      i := i + 1;
      if i < |keys| {
        assert keys[..i] + keys[i + 1..] == [keys[0]] + (keys[1..][..i - 1] + keys[1..][i..]);
      }
    }
  }

  lemma {:induction false} RecentUnrepeated(trace: seq<string>)
    ensures Unrepeated(Recent(trace))
    decreases |trace|
  {
    if trace != [] {
      var before, key := Recent(trace[..|trace| - 1]), trace[|trace| - 1];
      RecentUnrepeated(trace[..|trace| - 1]);
      var i := MinusAt(before, key);
      MinusMember(before, key, key);
    }
  }

  /** The first n keys after an access, from the first n before it. */
  lemma FirstAccessed(n: nat, keys: seq<string>, key: string)
    requires Unrepeated(keys)
    ensures First(n, [key] + Minus(keys, key))
         == if key in First(n, keys) then [key] + Minus(First(n, keys), key) else First(n, [key] + First(n, keys))
  {
    var i := MinusAt(keys, key);
    if i < n && i < |keys| {
      assert First(n, keys)[i] == key;
      FirstHit(n, keys, i);
    } else {
      assert key !in First(n, keys);
      assert First(n, Minus(keys, key)) == First(n, keys);
      FirstPush(n, key, Minus(keys, key));
      FirstPush(n, key, First(n, keys));
    }
  }

  lemma FirstPush(n: nat, key: string, keys: seq<string>)
    ensures First(n, [key] + keys) == First(n, [key] + First(n, keys))
  {
  }

  lemma FirstHit(n: nat, keys: seq<string>, i: nat)
    requires Unrepeated(keys) && i < n && i < |keys|
    ensures First(n, [keys[i]] + Minus(keys, keys[i])) == [keys[i]] + Minus(First(n, keys), keys[i])
  {
    MinusPlace(keys, i);
    if |keys| > n {
      MinusPlace(keys[..n], i);
      TakeCut(keys, i, n);
    }
  }

  lemma MinusPlace(keys: seq<string>, i: nat)
    requires Unrepeated(keys) && i < |keys|
    ensures Minus(keys, keys[i]) == keys[..i] + keys[i + 1..]
  {
    var k := MinusAt(keys, keys[i]);
    assert k == i;
  }

  lemma TakeCut(keys: seq<string>, i: nat, n: nat)
    requires i < n < |keys|
    ensures ([keys[i]] + (keys[..i] + keys[i + 1..]))[..n] == [keys[i]] + (keys[..n][..i] + keys[..n][i + 1..])
  {
  }

  predicate RemoveFree(ops: seq<Op>)
  {
    forall i :: 0 <= i < |ops| ==> !ops[i].RemoveOp?
  }

  lemma HasKeys(es: seq<Entry>, key: string)
    ensures Has(es, key) <==> key in Keys(es)
  {
    if Has(es, key) {
      var i :| 0 <= i < |es| && es[i].key == key;
      assert Keys(es)[i] == key;
    }
  }

  /** After any run without removals the cache lists exactly the last `capacity` distinct
      keys by effective access, most recent first, and a Get hits exactly those. */
  lemma {:induction false} LastDistinctKeys(capacity: int, ops: seq<Op>)
    requires RemoveFree(ops)
    ensures Keys(Run(capacity, ops)) == First(Limit(capacity), Recent(Accesses(capacity, ops)))
    decreases |ops|
  {
    if ops != [] {
      var before, op := ops[..|ops| - 1], ops[|ops| - 1];
      var es, recent := Run(capacity, before), Recent(Accesses(capacity, before));
      var n, key := Limit(capacity), op.key;
      LastDistinctKeys(capacity, before);
      RunSound(capacity, before);
      RecentUnrepeated(Accesses(capacity, before));
      FirstAccessed(n, recent, key);
      KeysWithout(es, key);
      HasKeys(es, key);
      var trace := Accesses(capacity, before);
      assert (trace + [key])[..|trace|] == trace;
      assert Recent(trace + [key]) == [key] + Minus(recent, key);
      if !Has(es, key) && op.AddOp? {
        assert Keys([Entry(key, op.value, 1)] + es) == [key] + Keys(es);
        KeysEvict(capacity, [Entry(key, op.value, 1)] + es);
      }
    }
  }

  lemma KeysEvict(capacity: int, es: seq<Entry>)
    ensures Keys(Evict(capacity, es)) == First(Limit(capacity), Keys(es))
  {
  }

  /** The place of the last use of a key. */
  function LastUse(trace: seq<string>, key: string): (i: nat)
    requires key in trace
    ensures i < |trace| && trace[i] == key && key !in trace[i + 1..]
    decreases |trace|
  {
    var last := |trace| - 1;
    if trace[last] == key then last
    else
      assert trace == trace[..last] + [trace[last]];
      var i := LastUse(trace[..last], key);
      assert trace[i + 1..] == trace[..last][i + 1..] + [trace[last]];
      i
  }

  lemma {:induction false} RecentMember(trace: seq<string>, key: string)
    ensures key in Recent(trace) <==> key in trace
    decreases |trace|
  {
    if trace != [] {
      var last := |trace| - 1;
      RecentMember(trace[..last], key);
      MinusMember(Recent(trace[..last]), trace[last], key);
      assert trace == trace[..last] + [trace[last]];
    }
  }

  lemma LastUseEarlier(trace: seq<string>, key: string)
    requires trace != [] && key in trace[..|trace| - 1] && key != trace[|trace| - 1]
    ensures key in trace && LastUse(trace, key) == LastUse(trace[..|trace| - 1], key)
  {
  }

  /** What stands behind the front of Recent stood in the Recent before, in the same order. */
  lemma RecentOrder(trace: seq<string>, i: nat, j: nat) returns (i': nat, j': nat)
    requires 0 < i <= j < |Recent(trace)|
    ensures i' <= j' < |Recent(trace[..|trace| - 1])| && (i < j ==> i' < j')
    ensures Recent(trace)[i] == Recent(trace[..|trace| - 1])[i'] && Recent(trace)[j] == Recent(trace[..|trace| - 1])[j']
    ensures Recent(trace)[j] != trace[|trace| - 1]
  {
    var key, before := trace[|trace| - 1], Recent(trace[..|trace| - 1]);
    RecentUnrepeated(trace[..|trace| - 1]);
    i', j' := MinusOrder(before, key, i - 1, j - 1);
    assert Recent(trace)[i] == Minus(before, key)[i - 1];
    assert Recent(trace)[j] == Minus(before, key)[j - 1];
  }

  lemma MinusOrder(keys: seq<string>, key: string, i: nat, j: nat) returns (i': nat, j': nat)
    requires Unrepeated(keys) && i <= j < |Minus(keys, key)|
    ensures i' <= j' < |keys| && (i < j ==> i' < j')
    ensures Minus(keys, key)[i] == keys[i'] && Minus(keys, key)[j] == keys[j'] != key
  {
    var k := MinusAt(keys, key);
    i', j' := if i < k then i else i + 1, if j < k then j else j + 1;
  }

  /** Recent orders the keys of a trace by their last use. */
  lemma {:induction false} RecentByLastUse(trace: seq<string>, i: nat, j: nat)
    requires i < j < |Recent(trace)|
    ensures Recent(trace)[i] in trace && Recent(trace)[j] in trace
    ensures LastUse(trace, Recent(trace)[i]) > LastUse(trace, Recent(trace)[j])
    decreases |trace|
  {
    var before := trace[..|trace| - 1];
    var x, y := Recent(trace)[i], Recent(trace)[j];
    RecentMember(trace, x);
    if i > 0 {
      var i', j' := RecentOrder(trace, i, j);
      var _, _ := RecentOrder(trace, i, i);
      RecentByLastUse(before, i', j');
      LastUseEarlier(trace, x);
      LastUseEarlier(trace, y);
    } else {
      var _, j' := RecentOrder(trace, j, j);
      RecentMember(before, y);
      LastUseEarlier(trace, y);
    }
  }

  // ---------------------------------------------------------------- values

  predicate Added(ops: seq<Op>, key: string)
  {
    exists i :: 0 <= i < |ops| && ops[i].AddOp? && ops[i].key == key
  }

  /** The value of the last Add of a key. */
  function LastAdded(ops: seq<Op>, key: string): int
    requires Added(ops, key)
    decreases |ops|
  {
    var last := ops[|ops| - 1];
    if last.AddOp? && last.key == key then last.value else LastAdded(ops[..|ops| - 1], key)
  }

  /** Every key held carries the value it was last added with. */
  lemma {:induction false} HoldsLastValue(capacity: int, ops: seq<Op>, key: string)
    requires Has(Run(capacity, ops), key)
    ensures Added(ops, key) && Find(Run(capacity, ops), key).value == LastAdded(ops, key)
    decreases |ops|
  {
    var before, op := ops[..|ops| - 1], ops[|ops| - 1];
    var es := Run(capacity, before);
    ApplyKeeps(capacity, es, op, key);
    if op.AddOp? && op.key == key {
      assert ops[|ops| - 1] == op;
    } else {
      HoldsLastValue(capacity, before, key);
      var i :| 0 <= i < |before| && before[i].AddOp? && before[i].key == key;
      assert ops[i] == before[i];
    }
  }

  // ---------------------------------------------------------------- hits

  /** How often the key is added or asked for. */
  function Uses(ops: seq<Op>, key: string): nat
    decreases |ops|
  {
    if ops == [] then 0
    else
      var last := ops[|ops| - 1];
      Uses(ops[..|ops| - 1], key) + if !last.RemoveOp? && last.key == key then 1 else 0
  }

  /** The j-th operation brought the key in, and it has been held ever since. */
  ghost predicate EnteredAt(capacity: int, ops: seq<Op>, key: string, j: nat)
  {
    && j < |ops| && ops[j].AddOp? && ops[j].key == key
    && !Has(Run(capacity, ops[..j]), key)
    && forall i :: j < i <= |ops| ==> Has(Run(capacity, ops[..i]), key)
  }

  lemma EnteredOnce(capacity: int, ops: seq<Op>, key: string, j: nat, k: nat)
    requires EnteredAt(capacity, ops, key, j) && EnteredAt(capacity, ops, key, k)
    ensures j == k
  {
  }

  /** The hits of a key held count its uses since it last entered, that one included; so the
      most popular items are those most used since they entered. */
  lemma {:induction false} HitsCountUses(capacity: int, ops: seq<Op>, key: string) returns (j: nat)
    requires Has(Run(capacity, ops), key)
    ensures EnteredAt(capacity, ops, key, j)
    ensures Find(Run(capacity, ops), key).hits == Uses(ops[j..], key)
    decreases |ops|
  {
    var before, op := ops[..|ops| - 1], ops[|ops| - 1];
    var es := Run(capacity, before);
    ApplyHits(capacity, es, op, key);
    if Has(es, key) {
      j := HitsCountUses(capacity, before, key);
      StaysEntered(capacity, ops, key, j);
      UsesLast(ops, key, j);
    } else {
      j := |before|;
      UsesLast(ops, key, j);
      assert before[j..] == [];
      assert ops[..|ops|] == ops;
    }
  }

  lemma StaysEntered(capacity: int, ops: seq<Op>, key: string, j: nat)
    requires ops != [] && EnteredAt(capacity, ops[..|ops| - 1], key, j) && Has(Run(capacity, ops), key)
    ensures EnteredAt(capacity, ops, key, j)
  {
    var before := ops[..|ops| - 1];
    assert ops[..j] == before[..j] && ops[j] == before[j];
    forall i | j < i <= |ops| ensures Has(Run(capacity, ops[..i]), key) {
      if i < |ops| {
        assert ops[..i] == before[..i];
      } else {
        assert ops[..i] == ops;
      }
    }
  }

  lemma UsesLast(ops: seq<Op>, key: string, j: nat)
    requires j < |ops|
    ensures var before, last := ops[..|ops| - 1], ops[|ops| - 1];
            Uses(ops[j..], key) == Uses(before[j..], key) + if !last.RemoveOp? && last.key == key then 1 else 0
  {
    assert ops[j..][..|ops| - j - 1] == ops[..|ops| - 1][j..];
  }

  lemma ApplyHits(capacity: int, es: seq<Entry>, op: Op, key: string)
    requires Has(Apply(capacity, es, op), key)
    ensures var hits := Find(Apply(capacity, es, op), key).hits;
            if Has(es, key) then hits == Find(es, key).hits + if !op.RemoveOp? && op.key == key then 1 else 0
            else op.AddOp? && op.key == key && hits == 1
  {
    WithoutHas(es, op.key, key);
    if op.AddOp? && !Has(es, op.key) {
      NewKeeps(capacity, es, op.key, op.value, key);
    } else if Has(es, op.key) && !op.RemoveOp? {
      FrontKeeps(es, op.key, Apply(capacity, es, op)[0], key);
    } else if op.RemoveOp? {
      FindWithout(es, op.key, key);
    }
  }

  // ---------------------------------------------------------------- what one operation keeps

  lemma ApplyKeeps(capacity: int, es: seq<Entry>, op: Op, key: string)
    requires Has(Apply(capacity, es, op), key)
    ensures op.AddOp? && op.key == key ==> Find(Apply(capacity, es, op), key).value == op.value
    ensures !(op.AddOp? && op.key == key) ==>
              Has(es, key) && Find(Apply(capacity, es, op), key).value == Find(es, key).value
  {
    WithoutHas(es, op.key, key);
    if op.AddOp? && !Has(es, op.key) {
      NewKeeps(capacity, es, op.key, op.value, key);
    } else if Has(es, op.key) && !op.RemoveOp? {
      FrontKeeps(es, op.key, Apply(capacity, es, op)[0], key);
    } else if op.RemoveOp? {
      FindWithout(es, op.key, key);
    }
  }

  lemma FrontKeeps(es: seq<Entry>, key: string, front: Entry, other: string)
    requires front.key == key && Has([front] + Without(es, key), other)
    ensures other == key ==> Find([front] + Without(es, key), other) == front
    ensures other != key ==> Has(es, other) && Find([front] + Without(es, key), other) == Find(es, other)
  {
    var after := [front] + Without(es, key);
    assert after[1..] == Without(es, key);
    HasFirst(after, other);
    WithoutHas(es, key, other);
    if other != key {
      FindWithout(es, key, other);
    }
  }

  lemma NewKeeps(capacity: int, es: seq<Entry>, key: string, value: int, other: string)
    requires Has(Evict(capacity, [Entry(key, value, 1)] + es), other)
    ensures other == key ==> Find(Evict(capacity, [Entry(key, value, 1)] + es), other) == Entry(key, value, 1)
    ensures other != key ==>
              Has(es, other) && Find(Evict(capacity, [Entry(key, value, 1)] + es), other) == Find(es, other)
  {
    var pushed := [Entry(key, value, 1)] + es;
    HasFirst(pushed, other);
    assert pushed[1..] == es;
    var n := |Evict(capacity, pushed)|;
    assert Evict(capacity, pushed) == pushed[..n];
    FindPrefix(pushed, n, other);
  }

  lemma {:induction false} FindWithout(es: seq<Entry>, key: string, other: string)
    requires key != other && Has(es, other)
    ensures Has(Without(es, key), other) && Find(Without(es, key), other) == Find(es, other)
  {
    HasFirst(es, other);
    if es[0].key == other {
      assert Without(es, key)[0] == es[0];
    } else {
      FindWithout(es[1..], key, other);
      if es[0].key != key {
        var w := [es[0]] + Without(es[1..], key);
        assert w[1..] == Without(es[1..], key);
        HasFirst(w, other);
      }
    }
  }

  lemma {:induction false} FindPrefix(es: seq<Entry>, n: nat, key: string)
    requires n <= |es| && Has(es[..n], key)
    ensures Has(es, key) && Find(es, key) == Find(es[..n], key)
  {
    HasFirst(es[..n], key);
    HasFirst(es, key);
    if es[0].key != key {
      assert es[..n][1..] == es[1..][..n - 1];
      FindPrefix(es[1..], n - 1, key);
    }
  }
}
