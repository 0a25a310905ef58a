/**
 The chronological order in which scripts/enhanced_issue_manager.py takes up updates: a
 stable sort by time stamp and sequence number that fails on stamps it cannot compare.
 */
module ChronologicalSort {
  import opened Options
  import opened UpdateScheduler

  /** A parsed stamp has a time zone or not; a malformed one stays a text. Python compares
      stamps of one kind only. */
  datatype Stamp = Aware(nanos: int) | Naive(nanos: int) | Malformed(text: string)

  datatype Stamped = Stamped(update: Update, stamp: Stamp, sequence: int)

  predicate SameKind(a: Stamp, b: Stamp)
  {
    (a.Aware? && b.Aware?) || (a.Naive? && b.Naive?) || (a.Malformed? && b.Malformed?)
  }

  /** Lexicographic order by code point. */
  predicate TextLE(s: string, t: string)
  {
    s == "" || (t != "" && (s[0] < t[0] || (s[0] == t[0] && TextLE(s[1..], t[1..]))))
  }

  predicate StampLE(a: Stamp, b: Stamp)
    requires SameKind(a, b)
  {
    if a.Malformed? then TextLE(a.text, b.text) else a.nanos <= b.nanos
  }

  /** The order of the tuples (stamp, sequence). */
  predicate KeyLE(a: Stamped, b: Stamped)
    requires SameKind(a.stamp, b.stamp)
  {
    StampLE(a.stamp, b.stamp) && (a.stamp == b.stamp ==> a.sequence <= b.sequence)
  }

  predicate SameKey(a: Stamped, b: Stamped)
  {
    a.stamp == b.stamp && a.sequence == b.sequence
  }

  lemma {:induction false} TextOrder(s: string, t: string, u: string)
    ensures TextLE(s, t) || TextLE(t, s)
    ensures TextLE(s, t) && TextLE(t, s) ==> s == t
    ensures TextLE(s, t) && TextLE(t, u) ==> TextLE(s, u)
    decreases |s|
  {
    if s != "" && t != "" {
      TextOrder(s[1..], t[1..], if u != "" then u[1..] else "");
      assert s == [s[0]] + s[1..] && t == [t[0]] + t[1..];
    }
  }

  lemma KeyOrder(a: Stamped, b: Stamped, c: Stamped)
    requires SameKind(a.stamp, b.stamp) && SameKind(b.stamp, c.stamp)
    ensures KeyLE(a, b) || KeyLE(b, a)
    ensures KeyLE(a, b) && KeyLE(b, a) ==> SameKey(a, b)
    ensures KeyLE(a, b) && KeyLE(b, c) ==> KeyLE(a, c)
  {
    if a.stamp.Malformed? {
      TextOrder(a.stamp.text, b.stamp.text, c.stamp.text);
      TextOrder(b.stamp.text, a.stamp.text, c.stamp.text);
      TextOrder(b.stamp.text, c.stamp.text, b.stamp.text);
    }
  }

  predicate OneKind(updates: seq<Stamped>)
  {
    forall i, j :: 0 <= i < |updates| && 0 <= j < |updates| ==> SameKind(updates[i].stamp, updates[j].stamp)
  }

  /** Behind everything that has to come before x. */
  function Insert(x: Stamped, sorted: seq<Stamped>): seq<Stamped>
    requires OneKind([x] + sorted)
  {
    assert forall i :: 0 <= i < |sorted| ==> sorted[i] == ([x] + sorted)[i + 1];
    if sorted == [] then [x]
    else
      assert SameKind(([x] + sorted)[0].stamp, ([x] + sorted)[1].stamp);
      if KeyLE(x, sorted[0]) then [x] + sorted
      else
        assert OneKind([x] + sorted[1..]) by {
          OneKindParts(x, sorted);
        }
        [sorted[0]] + Insert(x, sorted[1..])
  }

  lemma OneKindParts(x: Stamped, sorted: seq<Stamped>)
    requires sorted != [] && OneKind([x] + sorted)
    ensures OneKind([x] + sorted[1..]) && OneKind(sorted) && SameKind(x.stamp, sorted[0].stamp)
  {
    var all := [x] + sorted;
    assert forall i :: 0 <= i < |sorted| ==> sorted[i] == all[i + 1];
    assert all[0] == x;
    assert forall i :: 0 < i < |[x] + sorted[1..]| ==> ([x] + sorted[1..])[i] == all[i + 1];
  }

  /** The updates with the key of x, in order. */
  function WithKey(updates: seq<Stamped>, x: Stamped): seq<Stamped>
  {
    if updates == [] then []
    else (if SameKey(updates[0], x) then [updates[0]] else []) + WithKey(updates[1..], x)
  }

  predicate Chronological(updates: seq<Stamped>)
    requires OneKind(updates)
  {
    forall i, j :: 0 <= i < j < |updates| ==> KeyLE(updates[i], updates[j])
  }

  lemma {:induction false} InsertMembers(x: Stamped, sorted: seq<Stamped>)
    requires OneKind([x] + sorted)
    ensures multiset(Insert(x, sorted)) == multiset{x} + multiset(sorted)
    ensures OneKind(Insert(x, sorted))
  {
    var r := Insert(x, sorted);
    if sorted != [] {
      OneKindParts(x, sorted);
      assert sorted == [sorted[0]] + sorted[1..];
      if !KeyLE(x, sorted[0]) {
        InsertMembers(x, sorted[1..]);
      }
    }
    forall i, j | 0 <= i < |r| && 0 <= j < |r| ensures SameKind(r[i].stamp, r[j].stamp) {
      assert r[i] in multiset(r) && r[j] in multiset(r);
      assert r[i] in [x] + sorted && r[j] in [x] + sorted;
    }
  }

  lemma {:induction false} InsertOrdered(x: Stamped, sorted: seq<Stamped>)
    requires OneKind([x] + sorted) && OneKind(sorted) && Chronological(sorted)
    ensures OneKind(Insert(x, sorted)) && Chronological(Insert(x, sorted))
  {
    InsertMembers(x, sorted);
    if sorted != [] {
      OneKindParts(x, sorted);
      KeyOrder(x, sorted[0], sorted[0]);
      if KeyLE(x, sorted[0]) {
        forall k | 0 <= k < |sorted| ensures KeyLE(x, sorted[k]) {
          KeyOrder(x, sorted[0], sorted[k]);
        }
      } else {
        var rest := Insert(x, sorted[1..]);
        InsertOrdered(x, sorted[1..]);
        InsertMembers(x, sorted[1..]);
        forall k | 0 <= k < |rest|
          ensures SameKind(sorted[0].stamp, rest[k].stamp) && KeyLE(sorted[0], rest[k])
        {
          assert rest[k] in multiset(rest);
          assert rest[k] == x || rest[k] in sorted[1..];
        }
      }
    }
  }

  lemma WithKeyCons(x: Stamped, rest: seq<Stamped>, y: Stamped)
    ensures WithKey([x] + rest, y) == (if SameKey(x, y) then [x] else []) + WithKey(rest, y)
  {
    assert ([x] + rest)[1..] == rest;
  }

  /** What was in front of its equals is inserted in front of them. */
  lemma {:induction false} InsertStable(x: Stamped, sorted: seq<Stamped>, y: Stamped)
    requires OneKind([x] + sorted)
    ensures WithKey(Insert(x, sorted), y) == (if SameKey(x, y) then [x] else []) + WithKey(sorted, y)
  {
    if sorted == [] {
      WithKeyCons(x, [], y);
      assert [x] + [] == [x];
    } else {
      OneKindParts(x, sorted);
      if KeyLE(x, sorted[0]) {
        WithKeyCons(x, sorted, y);
      } else {
        var rest := Insert(x, sorted[1..]);
        InsertStable(x, sorted[1..], y);
        var first := if SameKey(sorted[0], y) then [sorted[0]] else [];
        assert WithKey([sorted[0]] + rest, y) == first + WithKey(rest, y) by {
          WithKeyCons(sorted[0], rest, y);
        }
        assert !SameKey(sorted[0], y) || !SameKey(x, y) by {
          KeyOrder(x, sorted[0], x);
        }
      }
    }
  }

  /** sorted() with this key; None stands for the error on stamps of different kinds. */
  function SortChronologically(updates: seq<Stamped>): Option<seq<Stamped>>
  {
    if OneKind(updates) then Some(Sorted(updates)) else None
  }

  function Sorted(updates: seq<Stamped>): (r: seq<Stamped>)
    requires OneKind(updates)
    ensures multiset(r) == multiset(updates) && OneKind(r)
  {
    if updates == [] then []
    else
      assert updates == [updates[0]] + updates[1..];
      var rest := Sorted(updates[1..]);
      assert OneKind([updates[0]] + rest) by {
        SameMembersOneKind(updates, [updates[0]] + rest);
      }
      InsertMembers(updates[0], rest);
      Insert(updates[0], rest)
  }

  lemma SameMembersOneKind(a: seq<Stamped>, b: seq<Stamped>)
    requires OneKind(a) && multiset(a) == multiset(b)
    ensures OneKind(b)
  {
    forall i, j | 0 <= i < |b| && 0 <= j < |b| ensures SameKind(b[i].stamp, b[j].stamp) {
      assert b[i] in multiset(b) && b[j] in multiset(b);
      assert b[i] in a && b[j] in a;
    }
  }

  /** The sort gives the same updates in chronological order, those of equal keys as they
      stood; this says exactly which list it is. */
  lemma {:induction false} SortedChronologically(updates: seq<Stamped>, y: Stamped)
    requires OneKind(updates)
    ensures Chronological(Sorted(updates)) && WithKey(Sorted(updates), y) == WithKey(updates, y)
  {
    if updates != [] {
      assert updates == [updates[0]] + updates[1..];
      var rest := Sorted(updates[1..]);
      SortedChronologically(updates[1..], y);
      SameMembersOneKind(updates, [updates[0]] + rest);
      InsertOrdered(updates[0], rest);
      InsertStable(updates[0], rest, y);
    }
  }

  lemma {:induction false} WithKeyFirst(updates: seq<Stamped>, x: Stamped)
    requires WithKey(updates, x) != []
    ensures exists k :: 0 <= k < |updates| && SameKey(updates[k], x)
  {
    if updates != [] && !SameKey(updates[0], x) {
      WithKeyFirst(updates[1..], x);
      var k :| 0 <= k < |updates[1..]| && SameKey(updates[1..][k], x);
      assert SameKey(updates[k + 1], x);
    }
  }

  lemma OwnKey(updates: seq<Stamped>)
    requires updates != []
    ensures WithKey(updates, updates[0]) == [updates[0]] + WithKey(updates[1..], updates[0])
  {
  }

  lemma LeastFirst(a: seq<Stamped>, x: Stamped)
    requires a != [] && OneKind(a) && Chronological(a) && WithKey(a, x) != []
    ensures SameKind(a[0].stamp, x.stamp) && KeyLE(a[0], x)
  {
    WithKeyFirst(a, x);
    var k :| 0 <= k < |a| && SameKey(a[k], x);
    assert SameKind(a[0].stamp, a[k].stamp);
    KeyOrder(a[0], a[k], a[0]);
  }

  lemma SameFirst(a: seq<Stamped>, b: seq<Stamped>)
    requires a != [] && b != [] && OneKind(a) && OneKind(b) && Chronological(a) && Chronological(b)
    requires WithKey(a, a[0]) == WithKey(b, a[0]) && WithKey(a, b[0]) == WithKey(b, b[0])
    ensures a[0] == b[0]
  {
    OwnKey(a);
    OwnKey(b);
    LeastFirst(a, b[0]);
    LeastFirst(b, a[0]);
    KeyOrder(a[0], b[0], a[0]);
    assert SameKey(a[0], b[0]);
    assert WithKey(a, a[0])[0] == a[0];
    assert b == [b[0]] + b[1..];
    WithKeyCons(b[0], b[1..], a[0]);
  }

  lemma SameRest(a: seq<Stamped>, b: seq<Stamped>, y: Stamped)
    requires a != [] && b != [] && a[0] == b[0] && WithKey(a, y) == WithKey(b, y)
    ensures WithKey(a[1..], y) == WithKey(b[1..], y)
  {
    var first := if SameKey(a[0], y) then [a[0]] else [];
    assert WithKey(a, y) == first + WithKey(a[1..], y) && WithKey(b, y) == first + WithKey(b[1..], y);
    assert WithKey(a, y)[|first|..] == WithKey(a[1..], y) && WithKey(b, y)[|first|..] == WithKey(b[1..], y);
  }

  /** There is only one such list. */
  lemma {:induction false} OnlyOneOrder(a: seq<Stamped>, b: seq<Stamped>)
    requires OneKind(a) && OneKind(b) && Chronological(a) && Chronological(b)
    requires forall y :: WithKey(a, y) == WithKey(b, y)
    ensures a == b
    decreases |a|
  {
    if a == [] {
      if b != [] {
        OwnKey(b);
      }
    } else if b == [] {
      OwnKey(a);
    } else {
      SameFirst(a, b);
      forall y: Stamped ensures WithKey(a[1..], y) == WithKey(b[1..], y) {
        SameRest(a, b, y);
      }
      OnlyOneOrder(a[1..], b[1..]);
      assert a == [a[0]] + a[1..] && b == [b[0]] + b[1..];
    }
  }

  // ---------------------------------------------------------------- what the order is

  /** The first text comes first in a dictionary, or they are equal. */
  predicate InDictionary(s: string, t: string)
  {
    s <= t || exists k :: 0 <= k < |s| && k < |t| && s[..k] == t[..k] && s[k] < t[k]
  }

  lemma DictionaryNext(s: string, t: string)
    requires s != "" && t != "" && s[0] == t[0]
    ensures InDictionary(s[1..], t[1..]) <==> InDictionary(s, t)
  {
    var s', t' := s[1..], t[1..];
    assert s == [s[0]] + s' && t == [t[0]] + t';
    if k :| 0 <= k < |s'| && k < |t'| && s'[..k] == t'[..k] && s'[k] < t'[k] {
      assert s[..k + 1] == [s[0]] + s'[..k] && t[..k + 1] == [t[0]] + t'[..k];
    }
    if k :| 0 <= k < |s| && k < |t| && s[..k] == t[..k] && s[k] < t[k] {
      assert k > 0 && s'[..k - 1] == s[..k][1..] && t'[..k - 1] == t[..k][1..];
    }
  }

  lemma DictionaryFirst(s: string, t: string)
    requires s != "" && t != "" && s[0] != t[0]
    ensures InDictionary(s, t) <==> s[0] < t[0]
  {
    if s[0] < t[0] {
      assert s[..0] == t[..0];
    }
    assert forall k :: 0 < k < |s| && k < |t| ==> s[..k][0] == s[0] && t[..k][0] == t[0];
  }

  lemma {:induction false} TextLEIff(s: string, t: string)
    ensures TextLE(s, t) <==> InDictionary(s, t)
  {
    if s != "" && t != "" {
      if s[0] == t[0] {
        TextLEIff(s[1..], t[1..]);
        DictionaryNext(s, t);
      } else {
        DictionaryFirst(s, t);
      }
    }
  }

  /** In time, or in the dictionary for malformed stamps, and by sequence number where the
      stamps are equal. */
  predicate NotAfter(a: Stamped, b: Stamped)
  {
    match (a.stamp, b.stamp)
    case (Aware(x), Aware(y)) => x < y || (x == y && a.sequence <= b.sequence)
    case (Naive(x), Naive(y)) => x < y || (x == y && a.sequence <= b.sequence)
    case (Malformed(s), Malformed(t)) => InDictionary(s, t) && (s == t ==> a.sequence <= b.sequence)
    case _ => false
  }

  /** All stamps have a time zone, or none has, or all are malformed. */
  lemma OneKindIff(updates: seq<Stamped>)
    ensures OneKind(updates) <==>
              || (forall i :: 0 <= i < |updates| ==> updates[i].stamp.Aware?)
              || (forall i :: 0 <= i < |updates| ==> updates[i].stamp.Naive?)
              || (forall i :: 0 <= i < |updates| ==> updates[i].stamp.Malformed?)
  {
  }

  lemma KeyLEMeans(a: Stamped, b: Stamped)
    requires SameKind(a.stamp, b.stamp)
    ensures KeyLE(a, b) <==> NotAfter(a, b)
  {
    if a.stamp.Malformed? {
      TextLEIff(a.stamp.text, b.stamp.text);
    }
  }

  /** So this is what sorting comes to. */
  lemma SortedInTime(updates: seq<Stamped>, i: nat, j: nat)
    requires OneKind(updates) && i < j < |Sorted(updates)|
    ensures NotAfter(Sorted(updates)[i], Sorted(updates)[j])
  {
    SortedChronologically(updates, Sorted(updates)[i]);
    KeyLEMeans(Sorted(updates)[i], Sorted(updates)[j]);
  }

  // ---------------------------------------------------------------- comparisons that fail

  /** What has been learned of the order: pairs of positions in the input. */
  type Known = set<(nat, nat)>

  /** Python compares two keys or raises an error; of equal keys the earlier one stays first. */
  function Compare(updates: seq<Stamped>, i: nat, j: nat): Option<(nat, nat)>
    requires i < |updates| && j < |updates|
  {
    var a, b := updates[i], updates[j];
    if !SameKind(a.stamp, b.stamp) then None
    else Some(if SameKey(a, b) then (if i < j then (i, j) else (j, i)) else if KeyLE(a, b) then (i, j) else (j, i))
  }

  /** A comparison fails exactly across kinds; otherwise it says which of the two comes first,
      and of equal keys that is the earlier position. */
  lemma CompareMeans(updates: seq<Stamped>, i: nat, j: nat)
    requires i < |updates| && j < |updates|
    ensures var a, b := updates[i], updates[j];
            && (Compare(updates, i, j) == None <==> !NotAfter(a, b) && !NotAfter(b, a))
            && (i != j && Compare(updates, i, j) == Some((i, j)) <==>
                  i != j && NotAfter(a, b) && (NotAfter(b, a) ==> i < j))
            && (i != j && Compare(updates, i, j) == Some((j, i)) <==>
                  i != j && NotAfter(b, a) && (NotAfter(a, b) ==> j < i))
  {
    var a, b := updates[i], updates[j];
    if SameKind(a.stamp, b.stamp) {
      KeyOrder(a, b, a);
      KeyLEMeans(a, b);
      KeyLEMeans(b, a);
    }
  }

  predicate InRange(pairs: seq<(nat, nat)>, n: nat)
  {
    forall k :: 0 <= k < |pairs| ==> pairs[k].0 < n && pairs[k].1 < n
  }

  /** A run of comparisons, in any order a sort may make them; the first error ends it. */
  function Learn(updates: seq<Stamped>, pairs: seq<(nat, nat)>): Option<Known>
    requires InRange(pairs, |updates|)
    decreases |pairs|
  {
    if pairs == [] then Some({})
    else
      var one, rest := Compare(updates, pairs[0].0, pairs[0].1), Learn(updates, pairs[1..]);
      if one.None? || rest.None? then None else Some(rest.value + {one.value})
  }

  /** All positions, each once, in some order. */
  predicate IsOrder(o: seq<nat>, n: nat)
  {
    && |o| == n && (forall p :: 0 <= p < |o| ==> o[p] < n)
    && forall p, q :: 0 <= p < q < |o| ==> o[p] != o[q]
  }

  predicate Precedes(o: seq<nat>, i: nat, j: nat)
  {
    exists p, q :: 0 <= p < q < |o| && o[p] == i && o[q] == j
  }

  ghost predicate Respects(o: seq<nat>, known: Known)
  {
    forall i, j :: (i, j) in known && i != j ==> Precedes(o, i, j)
  }

  /** What is known leaves one order and no other. */
  ghost predicate Settles(known: Known, n: nat)
  {
    && (exists o :: IsOrder(o, n) && Respects(o, known))
    && forall o, u :: IsOrder(o, n) && Respects(o, known) && IsOrder(u, n) && Respects(u, known) ==> o == u
  }

  lemma {:induction false} LearnsWithinKinds(updates: seq<Stamped>, pairs: seq<(nat, nat)>)
    requires InRange(pairs, |updates|) && Learn(updates, pairs).Some?
    ensures forall i, j :: (i, j) in Learn(updates, pairs).value ==>
              i < |updates| && j < |updates| && SameKind(updates[i].stamp, updates[j].stamp)
    decreases |pairs|
  {
    if pairs != [] {
      LearnsWithinKinds(updates, pairs[1..]);
    }
  }

  /** Those of the positions whose stamps are, or are not, of the kind of a. */
  function OfKind(updates: seq<Stamped>, o: seq<nat>, a: nat, same: bool): seq<nat>
    requires a < |updates| && forall p :: 0 <= p < |o| ==> o[p] < |updates|
  {
    if o == [] then []
    else
      var first := if SameKind(updates[o[0]].stamp, updates[a].stamp) == same then [o[0]] else [];
      first + OfKind(updates, o[1..], a, same)
  }

  lemma {:induction false} OfKindMember(updates: seq<Stamped>, o: seq<nat>, a: nat, same: bool, i: nat)
    requires a < |updates| && forall p :: 0 <= p < |o| ==> o[p] < |updates|
    ensures i in OfKind(updates, o, a, same) <==>
              i in o && SameKind(updates[i].stamp, updates[a].stamp) == same
  {
    if o != [] {
      OfKindMember(updates, o[1..], a, same, i);
      assert i in o <==> i == o[0] || i in o[1..];
    }
  }

  lemma {:induction false} OfKindLengths(updates: seq<Stamped>, o: seq<nat>, a: nat)
    requires a < |updates| && forall p :: 0 <= p < |o| ==> o[p] < |updates|
    ensures |OfKind(updates, o, a, true)| + |OfKind(updates, o, a, false)| == |o|
  {
    if o != [] {
      OfKindLengths(updates, o[1..], a);
    }
  }

  predicate Different(o: seq<nat>)
  {
    forall p, q :: 0 <= p < q < |o| ==> o[p] != o[q]
  }

  lemma {:induction false} OfKindDifferent(updates: seq<Stamped>, o: seq<nat>, a: nat, same: bool)
    requires a < |updates| && forall p :: 0 <= p < |o| ==> o[p] < |updates|
    requires Different(o)
    ensures Different(OfKind(updates, o, a, same))
  {
    if o != [] {
      var rest := OfKind(updates, o[1..], a, same);
      OfKindDifferent(updates, o[1..], a, same);
      forall p | 0 <= p < |rest| ensures rest[p] != o[0] {
        OfKindMember(updates, o[1..], a, same, rest[p]);
      }
    }
  }

  lemma {:induction false} OfKindPrecedes(updates: seq<Stamped>, o: seq<nat>, a: nat, same: bool, i: nat, j: nat)
    requires a < |updates| && forall p :: 0 <= p < |o| ==> o[p] < |updates|
    requires Precedes(o, i, j)
    requires SameKind(updates[i].stamp, updates[a].stamp) == same
    requires SameKind(updates[j].stamp, updates[a].stamp) == same
    ensures Precedes(OfKind(updates, o, a, same), i, j)
  {
    var p, q :| 0 <= p < q < |o| && o[p] == i && o[q] == j;
    var rest := OfKind(updates, o[1..], a, same);
    var all := OfKind(updates, o, a, same);
    assert o[1..][q - 1] == j;
    if p == 0 {
      OfKindMember(updates, o[1..], a, same, j);
      var k :| 0 <= k < |rest| && rest[k] == j;
      assert all == [i] + rest && all[0] == i && all[k + 1] == j;
    } else {
      assert o[1..][p - 1] == i;
      OfKindPrecedes(updates, o[1..], a, same, i, j);
      var k, m :| 0 <= k < m < |rest| && rest[k] == i && rest[m] == j;
      var shift := |all| - |rest|;
      assert all[k + shift] == i && all[m + shift] == j;
    }
  }

  /** The kinds apart: those like a first, or last. */
  function Regrouped(updates: seq<Stamped>, o: seq<nat>, a: nat, first: bool): seq<nat>
    requires a < |updates| && forall p :: 0 <= p < |o| ==> o[p] < |updates|
  {
    OfKind(updates, o, a, first) + OfKind(updates, o, a, !first)
  }

  predicate AllOfKind(updates: seq<Stamped>, x: seq<nat>, a: nat, same: bool)
    requires a < |updates|
  {
    forall p :: 0 <= p < |x| ==> x[p] < |updates| && SameKind(updates[x[p]].stamp, updates[a].stamp) == same
  }

  lemma {:induction false} OfKindKinds(updates: seq<Stamped>, o: seq<nat>, a: nat, same: bool)
    requires a < |updates| && forall p :: 0 <= p < |o| ==> o[p] < |updates|
    ensures AllOfKind(updates, OfKind(updates, o, a, same), a, same)
  {
    if o != [] {
      OfKindKinds(updates, o[1..], a, same);
    }
  }

  lemma RegroupedIsOrder(updates: seq<Stamped>, o: seq<nat>, a: nat, first: bool)
    requires a < |updates| && IsOrder(o, |updates|)
    ensures IsOrder(Regrouped(updates, o, a, first), |updates|)
  {
    var x, y := OfKind(updates, o, a, first), OfKind(updates, o, a, !first);
    OfKindLengths(updates, o, a);
    OfKindDifferent(updates, o, a, first);
    OfKindDifferent(updates, o, a, !first);
    OfKindKinds(updates, o, a, first);
    OfKindKinds(updates, o, a, !first);
    assert forall p, q :: 0 <= p < |x| && 0 <= q < |y| ==> x[p] != y[q];
    Joined(x, y, |updates|);
  }

  lemma Joined(x: seq<nat>, y: seq<nat>, n: nat)
    requires Different(x) && Different(y) && |x| + |y| == n
    requires (forall p :: 0 <= p < |x| ==> x[p] < n) && (forall q :: 0 <= q < |y| ==> y[q] < n)
    requires forall p, q :: 0 <= p < |x| && 0 <= q < |y| ==> x[p] != y[q]
    ensures IsOrder(x + y, n)
  {
  }

  lemma PrecedesJoined(x: seq<nat>, y: seq<nat>, i: nat, j: nat)
    requires Precedes(x, i, j) || Precedes(y, i, j)
    ensures Precedes(x + y, i, j)
  {
    if Precedes(x, i, j) {
      var p, q :| 0 <= p < q < |x| && x[p] == i && x[q] == j;
      assert (x + y)[p] == i && (x + y)[q] == j;
    } else {
      var p, q :| 0 <= p < q < |y| && y[p] == i && y[q] == j;
      assert (x + y)[|x| + p] == i && (x + y)[|x| + q] == j;
    }
  }

  lemma RegroupedRespects(updates: seq<Stamped>, pairs: seq<(nat, nat)>, o: seq<nat>, a: nat, first: bool)
    requires a < |updates| && IsOrder(o, |updates|) && InRange(pairs, |updates|)
    requires Learn(updates, pairs).Some? && Respects(o, Learn(updates, pairs).value)
    ensures Respects(Regrouped(updates, o, a, first), Learn(updates, pairs).value)
  {
    LearnsWithinKinds(updates, pairs);
    var known := Learn(updates, pairs).value;
    forall i, j | (i, j) in known && i != j ensures Precedes(Regrouped(updates, o, a, first), i, j) {
      var same := SameKind(updates[i].stamp, updates[a].stamp);
      OfKindPrecedes(updates, o, a, same, i, j);
      PrecedesJoined(OfKind(updates, o, a, first), OfKind(updates, o, a, !first), i, j);
    }
  }

  lemma {:induction false} OrderIsFull(o: seq<nat>, n: nat, i: nat)
    requires IsOrder(o, n) && i < n
    ensures i in o
    decreases n
  {
    if i !in o {
      var last := n - 1;
      if last in o {
        var k :| 0 <= k < |o| && o[k] == last;
        var shorter := o[..k] + o[k + 1..];
        assert forall p :: 0 <= p < |shorter| ==> shorter[p] == o[if p < k then p else p + 1];
        OrderIsFull(shorter, last, i);
      } else {
        TooMany(o, last);
      }
    }
  }

  lemma {:induction false} TooMany(o: seq<nat>, n: nat)
    requires Different(o) && forall p :: 0 <= p < |o| ==> o[p] < n
    ensures |o| <= n
    decreases n
  {
    if o != [] {
      assert o[0] < n;
      var last := n - 1;
      if last in o {
        var k :| 0 <= k < |o| && o[k] == last;
        var shorter := o[..k] + o[k + 1..];
        assert forall p :: 0 <= p < |shorter| ==> shorter[p] == o[if p < k then p else p + 1];
        TooMany(shorter, last);
      } else {
        TooMany(o, last);
      }
    }
  }

  /** On stamps of different kinds every sort fails: a run of comparisons without an error
      never settles the order, because it learns nothing across the kinds. */
  lemma MixedKindsFail(updates: seq<Stamped>, pairs: seq<(nat, nat)>)
    requires InRange(pairs, |updates|) && Learn(updates, pairs).Some? && Settles(Learn(updates, pairs).value, |updates|)
    ensures OneKind(updates)
  {
    var n, known := |updates|, Learn(updates, pairs).value;
    var o :| IsOrder(o, n) && Respects(o, known);
    forall a, b | 0 <= a < n && 0 <= b < n ensures SameKind(updates[a].stamp, updates[b].stamp) {
      var x, y := Regrouped(updates, o, a, true), Regrouped(updates, o, a, false);
      RegroupedIsOrder(updates, o, a, true);
      RegroupedIsOrder(updates, o, a, false);
      RegroupedRespects(updates, pairs, o, a, true);
      RegroupedRespects(updates, pairs, o, a, false);
      assert x == y;
      OrderIsFull(o, n, a);
      OrderIsFull(o, n, b);
      OfKindMember(updates, o, a, true, a);
      OfKindMember(updates, o, a, false, b);
      OfKindMember(updates, o, a, true, x[0]);
      OfKindMember(updates, o, a, false, y[0]);
    }
  }

  // ---------------------------------------------------------------- comparisons that settle

  /** Of two stamps of one kind, the first comes first. */
  predicate Before(updates: seq<Stamped>, i: nat, j: nat)
    requires i < |updates| && j < |updates|
  {
    i != j && Compare(updates, i, j) == Some((i, j))
  }

  predicate InLine(updates: seq<Stamped>, o: seq<nat>)
    requires forall p :: 0 <= p < |o| ==> o[p] < |updates|
  {
    forall p :: 0 <= p < |o| - 1 ==> Before(updates, o[p], o[p + 1])
  }

  lemma InLineFrom(updates: seq<Stamped>, first: nat, rest: seq<nat>)
    requires rest != [] && (forall p :: 0 <= p < |rest| ==> rest[p] < |updates|) && InLine(updates, rest)
    requires first < |updates| && first !in rest && Different(rest) && Before(updates, first, rest[0])
    ensures var r := [first] + rest;
            Different(r) && (forall p :: 0 <= p < |r| ==> r[p] < |updates|) && InLine(updates, r)
  {
    var r := [first] + rest;
    forall p | 0 <= p < |r| - 1 ensures Before(updates, r[p], r[p + 1]) {
      if p > 0 {
        assert r[p] == rest[p - 1] && r[p + 1] == rest[p - 1 + 1];
      }
    }
  }

  lemma InLineRest(updates: seq<Stamped>, o: seq<nat>)
    requires |o| > 1 && (forall p :: 0 <= p < |o| ==> o[p] < |updates|) && InLine(updates, o) && Different(o)
    ensures var rest := o[1..];
            Different(rest) && (forall p :: 0 <= p < |rest| ==> rest[p] < |updates|) && InLine(updates, rest)
    ensures Before(updates, o[0], o[1]) && o[0] !in o[1..] && forall x :: x in o <==> x == o[0] || x in o[1..]
  {
    var rest := o[1..];
    assert Before(updates, o[0], o[0 + 1]);
    forall p | 0 <= p < |rest| - 1 ensures Before(updates, rest[p], rest[p + 1]) {
      assert Before(updates, o[p + 1], o[p + 1 + 1]);
    }
  }

  /** Position i put in line. */
  lemma {:induction false} PutInLine(updates: seq<Stamped>, o: seq<nat>, i: nat) returns (r: seq<nat>)
    requires OneKind(updates) && i < |updates| && i !in o && o != [] && Different(o)
    requires (forall p :: 0 <= p < |o| ==> o[p] < |updates|) && InLine(updates, o)
    ensures |r| == |o| + 1 && (r[0] == i || r[0] == o[0]) && Different(r)
    ensures forall x :: x in r <==> x == i || x in o
    ensures (forall p :: 0 <= p < |r| ==> r[p] < |updates|) && InLine(updates, r)
    decreases |o|
  {
    KeyOrder(updates[i], updates[o[0]], updates[i]);
    if Before(updates, i, o[0]) {
      InLineFrom(updates, i, o);
      r := [i] + o;
    } else if |o| == 1 {
      r := o + [i];
    } else {
      InLineRest(updates, o);
      var rest := PutInLine(updates, o[1..], i);
      InLineFrom(updates, o[0], rest);
      r := [o[0]] + rest;
    }
  }

  lemma {:induction false} LineUp(updates: seq<Stamped>, n: nat) returns (o: seq<nat>)
    requires OneKind(updates) && n <= |updates|
    ensures IsOrder(o, n) && InLine(updates, o)
  {
    if n < 2 {
      o := seq(n, p => 0);
    } else {
      var shorter := LineUp(updates, n - 1);
      o := PutInLine(updates, shorter, n - 1);
      forall p | 0 <= p < |o| ensures o[p] < n {
        assert o[p] in o;
      }
    }
  }

  function Neighbours(o: seq<nat>): (pairs: seq<(nat, nat)>)
    ensures |pairs| == (if o == [] then 0 else |o| - 1)
    ensures forall p :: 0 <= p < |pairs| ==> pairs[p] == (o[p], o[p + 1])
  {
    if |o| < 2 then [] else [(o[0], o[1])] + Neighbours(o[1..])
  }

  /** What comparing the neighbours teaches. */
  function Links(o: seq<nat>): Known
  {
    if |o| < 2 then {} else Links(o[1..]) + {(o[0], o[1])}
  }

  lemma NeighboursInRange(o: seq<nat>, n: nat)
    requires forall p :: 0 <= p < |o| ==> o[p] < n
    ensures InRange(Neighbours(o), n)
  {
    var pairs := Neighbours(o);
    forall k | 0 <= k < |pairs| ensures pairs[k].0 < n && pairs[k].1 < n {
      assert pairs[k] == (o[k], o[k + 1]);
    }
  }

  lemma {:induction false} LearnedInLine(updates: seq<Stamped>, o: seq<nat>)
    requires (forall p :: 0 <= p < |o| ==> o[p] < |updates|) && InLine(updates, o)
    requires InRange(Neighbours(o), |updates|)
    ensures Learn(updates, Neighbours(o)) == Some(Links(o))
  {
    if |o| >= 2 {
      var rest := o[1..];
      assert Neighbours(o)[0] == (o[0], o[1]) && Neighbours(o)[1..] == Neighbours(rest);
      forall p | 0 <= p < |rest| - 1 ensures Before(updates, rest[p], rest[p + 1]) {
        assert Before(updates, o[p + 1], o[p + 1 + 1]);
      }
      LearnedInLine(updates, rest);
      assert Before(updates, o[0], o[0 + 1]);
    }
  }

  lemma {:induction false} LinkPrecedes(o: seq<nat>, i: nat, j: nat)
    requires (i, j) in Links(o)
    ensures Precedes(o, i, j)
  {
    if (i, j) == (o[0], o[1]) {
      assert o[0] == i && o[1] == j;
    } else {
      LinkPrecedes(o[1..], i, j);
      var p, q :| 0 <= p < q < |o[1..]| && o[1..][p] == i && o[1..][q] == j;
      assert o[p + 1] == i && o[q + 1] == j;
    }
  }

  lemma {:induction false} LinkAt(o: seq<nat>, p: nat)
    requires p + 1 < |o|
    ensures (o[p], o[p + 1]) in Links(o)
  {
    if p > 0 {
      LinkAt(o[1..], p - 1);
      assert o[1..][p - 1] == o[p] && o[1..][p - 1 + 1] == o[p + 1];
    }
  }

  /** In any order that keeps the neighbours of o in turn, nothing stands before its place in o. */
  lemma {:induction false} NotSooner(o: seq<nat>, u: seq<nat>, n: nat, p: nat, k: nat)
    requires IsOrder(o, n) && IsOrder(u, n) && p < n && k < n && u[k] == o[p]
    requires forall q :: 0 <= q < n - 1 ==> Precedes(u, o[q], o[q + 1])
    ensures p <= k
  {
    if p > 0 {
      assert Precedes(u, o[p - 1], o[p - 1 + 1]);
      var a, b :| 0 <= a < b < |u| && u[a] == o[p - 1] && u[b] == o[p];
      NotSooner(o, u, n, p - 1, a);
    }
  }

  lemma {:induction false} NotLater(o: seq<nat>, u: seq<nat>, n: nat, p: nat, k: nat)
    requires IsOrder(o, n) && IsOrder(u, n) && p < n && k < n && u[k] == o[p]
    requires forall q :: 0 <= q < n - 1 ==> Precedes(u, o[q], o[q + 1])
    ensures k <= p
    decreases n - p
  {
    if p < n - 1 {
      assert Precedes(u, o[p], o[p + 1]);
      var a, b :| 0 <= a < b < |u| && u[a] == o[p] && u[b] == o[p + 1];
      NotLater(o, u, n, p + 1, b);
    }
  }

  lemma OnlyThisOrder(o: seq<nat>, u: seq<nat>, n: nat)
    requires IsOrder(o, n) && IsOrder(u, n)
    requires forall q :: 0 <= q < n - 1 ==> Precedes(u, o[q], o[q + 1])
    ensures u == o
  {
    forall p | 0 <= p < n ensures u[p] == o[p] {
      OrderIsFull(u, n, o[p]);
      var k :| 0 <= k < n && u[k] == o[p];
      NotSooner(o, u, n, p, k);
      NotLater(o, u, n, p, k);
    }
  }

  lemma LinksSettle(o: seq<nat>, n: nat)
    requires IsOrder(o, n)
    ensures Settles(Links(o), n)
  {
    forall i, j | (i, j) in Links(o) ensures Precedes(o, i, j) {
      LinkPrecedes(o, i, j);
    }
    forall u | IsOrder(u, n) && Respects(u, Links(o)) ensures u == o {
      forall q | 0 <= q < n - 1 ensures Precedes(u, o[q], o[q + 1]) {
        LinkAt(o, q);
        assert o[q] != o[q + 1];
      }
      OnlyThisOrder(o, u, n);
    }
  }

  /** These comparisons end without an error and leave one order. */
  ghost predicate Sorts(updates: seq<Stamped>, pairs: seq<(nat, nat)>)
  {
    InRange(pairs, |updates|) && Learn(updates, pairs).Some? && Settles(Learn(updates, pairs).value, |updates|)
  }

  /** There are comparisons that sort the updates exactly if all stamps are of one kind. */
  lemma SortableIff(updates: seq<Stamped>)
    ensures (exists pairs :: Sorts(updates, pairs)) <==> OneKind(updates)
  {
    if OneKind(updates) {
      var o := LineUp(updates, |updates|);
      NeighboursInRange(o, |updates|);
      LearnedInLine(updates, o);
      LinksSettle(o, |updates|);
      assert Sorts(updates, Neighbours(o));
    }
    if pairs :| Sorts(updates, pairs) {
      MixedKindsFail(updates, pairs);
    }
  }
}
