/** Which member of a parent cycle ends up before its parent, and when validation succeeds
    whatever lies on the cycles. */
module UpdateCycleTheorems {
  import opened UpdateScheduler
  import opened UpdateSchedulerTheorems
  import opened UpdateSequenceTheorems

  // ---------------------------------------------------------------- repeated guids

  lemma GraphStep(updates: seq<Update>, init: seq<Update>, last: Update)
    requires updates == init + [last]
    ensures GraphOf(updates) == if last.guid != "" then GraphOf(init)[last.guid := last] else GraphOf(init)
  {
    assert updates[..|updates| - 1] == init && updates[|updates| - 1] == last;
  }

  /** When guids repeat the last update wins. */
  lemma {:induction false} LastUpdateWins(updates: seq<Update>, i: nat, u: Update)
    requires i < |updates| && updates[i] == u && u.guid != ""
    requires forall j :: i < j < |updates| ==> updates[j].guid != u.guid
    ensures u.guid in GraphOf(updates) && GraphOf(updates)[u.guid] == u
    decreases |updates|
  {
    var n := |updates| - 1;
    var init, last := updates[..n], updates[n];
    GraphStep(updates, init, last);
    if i < n {
      LastUpdateWins(init, i, u);
      assert last.guid != u.guid;
    }
  }

  // ---------------------------------------------------------------- who breaks a cycle

  /** The k-th update is the first that calls the guid. */
  ghost predicate FirstCaller(g: Graph, updates: seq<Update>, k: nat, guid: string)
    requires k < |updates|
  {
    !Called(g, updates, k, guid) && Called(g, updates, k + 1, guid)
  }

  /** Climbing from start, after n steps, one comes to x without having met guid. */
  ghost predicate Reaches(g: Graph, start: string, n: nat, x: string, guid: string)
  {
    Up(g, start, n) == x && forall m: nat :: m < n ==> Up(g, start, m) != guid
  }

  /** The first update that calls the guid comes to its parent first; it can do so only
      round a cycle. */
  ghost predicate EnteredAbove(g: Graph, updates: seq<Update>, guid: string)
    requires guid in g
  {
    exists k: nat, n: nat ::
      k < |updates| && FirstCaller(g, updates, k, guid) && g[guid].parent in g
      && updates[k].guid != "" && Reaches(g, updates[k].guid, n, g[guid].parent, guid)
  }

  lemma CalledLater(g: Graph, updates: seq<Update>, k: nat, n: nat, guid: string)
    requires k <= n <= |updates| && Called(g, updates, k, guid)
    ensures Called(g, updates, n, guid)
  {
    var t: nat, m: nat :| t < k && CalledBy(g, updates, t, m, guid);
  }

  lemma {:induction false} FirstCallerOf(g: Graph, updates: seq<Update>, n: nat, guid: string) returns (k: nat)
    requires n <= |updates| && Called(g, updates, n, guid)
    ensures k < n && FirstCaller(g, updates, k, guid)
  {
    if Called(g, updates, n - 1, guid) {
      k := FirstCallerOf(g, updates, n - 1, guid);
    } else {
      k := n - 1;
    }
  }

  lemma NotYet(g: Graph, updates: seq<Update>, k: nat, n: nat, guid: string)
    requires k <= n <= |updates| && !Called(g, updates, n, guid)
    ensures !Called(g, updates, k, guid)
  {
    if Called(g, updates, k, guid) {
      CalledLater(g, updates, k, n, guid);
    }
  }

  lemma OneFirstCaller(g: Graph, updates: seq<Update>, k: nat, n: nat, guid: string)
    requires k < |updates| && n < |updates| && FirstCaller(g, updates, k, guid) && FirstCaller(g, updates, n, guid)
    ensures k == n
  {
    NotYet(g, updates, if k < n then k + 1 else 0, n, guid);
    NotYet(g, updates, if n < k then n + 1 else 0, k, guid);
  }

  lemma FirstVisit(updates: seq<Update>, k: nat, guid: string, v: Visits)
    requires k < |updates| && guid in GraphOf(updates) && FirstCaller(GraphOf(updates), updates, k, guid)
    requires v == ResolveUpTo(GraphOf(updates), updates, k)
    ensures guid !in v.visited && guid in ResolveUpTo(GraphOf(updates), updates, k + 1).visited
  {
    VisitedIffCalled(GraphOf(updates), updates, k, guid);
    VisitedIffCalled(GraphOf(updates), updates, k + 1, guid);
  }

  /** What the k-th update adds to the resolved list. */
  lemma Added(updates: seq<Update>, k: nat, v: Visits, c: seq<string>)
    requires k < |updates| && updates[k].guid != ""
    requires v == ResolveUpTo(GraphOf(updates), updates, k) && c == Chain(GraphOf(updates), updates[k].guid, v.visited)
    ensures forall i :: 0 <= i < |c| ==> c[i] in GraphOf(updates)
    ensures v.resolved + Emit(GraphOf(updates), c) <= Resolve(updates)
  {
    VisitEmits(GraphOf(updates), updates[k].guid, v);
    ResolvedGrows(GraphOf(updates), updates, k + 1, |updates|);
  }

  /** Where the first caller of a guid puts its update: in the chain it climbs, upside down. */
  lemma Turn(updates: seq<Update>, k: nat, guid: string, v: Visits, c: seq<string>) returns (a: nat)
    requires k < |updates| && guid in GraphOf(updates) && FirstCaller(GraphOf(updates), updates, k, guid)
    requires v == ResolveUpTo(GraphOf(updates), updates, k) && c == Chain(GraphOf(updates), updates[k].guid, v.visited)
    ensures guid !in v.visited && a < |c| && c[a] == guid && updates[k].guid != ""
  {
    FirstVisit(updates, k, guid, v);
    VisitMarks(GraphOf(updates), updates[k].guid, v, guid);
    a :| 0 <= a < |c| && c[a] == guid;
  }

  lemma ChainUps(g: Graph, guid: string, visited: set<string>, c: seq<string>)
    requires "" !in g && c == Chain(g, guid, visited)
    ensures forall i :: 0 <= i < |c| ==> c[i] == Up(g, guid, i)
  {
    forall i | 0 <= i < |c| ensures c[i] == Up(g, guid, i) {
      ChainUp(g, guid, visited, i);
    }
  }

  lemma UpNext(g: Graph, guid: string, n: nat)
    requires Up(g, guid, n) in g
    ensures Up(g, guid, n + 1) == g[Up(g, guid, n)].parent
  {
  }

  /** In a chain of different guids the parent of the a-th comes right behind it, or, if the
      a-th is the last, before it or not at all. */
  lemma ParentInChain(g: Graph, start: string, visited: set<string>, c: seq<string>, a: nat)
    requires "" !in g && c == Chain(g, start, visited) && a < |c| && c[a] in g && g[c[a]].parent in g
    ensures (exists n: nat :: Reaches(g, start, n, g[c[a]].parent, c[a]))
       <==> exists b :: 0 <= b <= a && c[b] == g[c[a]].parent
  {
    ChainUps(g, start, visited, c);
    ChainClimbs(g, start, visited);
    var parent := g[c[a]].parent;
    if b :| 0 <= b <= a && c[b] == parent {
      assert Up(g, start, b) == parent;
      forall m: nat | m < b ensures Up(g, start, m) != c[a] {
        assert c[m] == Up(g, start, m);
      }
      assert Reaches(g, start, b, parent, c[a]);
    }
    if n: nat :| Reaches(g, start, n, parent, c[a]) {
      assert c[a] == Up(g, start, a);
      assert n <= a;
      assert c[n] == parent;
    }
  }

  lemma PlaceOf(r: seq<Update>, guid: string, p: nat)
    requires UniqueGuids(r) && p < |r| && r[p].guid == guid && guid != ""
    ensures forall i :: 0 <= i < |r| && r[i].guid == guid ==> i == p
  {
  }

  /** The chain c was emitted behind v into r. */
  ghost predicate EmittedInto(g: Graph, v: seq<Update>, c: seq<string>, r: seq<Update>)
  {
    && GraphLike(g) && UniqueGuids(r)
    && (forall i :: 0 <= i < |c| ==> c[i] in g)
    && v + Emit(g, c) <= r
  }

  function ChainPlace(v: seq<Update>, c: seq<string>, a: nat): nat
    requires a < |c|
  {
    |v| + (|c| - 1 - a)
  }

  lemma AtChainPlace(g: Graph, v: seq<Update>, c: seq<string>, r: seq<Update>, a: nat)
    requires EmittedInto(g, v, c, r) && a < |c|
    ensures var p := ChainPlace(v, c, a); p < |r| && r[p] == g[c[a]] && r[p].guid == c[a] && c[a] != ""
  {
    var p, emitted := ChainPlace(v, c, a), Emit(g, c);
    assert (v + emitted)[p] == emitted[|c| - 1 - a] == g[c[a]];
  }

  lemma BreaksAt(g: Graph, v: seq<Update>, c: seq<string>, r: seq<Update>, a: nat)
    requires EmittedInto(g, v, c, r) && a < |c|
    ensures ChainPlace(v, c, a) < |r|
    ensures Breaks(g, r, c[a]) <==> !AfterParent(g, r, ChainPlace(v, c, a))
  {
    AtChainPlace(g, v, c, r, a);
    PlaceOf(r, c[a], ChainPlace(v, c, a));
  }

  /** The parent comes earlier in the chain, and so later in the list. */
  lemma ParentEarlier(g: Graph, v: seq<Update>, c: seq<string>, r: seq<Update>, a: nat, b: nat)
    requires EmittedInto(g, v, c, r) && b <= a < |c| && c[b] == g[c[a]].parent
    ensures ChainPlace(v, c, a) < |r| && !AfterParent(g, r, ChainPlace(v, c, a))
  {
    AtChainPlace(g, v, c, r, a);
    AtChainPlace(g, v, c, r, b);
    PlaceOf(r, c[b], ChainPlace(v, c, b));
  }

  /** The parent comes next in the chain, and so stands just before. */
  lemma ParentNext(g: Graph, v: seq<Update>, c: seq<string>, r: seq<Update>, a: nat)
    requires EmittedInto(g, v, c, r) && a + 1 < |c| && c[a + 1] == g[c[a]].parent
    ensures ChainPlace(v, c, a) < |r| && AfterParent(g, r, ChainPlace(v, c, a))
  {
    AtChainPlace(g, v, c, r, a);
    AtChainPlace(g, v, c, r, a + 1);
  }

  /** The parent was taken up before. */
  lemma ParentBefore(g: Graph, updates: seq<Update>, k: nat, v: Visits, c: seq<string>, r: seq<Update>, a: nat)
    requires k <= |updates| && v == ResolveUpTo(g, updates, k) && EmittedInto(g, v.resolved, c, r) && a < |c|
    requires g[c[a]].parent in g && g[c[a]].parent in v.visited
    ensures ChainPlace(v.resolved, c, a) < |r| && AfterParent(g, r, ChainPlace(v.resolved, c, a))
  {
    AtChainPlace(g, v.resolved, c, r, a);
    OrderedUpTo(g, updates, k);
    var parent := g[c[a]].parent;
    assert Listed(v.resolved, parent);
    var q :| 0 <= q < |v.resolved| && v.resolved[q].guid == parent;
    assert r[q] == v.resolved[q];
  }

  lemma Emitted(updates: seq<Update>, k: nat, v: Visits, c: seq<string>)
    requires k < |updates| && updates[k].guid != "" && v == ResolveUpTo(GraphOf(updates), updates, k)
    requires c == Chain(GraphOf(updates), updates[k].guid, v.visited)
    ensures EmittedInto(GraphOf(updates), v.resolved, c, Resolve(updates))
  {
    Added(updates, k, v, c);
    SurvivorsOnce(updates);
  }

  /** What follows the a-th member of a chain. */
  lemma ChainFollows(g: Graph, start: string, visited: set<string>, c: seq<string>, a: nat)
    requires "" !in g && c == Chain(g, start, visited) && a < |c| && c[a] in g && g[c[a]].parent in g
    ensures a + 1 < |c| ==> c[a + 1] == g[c[a]].parent
    ensures a + 1 == |c| ==> g[c[a]].parent in visited || exists b :: 0 <= b <= a && c[b] == g[c[a]].parent
    ensures a + 1 < |c| ==> forall b :: 0 <= b <= a ==> c[b] != c[a + 1]
  {
    ChainClimbs(g, start, visited);
  }

  /** An update with a guid breaks the order exactly if its parent stands no later in the
      chain that takes it up. */
  lemma BreaksInChain(updates: seq<Update>, k: nat, v: Visits, c: seq<string>, a: nat)
    requires k < |updates| && updates[k].guid != "" && v == ResolveUpTo(GraphOf(updates), updates, k)
    requires c == Chain(GraphOf(updates), updates[k].guid, v.visited) && a < |c| && c[a] in GraphOf(updates)
    requires GraphOf(updates)[c[a]].parent in GraphOf(updates)
    ensures Breaks(GraphOf(updates), Resolve(updates), c[a])
       <==> exists b :: 0 <= b <= a && c[b] == GraphOf(updates)[c[a]].parent
  {
    var g, r := GraphOf(updates), Resolve(updates);
    Emitted(updates, k, v, c);
    ChainFollows(g, updates[k].guid, v.visited, c, a);
    BreaksAt(g, v.resolved, c, r, a);
    if b :| 0 <= b <= a && c[b] == g[c[a]].parent {
      ParentEarlier(g, v.resolved, c, r, a, b);
    } else if a + 1 < |c| {
      ParentNext(g, v.resolved, c, r, a);
    } else {
      ParentBefore(g, updates, k, v, c, r, a);
    }
  }

  lemma {:induction false} CalledAtAll(updates: seq<Update>, guid: string)
    requires guid in GraphOf(updates)
    ensures Called(GraphOf(updates), updates, |updates|, guid)
  {
    var g := GraphOf(updates);
    var i :| 0 <= i < |updates| && updates[i] == g[guid];
    assert CalledBy(g, updates, i, 0, guid);
  }

  /** Which member of a cycle stands before its parent: the one whose parent the first
      caller comes to first. */
  lemma BreaksIffEntered(updates: seq<Update>, guid: string)
    requires guid in GraphOf(updates)
    ensures Breaks(GraphOf(updates), Resolve(updates), guid) <==> EnteredAbove(GraphOf(updates), updates, guid)
  {
    var g := GraphOf(updates);
    CalledAtAll(updates, guid);
    var k := FirstCallerOf(g, updates, |updates|, guid);
    var v := ResolveUpTo(g, updates, k);
    var c := Chain(g, updates[k].guid, v.visited);
    var a := Turn(updates, k, guid, v, c);
    if g[guid].parent in g {
      BreaksInChain(updates, k, v, c, a);
      ParentInChain(g, updates[k].guid, v.visited, c, a);
      if EnteredAbove(g, updates, guid) {
        var k': nat, n: nat :| k' < |updates| && FirstCaller(g, updates, k', guid) && g[guid].parent in g
          && updates[k'].guid != "" && Reaches(g, updates[k'].guid, n, g[guid].parent, guid);
        OneFirstCaller(g, updates, k, k', guid);
      }
    } else {
      var res := Resolve(updates);
      assert forall i :: 0 <= i < |res| && res[i].guid == guid ==> AfterParent(g, res, i) by {
        SurvivorsOnce(updates);
      }
    }
  }

  // ---------------------------------------------------------------- validation, unconditionally

  /** An update with a guid is acceptable where it stands exactly when it refers rightly and,
      if it refers to a parent, does not stand before it. */
  lemma GuidAcceptableIff(updates: seq<Update>, i: nat)
    requires i < |Resolve(updates)| && Resolve(updates)[i].guid != ""
    ensures var g, r := GraphOf(updates), Resolve(updates);
            AcceptableAt(r, i) <==>
              RefersRightly(g, r[i]) && !(Refers(r[i]) && r[i].parent != "" && Breaks(g, r, r[i].guid))
  {
    var g, r := GraphOf(updates), Resolve(updates);
    var u := r[i];
    SurvivorsOnce(updates);
    PlaceOf(r, u.guid, i);
    if Refers(u) && u.parent != "" {
      CreatedBefore(updates, i, u.parent);
      if u.parent in g {
        if AfterParent(g, r, i) {
          var j :| 0 <= j < i && r[j].guid == u.parent;
          assert r[..i][j].guid == u.parent;
        }
        if Listed(r[..i], u.parent) {
          var j :| 0 <= j < i && r[..i][j].guid == u.parent;
          assert r[j].guid == u.parent;
        }
      }
    }
  }

  /** Conditions on the batch alone, cycles included: references are right, no comment,
      update or close is reached round a cycle from its parent, and updates without a guid
      have their parent called before them. */
  ghost predicate ApplicableOnCycles(updates: seq<Update>)
  {
    var g := GraphOf(updates);
    && Applicable(updates)
    && forall x :: x in g && Refers(g[x]) && g[x].parent != "" ==> !EnteredAbove(g, updates, x)
  }

  lemma AcceptableIfApplicable(updates: seq<Update>, i: nat)
    requires ApplicableOnCycles(updates) && i < |Resolve(updates)|
    ensures AcceptableAt(Resolve(updates), i)
  {
    var g, r := GraphOf(updates), Resolve(updates);
    SurvivorsOnce(updates);
    if r[i].guid != "" {
      GuidAcceptableIff(updates, i);
      BreaksIffEntered(updates, r[i].guid);
    } else {
      var k := GuidlessOrigin(g, updates, |updates|, i);
      GuidlessAcceptable(updates, k);
    }
  }

  lemma ApplicableIfAcceptable(updates: seq<Update>)
    requires forall i :: 0 <= i < |Resolve(updates)| ==> AcceptableAt(Resolve(updates), i)
    ensures ApplicableOnCycles(updates)
  {
    var g, r := GraphOf(updates), Resolve(updates);
    SurvivorsOnce(updates);
    forall x | x in g
      ensures RefersRightly(g, g[x]) && (Refers(g[x]) && g[x].parent != "" ==> !EnteredAbove(g, updates, x))
    {
      assert Listed(r, x);
      var i :| 0 <= i < |r| && r[i].guid == x;
      GuidAcceptableIff(updates, i);
      BreaksIffEntered(updates, x);
    }
    forall k | 0 <= k < |updates| && updates[k].guid == ""
      ensures RefersRightly(g, updates[k])
              && (Refers(updates[k]) && updates[k].parent != "" ==> Called(g, updates, k, updates[k].parent))
    {
      GuidlessAcceptable(updates, k);
    }
  }

  /** For every batch: validation of the resolved list reports nothing exactly when the batch
      satisfies these conditions. */
  lemma ValidatesIff(updates: seq<Update>)
    ensures Problems(Resolve(updates)) == [] <==> ApplicableOnCycles(updates)
  {
    NoProblems(Resolve(updates));
    if ApplicableOnCycles(updates) {
      forall i | 0 <= i < |Resolve(updates)| ensures AcceptableAt(Resolve(updates), i) {
        AcceptableIfApplicable(updates, i);
      }
    }
    if forall i :: 0 <= i < |Resolve(updates)| ==> AcceptableAt(Resolve(updates), i) {
      ApplicableIfAcceptable(updates);
    }
  }
}
