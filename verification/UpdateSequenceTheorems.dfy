/** Which updates overtake others in the resolved order, and when it passes validation. */
module UpdateSequenceTheorems {
  import opened UpdateScheduler
  import opened UpdateSchedulerTheorems

  // ---------------------------------------------------------------- who is taken up by when

  /** The guid is that of one of the first k updates, or an ancestor of one. */
  ghost predicate Called(g: Graph, updates: seq<Update>, k: nat, guid: string)
    requires k <= |updates|
  {
    exists t: nat, n: nat :: t < k && CalledBy(g, updates, t, n, guid)
  }

  ghost predicate CalledBy(g: Graph, updates: seq<Update>, t: nat, n: nat, guid: string)
    requires t < |updates|
  {
    updates[t].guid != "" && Up(g, updates[t].guid, n) == guid
  }

  /** The members of a chain are ancestors of its first. */
  lemma {:induction false} ChainUp(g: Graph, guid: string, visited: set<string>, i: nat)
    requires "" !in g && i < |Chain(g, guid, visited)|
    ensures Chain(g, guid, visited)[i] == Up(g, guid, i)
  {
    ChainClimbs(g, guid, visited);
    if i > 0 {
      ChainUp(g, guid, visited, i - 1);
    }
  }

  /** Only called guids are visited. */
  lemma {:induction false} VisitedAreCalled(g: Graph, updates: seq<Update>, k: nat, x: string)
    requires "" !in g && k <= |updates| && x in g && x in ResolveUpTo(g, updates, k).visited
    ensures Called(g, updates, k, x)
  {
    var v, u := ResolveUpTo(g, updates, k - 1), updates[k - 1];
    if x in v.visited {
      VisitedAreCalled(g, updates, k - 1, x);
      var t: nat, n: nat :| t < k - 1 && CalledBy(g, updates, t, n, x);
    } else {
      VisitMarks(g, u.guid, v, x);
      var i :| 0 <= i < |Chain(g, u.guid, v.visited)| && Chain(g, u.guid, v.visited)[i] == x;
      ChainUp(g, u.guid, v.visited, i);
      assert CalledBy(g, updates, k - 1, i, x);
    }
  }

  /** With a guid its in-batch parent is visited. */
  lemma ParentVisited(g: Graph, updates: seq<Update>, k: nat, x: string)
    requires GraphLike(g) && k <= |updates|
    requires x in g && x in ResolveUpTo(g, updates, k).visited && g[x].parent in g
    ensures g[x].parent in ResolveUpTo(g, updates, k).visited
  {
    OrderedUpTo(g, updates, k);
    var v := ResolveUpTo(g, updates, k);
    assert Listed(v.resolved, x);
    var i :| 0 <= i < |v.resolved| && v.resolved[i].guid == x;
    assert SurvivesAt(g, v, i) && PlacedAt(g, v.resolved, i);
    if AfterParent(g, v.resolved, i) {
      var j :| 0 <= j < i && v.resolved[j].guid == v.resolved[i].parent;
      assert SurvivesAt(g, v, j);
    } else {
      var m: nat :| CycleAt(v.resolved, i, m);
      assert v.resolved[i + m].guid != "";
      assert SurvivesAt(g, v, i + m);
    }
  }

  lemma {:induction false} AncestorVisited(g: Graph, updates: seq<Update>, k: nat, guid: string, n: nat)
    requires GraphLike(g) && k <= |updates| && guid in ResolveUpTo(g, updates, k).visited
    requires Up(g, guid, n) in g
    ensures Up(g, guid, n) in ResolveUpTo(g, updates, k).visited
  {
    if n > 0 {
      AncestorVisited(g, updates, k, guid, n - 1);
      ParentVisited(g, updates, k, Up(g, guid, n - 1));
    }
  }

  /** After the first k updates exactly the called guids are visited. */
  lemma VisitedIffCalled(g: Graph, updates: seq<Update>, k: nat, x: string)
    requires GraphLike(g) && k <= |updates| && x in g
    ensures x in ResolveUpTo(g, updates, k).visited <==> Called(g, updates, k, x)
  {
    if x in ResolveUpTo(g, updates, k).visited {
      VisitedAreCalled(g, updates, k, x);
    }
    if Called(g, updates, k, x) {
      var t: nat, n: nat :| t < k && CalledBy(g, updates, t, n, x);
      VisitedUpTo(g, updates, k, t);
      AncestorVisited(g, updates, k, updates[t].guid, n);
    }
  }

  // ---------------------------------------------------------------- least displacement

  /** No two updates are the same object. */
  ghost predicate AllDifferent(us: seq<Update>)
  {
    forall i, j :: 0 <= i < j < |us| ==> us[i] != us[j]
  }

  lemma {:induction false} GuidlessMember(us: seq<Update>, u: Update)
    requires u.guid == ""
    ensures u in Guidless(us) <==> u in us
  {
    if us != [] {
      assert us == [us[0]] + us[1..];
      GuidlessMember(us[1..], u);
    }
  }

  /** After its turn, an update of a list with distinct guids is in the resolved list. */
  lemma ResolvedByTurn(updates: seq<Update>, i: nat)
    requires UniqueGuids(updates) && i < |updates|
    ensures updates[i] in ResolveUpTo(GraphOf(updates), updates, i + 1).resolved
  {
    var g := GraphOf(updates);
    var v := ResolveUpTo(g, updates, i + 1);
    if updates[i].guid != "" {
      GraphUnique(updates, i);
      VisitedUpTo(g, updates, i + 1, i);
      OrderedUpTo(g, updates, i + 1);
      assert Listed(v.resolved, updates[i].guid);
      var j :| 0 <= j < |v.resolved| && v.resolved[j].guid == updates[i].guid;
      assert SurvivesAt(g, v, j);
    }
  }

  /** What was resolved by then does not come again. */
  lemma NotAgain(updates: seq<Update>, k: nat, u: Update, b: nat)
    requires UniqueGuids(updates) && AllDifferent(updates) && k <= |updates|
    requires u in ResolveUpTo(GraphOf(updates), updates, k).resolved
    requires |ResolveUpTo(GraphOf(updates), updates, k).resolved| <= b < |Resolve(updates)|
    ensures Resolve(updates)[b] != u
  {
    var g := GraphOf(updates);
    var done, all := ResolveUpTo(g, updates, k).resolved, Resolve(updates);
    ResolvedGrows(g, updates, k, |updates|);
    if u.guid != "" {
      var a :| 0 <= a < |done| && done[a] == u;
      assert all[a] == u;
      SurvivorsOnce(updates);
    } else {
      GuidlessNotAgain(updates, k, u);
      assert all[|done|..][b - |done|] == all[b];
    }
  }

  lemma GuidlessNotAgain(updates: seq<Update>, k: nat, u: Update)
    requires AllDifferent(updates) && k <= |updates| && u.guid == ""
    requires u in ResolveUpTo(GraphOf(updates), updates, k).resolved
    requires ResolveUpTo(GraphOf(updates), updates, k).resolved <= Resolve(updates)
    ensures u !in Resolve(updates)[|ResolveUpTo(GraphOf(updates), updates, k).resolved|..]
  {
    var done, all := ResolveUpTo(GraphOf(updates), updates, k).resolved, Resolve(updates);
    var more := all[|done|..];
    assert all == done + more && updates == updates[..k] + updates[k..];
    GuidlessKept(updates);
    GuidlessUpTo(GraphOf(updates), updates, k);
    GuidlessConcat(done, more);
    GuidlessConcat(updates[..k], updates[k..]);
    SameRest(Guidless(done), Guidless(more), Guidless(updates[k..]));
    GuidlessMember(more, u);
    GuidlessMember(updates[k..], u);
    GuidlessMember(done, u);
    GuidlessMember(updates[..k], u);
    DifferentParts(updates, k, u);
  }

  lemma SameRest<T>(a: seq<T>, b: seq<T>, c: seq<T>)
    requires a + b == a + c
    ensures b == c
  {
    assert b == (a + b)[|a|..] && c == (a + c)[|a|..];
  }

  lemma DifferentParts(us: seq<Update>, k: nat, u: Update)
    requires AllDifferent(us) && k <= |us| && u in us[..k]
    ensures u !in us[k..]
  {
    var i :| 0 <= i < k && us[..k][i] == u;
    forall j | 0 <= j < |us[k..]| ensures us[k..][j] != u {
      assert us[i] != us[k + j];
    }
  }

  /** Least displacement: an update that overtakes another is an ancestor of some update
      that stood no later than the one overtaken. */
  lemma OvertakersAreAncestors(updates: seq<Update>, i: nat, j: nat, a: nat, b: nat)
    requires UniqueGuids(updates) && AllDifferent(updates)
    requires i < j < |updates| && a < b < |Resolve(updates)|
    requires Resolve(updates)[a] == updates[j] && Resolve(updates)[b] == updates[i]
    ensures updates[j].guid != "" && Called(GraphOf(updates), updates, i + 1, updates[j].guid)
  {
    var k := i + 1;
    var done := ResolveUpTo(GraphOf(updates), updates, k).resolved;
    assert updates[i] in done by {
      ResolvedByTurn(updates, i);
    }
    assert done <= Resolve(updates) by {
      ResolvedGrows(GraphOf(updates), updates, k, |updates|);
    }
    if b >= |done| {
      NotAgain(updates, k, updates[i], b);
    } else {
      assert done[a] == updates[j];
      TakenUpEarly(updates, k, j);
    }
  }

  /** An update resolved before its turn has a guid, and was called. */
  lemma TakenUpEarly(updates: seq<Update>, k: nat, j: nat)
    requires UniqueGuids(updates) && AllDifferent(updates) && k <= j < |updates|
    requires updates[j] in ResolveUpTo(GraphOf(updates), updates, k).resolved
    ensures updates[j].guid != "" && Called(GraphOf(updates), updates, k, updates[j].guid)
  {
    var g, u := GraphOf(updates), updates[j];
    var v := ResolveUpTo(g, updates, k);
    if u.guid == "" {
      GuidlessUpTo(g, updates, k);
      GuidlessMember(v.resolved, u);
      GuidlessMember(updates[..k], u);
    } else {
      GraphUnique(updates, j);
      OrderedUpTo(g, updates, k);
      var a :| 0 <= a < |v.resolved| && v.resolved[a] == u;
      assert SurvivesAt(g, v, a);
      VisitedAreCalled(g, updates, k, u.guid);
    }
  }

  // ---------------------------------------------------------------- resolve, then validate

  /** An update that refers to an issue names one, and a named parent has a create action. */
  ghost predicate RefersRightly(g: Graph, u: Update)
  {
    Refers(u) ==>
      && (u.number != 0 || u.parent != "")
      && (u.parent != "" ==> u.parent in g && g[u.parent].action == "create")
  }

  /** What the surviving updates and the updates without guid have to satisfy; the latter
      are never moved, so their parent must be called before them. */
  ghost predicate Applicable(updates: seq<Update>)
  {
    var g := GraphOf(updates);
    && (forall x :: x in g ==> RefersRightly(g, g[x]))
    && (forall k :: 0 <= k < |updates| && updates[k].guid == "" ==>
         RefersRightly(g, updates[k])
         && (Refers(updates[k]) && updates[k].parent != "" ==> Called(g, updates, k, updates[k].parent)))
  }

  lemma CreatedBefore(updates: seq<Update>, i: nat, p: string)
    requires i <= |Resolve(updates)|
    ensures var g, r := GraphOf(updates), Resolve(updates);
            p in CreatedIn(r[..i]) <==> p in g && g[p].action == "create" && Listed(r[..i], p)
  {
    var g, r := GraphOf(updates), Resolve(updates);
    SurvivorsOnce(updates);
    CreatedMember(r[..i], p);
    if p in CreatedIn(r[..i]) {
      var j :| 0 <= j < i && r[..i][j].action == "create" && r[..i][j].guid == p;
      assert r[j].guid == p;
    }
    if p in g && g[p].action == "create" && Listed(r[..i], p) {
      var j :| 0 <= j < i && r[..i][j].guid == p;
      assert r[j].guid == p;
      assert r[..i][j].action == "create";
    }
  }

  /** An update without a guid stands where its turn came. */
  lemma GuidlessPlace(updates: seq<Update>, k: nat)
    requires k < |updates| && updates[k].guid == ""
    ensures var i := |ResolveUpTo(GraphOf(updates), updates, k).resolved|;
            && i < |Resolve(updates)| && Resolve(updates)[i] == updates[k]
            && Resolve(updates)[..i] == ResolveUpTo(GraphOf(updates), updates, k).resolved
  {
    var v, w := ResolveUpTo(GraphOf(updates), updates, k).resolved, ResolveUpTo(GraphOf(updates), updates, k
        + 1).resolved;
    ResolvedGrows(GraphOf(updates), updates, k + 1, |updates|);
    assert w == v + [updates[k]];
    PrefixAt(w, Resolve(updates), v, updates[k]);
  }

  lemma PrefixAt<T>(w: seq<T>, r: seq<T>, v: seq<T>, u: T)
    requires w == v + [u] && w <= r
    ensures |v| < |r| && r[|v|] == u && r[..|v|] == v
  {
  }

  /** And every update without a guid in the list is one of those. */
  lemma {:induction false} GuidlessOrigin(g: Graph, updates: seq<Update>, n: nat, i: nat) returns (k: nat)
    requires GraphLike(g) && n <= |updates| && i < |ResolveUpTo(g, updates, n).resolved|
    requires ResolveUpTo(g, updates, n).resolved[i].guid == ""
    ensures k < n && updates[k].guid == "" && i == |ResolveUpTo(g, updates, k).resolved|
  {
    var v := ResolveUpTo(g, updates, n - 1);
    if updates[n - 1].guid != "" {
      VisitEmits(g, updates[n - 1].guid, v);
      k := GuidlessOrigin(g, updates, n - 1, i);
    } else if i < |v.resolved| {
      k := GuidlessOrigin(g, updates, n - 1, i);
    } else {
      k := n - 1;
    }
  }

  lemma GuidlessAcceptable(updates: seq<Update>, k: nat)
    requires k < |updates| && updates[k].guid == ""
    ensures var i := |ResolveUpTo(GraphOf(updates), updates, k).resolved|;
            i < |Resolve(updates)|
            && (AcceptableAt(Resolve(updates), i) <==>
                 && RefersRightly(GraphOf(updates), updates[k])
                 && (Refers(updates[k]) && updates[k].parent != "" ==>
                     Called(GraphOf(updates), updates, k, updates[k].parent)))
  {
    var g := GraphOf(updates);
    var v, u := ResolveUpTo(g, updates, k), updates[k];
    GuidlessPlace(updates, k);
    if Refers(u) && u.parent != "" {
      CreatedBefore(updates, |v.resolved|, u.parent);
      if u.parent in g {
        OrderedUpTo(g, updates, k);
        VisitedIffCalled(g, updates, k, u.parent);
        if Listed(v.resolved, u.parent) {
          var j :| 0 <= j < |v.resolved| && v.resolved[j].guid == u.parent;
          assert SurvivesAt(g, v, j);
        }
      }
    }
  }
}
