/** What the resolved order of updates is: parents first except once on each parent cycle,
    nothing moved without need, and when validation of it succeeds. */
module UpdateSchedulerTheorems {
  import opened UpdateScheduler

  // ---------------------------------------------------------------- one visit

  /** The guids that a visit takes up, each followed by its parent. */
  function Chain(g: Graph, guid: string, visited: set<string>): seq<string>
    decreases |g.Keys - visited|
  {
    if guid in visited || guid !in g then []
    else
      assert g.Keys - (visited + {guid}) == g.Keys - visited - {guid};
      [guid] + Chain(g, g[guid].parent, visited + {guid})
  }

  /** The updates of a chain, the last guid first. */
  function Emit(g: Graph, chain: seq<string>): (us: seq<Update>)
    requires forall i :: 0 <= i < |chain| ==> chain[i] in g
    ensures |us| == |chain| && forall i :: 0 <= i < |us| ==> us[i] == g[chain[|chain| - 1 - i]]
  {
    if chain == [] then [] else Emit(g, chain[1..]) + [g[chain[0]]]
  }

  /** A chain climbs from child to parent, over guids not visited before, each once, and
      ends where the parent is outside the batch, visited, or on the chain itself. */
  lemma {:induction false} ChainClimbs(g: Graph, guid: string, visited: set<string>)
    requires "" !in g
    ensures var c := Chain(g, guid, visited);
            && (forall i :: 0 <= i < |c| ==> c[i] in g && c[i] !in visited)
            && (forall i, j :: 0 <= i < j < |c| ==> c[i] != c[j])
            && (forall i :: 0 < i < |c| ==> c[i] == g[c[i - 1]].parent)
            && (c != [] ==> c[0] == guid
                            && var top := g[c[|c| - 1]].parent; top !in g || top in visited || top in c)
            && (c == [] <==> guid !in g || guid in visited)
    decreases |g.Keys - visited|
  {
    if guid !in visited && guid in g {
      assert g.Keys - (visited + {guid}) == g.Keys - visited - {guid};
      ChainClimbs(g, g[guid].parent, visited + {guid});
      var c, rest := Chain(g, guid, visited), Chain(g, g[guid].parent, visited + {guid});
      assert c == [guid] + rest;
      if rest != [] {
        var top := g[rest[|rest| - 1]].parent;
        assert c[|c| - 1] == rest[|rest| - 1];
        assert top in rest ==> top in c;
        assert c[0] == guid;
      } else {
        assert c[0] == guid;
      }
    }
  }

  lemma {:induction false} ChainInGraph(g: Graph, guid: string, visited: set<string>)
    ensures forall i :: 0 <= i < |Chain(g, guid, visited)| ==> Chain(g, guid, visited)[i] in g
    decreases |g.Keys - visited|
  {
    if guid !in visited && guid in g {
      assert g.Keys - (visited + {guid}) == g.Keys - visited - {guid};
      ChainInGraph(g, g[guid].parent, visited + {guid});
    }
  }

  /** What a visit appends is its chain, upside down. */
  lemma {:induction false} VisitEmits(g: Graph, guid: string, v: Visits)
    requires "" !in g
    ensures forall i :: 0 <= i < |Chain(g, guid, v.visited)| ==> Chain(g, guid, v.visited)[i] in g
    ensures Visit(g, guid, v).resolved == v.resolved + Emit(g, Chain(g, guid, v.visited))
    decreases |g.Keys - v.visited|
  {
    ChainInGraph(g, guid, v.visited);
    if guid !in v.visited && guid in g {
      var marked, parent := v.(visited := v.visited + {guid}), g[guid].parent;
      assert g.Keys - marked.visited == g.Keys - v.visited - {guid};
      ChainInGraph(g, parent, marked.visited);
      VisitEmits(g, parent, marked);
      var rest := Chain(g, parent, marked.visited);
      assert Chain(g, guid, v.visited)[1..] == rest;
      assert Visit(g, parent, marked).resolved == v.resolved + Emit(g, rest);
    }
  }

  /** And what it marks in the batch. */
  lemma {:induction false} VisitMarks(g: Graph, guid: string, v: Visits, x: string)
    requires "" !in g && x in g
    ensures x in Visit(g, guid, v).visited <==> x in v.visited || x in Chain(g, guid, v.visited)
    decreases |g.Keys - v.visited|
  {
    if guid !in v.visited && guid in g {
      var marked, parent := v.(visited := v.visited + {guid}), g[guid].parent;
      assert g.Keys - marked.visited == g.Keys - v.visited - {guid};
      VisitMarks(g, parent, marked, x);
      assert Chain(g, guid, v.visited) == [guid] + Chain(g, parent, marked.visited);
    }
  }

  // ---------------------------------------------------------------- the resolved list

  /** The update at i stands behind its parent, or has none in the batch. */
  ghost predicate AfterParent(g: Graph, r: seq<Update>, i: nat)
    requires i < |r|
  {
    r[i].parent !in g || exists j :: 0 <= j < i && r[j].guid == r[i].parent
  }

  ghost predicate Follows(r: seq<Update>, k: nat)
    requires 0 < k < |r|
  {
    r[k].parent == r[k - 1].guid
  }

  /** From i to i + m stands a whole parent cycle, each update behind its parent but the
      first, whose parent is the last. */
  ghost predicate CycleAt(r: seq<Update>, i: nat, m: nat)
  {
    && i + m < |r|
    && (forall k :: i < k <= i + m ==> Follows(r, k))
    && (forall k :: i <= k <= i + m ==> r[k].guid != "")
    && r[i].parent == r[i + m].guid
  }

  ghost predicate PlacedAt(g: Graph, r: seq<Update>, i: nat)
    requires i < |r|
  {
    AfterParent(g, r, i) || exists m: nat :: CycleAt(r, i, m)
  }

  /** Every key stands for its own update. */
  ghost predicate GraphLike(g: Graph)
  {
    "" !in g && forall x :: x in g ==> g[x].guid == x
  }

  /** What holds between two visits: in the list are exactly the visited guids of the
      batch, each once with its surviving update, and each is rightly placed. */
  ghost predicate Ordered(g: Graph, v: Visits)
  {
    Surviving(g, v) && Complete(g, v) && UniqueGuids(v.resolved) && WellPlaced(g, v.resolved)
  }

  ghost predicate Surviving(g: Graph, v: Visits)
  {
    forall i :: 0 <= i < |v.resolved| && v.resolved[i].guid != "" ==> SurvivesAt(g, v, i)
  }

  ghost predicate SurvivesAt(g: Graph, v: Visits, i: nat)
    requires i < |v.resolved|
  {
    var u := v.resolved[i];
    u.guid in g && u == g[u.guid] && u.guid in v.visited
  }

  ghost predicate Listed(r: seq<Update>, guid: string)
  {
    exists i :: 0 <= i < |r| && r[i].guid == guid
  }

  ghost predicate Complete(g: Graph, v: Visits)
  {
    forall x :: x in g && x in v.visited ==> Listed(v.resolved, x)
  }

  ghost predicate UniqueGuids(r: seq<Update>)
  {
    forall i, j :: 0 <= i < j < |r| && r[i].guid != "" ==> r[i].guid != r[j].guid
  }

  ghost predicate WellPlaced(g: Graph, r: seq<Update>)
  {
    forall i :: 0 <= i < |r| && r[i].guid != "" ==> PlacedAt(g, r, i)
  }

  lemma SurvivingVisit(g: Graph, guid: string, v: Visits)
    requires GraphLike(g) && Surviving(g, v)
    ensures Surviving(g, Visit(g, guid, v))
  {
    var c, w := Chain(g, guid, v.visited), Visit(g, guid, v);
    VisitEmits(g, guid, v);
    forall k | 0 <= k < |c| ensures c[k] in w.visited {
      VisitMarks(g, guid, v, c[k]);
    }
    SurvivingGrows(g, v, w.visited, c);
  }

  lemma SurvivingGrows(g: Graph, v: Visits, visited: set<string>, c: seq<string>)
    requires GraphLike(g) && Surviving(g, v) && v.visited <= visited
    requires forall k :: 0 <= k < |c| ==> c[k] in g && c[k] in visited
    ensures Surviving(g, Visits(visited, v.resolved + Emit(g, c)))
  {
    var w := Visits(visited, v.resolved + Emit(g, c));
    forall i | 0 <= i < |w.resolved| && w.resolved[i].guid != "" ensures SurvivesAt(g, w, i) {
      if i < |v.resolved| {
        assert SurvivesAt(g, v, i);
      } else {
        assert w.resolved[i] == g[c[|c| - 1 - (i - |v.resolved|)]];
      }
    }
  }

  lemma CompleteVisit(g: Graph, guid: string, v: Visits)
    requires GraphLike(g) && Complete(g, v)
    ensures Complete(g, Visit(g, guid, v))
  {
    var c, w := Chain(g, guid, v.visited), Visit(g, guid, v);
    VisitEmits(g, guid, v);
    forall x | x in g && x in w.visited ensures Listed(w.resolved, x) {
      VisitMarks(g, guid, v, x);
      if x in v.visited {
        var i :| 0 <= i < |v.resolved| && v.resolved[i].guid == x;
        assert w.resolved[i].guid == x;
      } else {
        var k :| 0 <= k < |c| && c[k] == x;
        assert w.resolved[|v.resolved| + |c| - 1 - k].guid == x;
      }
    }
  }

  lemma UniqueVisit(g: Graph, guid: string, v: Visits)
    requires GraphLike(g) && Surviving(g, v) && UniqueGuids(v.resolved)
    ensures UniqueGuids(Visit(g, guid, v).resolved)
  {
    var c := Chain(g, guid, v.visited);
    VisitEmits(g, guid, v);
    ChainClimbs(g, guid, v.visited);
    forall i | 0 <= i < |v.resolved| && v.resolved[i].guid != "" ensures v.resolved[i].guid !in c {
      assert SurvivesAt(g, v, i);
    }
    UniqueGrows(g, v.resolved, c);
  }

  lemma UniqueGrows(g: Graph, r: seq<Update>, c: seq<string>)
    requires GraphLike(g) && UniqueGuids(r) && (forall k :: 0 <= k < |c| ==> c[k] in g)
    requires forall i, j :: 0 <= i < j < |c| ==> c[i] != c[j]
    requires forall i :: 0 <= i < |r| && r[i].guid != "" ==> r[i].guid !in c
    ensures UniqueGuids(r + Emit(g, c))
  {
    var all, e := r + Emit(g, c), Emit(g, c);
    forall i, j | 0 <= i < j < |all| && all[i].guid != "" ensures all[i].guid != all[j].guid {
      if j >= |r| {
        assert all[j].guid == c[|c| - 1 - (j - |r|)];
        if i >= |r| {
          assert all[i].guid == c[|c| - 1 - (i - |r|)];
        }
      }
    }
  }

  lemma WellPlacedVisit(g: Graph, guid: string, v: Visits)
    requires GraphLike(g) && Complete(g, v) && WellPlaced(g, v.resolved)
    ensures WellPlaced(g, Visit(g, guid, v).resolved)
  {
    var c, r, s := Chain(g, guid, v.visited), Visit(g, guid, v).resolved, |v.resolved|;
    VisitEmits(g, guid, v);
    ChainClimbs(g, guid, v.visited);
    forall i | 0 <= i < |r| && r[i].guid != "" ensures PlacedAt(g, r, i) {
      if i < s {
        PlacedGrows(g, v.resolved, Emit(g, c), i);
      } else if i > s {
        BehindParent(g, v.resolved, c, i);
      } else {
        FrontPlaced(g, v, c);
      }
    }
  }

  /** What a visit appends later stands right behind its parent. */
  lemma BehindParent(g: Graph, r: seq<Update>, c: seq<string>, i: nat)
    requires GraphLike(g) && (forall k :: 0 <= k < |c| ==> c[k] in g) && |r| < i < |r| + |c|
    requires forall k :: 0 < k < |c| ==> c[k] == g[c[k - 1]].parent
    ensures PlacedAt(g, r + Emit(g, c), i)
  {
    var k := |c| - 1 - (i - |r|);
    EmittedAt(g, r, c, i);
    EmittedAt(g, r, c, i - 1);
    assert c[k + 1] == g[c[k]].parent;
  }

  /** The update that a visit appends first: its parent is outside the batch, in the list
      already, or at the other end of its cycle. */
  lemma FrontPlaced(g: Graph, v: Visits, c: seq<string>)
    requires GraphLike(g) && Complete(g, v) && c != [] && (forall i :: 0 <= i < |c| ==> c[i] in g)
    requires forall i :: 0 < i < |c| ==> c[i] == g[c[i - 1]].parent
    requires var top := g[c[|c| - 1]].parent; top !in g || top in v.visited || top in c
    ensures PlacedAt(g, v.resolved + Emit(g, c), |v.resolved|)
  {
    var r, s := v.resolved + Emit(g, c), |v.resolved|;
    assert r[s] == g[c[|c| - 1]];
    var top := r[s].parent;
    if top in g {
      if top in v.visited {
        assert Listed(v.resolved, top);
        var j :| 0 <= j < s && v.resolved[j].guid == top;
        assert r[j].guid == top;
      } else {
        var t :| 0 <= t < |c| && c[t] == top;
        EmittedCycle(g, v.resolved, c, t);
      }
    }
  }

  lemma PlacedGrows(g: Graph, r: seq<Update>, more: seq<Update>, i: nat)
    requires i < |r| && PlacedAt(g, r, i)
    ensures PlacedAt(g, r + more, i)
  {
    var grown := r + more;
    if AfterParent(g, r, i) {
      if r[i].parent in g {
        var j :| 0 <= j < i && r[j].guid == r[i].parent;
        assert grown[j].guid == grown[i].parent;
      }
    } else {
      var m: nat :| CycleAt(r, i, m);
      assert forall k :: i <= k <= i + m ==> grown[k] == r[k];
      assert forall k :: i < k <= i + m ==> Follows(r, k) && Follows(grown, k);
      assert CycleAt(grown, i, m);
    }
  }

  /** A chain that runs into itself at t puts its cycle at the front of what it emits. */
  lemma EmittedCycle(g: Graph, r: seq<Update>, c: seq<string>, t: nat)
    requires GraphLike(g) && t < |c| && (forall i :: 0 <= i < |c| ==> c[i] in g)
    requires forall i :: 0 < i < |c| ==> c[i] == g[c[i - 1]].parent
    requires g[c[|c| - 1]].parent == c[t]
    ensures CycleAt(r + Emit(g, c), |r|, |c| - 1 - t)
  {
    var all, s, m := r + Emit(g, c), |r|, |c| - 1 - t;
    forall k | s <= k <= s + m ensures all[k].guid != "" {
      EmittedAt(g, r, c, k);
    }
    forall k | s < k <= s + m ensures Follows(all, k) {
      EmittedAt(g, r, c, k);
      EmittedAt(g, r, c, k - 1);
      var n := |c| - 1 - (k - s);
      assert c[n + 1] == g[c[n]].parent;
    }
    EmittedAt(g, r, c, s);
    EmittedAt(g, r, c, s + m);
  }

  lemma EmittedAt(g: Graph, r: seq<Update>, c: seq<string>, k: nat)
    requires GraphLike(g) && (forall i :: 0 <= i < |c| ==> c[i] in g)
    requires |r| <= k < |r| + |c|
    ensures var n := |c| - 1 - (k - |r|); (r + Emit(g, c))[k] == g[c[n]] && g[c[n]].guid == c[n] && c[n] != ""
  {
  }

  lemma OrderedVisit(g: Graph, guid: string, v: Visits)
    requires GraphLike(g) && Ordered(g, v)
    ensures Ordered(g, Visit(g, guid, v))
  {
    SurvivingVisit(g, guid, v);
    CompleteVisit(g, guid, v);
    UniqueVisit(g, guid, v);
    WellPlacedVisit(g, guid, v);
  }

  /** An update without a guid goes to the end. */
  lemma OrderedAppend(g: Graph, v: Visits, u: Update)
    requires GraphLike(g) && Ordered(g, v) && u.guid == ""
    ensures Ordered(g, v.(resolved := v.resolved + [u]))
  {
    var w := v.(resolved := v.resolved + [u]);
    forall i | 0 <= i < |w.resolved| && w.resolved[i].guid != ""
      ensures SurvivesAt(g, w, i) && PlacedAt(g, w.resolved, i)
    {
      assert SurvivesAt(g, v, i);
      PlacedGrows(g, v.resolved, [u], i);
    }
    forall x | x in g && x in w.visited ensures Listed(w.resolved, x) {
      assert Listed(v.resolved, x);
      var i :| 0 <= i < |v.resolved| && v.resolved[i].guid == x;
      assert w.resolved[i].guid == x;
    }
  }

  lemma {:induction false} OrderedUpTo(g: Graph, updates: seq<Update>, k: nat)
    requires GraphLike(g) && k <= |updates|
    ensures Ordered(g, ResolveUpTo(g, updates, k))
  {
    if k > 0 {
      OrderedUpTo(g, updates, k - 1);
      if updates[k - 1].guid != "" {
        OrderedVisit(g, updates[k - 1].guid, ResolveUpTo(g, updates, k - 1));
      } else {
        OrderedAppend(g, ResolveUpTo(g, updates, k - 1), updates[k - 1]);
      }
    }
  }

  lemma {:induction false} VisitedUpTo(g: Graph, updates: seq<Update>, k: nat, i: nat)
    requires i < k <= |updates| && updates[i].guid != ""
    ensures updates[i].guid in ResolveUpTo(g, updates, k).visited
  {
    if i < k - 1 {
      VisitedUpTo(g, updates, k - 1, i);
    }
  }

  /** Each guid of the batch is in the resolved list once, with its last update. */
  lemma SurvivorsOnce(updates: seq<Update>)
    ensures var r, g := Resolve(updates), GraphOf(updates);
            && (forall x :: x in g <==> x != "" && Listed(r, x))
            && (forall i :: 0 <= i < |r| && r[i].guid != "" ==> r[i].guid in g && r[i] == g[r[i].guid])
            && UniqueGuids(r)
  {
    var r, g := Resolve(updates), GraphOf(updates);
    OrderedUpTo(g, updates, |updates|);
    var v := ResolveUpTo(g, updates, |updates|);
    forall x | x in g ensures Listed(r, x) {
      var i :| 0 <= i < |updates| && updates[i] == g[x];
      VisitedUpTo(g, updates, |updates|, i);
    }
    forall i | 0 <= i < |r| && r[i].guid != "" ensures r[i].guid in g && r[i] == g[r[i].guid] {
      assert SurvivesAt(g, v, i);
    }
  }

  function Guidless(us: seq<Update>): seq<Update>
  {
    if us == [] then [] else (if us[0].guid == "" then [us[0]] else []) + Guidless(us[1..])
  }

  lemma {:induction false} GuidlessConcat(us: seq<Update>, ws: seq<Update>)
    ensures Guidless(us + ws) == Guidless(us) + Guidless(ws)
  {
    if us == [] {
      assert us + ws == ws;
    } else {
      assert (us + ws)[1..] == us[1..] + ws;
      GuidlessConcat(us[1..], ws);
    }
  }

  lemma {:induction false} GuidlessNone(us: seq<Update>)
    requires forall i :: 0 <= i < |us| ==> us[i].guid != ""
    ensures Guidless(us) == []
  {
    if us != [] {
      GuidlessNone(us[1..]);
    }
  }

  lemma {:induction false} GuidlessUpTo(g: Graph, updates: seq<Update>, k: nat)
    requires GraphLike(g) && k <= |updates|
    ensures Guidless(ResolveUpTo(g, updates, k).resolved) == Guidless(updates[..k])
  {
    if k > 0 {
      var v, u := ResolveUpTo(g, updates, k - 1), updates[k - 1];
      GuidlessUpTo(g, updates, k - 1);
      assert updates[..k] == updates[..k - 1] + [u];
      GuidlessConcat(updates[..k - 1], [u]);
      if u.guid != "" {
        VisitEmits(g, u.guid, v);
        var e := Emit(g, Chain(g, u.guid, v.visited));
        GuidlessNone(e);
        GuidlessConcat(v.resolved, e);
      } else {
        GuidlessConcat(v.resolved, [u]);
      }
    }
  }

  /** Updates without a guid keep their order, and none of them is lost or doubled. */
  lemma GuidlessKept(updates: seq<Update>)
    ensures Guidless(Resolve(updates)) == Guidless(updates)
  {
    GuidlessUpTo(GraphOf(updates), updates, |updates|);
    assert updates[..|updates|] == updates;
  }

  // ---------------------------------------------------------------- parents first, but for cycles

  /** Every update with a guid stands behind its in-batch parent, or opens a whole parent
      cycle of which it is the one member before its parent; never both. */
  lemma ParentsFirstButOncePerCycle(updates: seq<Update>, i: nat)
    requires i < |Resolve(updates)| && Resolve(updates)[i].guid != ""
    ensures AfterParent(GraphOf(updates), Resolve(updates), i) <==> !exists m: nat :: CycleAt(Resolve(updates), i, m)
  {
    var r, g := Resolve(updates), GraphOf(updates);
    OrderedUpTo(g, updates, |updates|);
    assert PlacedAt(g, r, i);
    SurvivorsOnce(updates);
    if AfterParent(g, r, i) && r[i].parent in g {
      var j :| 0 <= j < i && r[j].guid == r[i].parent;
      forall m: nat ensures !CycleAt(r, i, m) {
      }
    }
  }

  /** The n-th ancestor of a guid, the empty string once outside the batch. */
  function Up(g: Graph, guid: string, n: nat): string
  {
    if n == 0 then guid
    else
      var x := Up(g, guid, n - 1);
      if x in g then g[x].parent else ""
  }

  lemma {:induction false} UpAdd(g: Graph, guid: string, m: nat, n: nat)
    ensures Up(g, Up(g, guid, m), n) == Up(g, guid, m + n)
  {
    if n > 0 {
      UpAdd(g, guid, m, n - 1);
    }
  }

  lemma {:induction false} UpRound(g: Graph, guid: string, n: nat, times: nat)
    requires Up(g, guid, n) == guid
    ensures Up(g, guid, n * times) == guid
  {
    if times > 0 {
      UpRound(g, guid, n, times - 1);
      UpAdd(g, guid, n * (times - 1), n);
      assert n * (times - 1) + n == n * times;
    }
  }

  /** A guid that is its own ancestor. */
  ghost predicate OnCycle(g: Graph, guid: string)
  {
    guid in g && exists n: nat :: n >= 1 && Up(g, guid, n) == guid
  }

  /** The update of this guid stands before its parent, or is its own parent. */
  ghost predicate Breaks(g: Graph, r: seq<Update>, guid: string)
  {
    exists i :: 0 <= i < |r| && r[i].guid == guid && !AfterParent(g, r, i)
  }

  /** Inside the cycle that opens at i, parents are found by going back, round the end. */
  lemma {:induction false} UpInCycle(g: Graph, r: seq<Update>, i: nat, m: nat, n: nat) returns (k: nat)
    requires CycleAt(r, i, m)
    requires forall j :: 0 <= j < |r| && r[j].guid != "" ==> r[j].guid in g && r[j] == g[r[j].guid]
    ensures k <= m && r[i + k].guid == Up(g, r[i].guid, n)
    ensures k > 0 ==> AfterParent(g, r, i + k)
  {
    if n == 0 {
      k := 0;
    } else {
      k := UpInCycle(g, r, i, m, n - 1);
      assert r[i + k].guid != "";
      assert k > 0 ==> Follows(r, i + k);
      k := if k == 0 then m else k - 1;
      if k > 0 {
        assert Follows(r, i + k);
        assert r[i + k - 1].guid == r[i + k].parent;
      }
    }
  }

  /** What breaks the order is on a cycle together with its parent. */
  lemma BreaksOnCycle(updates: seq<Update>, guid: string)
    requires guid != "" && Breaks(GraphOf(updates), Resolve(updates), guid)
    ensures OnCycle(GraphOf(updates), guid)
  {
    var r, g := Resolve(updates), GraphOf(updates);
    SurvivorsOnce(updates);
    var i :| 0 <= i < |r| && r[i].guid == guid && !AfterParent(g, r, i);
    ParentsFirstButOncePerCycle(updates, i);
    var m: nat :| CycleAt(r, i, m);
    CycleReturns(g, r, i, m, m);
    assert Up(g, guid, m + 1) == guid;
  }

  lemma {:induction false} CycleReturns(g: Graph, r: seq<Update>, i: nat, m: nat, k: nat)
    requires CycleAt(r, i, m) && k <= m
    requires forall j :: 0 <= j < |r| && r[j].guid != "" ==> r[j].guid in g && r[j] == g[r[j].guid]
    ensures Up(g, r[i].guid, k + 1) == r[i + m - k].guid
    ensures k == m ==> Up(g, r[i].guid, m + 1) == r[i].guid
  {
    assert r[i].guid != "";
    if k > 0 {
      CycleReturns(g, r, i, m, k - 1);
      assert r[i + m - k + 1].guid != "" && Follows(r, i + m - k + 1);
    }
  }

  lemma {:induction false} UpOutside(g: Graph, guid: string, m: nat, n: nat)
    requires "" !in g && m <= n && Up(g, guid, m) !in g
    ensures n > m ==> Up(g, guid, n) == ""
  {
    if n > m {
      UpOutside(g, guid, m, n - 1);
    }
  }

  /** Every ancestor of a guid on a cycle is on it: it comes round to the guid again. */
  lemma CycleStays(g: Graph, guid: string, n: nat, k: nat) returns (back: nat)
    requires "" !in g && guid in g && n >= 1 && Up(g, guid, n) == guid
    ensures Up(g, guid, k) in g && Up(g, Up(g, guid, k), n) == Up(g, guid, k)
    ensures Up(g, Up(g, guid, k), back) == guid
  {
    var whole := n * k;
    UpRound(g, guid, n, k);
    TimesGrows(n, k);
    back := whole - k;
    UpAdd(g, guid, k, back);
    if Up(g, guid, k) !in g {
      UpOutside(g, guid, k, whole);
    }
    UpAdd(g, guid, k, n);
    UpAdd(g, guid, n, k);
  }

  lemma TimesGrows(n: nat, k: nat)
    requires n >= 1
    ensures n * k >= k
  {
  }

  /** Going back from a member of a cycle, some member breaks. */
  lemma {:induction false} SomeBreaks(g: Graph, r: seq<Update>, guid: string, n: nat, i: nat) returns (k: nat)
    requires "" !in g && guid in g && n >= 1 && Up(g, guid, n) == guid
    requires i < |r| && r[i].guid == guid && r[i] == g[guid]
    requires forall j :: 0 <= j < |r| && r[j].guid != "" ==> r[j].guid in g && r[j] == g[r[j].guid]
    ensures Breaks(g, r, Up(g, guid, k))
    decreases i
  {
    if AfterParent(g, r, i) {
      var _ := CycleStays(g, guid, n, 1);
      var parent := r[i].parent;
      assert Up(g, guid, 1) == g[Up(g, guid, 0)].parent == parent;
      var j :| 0 <= j < i && r[j].guid == parent;
      k := SomeBreaks(g, r, parent, n, j);
      UpAdd(g, guid, 1, k);
      k := k + 1;
    } else {
      k := 0;
    }
  }

  /** The k-th ancestor breaks the order. */
  ghost predicate AncestorBreaks(g: Graph, r: seq<Update>, guid: string, k: nat)
  {
    Breaks(g, r, Up(g, guid, k))
  }

  lemma CycleBreaks(updates: seq<Update>, guid: string) returns (k: nat)
    requires OnCycle(GraphOf(updates), guid)
    ensures AncestorBreaks(GraphOf(updates), Resolve(updates), guid, k)
  {
    var g, r := GraphOf(updates), Resolve(updates);
    SurvivorsOnce(updates);
    var n: nat :| n >= 1 && Up(g, guid, n) == guid;
    assert Listed(r, guid);
    var i :| 0 <= i < |r| && r[i].guid == guid;
    k := SomeBreaks(g, r, guid, n, i);
  }

  lemma CycleBreaksOnce(updates: seq<Update>, guid: string, a: nat, b: nat)
    requires OnCycle(GraphOf(updates), guid)
    requires AncestorBreaks(GraphOf(updates), Resolve(updates), guid, a)
    requires AncestorBreaks(GraphOf(updates), Resolve(updates), guid, b)
    ensures Up(GraphOf(updates), guid, a) == Up(GraphOf(updates), guid, b)
  {
    var g := GraphOf(updates);
    var n: nat :| n >= 1 && Up(g, guid, n) == guid;
    var back := CycleStays(g, guid, n, a);
    var _ := CycleStays(g, guid, n, b);
    UpAdd(g, Up(g, guid, a), back, b);
    BreaksOnlyOnce(updates, Up(g, guid, a), Up(g, guid, b), back + b);
  }

  /** On each parent cycle exactly one update stands before its parent. */
  lemma OneBreakPerCycle(updates: seq<Update>, guid: string)
    requires OnCycle(GraphOf(updates), guid)
    ensures exists k: nat :: AncestorBreaks(GraphOf(updates), Resolve(updates), guid, k)
    ensures forall a: nat, b: nat ::
              AncestorBreaks(GraphOf(updates), Resolve(updates), guid, a) && AncestorBreaks(GraphOf(updates),
                  Resolve(updates), guid, b)
              ==> Up(GraphOf(updates), guid, a) == Up(GraphOf(updates), guid, b)
  {
    var k := CycleBreaks(updates, guid);
    forall a: nat, b: nat | AncestorBreaks(GraphOf(updates), Resolve(updates), guid, a)
                            && AncestorBreaks(GraphOf(updates), Resolve(updates), guid, b)
      ensures Up(GraphOf(updates), guid, a) == Up(GraphOf(updates), guid, b)
    {
      CycleBreaksOnce(updates, guid, a, b);
    }
  }

  lemma BreaksOnlyOnce(updates: seq<Update>, y: string, z: string, n: nat)
    requires y in GraphOf(updates) && z in GraphOf(updates) && Up(GraphOf(updates), y, n) == z
    requires Breaks(GraphOf(updates), Resolve(updates), y) && Breaks(GraphOf(updates), Resolve(updates), z)
    ensures y == z
  {
    var g, r := GraphOf(updates), Resolve(updates);
    SurvivorsOnce(updates);
    var i :| 0 <= i < |r| && r[i].guid == y && !AfterParent(g, r, i);
    ParentsFirstButOncePerCycle(updates, i);
    var m: nat :| CycleAt(r, i, m);
    var k := UpInCycle(g, r, i, m, n);
    var j :| 0 <= j < |r| && r[j].guid == z && !AfterParent(g, r, j);
    assert j == i + k;
  }

  // ---------------------------------------------------------------- nothing moves without need

  ghost predicate InPlace(updates: seq<Update>, i: nat)
    requires i < |updates|
  {
    updates[i].guid != "" && updates[i].parent != updates[i].guid ==> AfterParent(GraphOf(updates), updates, i)
  }

  /** Parents stand before their children already; being one's own parent does not count. */
  ghost predicate ParentFirst(updates: seq<Update>)
  {
    forall i :: 0 <= i < |updates| ==> InPlace(updates, i)
  }

  lemma {:induction false} GraphUnique(updates: seq<Update>, i: nat)
    requires UniqueGuids(updates) && i < |updates| && updates[i].guid != ""
    ensures updates[i].guid in GraphOf(updates) && GraphOf(updates)[updates[i].guid] == updates[i]
    decreases |updates|
  {
    var n := |updates| - 1;
    if i < n {
      GraphUnique(updates[..n], i);
      assert updates[i].guid != updates[n].guid;
    }
  }

  ghost predicate CopiedUpTo(updates: seq<Update>, k: nat)
    requires k <= |updates|
  {
    ResolveUpTo(GraphOf(updates), updates, k).resolved == updates[..k]
  }

  /** While parents come first, resolving copies. */
  lemma {:induction false} CopiesWhileParentsFirst(updates: seq<Update>, k: nat)
    requires UniqueGuids(updates) && k <= |updates|
    requires forall i :: 0 <= i < k ==> InPlace(updates, i)
    ensures CopiedUpTo(updates, k)
  {
    if k > 0 {
      CopiesWhileParentsFirst(updates, k - 1);
      CopiesNext(updates, k - 1);
    }
  }

  lemma CopiesNext(updates: seq<Update>, k: nat)
    requires UniqueGuids(updates) && k < |updates| && InPlace(updates, k)
    requires CopiedUpTo(updates, k)
    ensures CopiedUpTo(updates, k + 1)
  {
    var g := GraphOf(updates);
    var v, u := ResolveUpTo(g, updates, k), updates[k];
    assert updates[..k + 1] == updates[..k] + [u];
    if u.guid != "" {
      TakenUpBefore(updates, k);
      TakenUpAlone(g, u, v);
      assert ResolveUpTo(g, updates, k + 1) == Visit(g, u.guid, v);
    }
  }

  lemma TakenUpAlone(g: Graph, u: Update, v: Visits)
    requires "" !in g && u.guid in g && g[u.guid] == u && u.guid !in v.visited
    requires u.parent in g ==> u.parent in v.visited + {u.guid}
    ensures Visit(g, u.guid, v).resolved == v.resolved + [u]
  {
    VisitEmits(g, u.guid, v);
    ChainAlone(g, u, v.visited);
    assert Emit(g, [u.guid]) == [u];
  }

  /** With its parent visited, outside the batch or itself, an update is taken up alone. */
  lemma ChainAlone(g: Graph, u: Update, visited: set<string>)
    requires "" !in g && u.guid in g && g[u.guid] == u && u.guid !in visited
    requires u.parent in g ==> u.parent in visited + {u.guid}
    ensures Chain(g, u.guid, visited) == [u.guid]
  {
    ChainClimbs(g, u.parent, visited + {u.guid});
    assert Chain(g, u.guid, visited) == [u.guid] + Chain(g, u.parent, visited + {u.guid});
  }

  /** Before its turn an update is not taken up, and its parent is if it stands before it. */
  lemma TakenUpBefore(updates: seq<Update>, k: nat)
    requires UniqueGuids(updates) && k < |updates| && updates[k].guid != ""
    requires CopiedUpTo(updates, k)
    ensures updates[k].guid in GraphOf(updates) && GraphOf(updates)[updates[k].guid] == updates[k]
    ensures updates[k].guid !in ResolveUpTo(GraphOf(updates), updates, k).visited
    ensures updates[k].parent in GraphOf(updates) ==>
              (updates[k].parent in ResolveUpTo(GraphOf(updates), updates, k).visited
               <==> AfterParent(GraphOf(updates), updates, k))
  {
    var g := GraphOf(updates);
    var v := ResolveUpTo(g, updates, k);
    GraphUnique(updates, k);
    OrderedUpTo(g, updates, k);
    if updates[k].parent in g {
      if updates[k].parent in v.visited {
        assert Listed(v.resolved, updates[k].parent);
        var i :| 0 <= i < k && updates[..k][i].guid == updates[k].parent;
        assert updates[i].guid == updates[k].parent;
      }
      if AfterParent(g, updates, k) {
        var j :| 0 <= j < k && updates[j].guid == updates[k].parent;
        VisitedUpTo(g, updates, k, j);
      }
    }
  }

  lemma {:induction false} ResolvedGrows(g: Graph, updates: seq<Update>, k: nat, n: nat)
    requires "" !in g && k <= n <= |updates|
    ensures ResolveUpTo(g, updates, k).resolved <= ResolveUpTo(g, updates, n).resolved
  {
    if k < n {
      ResolvedGrows(g, updates, k, n - 1);
      if updates[n - 1].guid != "" {
        VisitEmits(g, updates[n - 1].guid, ResolveUpTo(g, updates, n - 1));
      }
    }
  }

  /** The first update that stands before its parent is not where it was. */
  lemma FirstOutOfPlaceMoves(updates: seq<Update>, k: nat)
    requires UniqueGuids(updates) && k < |updates| && !InPlace(updates, k)
    requires CopiedUpTo(updates, k)
    ensures Resolve(updates) != updates
  {
    var g := GraphOf(updates);
    var v, u := ResolveUpTo(g, updates, k), updates[k];
    TakenUpBefore(updates, k);
    VisitEmits(g, u.guid, v);
    ChainClimbs(g, u.guid, v.visited);
    var c := Chain(g, u.guid, v.visited);
    ChainClimbs(g, u.parent, v.visited + {u.guid});
    assert c == [u.guid] + Chain(g, u.parent, v.visited + {u.guid});
    var e := Emit(g, c);
    assert |c| > 1 && e[0] == g[c[|c| - 1]] && e[0].guid != u.guid;
    ResolvedGrows(g, updates, k + 1, |updates|);
    assert Resolve(updates)[k] == e[0];
  }

  /** With distinct guids a list comes back unchanged exactly when its parents come first. */
  lemma UnchangedIffParentFirst(updates: seq<Update>)
    requires UniqueGuids(updates)
    ensures Resolve(updates) == updates <==> ParentFirst(updates)
  {
    if ParentFirst(updates) {
      CopiesWhileParentsFirst(updates, |updates|);
      assert updates[..|updates|] == updates;
    } else {
      var bad :| 0 <= bad < |updates| && !InPlace(updates, bad);
      var k := FirstOutOfPlace(updates, bad);
      CopiesWhileParentsFirst(updates, k);
      FirstOutOfPlaceMoves(updates, k);
    }
  }

  lemma {:induction false} FirstOutOfPlace(updates: seq<Update>, bad: nat) returns (k: nat)
    requires bad < |updates| && !InPlace(updates, bad)
    ensures k < |updates| && !InPlace(updates, k) && forall i :: 0 <= i < k ==> InPlace(updates, i)
  {
    if i :| 0 <= i < bad && !InPlace(updates, i) {
      k := FirstOutOfPlace(updates, i);
    } else {
      k := bad;
    }
  }

  /** Resolving keeps the graph. */
  lemma ResolvedGraph(updates: seq<Update>)
    ensures GraphOf(Resolve(updates)) == GraphOf(updates)
  {
    var g, r := GraphOf(updates), Resolve(updates);
    SurvivorsOnce(updates);
    forall x ensures x in g <==> x in GraphOf(r) {
      if x in g {
        assert Listed(r, x);
      }
    }
    forall x | x in g ensures g[x] == GraphOf(r)[x] {
      assert Listed(r, x);
      var i :| 0 <= i < |r| && r[i].guid == x;
      GraphUnique(r, i);
    }
  }

  /** Parents stand first in the resolved list exactly when no parent cycle has two members. */
  lemma ParentFirstIffNoCycle(updates: seq<Update>)
    ensures ParentFirst(Resolve(updates)) <==>
              forall x :: OnCycle(GraphOf(updates), x) ==> GraphOf(updates)[x].parent == x
  {
    var g, r := GraphOf(updates), Resolve(updates);
    SurvivorsOnce(updates);
    ResolvedGraph(updates);
    if forall x :: OnCycle(g, x) ==> g[x].parent == x {
      forall i | 0 <= i < |r| ensures InPlace(r, i) {
        if !InPlace(r, i) {
          BreaksOnCycle(updates, r[i].guid);
        }
      }
    } else {
      var x :| OnCycle(g, x) && g[x].parent != x;
      var k := CycleBreaks(updates, x);
      OwnParentAlone(g, x, k);
      var i :| 0 <= i < |r| && r[i].guid == Up(g, x, k) && !AfterParent(g, r, i);
      assert !InPlace(r, i);
    }
  }

  /** Resolving twice is resolving once exactly when no parent cycle has two members. */
  lemma IdempotentIffNoCycle(updates: seq<Update>)
    ensures Resolve(Resolve(updates)) == Resolve(updates) <==>
              forall x :: OnCycle(GraphOf(updates), x) ==> GraphOf(updates)[x].parent == x
  {
    SurvivorsOnce(updates);
    UnchangedIffParentFirst(Resolve(updates));
    ParentFirstIffNoCycle(updates);
  }

  /** A member of a cycle of two or more is not its own parent. */
  lemma OwnParentAlone(g: Graph, x: string, k: nat)
    requires "" !in g && OnCycle(g, x) && g[x].parent != x
    ensures Up(g, x, k) in g && g[Up(g, x, k)].parent != Up(g, x, k)
  {
    var n: nat :| n >= 1 && Up(g, x, n) == x;
    var back := CycleStays(g, x, n, k);
    var y := Up(g, x, k);
    if g[y].parent == y {
      assert Up(g, y, 1) == g[Up(g, y, 0)].parent;
      UpRound(g, y, 1, back);
    }
  }
}
