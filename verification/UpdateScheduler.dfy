/**
 The update scheduler of scripts/enhanced_issue_manager.py: parents before children, then
 a check of the resulting sequence.
 */
module UpdateScheduler {

  /** One update. An absent guid or parent guid is the empty string, an absent number 0:
      the source only asks whether they are truthy. `id` tells equal-looking updates apart. */
  datatype Update = Update(id: nat, action: string, guid: string, parent: string, number: int)

  type Graph = map<string, Update>

  /** The update that survives for each guid: the last one. */
  function GraphOf(updates: seq<Update>): (g: Graph)
    ensures "" !in g && forall x :: x in g ==> g[x].guid == x && g[x] in updates
    ensures forall u :: u in updates && u.guid != "" ==> u.guid in g
  {
    if updates == [] then map[]
    else
      var last := updates[|updates| - 1];
      var g := GraphOf(updates[..|updates| - 1]);
      assert updates == updates[..|updates| - 1] + [last];
      if last.guid != "" then g[last.guid := last] else g
  }

  datatype Visits = Visits(visited: set<string>, resolved: seq<Update>)

  /** The closure `visit`: a guid once, its parent first. */
  function Visit(g: Graph, guid: string, v: Visits): (r: Visits)
    ensures v.visited <= r.visited
    decreases |g.Keys - v.visited|
  {
    if guid in v.visited then v
    else
      var marked := v.(visited := v.visited + {guid});
      if guid !in g then marked
      else
        var parent := g[guid].parent;
        assert g.Keys - marked.visited == g.Keys - v.visited - {guid};
        var above := if parent != "" && parent !in marked.visited then Visit(g, parent, marked) else marked;
        above.(resolved := above.resolved + [g[guid]])
  }

  /** The state after the first k updates were taken up. */
  function ResolveUpTo(g: Graph, updates: seq<Update>, k: nat): Visits
    requires k <= |updates|
  {
    if k == 0 then Visits({}, [])
    else
      var v := ResolveUpTo(g, updates, k - 1);
      var u := updates[k - 1];
      if u.guid != "" then Visit(g, u.guid, v) else v.(resolved := v.resolved + [u])
  }

  function Resolve(updates: seq<Update>): seq<Update>
  {
    ResolveUpTo(GraphOf(updates), updates, |updates|).resolved
  }

  datatype Problem = MissingReference(index: nat, action: string) | ParentNotCreated(index: nat, parent: string)

  /** comment, update and close must refer to an issue. */
  predicate Refers(u: Update)
  {
    u.action == "comment" || u.action == "update" || u.action == "close"
  }

  /** The guids of the create actions. */
  function CreatedIn(updates: seq<Update>): set<string>
    decreases |updates|
  {
    if updates == [] then {}
    else
      var last := updates[|updates| - 1];
      CreatedIn(updates[..|updates| - 1]) + (if last.action == "create" && last.guid != "" then {last.guid} else {})
  }

  lemma {:induction false} CreatedMember(updates: seq<Update>, x: string)
    ensures x in CreatedIn(updates) <==>
              x != "" && exists i :: 0 <= i < |updates| && updates[i].action == "create" && updates[i].guid == x
    decreases |updates|
  {
    if updates != [] {
      var init := updates[..|updates| - 1];
      CreatedMember(init, x);
      assert forall i :: 0 <= i < |init| ==> init[i] == updates[i];
    }
  }

  /** What is wrong with an update that comes when `created` exist. */
  predicate Acceptable(u: Update, created: set<string>)
  {
    Refers(u) ==> (u.number != 0 || u.parent != "") && (u.parent != "" ==> u.parent in created)
  }

  predicate AcceptableAt(updates: seq<Update>, i: nat)
    requires i < |updates|
  {
    Acceptable(updates[i], CreatedIn(updates[..i]))
  }

  /** The one problem, if any, of an update that comes when `created` exist. */
  function Diagnose(u: Update, i: nat, created: set<string>): (ps: seq<Problem>)
    ensures ps == [] <==> Acceptable(u, created)
  {
    if !Refers(u) then []
    else if u.number == 0 && u.parent == "" then [MissingReference(i, u.action)]
    else if u.parent != "" && u.parent !in created then [ParentNotCreated(i, u.parent)]
    else []
  }

  function Problems(updates: seq<Update>): seq<Problem>
    decreases |updates|
  {
    if updates == [] then []
    else
      var n := |updates| - 1;
      Problems(updates[..n]) + Diagnose(updates[n], n, CreatedIn(updates[..n]))
  }

  /** The resolver's locals: the dict, and the set and list its closure fills. */
  class Resolver {
    var dependencyGraph: Graph
    var visited: set<string>
    var resolved: seq<Update>

    constructor ()
      ensures dependencyGraph == map[] && visited == {} && resolved == []
    {
      dependencyGraph := map[];
      visited := {};
      resolved := [];
    }

    function State(): Visits
      reads this
    {
      Visits(visited, resolved)
    }

    method VisitGuid(guid: string)
      modifies `visited, `resolved
      ensures State() == Visit(dependencyGraph, guid, old(State()))
      decreases |dependencyGraph.Keys - visited|
    {
      if guid in visited {
        return;
      }
      visited := visited + {guid};
      if guid !in dependencyGraph {
        return;
      }
      assert dependencyGraph.Keys - visited == dependencyGraph.Keys - old(visited) - {guid};
      var parent := dependencyGraph[guid].parent;
      if parent != "" && parent !in visited {
        VisitGuid(parent);
      }
      resolved := resolved + [dependencyGraph[guid]];
    }

    method ResolveDependencies(updates: seq<Update>) returns (result: seq<Update>)
      requires dependencyGraph == map[] && visited == {} && resolved == []
      modifies this
      ensures result == Resolve(updates)
    {
      for k := 0 to |updates|
        invariant dependencyGraph == GraphOf(updates[..k]) && visited == {} && resolved == []
      {
        assert updates[..k + 1][..k] == updates[..k];
        var update := updates[k];
        if update.guid != "" {
          dependencyGraph := dependencyGraph[update.guid := update];
        }
      }
      assert updates[..|updates|] == updates;
      for k := 0 to |updates|
        invariant dependencyGraph == GraphOf(updates)
        invariant State() == ResolveUpTo(dependencyGraph, updates, k)
      {
        var update := updates[k];
        if update.guid != "" {
          VisitGuid(update.guid);
        } else {
          resolved := resolved + [update];
        }
      }
      result := resolved;
    }
  }

  /** A create action with this guid stands before position i. */
  predicate CreatedAhead(updates: seq<Update>, i: nat, guid: string)
    requires i <= |updates|
  {
    guid != "" && exists j :: 0 <= j < i && updates[j].action == "create" && updates[j].guid == guid
  }

  /** The update at this position has just this problem: it comments, updates or closes, and
      names neither an issue nor a parent, or a parent that was not created before it. */
  predicate Wrong(updates: seq<Update>, p: Problem)
  {
    p.index < |updates|
    && var u := updates[p.index];
       && u.action in {"comment", "update", "close"}
       && match p
          case MissingReference(_, action) => action == u.action && u.number == 0 && u.parent == ""
          case ParentNotCreated(i, parent) => parent == u.parent != "" && !CreatedAhead(updates, i, parent)
  }

  lemma CreatedAheadIff(updates: seq<Update>, i: nat, guid: string)
    requires i <= |updates|
    ensures guid in CreatedIn(updates[..i]) <==> CreatedAhead(updates, i, guid)
  {
    CreatedMember(updates[..i], guid);
    assert forall j :: 0 <= j < i ==> updates[..i][j] == updates[j];
  }

  lemma WrongInPart(updates: seq<Update>, n: nat, p: Problem)
    requires n <= |updates| && p.index < n
    ensures Wrong(updates[..n], p) <==> Wrong(updates, p)
  {
    assert forall j :: 0 <= j < n ==> updates[..n][j] == updates[j];
  }

  lemma DiagnoseMeans(updates: seq<Update>, n: nat, p: Problem)
    requires n < |updates|
    ensures p in Diagnose(updates[n], n, CreatedIn(updates[..n])) <==> p.index == n && Wrong(updates, p)
    ensures |Diagnose(updates[n], n, CreatedIn(updates[..n]))| <= 1
  {
    CreatedAheadIff(updates, n, updates[n].parent);
  }

  /** The problems reported are those there are, in the order of the updates, one for each. */
  lemma {:induction false} ReportedIffWrong(updates: seq<Update>, p: Problem)
    ensures p in Problems(updates) <==> Wrong(updates, p)
    decreases |updates|
  {
    if updates != [] {
      var n := |updates| - 1;
      DiagnoseMeans(updates, n, p);
      if p.index < n {
        ReportedIffWrong(updates[..n], p);
        WrongInPart(updates, n, p);
      } else {
        ReportedIffWrong(updates[..n], p);
      }
    }
  }

  lemma {:induction false} ReportedInOrder(updates: seq<Update>)
    ensures forall i, j :: 0 <= i < j < |Problems(updates)| ==> Problems(updates)[i].index < Problems(updates)[j].index
    ensures forall i :: 0 <= i < |Problems(updates)| ==> Problems(updates)[i].index < |updates|
    decreases |updates|
  {
    if updates != [] {
      var n := |updates| - 1;
      ReportedInOrder(updates[..n]);
      var last := Diagnose(updates[n], n, CreatedIn(updates[..n]));
      assert |last| <= 1 && forall i :: 0 <= i < |last| ==> last[i].index == n by {
        DiagnoseMeans(updates, n, MissingReference(n, ""));
      }
    }
  }

  /** Reports, in order, the problem of each update that is not acceptable where it stands. */
  method ValidateUpdateSequence(updates: seq<Update>) returns (valid: bool, errors: seq<Problem>)
    ensures errors == Problems(updates) && (forall p :: p in errors <==> Wrong(updates, p))
    ensures forall i, j :: 0 <= i < j < |errors| ==> errors[i].index < errors[j].index
    ensures valid <==> forall i :: 0 <= i < |updates| ==> AcceptableAt(updates, i)
  {
    errors := [];
    var created := {};
    for i := 0 to |updates|
      invariant created == CreatedIn(updates[..i])
      invariant errors == Problems(updates[..i])
    {
      var u := updates[i];
      assert updates[..i + 1][..i] == updates[..i];
      if u.action == "create" {
        if u.guid != "" {
          created := created + {u.guid};
        }
      } else if Refers(u) {
        if u.number == 0 && u.parent == "" {
          errors := errors + [MissingReference(i, u.action)];
        } else if u.parent != "" && u.parent !in created {
          errors := errors + [ParentNotCreated(i, u.parent)];
        }
      }
    }
    assert updates[..|updates|] == updates;
    NoProblems(updates);
    ReportedInOrder(updates);
    forall p ensures p in errors <==> Wrong(updates, p) {
      ReportedIffWrong(updates, p);
    }
    valid := errors == [];
  }

  lemma NoneAdded<T>(a: seq<T>, b: seq<T>)
    ensures a + b == [] <==> a == [] && b == []
  {
  }

  lemma SamePlace(updates: seq<Update>, n: nat, i: nat)
    requires i < n <= |updates|
    ensures AcceptableAt(updates[..n], i) <==> AcceptableAt(updates, i)
  {
    assert updates[..n][..i] == updates[..i];
  }

  lemma SamePlaces(updates: seq<Update>, n: nat)
    requires n <= |updates|
    ensures (forall i :: 0 <= i < n ==> AcceptableAt(updates[..n], i)) <==>
            forall i :: 0 <= i < n ==> AcceptableAt(updates, i)
  {
    forall i | 0 <= i < n ensures AcceptableAt(updates[..n], i) <==> AcceptableAt(updates, i) {
      SamePlace(updates, n, i);
    }
  }

  lemma {:induction false} NoProblems(updates: seq<Update>)
    ensures Problems(updates) == [] <==>
              forall i :: 0 <= i < |updates| ==> AcceptableAt(updates, i)
    decreases |updates|
  {
    if updates != [] {
      var n := |updates| - 1;
      NoProblems(updates[..n]);
      SamePlaces(updates, n);
      ProblemsNext(updates, n);
    }
  }

  lemma ProblemsNext(updates: seq<Update>, n: nat)
    requires |updates| == n + 1
    ensures Problems(updates) == [] <==> Problems(updates[..n]) == [] && AcceptableAt(updates, n)
  {
    NoneAdded(Problems(updates[..n]), Diagnose(updates[n], n, CreatedIn(updates[..n])));
  }
}
