/** Runs that meet the bound on creations with one GUID, for every number of exposing events. */
module IssueRuns {
  import opened Options
  import opened Text
  import opened IssueProcessor
  import opened IssueTheorems

  /** A run as the outside can answer it: repositories have names, others open issues only
      in repositories there are, and every number is new. */
  ghost predicate Real(s: State, events: seq<Event>)
    decreases |events|
  {
    events == []
    || (RealNames(s) && FreshNumber(s, events[0]) && (events[0].Opened? ==> events[0].repo in s.store)
        && Real(After(s, events[0]), events[1..]))
  }

  const GUID := "7"
  const LIVE := Config("r", false, false, "")

  function Answering(created: Option<nat>, listed: Option<nat>): Reply
  {
    Reply(false, false, listed, None, created, true, false, false)
  }

  function Creating(guid: string, body: BodyField): Update
  {
    Update(Some("create"), "t", body, "", guid, "", "", Missing, 0)
  }

  /** A create action for the GUID that searches this much of the listing. */
  function MakeSeeing(number: nat, listed: Option<nat>): Event
  {
    Act(LIVE, Creating(GUID, NoBody), Answering(Some(number), listed))
  }

  function Make(number: nat): Event
  {
    MakeSeeing(number, None)
  }

  function Made(number: nat): Issue
  {
    Issue(number, "t", Some(BodyWith("", GUID)), true)
  }

  predicate Below(issues: seq<Issue>, n: nat)
  {
    forall i :: 0 <= i < |issues| ==> issues[i].number < n
  }

  /** The repository holds these issues. */
  predicate Holds(s: State, issues: seq<Issue>)
  {
    RealNames(s) && "r" in s.store && s.store["r"] == issues
  }

  lemma MakeCreates(s: State, issues: seq<Issue>, n: nat, listed: Option<nat>)
    requires Holds(s, issues) && Below(issues, n) && Unique(Seen(issues, listed), Guids("", GUID))
    ensures var e := MakeSeeing(n, listed); var t := After(s, e);
            && CreatedBy(s, e) == Some(Creation("r", n, GUID)) && Holds(t, [Made(n)] + issues) && FreshNumber(s, e)
            && Below([Made(n)] + issues, n + 1) && !OpensNull(s, e, "r")
            && (Exposes(s, e, "r", GUID) <==> CutShort(s, e, "r", GUID))
            && (listed == None ==> !CutShort(s, e, "r", GUID))
  {
    var u := Creating(GUID, NoBody);
    assert !IsUuid(GUID) && ExtractGuids(u) == Guids("", GUID);
    assert CheckedRepo(LIVE, u.repo) == TargetRepo(LIVE, u.repo) == "r";
    assert IssuesOf(s.store, "r") == issues;
    assert PostedBody(u) == Some("") by {
      assert "" + "" == "";
    }
    assert CreatedBody(u, Answering(Some(n), listed)) == Some(BodyWith("", GUID));
  }

  /** The events expose the GUID once and create one issue with it. */
  ghost predicate Once(s: State, events: seq<Event>, t: State)
  {
    t == Run(s, events) && Real(s, events) && Creations(s, events, "r", GUID) == Exposures(s, events, "r", GUID) == 1
  }

  /** A real run that does so as often as there are rounds. */
  ghost predicate Rounds(s: State, events: seq<Event>, rounds: nat)
  {
    Real(s, events) && Creations(s, events, "r", GUID) == Exposures(s, events, "r", GUID) == rounds
  }

  lemma Joined(s: State, events: seq<Event>, t: State, rest: seq<Event>, rounds: nat)
    requires Once(s, events, t) && Rounds(t, rest, rounds)
    ensures Rounds(s, events + rest, rounds + 1)
  {
    Concatenated(s, events, rest);
  }

  lemma {:induction false} Concatenated(s: State, events: seq<Event>, rest: seq<Event>)
    requires Real(s, events) && Real(Run(s, events), rest)
    ensures var all, t := events + rest, Run(s, events);
            && Real(s, all)
            && Creations(s, all, "r", GUID) == Creations(s, events, "r", GUID) + Creations(t, rest, "r", GUID)
            && Exposures(s, all, "r", GUID) == Exposures(s, events, "r", GUID) + Exposures(t, rest, "r", GUID)
    decreases |events|
  {
    var all := events + rest;
    if events == [] {
      assert all == rest;
    } else {
      assert all[0] == events[0] && all[1..] == events[1..] + rest;
      Concatenated(After(s, events[0]), events[1..], rest);
    }
  }

  /** What one event and a creation after it come to. */
  lemma Pair(s: State, a: Event, b: Event)
    requires RealNames(s) && FreshNumber(s, a) && (a.Opened? ==> a.repo in s.store)
    requires b.Act? && FreshNumber(After(s, a), b) && !Exposes(After(s, a), b, "r", GUID)
    requires Exposes(s, a, "r", GUID) && (CreatedBy(s, a).Some? ==> CreatedBy(s, a).value.guid != GUID)
    requires exists n :: CreatedBy(After(s, a), b) == Some(Creation("r", n, GUID))
    ensures Once(s, [a, b], After(After(s, a), b))
  {
    var s1 := After(s, a);
    NamesStay(s, a);
    assert [a, b][1..] == [b] && [b][1..] == [];
    assert Run(s1, [b]) == Run(After(s1, b), []);
    assert Creations(s1, [b], "r", GUID) == 1 + Creations(After(s1, b), [], "r", GUID);
    assert Exposures(s1, [b], "r", GUID) == Exposures(After(s1, b), [], "r", GUID);
    assert Real(s1, [b]);
  }

  /** The first creation in an empty repository, and rounds that expose and create once each. */
  lemma Starting(rest: seq<Event>, rounds: nat)
    requires Rounds(After(State(map["r" := []], map[]), Make(1)), rest, rounds)
    ensures var s, events := State(map["r" := []], map[]), [Make(1)] + rest;
            Real(s, events) && Creations(s, events, "r", GUID) == Exposures(s, events, "r", GUID) + 1 == rounds + 1
  {
    var s, events := State(map["r" := []], map[]), [Make(1)] + rest;
    MakeCreates(s, [], 1, None);
    assert events[0] == Make(1) && events[1..] == rest;
  }

  // Null bodies, opened by others or posted by a create action without a GUID.

  function NullIssue(number: nat): Issue
  {
    Issue(number, "t", None, true)
  }

  function OpenNull(own: bool, number: nat): Event
  {
    if own then Act(LIVE, Creating("", NullBody), Answering(Some(number), None)) else Opened("r", NullIssue(number))
  }

  /** One after the other: a null body opened, and a creation. */
  function NullRounds(own: bool, n: nat, rounds: nat): seq<Event>
    decreases rounds
  {
    if rounds == 0 then [] else [OpenNull(own, n), Make(n + 1)] + NullRounds(own, n + 2, rounds - 1)
  }

  lemma NullOpens(own: bool, s: State, issues: seq<Issue>, n: nat)
    requires Holds(s, issues) && Below(issues, n)
    ensures var e := OpenNull(own, n);
            && Holds(After(s, e), [NullIssue(n)] + issues) && Exposes(s, e, "r", GUID) && FreshNumber(s, e)
            && (CreatedBy(s, e).Some? ==> CreatedBy(s, e).value.guid == "")
  {
    if own {
      var u, r := Creating("", NullBody), Answering(Some(n), None);
      NoGuidsUnique(issues, u);
      assert CreatedBody(u, r) == None;
      assert CreatedBy(s, OpenNull(own, n)) == Some(Creation("r", n, ""));
    }
  }

  lemma NullRound(own: bool, s: State, issues: seq<Issue>, n: nat) returns (t: State, left: seq<Issue>)
    requires Holds(s, issues) && Below(issues, n)
    ensures Once(s, [OpenNull(own, n), Make(n + 1)], t) && Holds(t, left) && Below(left, n + 2)
  {
    var a, b := OpenNull(own, n), Make(n + 1);
    NullOpens(own, s, issues, n);
    var s1 := After(s, a);
    MakeCreates(s1, [NullIssue(n)] + issues, n + 1, None);
    t, left := After(s1, b), [Made(n + 1)] + ([NullIssue(n)] + issues);
    Pair(s, a, b);
  }

  lemma {:induction false} NullRoundsCreate(own: bool, s: State, issues: seq<Issue>, n: nat, rounds: nat)
    requires Holds(s, issues) && Below(issues, n)
    ensures Rounds(s, NullRounds(own, n, rounds), rounds)
    decreases rounds
  {
    if rounds > 0 {
      var t, left := NullRound(own, s, issues, n);
      NullRoundsCreate(own, t, left, n + 2, rounds - 1);
      Joined(s, [OpenNull(own, n), Make(n + 1)], t, NullRounds(own, n + 2, rounds - 1), rounds - 1);
    }
  }

  /** The bound is met: for every n a real run from an empty repository has n null bodies
      opened, all by others or all by the processor itself, and n + 1 issues created with one
      GUID. */
  lemma NullBodiesMeetBound(own: bool, n: nat)
    ensures var s := State(map["r" := []], map[]);
            var events := [Make(1)] + NullRounds(own, 2, n);
            Real(s, events) && Creations(s, events, "r", GUID) == Exposures(s, events, "r", GUID) + 1 == n + 1
  {
    var s := State(map["r" := []], map[]);
    MakeCreates(s, [], 1, None);
    assert [Made(1)] + [] == [Made(1)];
    NullRoundsCreate(own, After(s, Make(1)), [Made(1)], 2, n);
    Starting(NullRounds(own, 2, n), n);
  }

  // Searches that see nothing of the listing.

  function CutRounds(n: nat, rounds: nat): seq<Event>
    decreases rounds
  {
    if rounds == 0 then [] else [MakeSeeing(n, Some(0))] + CutRounds(n + 1, rounds - 1)
  }

  lemma MadeShields(issues: seq<Issue>, n: nat)
    ensures ShieldedIn([Made(n)] + issues, GUID)
  {
    CreatedIsMarked("", GUID);
    assert ShieldedAt([Made(n)] + issues, GUID, 0);
  }

  lemma CutRound(s: State, issues: seq<Issue>, n: nat) returns (t: State, left: seq<Issue>)
    requires Holds(s, issues) && Below(issues, n) && ShieldedIn(issues, GUID)
    ensures Holds(t, left) && Below(left, n + 1) && ShieldedIn(left, GUID)
    ensures Once(s, [MakeSeeing(n, Some(0))], t)
  {
    var e := MakeSeeing(n, Some(0));
    MakeCreates(s, issues, n, Some(0));
    assert CutShort(s, e, "r", GUID);
    t, left := After(s, e), [Made(n)] + issues;
    MadeShields(issues, n);
    assert [e][1..] == [];
    assert Creations(t, [], "r", GUID) == Exposures(t, [], "r", GUID) == 0 && Run(t, []) == t && Real(t, []);
  }

  lemma {:induction false} CutRoundsCreate(s: State, issues: seq<Issue>, n: nat, rounds: nat)
    requires Holds(s, issues) && Below(issues, n) && ShieldedIn(issues, GUID)
    ensures Rounds(s, CutRounds(n, rounds), rounds)
    decreases rounds
  {
    if rounds > 0 {
      var t, left := CutRound(s, issues, n);
      CutRoundsCreate(t, left, n + 1, rounds - 1);
      var events, rest := [MakeSeeing(n, Some(0))], CutRounds(n + 1, rounds - 1);
      assert Once(s, events, t) && Rounds(t, rest, rounds - 1);
      Joined(s, events, t, rest, rounds - 1);
    }
  }

  /** Searches that are cut short meet it as well. */
  lemma CutsMeetBound(n: nat)
    ensures var s := State(map["r" := []], map[]);
            var events := [Make(1)] + CutRounds(2, n);
            Real(s, events) && Creations(s, events, "r", GUID) == Exposures(s, events, "r", GUID) + 1 == n + 1
  {
    var s := State(map["r" := []], map[]);
    MakeCreates(s, [], 1, None);
    MadeShields([], 1);
    CutRoundsCreate(After(s, Make(1)), [Made(1)] + [], 2, n);
    Starting(CutRounds(2, n), n);
  }

  // Markers taken by updates.

  function Rewrite(number: nat): Event
  {
    Act(LIVE, Update(Some("update"), "", Text(""), "", "", "", "", Missing, number), Answering(None, None))
  }

  function RewriteRounds(n: nat, rounds: nat): seq<Event>
    decreases rounds
  {
    if rounds == 0 then [] else [Rewrite(n), Make(n + 1)] + RewriteRounds(n + 1, rounds - 1)
  }

  /** Issues with bodies, none with the GUID. */
  predicate Unmarked(issues: seq<Issue>)
  {
    forall i :: 0 <= i < |issues| ==> issues[i].body.Some? && !Carries(issues[i], GUID)
  }

  lemma {:induction false} UnmarkedUnique(issues: seq<Issue>)
    requires Unmarked(issues)
    ensures Unique(issues, Guids("", GUID))
  {
    if issues != [] {
      UnmarkedUnique(issues[1..]);
    }
  }

  lemma RewriteClears(s: State, issues: seq<Issue>, n: nat) returns (left: seq<Issue>)
    requires n > 0 && Holds(s, [Made(n)] + issues) && Below(issues, n) && Unmarked(issues)
    ensures Holds(After(s, Rewrite(n)), left) && Below(left, n + 1) && Unmarked(left)
    ensures Exposes(s, Rewrite(n), "r", GUID) && CreatedBy(s, Rewrite(n)) == None && FreshNumber(s, Rewrite(n))
  {
    var e := Rewrite(n);
    assert WrittenBody(e.update, e.reply) == Some(Some(""));
    left := PatchAll([Made(n)] + issues, n, Change(None, Some(Some("")), false));
    CreatedIsMarked("", GUID);
    assert !Contains("", Marker(GUID));
    assert ([Made(n)] + issues)[0] == Made(n);
    assert !Harmless([Made(n)] + issues, n, Some(""), GUID);
    assert UpdatesIn(s, e, "r") && TakesMarker(s, e, "r", GUID);
    forall i | 0 <= i < |left| ensures left[i].body.Some? && !Carries(left[i], GUID) && left[i].number < n + 1 {
      assert i > 0 ==> ([Made(n)] + issues)[i] == issues[i - 1];
    }
  }

  lemma RewriteRound(s: State, issues: seq<Issue>, n: nat) returns (t: State, left: seq<Issue>)
    requires n > 0 && Holds(s, [Made(n)] + issues) && Below(issues, n) && Unmarked(issues)
    ensures Once(s, [Rewrite(n), Make(n + 1)], t)
    ensures Holds(t, [Made(n + 1)] + left) && Below(left, n + 1) && Unmarked(left)
  {
    var a, b := Rewrite(n), Make(n + 1);
    left := RewriteClears(s, issues, n);
    var s1 := After(s, a);
    UnmarkedUnique(left);
    MakeCreates(s1, left, n + 1, None);
    t := After(s1, b);
    Pair(s, a, b);
  }

  lemma {:induction false} RewriteRoundsCreate(s: State, issues: seq<Issue>, n: nat, rounds: nat)
    requires n > 0 && Holds(s, [Made(n)] + issues) && Below(issues, n) && Unmarked(issues)
    ensures Rounds(s, RewriteRounds(n, rounds), rounds)
    decreases rounds
  {
    if rounds > 0 {
      var t, left := RewriteRound(s, issues, n);
      RewriteRoundsCreate(t, left, n + 1, rounds - 1);
      Joined(s, [Rewrite(n), Make(n + 1)], t, RewriteRounds(n + 1, rounds - 1), rounds - 1);
    }
  }

  /** So do updates: for every n a real run has n bodies rewritten without the marker and
      n + 1 issues created with one GUID. */
  lemma UpdatesMeetBound(n: nat)
    ensures var s := State(map["r" := []], map[]);
            var events := [Make(1)] + RewriteRounds(1, n);
            Real(s, events) && Creations(s, events, "r", GUID) == Exposures(s, events, "r", GUID) + 1 == n + 1
  {
    var s := State(map["r" := []], map[]);
    MakeCreates(s, [], 1, None);
    assert Holds(After(s, Make(1)), [Made(1)] + []);
    RewriteRoundsCreate(After(s, Make(1)), [], 1, n);
    Starting(RewriteRounds(1, n), n);
  }
}
