/** How many issues can be created with one GUID, over any number of runs. */
module IssueTheorems {
  import opened Options
  import opened Text
  import opened IssueProcessor

  // ---------------------------------------------------------------- what one create does

  /** The GUID that will be written is always among those searched for. */
  lemma EmbeddedIsChecked(u: Update)
    ensures var g := ExtractGuids(u);
            && (Embedded(u) != "" ==> Embedded(u) == g.primary || Embedded(u) == g.legacy)
            && (CheckedGuid(u) != "" <==> Embedded(u) != "")
  {
  }

  /** The second search, with the GUIDs as given, never refuses what the first let pass. */
  lemma {:induction false} SecondCheckAddsNothing(issues: seq<Issue>, u: Update)
    ensures Unique(issues, Guids(u.guid, u.legacyGuid)) == Unique(issues, ExtractGuids(u))
  {
    if issues != [] {
      SecondCheckAddsNothing(issues[1..], u);
    }
  }

  lemma NoGuidsUnique(issues: seq<Issue>, u: Update)
    requires CheckedGuid(u) == ""
    ensures Unique(issues, ExtractGuids(u))
  {
  }

  /** Where the longer of the searches that are made stops. */
  function Searched(c: Config, r: Reply): Option<nat>
  {
    if !(c.prevention && ByGuid(c) && !c.dryRun) then r.listed
    else if r.listed.None? || r.listedAgain.None? then None
    else if r.listed.value < r.listedAgain.value then r.listedAgain else r.listed
  }

  function SearchedPart(c: Config, s: State, u: Update, r: Reply): seq<Issue>
  {
    Seen(IssuesOf(s.store, CheckedRepo(c, u.repo)), Searched(c, r))
  }

  /** A search that stops earlier refuses no more. */
  lemma LessSeen(issues: seq<Issue>, n: nat, g: Guids)
    requires n <= |issues| && Unique(issues, g)
    ensures Unique(issues[..n], g)
  {
    UniqueIff(issues, g);
    UniqueIff(issues[..n], g);
    assert forall i :: BlockedBy(issues[..n], g, i) ==> BlockedBy(issues, g, i);
  }

  lemma LessIsSeen(issues: seq<Issue>, less: Option<nat>, more: Option<nat>, g: Guids)
    requires Unique(Seen(issues, more), g)
    requires more.None? || (less.Some? && less.value <= more.value)
    ensures Unique(Seen(issues, less), g)
  {
    var seen, part := Seen(issues, more), Seen(issues, less);
    assert |part| <= |seen| && part == seen[..|part|];
    LessSeen(seen, |part|, g);
  }

  lemma BothSearches(c: Config, s: State, u: Update, r: Reply)
    requires c.prevention && ByGuid(c) && !c.dryRun
    ensures var issues, g := IssuesOf(s.store, CheckedRepo(c, u.repo)), ExtractGuids(u);
            Unique(Seen(issues, Searched(c, r)), g)
            <==> Unique(Seen(issues, r.listed), g) && Unique(Seen(issues, r.listedAgain), g)
  {
    var issues, g := IssuesOf(s.store, CheckedRepo(c, u.repo)), ExtractGuids(u);
    if Unique(Seen(issues, Searched(c, r)), g) {
      LessIsSeen(issues, r.listed, Searched(c, r), g);
      LessIsSeen(issues, r.listedAgain, Searched(c, r), g);
    }
  }

  /** Putting the marker behind the body raises an error. */
  predicate Unmarkable(u: Update)
  {
    Embedded(u) != "" && u.body.NullBody? && u.reference == ""
  }

  /** An issue is created exactly when there is a title, this is no dry run, the body is not
      null where a marker has to go behind it, the title check does not object, the
      repository exists and GitHub creates the issue, and no issue with one of the GUIDs is
      listed before the first issue without a body, in the part of the listing that is seen. */
  lemma CreatedIff(c: Config, s: State, u: Update, r: Reply)
    requires u.action == Some("create")
    ensures Process(c, s, u, r).created.Some?
       <==> u.title != "" && !c.dryRun && !Unmarkable(u) && r.created.Some? && TargetRepo(c, u.repo) in s.store
            && !(c.prevention && ByTitle(c) && r.titleTaken)
            && !exists i :: BlockedBy(SearchedPart(c, s, u, r), ExtractGuids(u), i)
  {
    var issues := IssuesOf(s.store, CheckedRepo(c, u.repo));
    UniqueIff(SearchedPart(c, s, u, r), ExtractGuids(u));
    SecondCheckAddsNothing(Seen(issues, r.listedAgain), u);
    if c.prevention && ByGuid(c) && !c.dryRun {
      BothSearches(c, s, u, r);
    }
    if CheckedGuid(u) == "" {
      NoGuidsUnique(SearchedPart(c, s, u, r), u);
      NoGuidsUnique(Seen(issues, r.listedAgain), u);
    }
  }

  lemma CreatedIsMarked(text: string, guid: string)
    requires guid != ""
    ensures Contains(BodyWith(text, guid), Marker(guid))
  {
    ContainsAround(text + "\n\n", Marker(guid), "");
    assert text + "\n\n" + Marker(guid) + "" == text + "\n\n" + Marker(guid);
  }

  /** No repository is called nothing, or None, which is what a null entry is written as. */
  predicate RealNames(s: State)
  {
    "" !in s.store && "None" !in s.store
  }

  /** An empty or null repo entry is searched in the default repository, but nothing can be
      created for it: what is created is created where was searched. */
  lemma CreatedWhereSearched(c: Config, s: State, u: Update, r: Reply)
    requires RealNames(s) && Process(c, s, u, r).created.Some?
    ensures Process(c, s, u, r).created.value.repo == TargetRepo(c, u.repo) == CheckedRepo(c, u.repo)
    ensures u.repo.Missing? || (u.repo.Named? && u.repo.name != "")
  {
  }

  /** The search looks in the repository the entry names for creation. */
  predicate Guarded(c: Config, u: Update)
  {
    CheckedRepo(c, u.repo) == TargetRepo(c, u.repo)
  }

  lemma GuardedIff(c: Config, u: Update)
    ensures Guarded(c, u) <==> match u.repo
                               case Missing => true
                               case Null => c.repo == "None"
                               case Named(name) => name != "" || c.repo == ""
  {
  }

  // ---------------------------------------------------------------- listings

  /** An issue that carries the GUID, with no null body listed before it: every search for
      the GUID ends there at the latest. */
  predicate ShieldedAt(issues: seq<Issue>, guid: string, i: int)
  {
    0 <= i < |issues| && Carries(issues[i], guid) && forall j :: 0 <= j < i ==> issues[j].body.Some?
  }

  predicate ShieldedIn(issues: seq<Issue>, guid: string)
  {
    exists i :: 0 <= i < |issues| && ShieldedAt(issues, guid, i)
  }

  predicate Shielded(s: State, repo: string, guid: string)
  {
    ShieldedIn(IssuesOf(s.store, repo), guid)
  }

  predicate HaveBodies(issues: seq<Issue>)
  {
    forall i :: 0 <= i < |issues| ==> issues[i].body.Some?
  }

  /** Where all issues have a body the order of the listing does not matter. */
  lemma OrderIrrelevant(a: seq<Issue>, b: seq<Issue>, g: Guids)
    requires HaveBodies(a) && multiset(a) == multiset(b)
    ensures Unique(a, g) == Unique(b, g)
  {
    forall i | 0 <= i < |b| ensures b[i].body.Some? {
      assert b[i] in multiset(b) && b[i] in a;
    }
    Reordered(a, b, g);
    Reordered(b, a, g);
  }

  lemma Reordered(a: seq<Issue>, b: seq<Issue>, g: Guids)
    requires multiset(a) == multiset(b) && HaveBodies(b)
    ensures !Unique(a, g) ==> !Unique(b, g)
  {
    UniqueIff(a, g);
    UniqueIff(b, g);
    if !Unique(a, g) {
      var i :| BlockedBy(a, g, i);
      assert a[i] in multiset(a) && a[i] in b;
      var k :| 0 <= k < |b| && b[k] == a[i];
      assert BlockedBy(b, g, k);
    }
  }

  lemma ShieldFront(x: Issue, issues: seq<Issue>, guid: string)
    requires x.body.Some? && ShieldedIn(issues, guid)
    ensures ShieldedIn([x] + issues, guid)
  {
    var i :| 0 <= i < |issues| && ShieldedAt(issues, guid, i);
    assert ShieldedAt([x] + issues, guid, i + 1);
  }

  /** No issue with this number carries the GUID, or its new body does too. */
  predicate Harmless(issues: seq<Issue>, number: nat, body: Option<string>, guid: string)
  {
    forall i :: 0 <= i < |issues| && issues[i].number == number && Carries(issues[i], guid) ==>
                  body.Some? && Contains(body.value, Marker(guid))
  }

  /** The issue with this number is listed before every issue that shields the GUID. */
  predicate InFront(issues: seq<Issue>, number: nat, guid: string)
  {
    exists i :: 0 <= i < |issues| && issues[i].number == number
                && !exists j :: 0 <= j <= i && ShieldedAt(issues, guid, j)
  }

  lemma ShieldPatched(issues: seq<Issue>, number: nat, change: Change, guid: string)
    requires ShieldedIn(issues, guid)
    requires change.body.Some? ==> Harmless(issues, number, change.body.value, guid)
    requires change.body == Some(None) ==> !InFront(issues, number, guid)
    ensures ShieldedIn(PatchAll(issues, number, change), guid)
  {
    var i :| 0 <= i < |issues| && ShieldedAt(issues, guid, i);
    var first := FirstShield(issues, guid, i);
    assert ShieldedAt(PatchAll(issues, number, change), guid, first);
  }

  lemma {:induction false} FirstShield(issues: seq<Issue>, guid: string, i: nat) returns (first: nat)
    requires i < |issues| && ShieldedAt(issues, guid, i)
    ensures first < |issues| && ShieldedAt(issues, guid, first)
    ensures forall j :: 0 <= j < first ==> !ShieldedAt(issues, guid, j)
  {
    if j: nat :| j < i && ShieldedAt(issues, guid, j) {
      first := FirstShield(issues, guid, j);
    } else {
      first := i;
    }
  }

  lemma {:induction false} ShieldRemoved(issues: seq<Issue>, number: nat, guid: string, i: int)
    requires ShieldedAt(issues, guid, i) && issues[i].number != number
    ensures ShieldedIn(Removed(issues, number), guid)
  {
    var rest := Removed(issues[1..], number);
    if i == 0 {
      assert ShieldedAt(Removed(issues, number), guid, 0);
    } else {
      assert issues[1..][i - 1] == issues[i];
      assert forall j :: 0 <= j < i - 1 ==> issues[1..][j] == issues[j + 1];
      ShieldRemoved(issues[1..], number, guid, i - 1);
      if issues[0].number != number {
        ShieldFront(issues[0], rest, guid);
      } else {
        assert [] + rest == rest;
      }
    }
  }

  // ---------------------------------------------------------------- any number of runs

  /** An update processed, a new processor, or an issue opened by somebody else. */
  datatype Event = Act(config: Config, update: Update, reply: Reply) | NewRun | Opened(repo: string, issue: Issue)

  function After(s: State, e: Event): State
  {
    match e
    case Act(c, u, r) => Process(c, s, u, r).state
    case NewRun => s.(mapped := map[])
    case Opened(repo, issue) => if repo in s.store then s.(store := s.store[repo := [issue] + s.store[repo]]) else s
  }

  function CreatedBy(s: State, e: Event): Option<Creation>
  {
    if e.Act? then Process(e.config, s, e.update, e.reply).created else None
  }

  /** An update action that goes through to an issue of this repository. */
  predicate UpdatesIn(s: State, e: Event, repo: string)
  {
    e.Act? && e.update.action == Some("update") && !e.config.dryRun && e.reply.patched && repo in s.store
    && !(CheckedGuid(e.update) != "" && e.update.body.NullBody?)
    && UpdateTarget(e.config, s, e.update).repo == repo && UpdateTarget(e.config, s, e.update).number != 0
  }

  /** An update or delete action that goes through, to this repository, and leaves some
      issue that carried the GUID without it. */
  predicate TakesMarker(s: State, e: Event, repo: string, guid: string)
  {
    if UpdatesIn(s, e, repo) then
      var body := WrittenBody(e.update, e.reply);
      body.Some? && !Harmless(s.store[repo], UpdateTarget(e.config, s, e.update).number, body.value, guid)
    else
      e.Act? && e.update.action == Some("delete") && !e.config.dryRun && repo in s.store
      && e.update.number != 0 && e.reply.deleted && TargetRepo(e.config, e.update.repo) == repo
      && !Harmless(s.store[repo], e.update.number, None, guid)
  }

  /** An update that leaves an issue without a body in front of those that shield the GUID. */
  predicate PutsNull(s: State, e: Event, repo: string, guid: string)
  {
    UpdatesIn(s, e, repo) && WrittenBody(e.update, e.reply) == Some(None)
    && InFront(s.store[repo], UpdateTarget(e.config, s, e.update).number, guid)
  }

  /** A new issue without a body, which will be listed first: another's, or one that a create
      action without GUIDs posts. */
  predicate OpensNull(s: State, e: Event, repo: string)
  {
    (e.Opened? && e.repo == repo && repo in s.store && e.issue.body.None?)
    || (e.Act? && CreatedBy(s, e).Some? && CreatedBy(s, e).value.repo == repo
        && CreatedBody(e.update, e.reply).None?)
  }

  /** A create action for the GUID whose searches stop before the first issue that shields it. */
  predicate CutShort(s: State, e: Event, repo: string, guid: string)
  {
    e.Act? && e.update.action == Some("create") && Embedded(e.update) == guid
    && CheckedRepo(e.config, e.update.repo) == repo
    && Shielded(s, repo, guid) && !ShieldedIn(SearchedPart(e.config, s, e.update, e.reply), guid)
  }

  /** What can expose a GUID to a second creation. */
  predicate Exposes(s: State, e: Event, repo: string, guid: string)
  {
    OpensNull(s, e, repo) || TakesMarker(s, e, repo, guid) || PutsNull(s, e, repo, guid) || CutShort(s, e, repo, guid)
  }

  /** The issue with this number carries the GUID. */
  predicate MarkedIn(issues: seq<Issue>, number: nat, guid: string)
  {
    exists i :: 0 <= i < |issues| && issues[i].number == number && Carries(issues[i], guid)
  }

  predicate Marked(s: State, repo: string, number: nat, guid: string)
  {
    MarkedIn(IssuesOf(s.store, repo), number, guid)
  }

  predicate DistinctNumbers(issues: seq<Issue>)
  {
    forall i, j :: 0 <= i < j < |issues| ==> issues[i].number != issues[j].number
  }

  /** A created or opened issue gets a number that its repository has not given out. */
  predicate FreshNumber(s: State, e: Event)
  {
    match e
    case Act(c, u, r) =>
      r.created.Some? ==> forall i :: 0 <= i < |IssuesOf(s.store, TargetRepo(c, u.repo))| ==>
                            IssuesOf(s.store, TargetRepo(c, u.repo))[i].number != r.created.value
    case NewRun => true
    case Opened(repo, issue) =>
      forall i :: 0 <= i < |IssuesOf(s.store, repo)| ==> IssuesOf(s.store, repo)[i].number != issue.number
  }

  lemma {:induction false} RemovedMember(issues: seq<Issue>, number: nat, x: Issue)
    ensures x in Removed(issues, number) <==> x in issues && x.number != number
  {
    if issues != [] {
      RemovedMember(issues[1..], number, x);
      assert x in issues <==> x == issues[0] || x in issues[1..];
    }
  }

  lemma PatchMarks(issues: seq<Issue>, number: nat, change: Change, marked: nat, guid: string)
    requires DistinctNumbers(issues) && MarkedIn(issues, marked, guid)
    ensures MarkedIn(PatchAll(issues, number, change), marked, guid)
       <==> !(number == marked && change.body.Some? && !Harmless(issues, number, change.body.value, guid))
  {
    var after := PatchAll(issues, number, change);
    var k :| 0 <= k < |issues| && issues[k].number == marked && Carries(issues[k], guid);
    assert after[k].number == marked;
    assert forall i :: 0 <= i < |issues| ==> after[i].number == issues[i].number;
    assert forall i :: 0 <= i < |issues| && i != k ==> issues[i].number != marked;
  }

  lemma RemoveMarks(issues: seq<Issue>, number: nat, marked: nat, guid: string)
    requires MarkedIn(issues, marked, guid)
    ensures MarkedIn(Removed(issues, number), marked, guid) <==> number != marked
  {
    var after := Removed(issues, number);
    var k :| 0 <= k < |issues| && issues[k].number == marked && Carries(issues[k], guid);
    RemovedMember(issues, number, issues[k]);
    forall i | 0 <= i < |after| ensures after[i].number != number {
      RemovedMember(issues, number, after[i]);
    }
  }

  lemma UpdateMarks(s: State, e: Event, repo: string, number: nat, guid: string)
    requires e.Act? && e.update.action == Some("update") && DistinctNumbers(IssuesOf(s.store, repo))
    requires Marked(s, repo, number, guid)
    ensures Marked(After(s, e), repo, number, guid)
       <==> !(TakesMarker(s, e, repo, guid) && UpdateTarget(e.config, s, e.update).number == number)
  {
    var (c, u) := (e.config, e.update);
    var t := UpdateTarget(c, s, u);
    if UpdatesIn(s, e, repo) {
      PatchMarks(s.store[repo], t.number, Changes(u, e.reply), number, guid);
    } else {
      assert IssuesOf(After(s, e).store, repo) == IssuesOf(s.store, repo);
    }
  }

  lemma DeleteMarks(s: State, e: Event, repo: string, number: nat, guid: string)
    requires e.Act? && e.update.action == Some("delete") && DistinctNumbers(IssuesOf(s.store, repo))
    requires Marked(s, repo, number, guid)
    ensures Marked(After(s, e), repo, number, guid)
       <==> !(TakesMarker(s, e, repo, guid) && e.update.number == number)
  {
    var (c, u) := (e.config, e.update);
    if TargetRepo(c, u.repo) == repo && repo in s.store && u.number != 0 && !c.dryRun {
      if e.reply.deleted {
        RemoveMarks(s.store[repo], u.number, number, guid);
      } else if e.reply.patched {
        PatchMarks(s.store[repo], u.number, CLOSING, number, guid);
      }
    } else {
      assert IssuesOf(After(s, e).store, repo) == IssuesOf(s.store, repo);
    }
  }

  /** Events that neither update nor delete: nothing changes, an issue comes to the front, or
      one is closed. */
  lemma OtherEvents(s: State, e: Event, repo: string)
    requires !(e.Act? && (e.update.action == Some("update") || e.update.action == Some("delete")))
    ensures var before, after := IssuesOf(s.store, repo), IssuesOf(After(s, e).store, repo);
            || after == before
            || (|after| > 0 && after == [after[0]] + before && (after[0].body.None? ==> OpensNull(s, e, repo)))
            || (e.Act? && after == PatchAll(before, e.update.number, CLOSING))
  {
  }

  lemma OthersMark(s: State, e: Event, repo: string, number: nat, guid: string)
    requires !(e.Act? && (e.update.action == Some("update") || e.update.action == Some("delete")))
    requires Marked(s, repo, number, guid) && DistinctNumbers(IssuesOf(s.store, repo))
    ensures Marked(After(s, e), repo, number, guid) && !TakesMarker(s, e, repo, guid)
  {
    var before, after := IssuesOf(s.store, repo), IssuesOf(After(s, e).store, repo);
    OtherEvents(s, e, repo);
    var k :| 0 <= k < |before| && before[k].number == number && Carries(before[k], guid);
    if |after| == |before| + 1 {
      assert after[k + 1] == before[k];
    } else if after != before {
      PatchMarks(before, e.update.number, CLOSING, number, guid);
    }
  }

  /** An issue keeps a GUID it carries through every event but two: an update of just this
      issue that goes through and writes null or a body without the marker, and its deletion.
      So an update keeps it that is refused, fails on null, is a dry run, has no body, goes
      elsewhere or writes the marker again, and so does a deletion that falls back to closing. */
  lemma KeepsMarkerIff(s: State, e: Event, repo: string, number: nat, guid: string)
    requires DistinctNumbers(IssuesOf(s.store, repo)) && Marked(s, repo, number, guid)
    ensures Marked(After(s, e), repo, number, guid)
       <==> !(TakesMarker(s, e, repo, guid)
              && number == if e.update.action == Some("update") then UpdateTarget(e.config, s, e.update).number
                           else e.update.number)
  {
    if e.Act? && e.update.action == Some("update") {
      UpdateMarks(s, e, repo, number, guid);
    } else if e.Act? && e.update.action == Some("delete") {
      DeleteMarks(s, e, repo, number, guid);
    } else {
      OthersMark(s, e, repo, number, guid);
    }
  }

  // ---------------------------------------------------------------- the bound

  lemma ShieldBlocks(issues: seq<Issue>, u: Update)
    requires Embedded(u) != "" && ShieldedIn(issues, Embedded(u))
    ensures exists i :: BlockedBy(issues, ExtractGuids(u), i)
  {
    EmbeddedIsChecked(u);
    var i :| 0 <= i < |issues| && ShieldedAt(issues, Embedded(u), i);
    assert BlockedBy(issues, ExtractGuids(u), i);
  }

  /** When an issue is created with a GUID, no issue shields that GUID in the part of the
      listing that is seen, and now one does; where all issues have a body, none of that
      part carried it. */
  lemma FreshWhenCreated(s: State, e: Event)
    requires RealNames(s) && CreatedBy(s, e).Some? && CreatedBy(s, e).value.guid != ""
    ensures var (x, part) := (CreatedBy(s, e).value, SearchedPart(e.config, s, e.update, e.reply));
            && !ShieldedIn(part, x.guid) && Shielded(After(s, e), x.repo, x.guid)
            && (HaveBodies(part) ==> forall i :: 0 <= i < |part| ==> !Carries(part[i], x.guid))
  {
    var c, u := e.config, e.update;
    var x := CreatedBy(s, e).value;
    var part := SearchedPart(c, s, u, e.reply);
    CreatedWhereSearched(c, s, u, e.reply);
    CreatedIff(c, s, u, e.reply);
    if ShieldedIn(part, x.guid) {
      ShieldBlocks(part, u);
    }
    CreatedIsMarked(PostedBody(u).value, x.guid);
    assert ShieldedAt(IssuesOf(After(s, e).store, x.repo), x.guid, 0);
    assert HaveBodies(part) ==> forall i :: 0 <= i < |part| && Carries(part[i], x.guid) ==> ShieldedAt(part, x.guid, i);
  }

  lemma UpdateShields(s: State, e: Event, repo: string, guid: string)
    requires e.Act? && e.update.action == Some("update") && Shielded(s, repo, guid)
    requires !TakesMarker(s, e, repo, guid) && !PutsNull(s, e, repo, guid)
    ensures Shielded(After(s, e), repo, guid)
  {
    if UpdatesIn(s, e, repo) {
      ShieldPatched(s.store[repo], UpdateTarget(e.config, s, e.update).number, Changes(e.update, e.reply), guid);
    } else {
      assert IssuesOf(After(s, e).store, repo) == IssuesOf(s.store, repo);
    }
  }

  lemma DeleteShields(s: State, e: Event, repo: string, guid: string)
    requires e.Act? && e.update.action == Some("delete") && Shielded(s, repo, guid) && !TakesMarker(s, e, repo, guid)
    ensures Shielded(After(s, e), repo, guid)
  {
    var (c, u) := (e.config, e.update);
    if TargetRepo(c, u.repo) == repo && repo in s.store && u.number != 0 && !c.dryRun {
      var issues := s.store[repo];
      if e.reply.deleted {
        var i :| 0 <= i < |issues| && ShieldedAt(issues, guid, i);
        assert issues[i].number != u.number;
        ShieldRemoved(issues, u.number, guid, i);
      } else if e.reply.patched {
        ShieldPatched(issues, u.number, CLOSING, guid);
      }
    } else {
      assert IssuesOf(After(s, e).store, repo) == IssuesOf(s.store, repo);
    }
  }

  lemma OthersShield(s: State, e: Event, repo: string, guid: string)
    requires !(e.Act? && (e.update.action == Some("update") || e.update.action == Some("delete")))
    requires Shielded(s, repo, guid) && !OpensNull(s, e, repo)
    ensures Shielded(After(s, e), repo, guid)
  {
    var before, after := IssuesOf(s.store, repo), IssuesOf(After(s, e).store, repo);
    OtherEvents(s, e, repo);
    if |after| == |before| + 1 {
      ShieldFront(after[0], before, guid);
    } else if after != before {
      ShieldPatched(before, e.update.number, CLOSING, guid);
    }
  }

  lemma ShieldStays(s: State, e: Event, repo: string, guid: string)
    requires Shielded(s, repo, guid) && !Exposes(s, e, repo, guid)
    ensures Shielded(After(s, e), repo, guid)
  {
    if e.Act? && e.update.action == Some("update") {
      UpdateShields(s, e, repo, guid);
    } else if e.Act? && e.update.action == Some("delete") {
      DeleteShields(s, e, repo, guid);
    } else {
      OthersShield(s, e, repo, guid);
    }
  }

  function Run(s: State, events: seq<Event>): State
    decreases |events|
  {
    if events == [] then s else Run(After(s, events[0]), events[1..])
  }

  predicate CreatesWith(s: State, e: Event, repo: string, guid: string)
  {
    CreatedBy(s, e).Some? && CreatedBy(s, e).value.repo == repo && CreatedBy(s, e).value.guid == guid
  }

  /** How many issues the run creates in the repository with the GUID embedded. */
  function Creations(s: State, events: seq<Event>, repo: string, guid: string): nat
    decreases |events|
  {
    if events == [] then 0
    else
      (if CreatesWith(s, events[0], repo, guid) then 1 else 0)
      + Creations(After(s, events[0]), events[1..], repo, guid)
  }

  /** How many events expose the GUID: null bodies listed before the issue that shields it,
      markers taken, searches cut short. */
  function Exposures(s: State, events: seq<Event>, repo: string, guid: string): nat
    decreases |events|
  {
    if events == [] then 0
    else (if Exposes(s, events[0], repo, guid) then 1 else 0) + Exposures(After(s, events[0]), events[1..], repo, guid)
  }

  lemma NamesStay(s: State, e: Event)
    ensures RealNames(s) ==> RealNames(After(s, e))
  {
  }

  /** A creation needs a GUID that is not shielded, or a search cut short, and leaves it
      shielded; and only an exposing event takes the shield away. */
  lemma BoundStep(s: State, e: Event, repo: string, guid: string)
    requires RealNames(s) && guid != ""
    ensures CreatesWith(s, e, repo, guid) ==> Shielded(After(s, e), repo, guid)
    ensures CreatesWith(s, e, repo, guid) && Shielded(s, repo, guid) ==> Exposes(s, e, repo, guid)
    ensures Shielded(s, repo, guid) && !Exposes(s, e, repo, guid) ==> Shielded(After(s, e), repo, guid)
  {
    if CreatesWith(s, e, repo, guid) {
      FreshWhenCreated(s, e);
      CreatedWhereSearched(e.config, s, e.update, e.reply);
    } else if Shielded(s, repo, guid) && !Exposes(s, e, repo, guid) {
      ShieldStays(s, e, repo, guid);
    }
  }

  /** Over any number of runs, whatever the actions and the answers, the issues created in a
      repository with one GUID number at most one more than the exposing events, and one
      less if an issue shields the GUID at the start. */
  lemma {:induction false} BoundedCreations(s: State, events: seq<Event>, repo: string, guid: string)
    requires RealNames(s) && guid != ""
    ensures Creations(s, events, repo, guid) + (if Shielded(s, repo, guid) then 1 else 0)
         <= Exposures(s, events, repo, guid) + 1
    decreases |events|
  {
    if events != [] {
      BoundStep(s, events[0], repo, guid);
      NamesStay(s, events[0]);
      BoundedCreations(After(s, events[0]), events[1..], repo, guid);
    }
  }

  /** With no exposing event, at most one issue is created with a GUID, and none if an issue
      with a body before it carries the GUID. */
  lemma AtMostOnce(s: State, events: seq<Event>, repo: string, guid: string)
    requires RealNames(s) && guid != "" && Exposures(s, events, repo, guid) == 0
    ensures Creations(s, events, repo, guid) <= if Shielded(s, repo, guid) then 0 else 1
  {
    BoundedCreations(s, events, repo, guid);
  }
}
