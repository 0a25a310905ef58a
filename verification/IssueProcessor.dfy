/**
 GUID-guarded issue updates: IssueUpdateProcessor of scripts/issue_manager.py over an
 abstract issue store whose listings may be cut short.
 */
module IssueProcessor {
  import opened Options
  import opened Text

  /** The body of an issue may be null. */
  datatype Issue = Issue(number: nat, title: string, body: Option<string>, open: bool)

  /** The repo entry of an update: missing, an explicit null, or a string. */
  datatype RepoField = Missing | Null | Named(name: string)

  /** The body entry of an update: missing, an explicit null, or the unescaped string. */
  datatype BodyField = NoBody | NullBody | Text(text: string)

  /** Absent strings are empty and an absent number is 0: the source asks only whether they
      are truthy. `reference` is the text that a parent issue puts in front of the body. */
  datatype Update = Update(
    action: Option<string>,
    title: string,
    body: BodyField,
    reference: string,
    guid: string,
    legacyGuid: string,
    parentGuid: string,
    repo: RepoField,
    number: nat)

  datatype Config = Config(repo: string, dryRun: bool, prevention: bool, strategy: string)

  /** What GitHub answers: a taken title, a comment already there, how many issues each of
      the two searches gets to see where a request for a page fails, the number of a created
      issue, whether a patch or a deletion goes through, and whether an empty body is listed
      as null. */
  datatype Reply = Reply(
    titleTaken: bool,
    commentSeen: bool,
    listed: Option<nat>,
    listedAgain: Option<nat>,
    created: Option<nat>,
    patched: bool,
    deleted: bool,
    emptyIsNull: bool)

  /** The existing repositories, each with its issues as a listing shows them: newest first. */
  type Store = map<string, seq<Issue>>

  datatype Target = Target(repo: string, number: nat)

  /** The store, and the guid_issue_map of the running processor. */
  datatype State = State(store: Store, mapped: map<string, Target>)

  function IssuesOf(s: Store, repo: string): seq<Issue>
  {
    if repo in s then s[repo] else []
  }

  /** The part of a listing that a search gets to see: all, or its beginning. */
  function Seen(issues: seq<Issue>, cut: Option<nat>): seq<Issue>
  {
    if cut.Some? && cut.value < |issues| then issues[..cut.value] else issues
  }

  // ---------------------------------------------------------------- GUIDs

  predicate IsHex(c: char) { '0' <= c <= '9' || 'a' <= c <= 'f' || 'A' <= c <= 'F' }

  /** The UUID pattern; its `$` also matches before a final line feed. */
  predicate IsUuid(s: string)
  {
    && (|s| == 36 || (|s| == 37 && s[36] == '\n'))
    && forall i :: 0 <= i < 36 ==> if i == 8 || i == 13 || i == 18 || i == 23 then s[i] == '-' else IsHex(s[i])
  }

  datatype Guids = Guids(primary: string, legacy: string)

  /** _extract_guids: a lone guid that is no UUID counts as a legacy one. */
  function ExtractGuids(u: Update): Guids
  {
    if u.guid != "" && u.legacyGuid == "" && !IsUuid(u.guid) then Guids("", u.guid)
    else Guids(u.guid, u.legacyGuid)
  }

  function Marker(guid: string): string
  {
    "<!-- guid:" + guid + " -->"
  }

  /** The GUID written into a created issue. */
  function Embedded(u: Update): string
  {
    if u.guid != "" then u.guid else u.legacyGuid
  }

  function CheckedGuid(u: Update): string
  {
    var g := ExtractGuids(u);
    if g.primary != "" then g.primary else g.legacy
  }

  function BodyWith(text: string, guid: string): string
  {
    if guid != "" then text + "\n\n" + Marker(guid) else text
  }

  /** The body a create action posts: null only if there is nothing to put it behind. */
  function PostedBody(u: Update): Option<string>
  {
    var text := match u.body
                case NoBody => ""
                case NullBody => "None"
                case Text(t) => t;
    if u.reference == "" && u.body.NullBody? then None else Some(u.reference + text)
  }

  /** What GitHub keeps of a body. */
  function Stored(body: Option<string>, r: Reply): Option<string>
  {
    if body == Some("") && r.emptyIsNull then None else body
  }

  /** The body of a created issue; a marker cannot be put behind null. */
  function CreatedBody(u: Update, r: Reply): Option<string>
  {
    var body := PostedBody(u);
    if body.None? then None else Stored(Some(BodyWith(body.value, Embedded(u))), r)
  }

  /** The body an update writes, if it writes one. */
  function WrittenBody(u: Update, r: Reply): Option<Option<string>>
  {
    match u.body
    case NoBody => None
    case NullBody => Some(None)
    case Text(t) => Some(Stored(Some(BodyWith(t, CheckedGuid(u))), r))
  }

  predicate Carries(issue: Issue, guid: string)
  {
    issue.body.Some? && Contains(issue.body.value, Marker(guid))
  }

  predicate CarriesEither(issue: Issue, g: Guids)
  {
    (g.primary != "" && Carries(issue, g.primary)) || (g.legacy != "" && Carries(issue, g.legacy))
  }

  /** The loop over the listing; a null body raises an error that lets the operation pass. */
  function Unique(issues: seq<Issue>, g: Guids): bool
  {
    if (g.primary == "" && g.legacy == "") || issues == [] then true
    else if issues[0].body.None? then true
    else if CarriesEither(issues[0], g) then false
    else Unique(issues[1..], g)
  }

  /** An issue with one of the GUIDs, listed before any issue without a body. */
  predicate BlockedBy(issues: seq<Issue>, g: Guids, i: int)
  {
    0 <= i < |issues| && CarriesEither(issues[i], g) && forall j :: 0 <= j < i ==> issues[j].body.Some?
  }

  /** The check says no exactly when an issue with one of the GUIDs is listed before the
      first issue without a body. */
  lemma {:induction false} UniqueIff(issues: seq<Issue>, g: Guids)
    ensures Unique(issues, g) <==> !exists i :: BlockedBy(issues, g, i)
  {
    if issues != [] && issues[0].body.Some? {
      if CarriesEither(issues[0], g) {
        assert BlockedBy(issues, g, 0);
      } else {
        UniqueIff(issues[1..], g);
        if i :| BlockedBy(issues[1..], g, i) {
          BlockedShift(issues, g, i);
        } else {
          forall i: int ensures !BlockedBy(issues, g, i) {
            if i > 0 {
              BlockedShift(issues, g, i - 1);
            }
          }
        }
      }
    }
  }

  lemma BlockedShift(issues: seq<Issue>, g: Guids, i: int)
    requires i >= 0 && issues != [] && issues[0].body.Some?
    ensures BlockedBy(issues, g, i + 1) == BlockedBy(issues[1..], g, i)
  {
    var rest := issues[1..];
    assert forall j :: 0 <= j < |rest| ==> rest[j] == issues[j + 1];
    assert forall j :: 0 < j < |issues| ==> issues[j] == rest[j - 1];
  }

  // ---------------------------------------------------------------- the actions

  /** The repository whose issues are searched: the default one for anything falsy. */
  function CheckedRepo(c: Config, field: RepoField): string
  {
    if field.Named? && field.name != "" then field.name else c.repo
  }

  /** The repository the issue is created in: only a missing entry means the default one. */
  function TargetRepo(c: Config, field: RepoField): string
  {
    match field
    case Missing => c.repo
    case Null => "None"
    case Named(name) => name
  }

  datatype Creation = Creation(repo: string, number: nat, guid: string)

  datatype Outcome = Outcome(state: State, ok: bool, created: Option<Creation>)

  function Refuse(s: State): Outcome { Outcome(s, false, None) }

  /** What a patch changes; it can write a null body. */
  datatype Change = Change(title: Option<string>, body: Option<Option<string>>, close: bool)

  const CLOSING := Change(None, None, true)

  function Patched(i: Issue, number: nat, change: Change): Issue
  {
    if i.number != number then i
    else Issue(number, if change.title.Some? then change.title.value else i.title,
               if change.body.Some? then change.body.value else i.body, i.open && !change.close)
  }

  function PatchAll(issues: seq<Issue>, number: nat, change: Change): (r: seq<Issue>)
    ensures |r| == |issues| && forall i :: 0 <= i < |r| ==> r[i] == Patched(issues[i], number, change)
  {
    seq(|issues|, i requires 0 <= i < |issues| => Patched(issues[i], number, change))
  }

  function Patch(s: State, repo: string, number: nat, change: Change): State
  {
    s.(store := s.store[repo := PatchAll(IssuesOf(s.store, repo), number, change)])
  }

  function Removed(issues: seq<Issue>, number: nat): seq<Issue>
  {
    if issues == [] then []
    else (if issues[0].number == number then [] else [issues[0]]) + Removed(issues[1..], number)
  }

  predicate ByGuid(c: Config) { c.strategy == "guid_and_title" || c.strategy == "guid_only" }

  predicate ByTitle(c: Config) { c.strategy == "guid_and_title" || c.strategy == "title_only" }

  function Remember(m: map<string, Target>, guid: string, t: Target): map<string, Target>
  {
    if guid != "" then m[guid := t] else m
  }

  /** Creating succeeds only in a repository that exists, and putting a marker behind null
      raises an error. */
  function CreateStep(c: Config, s: State, u: Update, r: Reply): Outcome
  {
    var repo := TargetRepo(c, u.repo);
    if u.title == "" then Refuse(s)
    else if c.prevention && ByGuid(c) && !c.dryRun
            && !Unique(Seen(IssuesOf(s.store, CheckedRepo(c, u.repo)), r.listedAgain), Guids(u.guid, u.legacyGuid))
    then Refuse(s)
    else if c.prevention && ByTitle(c) && r.titleTaken then Refuse(s)
    else if Embedded(u) != "" && PostedBody(u).None? then Refuse(s)
    else if c.dryRun then Outcome(s, true, None)
    else if r.created.None? || repo !in s.store then Refuse(s)
    else
      var number := r.created.value;
      var issue := Issue(number, u.title, CreatedBody(u, r), true);
      var mapped := Remember(Remember(s.mapped, u.guid, Target(repo, number)), u.legacyGuid, Target(repo, number));
      Outcome(State(s.store[repo := [issue] + s.store[repo]], mapped), true, Some(Creation(repo, number, Embedded(u))))
  }

  /** An update without a number goes to the issue created for its parent GUID. */
  function UpdateTarget(c: Config, s: State, u: Update): Target
  {
    if u.number == 0 && u.parentGuid != "" && u.parentGuid in s.mapped then
      var t := s.mapped[u.parentGuid];
      Target(if t.repo != "" then t.repo else c.repo, t.number)
    else Target(CheckedRepo(c, u.repo), u.number)
  }

  function Changes(u: Update, r: Reply): Change
  {
    Change(if u.title != "" then Some(u.title) else None, WrittenBody(u, r), false)
  }

  function UpdateStep(c: Config, s: State, u: Update, r: Reply): Outcome
  {
    var t := UpdateTarget(c, s, u);
    if t.number == 0 then Refuse(s)
    else if CheckedGuid(u) != "" && u.body.NullBody? then Refuse(s)
    else if c.dryRun then Outcome(s, true, None)
    else if !r.patched || t.repo !in s.store then Refuse(s)
    else Outcome(Patch(s, t.repo, t.number, Changes(u, r)), true, None)
  }

  /** Comments leave titles and bodies alone. A comment that was posted is reported as
      failed: the reply is a truth value that the code asks for a URL. */
  function CommentStep(c: Config, s: State, u: Update): Outcome
  {
    if u.number == 0 || !u.body.Text? || u.body.text == "" then Refuse(s) else Outcome(s, c.dryRun, None)
  }

  function CloseStep(c: Config, s: State, u: Update, r: Reply): Outcome
  {
    var repo := CheckedRepo(c, u.repo);
    if u.number == 0 then Refuse(s)
    else if c.dryRun then Outcome(s, true, None)
    else if !r.patched || repo !in s.store then Refuse(s)
    else Outcome(Patch(s, repo, u.number, CLOSING), true, None)
  }

  /** Deleting can fall back to closing. */
  function DeleteStep(c: Config, s: State, u: Update, r: Reply): Outcome
  {
    var repo := TargetRepo(c, u.repo);
    if u.number == 0 then Refuse(s)
    else if c.dryRun then Outcome(s, true, None)
    else if repo !in s.store then Refuse(s)
    else if r.deleted then Outcome(s.(store := s.store[repo := Removed(s.store[repo], u.number)]), true, None)
    else if r.patched then Outcome(Patch(s, repo, u.number, CLOSING), true, None)
    else Refuse(s)
  }

  predicate IsDuplicate(c: Config, s: State, u: Update, r: Reply)
  {
    if u.action == Some("comment") then u.number != 0 && r.commentSeen
    else if u.action == Some("create") then
      !Unique(Seen(IssuesOf(s.store, CheckedRepo(c, u.repo)), r.listed), ExtractGuids(u))
    else false
  }

  function Process(c: Config, s: State, u: Update, r: Reply): Outcome
  {
    if u.action.None? then Refuse(s)
    else if CheckedGuid(u) != "" && IsDuplicate(c, s, u, r) then Refuse(s)
    else if u.action.value == "create" then CreateStep(c, s, u, r)
    else if u.action.value == "update" then UpdateStep(c, s, u, r)
    else if u.action.value == "comment" then CommentStep(c, s, u)
    else if u.action.value == "close" then CloseStep(c, s, u, r)
    else if u.action.value == "delete" then DeleteStep(c, s, u, r)
    else Refuse(s)
  }

  // ---------------------------------------------------------------- the processor

  class IssueUpdateProcessor {
    const config: Config
    var store: Store
    var mapped: map<string, Target>

    function Now(): State
      reads this
    {
      State(store, mapped)
    }

    constructor (config: Config, store: Store)
      ensures this.config == config && Now() == State(store, map[])
    {
      this.config, this.store, mapped := config, store, map[];
    }

    /** The listing, as far as it comes, searched for either GUID; both checks of the source
        share this loop. */
    method CheckGuidUniqueness(g: Guids, repo: RepoField, cut: Option<nat>) returns (unique: bool)
      ensures unique == Unique(Seen(IssuesOf(store, CheckedRepo(config, repo)), cut), g)
    {
      if g.primary == "" && g.legacy == "" {
        return true;
      }
      var issues := Seen(IssuesOf(store, CheckedRepo(config, repo)), cut);
      for i := 0 to |issues|
        invariant Unique(issues, g) == Unique(issues[i..], g)
      {
        assert issues[i..][0] == issues[i] && issues[i..][1..] == issues[i + 1..];
        if issues[i].body.None? {
          return true;
        }
        if g.primary != "" && Carries(issues[i], g.primary) {
          return false;
        }
        if g.legacy != "" && Carries(issues[i], g.legacy) {
          return false;
        }
      }
      unique := true;
    }

    method CreateIssue(u: Update, r: Reply) returns (ok: bool, created: Option<Creation>)
      modifies this
      ensures Outcome(Now(), ok, created) == CreateStep(config, old(Now()), u, r)
    {
      created := None;
      if u.title == "" {
        return false, None;
      }
      if config.prevention {
        if ByGuid(config) && !config.dryRun {
          var unique := CheckGuidUniqueness(Guids(u.guid, u.legacyGuid), u.repo, r.listedAgain);
          if !unique {
            return false, None;
          }
        }
        if ByTitle(config) && r.titleTaken {
          return false, None;
        }
      }
      var body := PostedBody(u);
      if Embedded(u) != "" {
        if body.None? {
          return false, None;
        }
        body := Some(body.value + "\n\n" + Marker(Embedded(u)));
      }
      if config.dryRun {
        return true, None;
      }
      var repo := TargetRepo(config, u.repo);
      if r.created.None? || repo !in store {
        return false, None;
      }
      var number := r.created.value;
      var issue := Issue(number, u.title, Stored(body, r), true);
      store := store[repo := [issue] + store[repo]];
      if u.guid != "" {
        mapped := mapped[u.guid := Target(repo, number)];
      }
      if u.legacyGuid != "" {
        mapped := mapped[u.legacyGuid := Target(repo, number)];
      }
      ok, created := true, Some(Creation(repo, number, Embedded(u)));
    }

    /** update_issue of the API: the fields given change, the others stay. */
    method PatchIssue(repo: string, number: nat, change: Change, answer: bool) returns (ok: bool)
      modifies this`store
      ensures ok <==> answer && repo in old(store)
      ensures Now() == if ok then Patch(old(Now()), repo, number, change) else old(Now())
    {
      ok := answer && repo in store;
      if ok {
        store := store[repo := PatchAll(store[repo], number, change)];
      }
    }

    method UpdateIssue(u: Update, r: Reply) returns (ok: bool)
      modifies this`store
      ensures Outcome(Now(), ok, None) == UpdateStep(config, old(Now()), u, r)
    {
      var repo, number := CheckedRepo(config, u.repo), u.number;
      if number == 0 && u.parentGuid != "" && u.parentGuid in mapped {
        repo, number := mapped[u.parentGuid].repo, mapped[u.parentGuid].number;
        if repo == "" {
          repo := config.repo;
        }
      }
      if number == 0 {
        return false;
      }
      var body := None;
      match u.body {
        case NoBody =>
        case NullBody =>
          if CheckedGuid(u) != "" {
            return false;
          }
          body := Some(None);
        case Text(t) =>
          var text := t;
          if CheckedGuid(u) != "" {
            text := text + "\n\n" + Marker(CheckedGuid(u));
          }
          body := Some(Stored(Some(text), r));
      }
      if config.dryRun {
        return true;
      }
      ok := PatchIssue(repo, number, Change(if u.title != "" then Some(u.title) else None, body, false), r.patched);
    }

    method AddComment(u: Update) returns (ok: bool)
      ensures Outcome(Now(), ok, None) == CommentStep(config, Now(), u)
    {
      if u.number == 0 {
        return false;
      }
      if !u.body.Text? || u.body.text == "" {
        return false;
      }
      if config.dryRun {
        return true;
      }
      // posted or not, the answer is a failure
      ok := false;
    }

    method CloseIssue(u: Update, r: Reply) returns (ok: bool)
      modifies this`store
      ensures Outcome(Now(), ok, None) == CloseStep(config, old(Now()), u, r)
    {
      if u.number == 0 {
        return false;
      }
      if config.dryRun {
        return true;
      }
      ok := PatchIssue(CheckedRepo(config, u.repo), u.number, CLOSING, r.patched);
    }

    method DeleteIssue(u: Update, r: Reply) returns (ok: bool)
      modifies this`store
      ensures Outcome(Now(), ok, None) == DeleteStep(config, old(Now()), u, r)
    {
      if u.number == 0 {
        return false;
      }
      if config.dryRun {
        return true;
      }
      var repo := TargetRepo(config, u.repo);
      if r.deleted && repo in store {
        store := store[repo := Removed(store[repo], u.number)];
        return true;
      }
      ok := PatchIssue(repo, u.number, CLOSING, r.patched);
    }

    method ProcessSingleUpdate(u: Update, r: Reply) returns (ok: bool, created: Option<Creation>)
      modifies this
      ensures Outcome(Now(), ok, created) == Process(config, old(Now()), u, r)
    {
      if u.action.None? {
        return false, None;
      }
      if CheckedGuid(u) != "" {
        if u.action == Some("create") {
          var unique := CheckGuidUniqueness(ExtractGuids(u), u.repo, r.listed);
          if !unique {
            return false, None;
          }
        } else if u.action == Some("comment") && u.number != 0 && r.commentSeen {
          return false, None;
        }
      }
      if u.action.value == "create" {
        ok, created := CreateIssue(u, r);
        return;
      }
      ok, created := false, None;
      if u.action.value == "update" {
        ok := UpdateIssue(u, r);
      } else if u.action.value == "comment" {
        if u.number != 0 {
          ok := AddComment(u);
        }
      } else if u.action.value == "close" {
        ok := CloseIssue(u, r);
      } else if u.action.value == "delete" {
        ok := DeleteIssue(u, r);
      }
    }
  }
}
