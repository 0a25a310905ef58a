/** What each action does to the issues of each repository, field by field. */
module IssueOutcomes {
  import opened Options
  import opened Text
  import opened IssueProcessor
  import opened IssueTheorems

  /** The repository an update, comment or close action addresses: the default one for a
      missing, null or empty entry. */
  function Addressed(c: Config, u: Update): string
  {
    match u.repo
    case Missing => c.repo
    case Null => c.repo
    case Named(name) => if name == "" then c.repo else name
  }

  /** The one a create or delete action addresses: null is written out. */
  function Named(c: Config, u: Update): string
  {
    match u.repo
    case Missing => c.repo
    case Null => "None"
    case Named(name) => name
  }

  /** The GUID an update brings, the newer kind first. */
  function Guid(u: Update): string
  {
    if u.guid == "" then u.legacyGuid else u.guid
  }

  /** Only issues of this repository changed, and none came or went. */
  ghost predicate OnlyIn(s: State, t: State, repo: string)
  {
    && t.mapped == s.mapped && t.store.Keys == s.store.Keys && repo in s.store
    && (forall other :: other in s.store && other != repo ==> t.store[other] == s.store[other])
    && |t.store[repo]| == |s.store[repo]|
  }

  /** The issues with this number are closed and otherwise as they were; so are all others. */
  ghost predicate ClosedIn(s: State, t: State, repo: string, number: nat)
  {
    OnlyIn(s, t, repo)
    && forall i :: 0 <= i < |s.store[repo]| ==>
         var was, now := s.store[repo][i], t.store[repo][i];
         if was.number == number then now == Issue(number, was.title, was.body, false) else now == was
  }

  lemma ClosingCloses(s: State, repo: string, number: nat)
    requires repo in s.store
    ensures ClosedIn(s, Patch(s, repo, number, CLOSING), repo, number)
  {
  }

  /** A close action that goes through closes the issue, and changes nothing else. */
  lemma CloseMeans(c: Config, s: State, u: Update, r: Reply)
    requires u.action == Some("close")
    ensures var o, repo := Process(c, s, u, r), Addressed(c, u);
            && (o.ok <==> u.number != 0 && (c.dryRun || (r.patched && repo in s.store)))
            && o.created == None
            && (if o.ok && !c.dryRun then ClosedIn(s, o.state, repo, u.number) else o.state == s)
  {
    if Addressed(c, u) in s.store {
      ClosingCloses(s, Addressed(c, u), u.number);
    }
  }

  lemma {:induction false} RemovedNone(issues: seq<Issue>, number: nat)
    requires forall i :: 0 <= i < |issues| ==> issues[i].number != number
    ensures Removed(issues, number) == issues
  {
    if issues != [] {
      RemovedNone(issues[1..], number);
    }
  }

  lemma {:induction false} RemovedAt(issues: seq<Issue>, k: nat)
    requires DistinctNumbers(issues) && k < |issues|
    ensures Removed(issues, issues[k].number) == issues[..k] + issues[k + 1..]
  {
    var number := issues[k].number;
    if k == 0 {
      assert forall i :: 0 <= i < |issues[1..]| ==> issues[1..][i] == issues[i + 1];
      RemovedNone(issues[1..], number);
    } else {
      assert forall i :: 0 <= i < |issues[1..]| ==> issues[1..][i] == issues[i + 1];
      RemovedAt(issues[1..], k - 1);
      assert issues[1..][..k - 1] + issues[1..][k..] == issues[1..k] + issues[k + 1..];
    }
  }

  /** The issue with this number is gone, if there was one, and the others stand as before. */
  ghost predicate DeletedIn(s: State, t: State, repo: string, number: nat)
  {
    && t.mapped == s.mapped && t.store.Keys == s.store.Keys && repo in s.store
    && (forall other :: other in s.store && other != repo ==> t.store[other] == s.store[other])
    && (forall k :: 0 <= k < |s.store[repo]| && s.store[repo][k].number == number ==>
          t.store[repo] == s.store[repo][..k] + s.store[repo][k + 1..])
    && ((forall k :: 0 <= k < |s.store[repo]| ==> s.store[repo][k].number != number) ==> t == s)
  }

  lemma RemovedDeletes(s: State, t: State, repo: string, number: nat)
    requires repo in s.store && DistinctNumbers(s.store[repo])
    requires t == s.(store := s.store[repo := Removed(s.store[repo], number)])
    ensures DeletedIn(s, t, repo, number)
  {
    forall k | 0 <= k < |s.store[repo]| && s.store[repo][k].number == number
      ensures t.store[repo] == s.store[repo][..k] + s.store[repo][k + 1..] {
      RemovedAt(s.store[repo], k);
    }
    if forall k :: 0 <= k < |s.store[repo]| ==> s.store[repo][k].number != number {
      RemovedNone(s.store[repo], number);
      assert s.store[repo := s.store[repo]] == s.store;
    }
  }

  /** A delete action deletes the issue, or closes it where only that goes through. */
  lemma DeleteMeans(c: Config, s: State, u: Update, r: Reply)
    requires u.action == Some("delete") && DistinctNumbers(IssuesOf(s.store, Named(c, u)))
    ensures var o, repo := Process(c, s, u, r), Named(c, u);
            && (o.ok <==> u.number != 0 && (c.dryRun || (repo in s.store && (r.deleted || r.patched))))
            && o.created == None
            && (if !o.ok || c.dryRun then o.state == s
                else if r.deleted then DeletedIn(s, o.state, repo, u.number)
                else ClosedIn(s, o.state, repo, u.number))
  {
    var repo := Named(c, u);
    if repo in s.store {
      ClosingCloses(s, repo, u.number);
      RemovedDeletes(s, s.(store := s.store[repo := Removed(s.store[repo], u.number)]), repo, u.number);
    }
  }

  // ---------------------------------------------------------------- bodies

  /** A text with the marker of a GUID behind it, if there is one. */
  function Marked(text: string, guid: string): string
  {
    if guid == "" then text else text + "\n\n<!-- guid:" + guid + " -->"
  }

  /** How GitHub lists a text. */
  function Listed(text: string, r: Reply): Option<string>
  {
    if text == "" && r.emptyIsNull then None else Some(text)
  }

  lemma MarkerText(text: string, guid: string)
    ensures BodyWith(text, guid) == Marked(text, guid)
  {
    assert text + "\n\n" + ("<!-- guid:" + guid + " -->") == text + "\n\n<!-- guid:" + guid + " -->";
  }

  /** An issue carries a GUID exactly when its body has the marker comment somewhere. */
  lemma CarriesIff(issue: Issue, guid: string)
    ensures Carries(issue, guid) <==>
              issue.body.Some? && exists i: nat :: At(issue.body.value, "<!-- guid:" + guid + " -->", i)
  {
    if issue.body.Some? {
      ContainsIff(issue.body.value, Marker(guid));
    }
  }

  predicate AllHex(s: string)
  {
    forall i :: 0 <= i < |s| ==> s[i] in "0123456789abcdefABCDEF"
  }

  /** Groups of 8, 4, 4, 4 and 12 hexadecimal digits with dashes between, and a line feed at
      the end does not matter. */
  predicate UuidText(s: string)
  {
    (|s| == 36 || (|s| == 37 && s[36..] == "\n"))
    && s[8] == '-' && s[13] == '-' && s[18] == '-' && s[23] == '-'
    && AllHex(s[..8]) && AllHex(s[9..13]) && AllHex(s[14..18]) && AllHex(s[19..23]) && AllHex(s[24..36])
  }

  lemma HexDigit(x: char)
    ensures IsHex(x) <==> x in "0123456789abcdefABCDEF"
  {
    var all := "0123456789abcdefABCDEF";
    if IsHex(x) {
      var k := if x <= '9' then x as int - '0' as int
               else if x >= 'a' then x as int - 'a' as int + 10 else x as int - 'A' as int + 16;
      assert all[k] == x;
    }
  }

  lemma UuidIff(s: string)
    ensures IsUuid(s) <==> UuidText(s)
  {
    forall x: char ensures IsHex(x) <==> x in "0123456789abcdefABCDEF" {
      HexDigit(x);
    }
    if UuidText(s) {
      forall i | 0 <= i < 36 && i != 8 && i != 13 && i != 18 && i != 23 ensures IsHex(s[i]) {
        assert i < 8 ==> s[..8][i] == s[i];
        assert 8 < i < 13 ==> s[9..13][i - 9] == s[i];
        assert 13 < i < 18 ==> s[14..18][i - 14] == s[i];
        assert 18 < i < 23 ==> s[19..23][i - 19] == s[i];
        assert 23 < i ==> s[24..36][i - 24] == s[i];
      }
    }
  }

  /** A lone guid that is no UUID counts as a legacy one; otherwise both stay what they are. */
  lemma KindsOfGuid(u: Update)
    ensures ExtractGuids(u) == if u.legacyGuid == "" && !UuidText(u.guid) then Guids("", u.guid)
                               else Guids(u.guid, u.legacyGuid)
  {
    UuidIff(u.guid);
  }

  /** Both GUIDs of an update are searched for, whatever kind they are, and no other. */
  lemma SearchedGuids(u: Update, guid: string)
    requires guid != ""
    ensures var g := ExtractGuids(u); guid == g.primary || guid == g.legacy <==> guid == u.guid || guid == u.legacyGuid
    ensures CheckedGuid(u) == Guid(u) == Embedded(u)
  {
  }

  /** What stops a creation: an issue with the guid or the legacy guid, and only issues with
      a body listed before it. */
  lemma BlockedIff(issues: seq<Issue>, u: Update, i: int)
    ensures BlockedBy(issues, ExtractGuids(u), i) <==>
              && 0 <= i < |issues|
              && ((u.guid != "" && Carries(issues[i], u.guid))
                  || (u.legacyGuid != "" && Carries(issues[i], u.legacyGuid)))
              && forall j :: 0 <= j < i ==> issues[j].body.Some?
  {
  }

  // ---------------------------------------------------------------- updates

  /** Where an update goes: to the number it names, or else to the issue remembered for its
      parent GUID, if there is one. */
  ghost predicate GoesTo(c: Config, s: State, u: Update, repo: string, number: nat)
  {
    if u.number != 0 then repo == Addressed(c, u) && number == u.number
    else
      && u.parentGuid != "" && u.parentGuid in s.mapped && number == s.mapped[u.parentGuid].number != 0
      && repo == if s.mapped[u.parentGuid].repo == "" then c.repo else s.mapped[u.parentGuid].repo
  }

  /** The issues with this number have the title and body the update gives, and keep what it
      does not give. */
  ghost predicate UpdatedIn(s: State, t: State, repo: string, number: nat, u: Update, r: Reply)
  {
    OnlyIn(s, t, repo)
    && forall i :: 0 <= i < |s.store[repo]| ==>
         var was, now := s.store[repo][i], t.store[repo][i];
         if was.number != number then now == was
         else
           && now.number == number && now.open == was.open
           && now.title == (if u.title == "" then was.title else u.title)
           && now.body == match u.body
                          case NoBody => was.body
                          case NullBody => None
                          case Text(text) => Listed(Marked(text, Guid(u)), r)
  }

  lemma ChangesUpdate(s: State, repo: string, number: nat, u: Update, r: Reply)
    requires repo in s.store
    ensures UpdatedIn(s, Patch(s, repo, number, Changes(u, r)), repo, number, u, r)
  {
    if u.body.Text? {
      MarkerText(u.body.text, Guid(u));
    }
    EmbeddedIsChecked(u);
    assert CheckedGuid(u) == Guid(u);
    assert u.body.Text? ==> WrittenBody(u, r) == Some(Listed(Marked(u.body.text, Guid(u)), r));
  }

  /** An update goes through unless it has nowhere to go, would put a marker behind null, or
      GitHub refuses it, and then it changes just the fields it gives. */
  lemma UpdateMeans(c: Config, s: State, u: Update, r: Reply, repo: string, number: nat)
    requires u.action == Some("update") && GoesTo(c, s, u, repo, number)
    ensures var o := Process(c, s, u, r);
            && (o.ok <==> !(Guid(u) != "" && u.body.NullBody?) && (c.dryRun || (r.patched && repo in s.store)))
            && o.created == None
            && (if o.ok && !c.dryRun then UpdatedIn(s, o.state, repo, number, u, r) else o.state == s)
  {
    if repo in s.store {
      ChangesUpdate(s, repo, number, u, r);
    }
    assert UpdateTarget(c, s, u) == Target(repo, number);
  }

  lemma NowhereToGo(c: Config, s: State, u: Update, r: Reply)
    requires u.action == Some("update") && !exists repo, number :: GoesTo(c, s, u, repo, number)
    ensures Process(c, s, u, r) == Outcome(s, false, None)
  {
    var t := UpdateTarget(c, s, u);
    assert !GoesTo(c, s, u, t.repo, t.number);
  }

  // ---------------------------------------------------------------- creations and comments

  /** The issue a create action makes, first in its repository, and both its GUIDs remembered
      for it. */
  ghost predicate MadeIn(s: State, t: State, repo: string, number: nat, u: Update, r: Reply)
  {
    && repo in s.store && t.store.Keys == s.store.Keys
    && (forall other :: other in s.store && other != repo ==> t.store[other] == s.store[other])
    && |t.store[repo]| == |s.store[repo]| + 1 && t.store[repo][1..] == s.store[repo]
    && (forall g :: (g in t.mapped <==> g in s.mapped || (g != "" && (g == u.guid || g == u.legacyGuid)))
                    && (g in t.mapped ==>
                          t.mapped[g] == if g != "" && (g == u.guid || g == u.legacyGuid) then Target(repo, number)
                                         else s.mapped[g]))
    && var made := t.store[repo][0];
       && made.number == number && made.title == u.title && made.open
       && made.body == match u.body
                       case NoBody => Listed(Marked(u.reference, Guid(u)), r)
                       case NullBody =>
                         if u.reference == "" then None else Listed(Marked(u.reference + "None", Guid(u)), r)
                       case Text(text) => Listed(Marked(u.reference + text, Guid(u)), r)
  }

  lemma CreatedBodyMeans(u: Update, r: Reply)
    requires !(Guid(u) != "" && u.body.NullBody? && u.reference == "")
    ensures CreatedBody(u, r) == match u.body
                                 case NoBody => Listed(Marked(u.reference, Guid(u)), r)
                                 case NullBody =>
                                   if u.reference == "" then None
                                   else Listed(Marked(u.reference + "None", Guid(u)), r)
                                 case Text(text) => Listed(Marked(u.reference + text, Guid(u)), r)
  {
    assert u.reference + "" == u.reference;
    if PostedBody(u).Some? {
      MarkerText(PostedBody(u).value, Guid(u));
    }
  }

  /** What a creation makes; when there is one says CreatedIff. */
  lemma CreateMeans(c: Config, s: State, u: Update, r: Reply)
    requires u.action == Some("create")
    ensures var o := Process(c, s, u, r);
            if o.created.Some? then
              && o.ok && r.created.Some?
              && o.created == Some(Creation(Named(c, u), r.created.value, Guid(u)))
              && MadeIn(s, o.state, Named(c, u), r.created.value, u, r)
            else o.state == s
  {
    var o := Process(c, s, u, r);
    if o.created.Some? {
      CreatedBodyMeans(u, r);
      assert o.state.store[Named(c, u)][1..] == s.store[Named(c, u)];
    }
  }

  /** Outside a dry run a create action succeeds exactly when it creates. In one it succeeds
      exactly when it has a title, could mark its body, and neither the title nor, in the
      first search, a GUID is taken. */
  lemma CreateSucceedsIff(c: Config, s: State, u: Update, r: Reply)
    requires u.action == Some("create")
    ensures var o, part := Process(c, s, u, r), Seen(IssuesOf(s.store, Addressed(c, u)), r.listed);
            if !c.dryRun then o.ok <==> o.created.Some?
            else o.created == None
                 && (o.ok <==>
                     && u.title != "" && !(Guid(u) != "" && u.body.NullBody? && u.reference == "")
                     && !(c.prevention && c.strategy in {"guid_and_title", "title_only"} && r.titleTaken)
                     && !exists i :: BlockedBy(part, ExtractGuids(u), i))
  {
    var part := Seen(IssuesOf(s.store, Addressed(c, u)), r.listed);
    UniqueIff(part, ExtractGuids(u));
    if CheckedGuid(u) == "" {
      NoGuidsUnique(part, u);
    }
  }

  /** When a create action creates: the second search is made with two of the strategies, and
      the title check with two. */
  lemma CreatedExactly(c: Config, s: State, u: Update, r: Reply)
    requires u.action == Some("create")
    ensures var issues, g := IssuesOf(s.store, Addressed(c, u)), ExtractGuids(u);
            Process(c, s, u, r).created.Some? <==>
              && u.title != "" && !c.dryRun && r.created.Some? && Named(c, u) in s.store
              && !(Guid(u) != "" && u.body.NullBody? && u.reference == "")
              && !(c.prevention && c.strategy in {"guid_and_title", "title_only"} && r.titleTaken)
              && !(exists i :: BlockedBy(Seen(issues, r.listed), g, i))
              && !(c.prevention && c.strategy in {"guid_and_title", "guid_only"}
                   && exists i :: BlockedBy(Seen(issues, r.listedAgain), g, i))
  {
    var issues, g := IssuesOf(s.store, Addressed(c, u)), ExtractGuids(u);
    UniqueIff(Seen(issues, r.listed), g);
    UniqueIff(Seen(issues, r.listedAgain), g);
    SecondCheckAddsNothing(Seen(issues, r.listedAgain), u);
    if CheckedGuid(u) == "" {
      NoGuidsUnique(Seen(issues, r.listed), u);
      NoGuidsUnique(Seen(issues, r.listedAgain), u);
    }
  }

  /** A search sees the whole listing, or as much of its beginning as came. */
  lemma SeenMeans(issues: seq<Issue>, cut: Option<nat>)
    ensures Seen(issues, cut) <= issues
    ensures |Seen(issues, cut)| == if cut.Some? && cut.value < |issues| then cut.value else |issues|
  {
  }

  /** A comment changes no issue, and is a success in a dry run only, with an issue number, a
      text, and no comment with its GUID there. */
  lemma CommentMeans(c: Config, s: State, u: Update, r: Reply)
    requires u.action == Some("comment")
    ensures var o := Process(c, s, u, r);
            && o.state == s && o.created == None
            && (o.ok <==> c.dryRun && u.number != 0 && u.body.Text? && u.body.text != ""
                          && !(Guid(u) != "" && r.commentSeen))
  {
  }

  /** Any other action is refused. */
  lemma OtherRefused(c: Config, s: State, u: Update, r: Reply)
    requires u.action.None? || u.action.value !in {"create", "update", "comment", "close", "delete"}
    ensures Process(c, s, u, r) == Outcome(s, false, None)
  {
  }

  /** After a creation, an update that names the GUID as its parent goes to the new issue. */
  lemma ChildrenFindParent(c: Config, s: State, u: Update, r: Reply, v: Update)
    requires u.action == Some("create") && Process(c, s, u, r).created.Some? && r.created.value != 0
    requires v.action == Some("update") && v.number == 0 && v.parentGuid != ""
    requires v.parentGuid == u.guid || v.parentGuid == u.legacyGuid
    requires RealNames(s)
    ensures GoesTo(c, Process(c, s, u, r).state, v, Named(c, u), r.created.value)
  {
    CreateMeans(c, s, u, r);
  }
}
