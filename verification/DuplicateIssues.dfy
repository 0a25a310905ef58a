/** Closing issues with the same title: DuplicateIssueManager of scripts/issue_manager.py. */
module DuplicateIssues {

  datatype OpenIssue = OpenIssue(number: nat, title: string)

  /** Python's str.strip, uninterpreted. */
  type Strip = string -> string

  predicate DistinctNumbers(issues: seq<OpenIssue>)
  {
    forall i, j :: 0 <= i < j < |issues| ==> issues[i].number != issues[j].number
  }

  /** Another issue with the same stripped title has a lower number. */
  predicate Surplus(issues: seq<OpenIssue>, x: OpenIssue, strip: Strip)
  {
    exists y :: y in issues && strip(y.title) == strip(x.title) && y.number < x.number
  }

  function SurplusNumbers(issues: seq<OpenIssue>, strip: Strip): set<nat>
  {
    set x | x in issues && Surplus(issues, x, strip) :: x.number
  }

  /** The open issues that remain when these numbers are closed. */
  function Without(issues: seq<OpenIssue>, gone: set<nat>): seq<OpenIssue>
  {
    if issues == [] then []
    else (if issues[0].number in gone then [] else [issues[0]]) + Without(issues[1..], gone)
  }

  lemma {:induction false} WithoutMember(issues: seq<OpenIssue>, gone: set<nat>, x: OpenIssue)
    ensures x in Without(issues, gone) <==> x in issues && x.number !in gone
  {
    if issues != [] {
      WithoutMember(issues[1..], gone, x);
      assert x in issues <==> x == issues[0] || x in issues[1..];
    }
  }

  lemma {:induction false} WithoutTwice(issues: seq<OpenIssue>, a: set<nat>, b: set<nat>)
    ensures Without(Without(issues, a), b) == Without(issues, a + b)
  {
    if issues != [] {
      WithoutTwice(issues[1..], a, b);
      if issues[0].number !in a {
        assert ([issues[0]] + Without(issues[1..], a))[1..] == Without(issues[1..], a);
      } else {
        assert [] + Without(issues[1..], a) == Without(issues[1..], a);
      }
    }
  }

  lemma {:induction false} WithoutNone(issues: seq<OpenIssue>)
    ensures Without(issues, {}) == issues
  {
    if issues != [] {
      WithoutNone(issues[1..]);
    }
  }

  function SameTitle(issues: seq<OpenIssue>, title: string, strip: Strip): seq<OpenIssue>
  {
    if issues == [] then []
    else (if strip(issues[0].title) == title then [issues[0]] else []) + SameTitle(issues[1..], title, strip)
  }

  lemma {:induction false} SameTitleMember(issues: seq<OpenIssue>, title: string, strip: Strip, x: OpenIssue)
    ensures x in SameTitle(issues, title, strip) <==> x in issues && strip(x.title) == title
  {
    if issues != [] {
      SameTitleMember(issues[1..], title, strip, x);
      assert x in issues <==> x == issues[0] || x in issues[1..];
    }
  }

  lemma {:induction false} SameTitleAppend(issues: seq<OpenIssue>, x: OpenIssue, title: string, strip: Strip)
    ensures SameTitle(issues + [x], title, strip)
         == SameTitle(issues, title, strip) + if strip(x.title) == title then [x] else []
  {
    if issues == [] {
      assert issues + [x] == [x];
    } else {
      var first := if strip(issues[0].title) == title then [issues[0]] else [];
      var last := if strip(x.title) == title then [x] else [];
      assert (issues + [x])[1..] == issues[1..] + [x];
      SameTitleAppend(issues[1..], x, title, strip);
      assert first + (SameTitle(issues[1..], title, strip) + last)
          == (first + SameTitle(issues[1..], title, strip)) + last;
    }
  }

  lemma {:induction false} SameTitleDistinct(issues: seq<OpenIssue>, title: string, strip: Strip)
    requires DistinctNumbers(issues)
    ensures DistinctNumbers(SameTitle(issues, title, strip))
  {
    if issues != [] {
      SameTitleDistinct(issues[1..], title, strip);
      var rest := SameTitle(issues[1..], title, strip);
      forall i | 0 <= i < |rest| ensures rest[i].number != issues[0].number {
        SameTitleMember(issues[1..], title, strip, rest[i]);
      }
    }
  }

  // ---------------------------------------------------------------- one group

  predicate Ascending(issues: seq<OpenIssue>)
  {
    forall i, j :: 0 <= i < j < |issues| ==> issues[i].number < issues[j].number
  }

  function Insert(x: OpenIssue, sorted: seq<OpenIssue>): seq<OpenIssue>
  {
    if sorted == [] || x.number <= sorted[0].number then [x] + sorted else [sorted[0]] + Insert(x, sorted[1..])
  }

  /** list.sort by number. */
  function SortedByNumber(issues: seq<OpenIssue>): seq<OpenIssue>
  {
    if issues == [] then [] else Insert(issues[0], SortedByNumber(issues[1..]))
  }

  lemma {:induction false} InsertAscends(x: OpenIssue, sorted: seq<OpenIssue>)
    requires Ascending(sorted) && forall i :: 0 <= i < |sorted| ==> sorted[i].number != x.number
    ensures Ascending(Insert(x, sorted)) && |Insert(x, sorted)| == |sorted| + 1
    ensures forall y :: y in Insert(x, sorted) <==> y == x || y in sorted
  {
    if sorted != [] && sorted[0].number < x.number {
      var rest := Insert(x, sorted[1..]);
      InsertAscends(x, sorted[1..]);
      forall i | 0 <= i < |rest| ensures sorted[0].number < rest[i].number {
        assert rest[i] in rest;
      }
    }
  }

  lemma {:induction false} SortedAscends(issues: seq<OpenIssue>)
    requires DistinctNumbers(issues)
    ensures Ascending(SortedByNumber(issues)) && |SortedByNumber(issues)| == |issues|
    ensures forall x :: x in SortedByNumber(issues) <==> x in issues
  {
    if issues != [] {
      SortedAscends(issues[1..]);
      forall i | 0 <= i < |SortedByNumber(issues[1..])|
        ensures SortedByNumber(issues[1..])[i].number != issues[0].number {
        assert SortedByNumber(issues[1..])[i] in issues[1..];
      }
      InsertAscends(issues[0], SortedByNumber(issues[1..]));
    }
  }

  /** The numbers in a group that are not its lowest. */
  function Later(group: seq<OpenIssue>): set<nat>
  {
    set x | x in group && (exists y :: y in group && y.number < x.number) :: x.number
  }

  function Numbers(issues: seq<OpenIssue>): set<nat>
  {
    set x | x in issues :: x.number
  }

  lemma TailIsLater(group: seq<OpenIssue>, sorted: seq<OpenIssue>)
    requires group != [] && Ascending(sorted) && |sorted| == |group| && forall x :: x in sorted <==> x in group
    ensures Later(group) == Numbers(sorted[1..])
  {
    var rest := sorted[1..];
    forall n | n in Later(group) ensures n in Numbers(rest) {
      var x, y :| x in group && y in group && y.number < x.number && x.number == n;
      var i :| 0 <= i < |sorted| && sorted[i] == x;
      assert i > 0 && rest[i - 1] == x;
    }
    forall n | n in Numbers(rest) ensures n in Later(group) {
      var x :| x in rest && x.number == n;
      assert sorted[0] in group && x in group && sorted[0].number < x.number;
    }
  }

  function Succeeding(numbers: set<nat>, closes: nat -> bool): set<nat>
  {
    set n | n in numbers && closes(n)
  }

  class DuplicateIssueManager {
    const enabled: bool
    const limit: nat
    const strip: Strip
    var open: seq<OpenIssue>

    constructor (enabled: bool, limit: nat, strip: Strip, open: seq<OpenIssue>)
      ensures this.enabled == enabled && this.limit == limit && this.strip == strip && this.open == open
    {
      this.enabled, this.limit, this.strip, this.open := enabled, limit, strip, open;
    }

    method AddToGroup(titles: seq<string>, groups: map<string, seq<OpenIssue>>, x: OpenIssue,
                      ghost before: seq<OpenIssue>)
      returns (titles': seq<string>, groups': map<string, seq<OpenIssue>>)
      requires Grouped(titles, groups, before, strip)
      ensures Grouped(titles', groups', before + [x], strip)
    {
      var title := strip(x.title);
      titles' := titles;
      if title !in groups {
        titles' := titles + [title];
      }
      groups' := groups[title := Group(groups, title) + [x]];
      GroupedNext(titles, groups, before, x, strip, titles', groups');
    }

    /** Groups in the order in which their titles first occur. */
    method GroupByTitle(issues: seq<OpenIssue>) returns (titles: seq<string>, groups: map<string, seq<OpenIssue>>)
      ensures Grouped(titles, groups, issues, strip)
    {
      titles, groups := [], map[];
      for i := 0 to |issues|
        invariant Grouped(titles, groups, issues[..i], strip)
      {
        assert issues[..i + 1] == issues[..i] + [issues[i]];
        titles, groups := AddToGroup(titles, groups, issues[i], issues[..i]);
      }
      assert issues[..|issues|] == issues;
    }

    /** Keeps the lowest number of the group and tries to close the others. */
    method CloseDuplicateGroup(group: seq<OpenIssue>, closes: nat -> bool) returns (count: nat)
      requires group != [] && DistinctNumbers(group)
      modifies this`open
      ensures open == Without(old(open), Succeeding(Later(group), closes))
      ensures count == |Succeeding(Later(group), closes)|
    {
      var sorted := SortedByNumber(group);
      SortedAscends(group);
      TailIsLater(group, sorted);
      var duplicates := sorted[1..];
      count := 0;
      ghost var was := open;
      NoneClosed(was, duplicates, closes);
      for i := 0 to |duplicates|
        invariant ClosedUpTo(was, duplicates, i, closes, open, count)
      {
        var number := duplicates[i].number;
        NextClosed(was, duplicates, i, closes, open, count);
        if closes(number) {
          open := Without(open, {number});
          count := count + 1;
        }
      }
      assert duplicates[..|duplicates|] == duplicates;
    }

    /** One group: counted in a dry run, closed otherwise, and left alone if it is single. */
    method HandleGroup(group: seq<OpenIssue>, dryRun: bool, closes: nat -> bool) returns (count: nat)
      requires group != [] && DistinctNumbers(group)
      modifies this`open
      ensures count == |Succeeding(Later(group), Answer(dryRun, closes))|
      ensures open == if dryRun then old(open) else Without(old(open), Succeeding(Later(group), closes))
    {
      count := 0;
      LaterCount(group);
      if |group| > 1 {
        if dryRun {
          assert Succeeding(Later(group), Answer(dryRun, closes)) == Later(group);
          count := |group| - 1;
        } else {
          count := CloseDuplicateGroup(group, closes);
        }
      } else {
        WithoutNone(open);
        assert Succeeding({}, closes) == {};
      }
    }

    /** The count of duplicates, and unless this is a dry run those whose closing goes
        through are closed: the surplus issues among the first `limit` open ones. */
    method CloseDuplicates(dryRun: bool, closes: nat -> bool) returns (count: nat)
      requires DistinctNumbers(open)
      modifies this`open
      ensures !enabled ==> count == 0 && open == old(open)
      ensures enabled && dryRun ==>
                count == |SurplusNumbers(Checked(old(open), limit), strip)| && open == old(open)
      ensures enabled && !dryRun ==>
                var gone := set n | n in SurplusNumbers(Checked(old(open), limit), strip) && closes(n);
                count == |gone| && open == Without(old(open), gone)
    {
      count := 0;
      if !enabled {
        return;
      }
      var issues := open;
      if |issues| > limit {
        issues := issues[..limit];
      }
      var titles, groups := GroupByTitle(issues);
      count := HandleGroups(issues, titles, groups, dryRun, closes);
      AllTitlesDone(issues, titles, groups, strip);
      AnswersCount(SurplusNumbers(issues, strip), dryRun, closes);
    }

    /** One group after the other. */
    method HandleGroups(ghost issues: seq<OpenIssue>, titles: seq<string>, groups: map<string, seq<OpenIssue>>,
                        dryRun: bool, closes: nat -> bool)
      returns (count: nat)
      requires Grouped(titles, groups, issues, strip) && DistinctNumbers(issues)
      modifies this`open
      ensures var gone := Succeeding(DoneNumbers(issues, titles, strip), Answer(dryRun, closes));
              count == |gone| && open == if dryRun then old(open) else Without(old(open), gone)
    {
      count := 0;
      ghost var answer := Answer(dryRun, closes);
      ghost var was, left := open, open;
      NothingDone(was, issues, titles, strip, answer);
      for i := 0 to |titles|
        invariant DoneUpTo(was, issues, titles[..i], strip, answer, left, count)
        invariant open == if dryRun then was else left
      {
        GroupIsTitle(issues, titles, groups, i, strip);
        var group := groups[titles[i]];
        NextDone(was, issues, titles, i, group, strip, answer, left, count);
        var closed := HandleGroup(group, dryRun, closes);
        left := Without(left, Succeeding(Later(group), answer));
        count := count + closed;
      }
      assert titles[..|titles|] == titles;
    }
  }

  /** In a dry run every closing counts. */
  function Answer(dryRun: bool, closes: nat -> bool): nat -> bool
  {
    if dryRun then _ => true else closes
  }

  lemma AnswersCount(numbers: set<nat>, dryRun: bool, closes: nat -> bool)
    ensures Succeeding(numbers, Answer(dryRun, closes)) == if dryRun then numbers else set n | n in numbers && closes(n)
  {
  }

  /** The surplus issues with one of these titles. */
  function DoneNumbers(issues: seq<OpenIssue>, titles: seq<string>, strip: Strip): set<nat>
  {
    set x | x in issues && strip(x.title) in titles && Surplus(issues, x, strip) :: x.number
  }

  /** The groups with these titles have been gone through. */
  ghost predicate DoneUpTo(was: seq<OpenIssue>, issues: seq<OpenIssue>, titles: seq<string>, strip: Strip,
                           closes: nat -> bool, open: seq<OpenIssue>, count: nat)
  {
    var gone := Succeeding(DoneNumbers(issues, titles, strip), closes);
    open == Without(was, gone) && count == |gone|
  }

  lemma NothingDone(was: seq<OpenIssue>, issues: seq<OpenIssue>, titles: seq<string>, strip: Strip, closes: nat -> bool)
    ensures DoneNumbers(issues, titles[..0], strip) == {}
    ensures DoneUpTo(was, issues, titles[..0], strip, closes, was, 0)
  {
    WithoutNone(was);
    assert Succeeding({}, closes) == {};
  }

  lemma LaterIsSurplus(issues: seq<OpenIssue>, title: string, strip: Strip)
    ensures Later(SameTitle(issues, title, strip)) == DoneNumbers(issues, [title], strip)
  {
    var group := SameTitle(issues, title, strip);
    forall x: OpenIssue ensures x in group <==> x in issues && strip(x.title) == title {
      SameTitleMember(issues, title, strip, x);
    }
  }

  /** A group adds its later numbers, and shares none with the groups before. */
  lemma NextTitle(issues: seq<OpenIssue>, titles: seq<string>, i: nat, strip: Strip)
    requires i < |titles| && titles[i] !in titles[..i] && DistinctNumbers(issues)
    ensures DoneNumbers(issues, titles[..i + 1], strip)
         == DoneNumbers(issues, titles[..i], strip) + DoneNumbers(issues, [titles[i]], strip)
    ensures DoneNumbers(issues, titles[..i], strip) !! DoneNumbers(issues, [titles[i]], strip)
  {
    assert titles[..i + 1] == titles[..i] + [titles[i]];
    forall x, y | x in issues && y in issues && x.number == y.number ensures x == y {
      SameNumber(issues, x, y);
    }
  }

  /** All numbers of a group but one are later. */
  lemma LaterCount(group: seq<OpenIssue>)
    requires DistinctNumbers(group) && group != []
    ensures |Later(group)| == |group| - 1
  {
    SortedAscends(group);
    TailIsLater(group, SortedByNumber(group));
    NumbersCount(SortedByNumber(group)[1..]);
  }

  lemma SameNumber(issues: seq<OpenIssue>, x: OpenIssue, y: OpenIssue)
    requires DistinctNumbers(issues) && x in issues && y in issues && x.number == y.number
    ensures x == y
  {
    var i :| 0 <= i < |issues| && issues[i] == x;
    var j :| 0 <= j < |issues| && issues[j] == y;
    assert i == j;
  }

  lemma {:induction false} NumbersCount(issues: seq<OpenIssue>)
    requires DistinctNumbers(issues)
    ensures |Numbers(issues)| == |issues|
  {
    if issues != [] {
      NumbersCount(issues[1..]);
      assert issues == [issues[0]] + issues[1..];
      assert Numbers(issues) == {issues[0].number} + Numbers(issues[1..]);
    }
  }

  lemma NextDone(was: seq<OpenIssue>, issues: seq<OpenIssue>, titles: seq<string>, i: nat, group: seq<OpenIssue>,
                 strip: Strip, closes: nat -> bool, open: seq<OpenIssue>, count: nat)
    requires i < |titles| && titles[i] !in titles[..i] && DistinctNumbers(issues)
    requires group == SameTitle(issues, titles[i], strip)
    requires DoneUpTo(was, issues, titles[..i], strip, closes, open, count)
    ensures var closed := Succeeding(Later(group), closes);
            DoneUpTo(was, issues, titles[..i + 1], strip, closes, Without(open, closed), count + |closed|)
  {
    NextTitle(issues, titles, i, strip);
    LaterIsSurplus(issues, titles[i], strip);
    Both(DoneNumbers(issues, titles[..i], strip), Later(group), closes);
    WithoutTwice(was, Succeeding(DoneNumbers(issues, titles[..i], strip), closes), Succeeding(Later(group), closes));
  }

  lemma Both(a: set<nat>, b: set<nat>, closes: nat -> bool)
    requires a !! b
    ensures Succeeding(a + b, closes) == Succeeding(a, closes) + Succeeding(b, closes)
    ensures |Succeeding(a + b, closes)| == |Succeeding(a, closes)| + |Succeeding(b, closes)|
  {
    assert Succeeding(a + b, closes) == Succeeding(a, closes) + Succeeding(b, closes);
    assert Succeeding(a, closes) !! Succeeding(b, closes);
  }

  lemma AllTitlesDone(issues: seq<OpenIssue>, titles: seq<string>, groups: map<string, seq<OpenIssue>>, strip: Strip)
    requires Grouped(titles, groups, issues, strip)
    ensures titles[..|titles|] == titles
    ensures DoneNumbers(issues, titles, strip) == SurplusNumbers(issues, strip)
  {
    forall x | x in issues ensures strip(x.title) in titles {
      SameTitleMember(issues, strip(x.title), strip, x);
      assert Group(groups, strip(x.title)) != [];
    }
  }

  /** The issues looked at. */
  function Checked(issues: seq<OpenIssue>, limit: nat): seq<OpenIssue>
  {
    if |issues| > limit then issues[..limit] else issues
  }

  function Group(groups: map<string, seq<OpenIssue>>, title: string): seq<OpenIssue>
  {
    if title in groups then groups[title] else []
  }

  /** Every title once, with all its issues. */
  ghost predicate Grouped(titles: seq<string>, groups: map<string, seq<OpenIssue>>, issues: seq<OpenIssue>,
            strip: Strip)
  {
    && (forall t :: t in titles <==> t in groups)
    && (forall i, j :: 0 <= i < j < |titles| ==> titles[i] != titles[j])
    && (forall t :: Group(groups, t) == SameTitle(issues, t, strip))
    && (forall t :: t in groups ==> groups[t] != [])
  }

  lemma GroupIsTitle(issues: seq<OpenIssue>, titles: seq<string>, groups: map<string, seq<OpenIssue>>, i: nat,
            strip: Strip)
    requires i < |titles| && Grouped(titles, groups, issues, strip) && DistinctNumbers(issues)
    ensures titles[i] in groups && titles[i] !in titles[..i]
    ensures groups[titles[i]] == SameTitle(issues, titles[i], strip)
    ensures groups[titles[i]] != [] && DistinctNumbers(groups[titles[i]])
  {
    assert titles[i] in titles;
    assert Group(groups, titles[i]) == groups[titles[i]];
    SameTitleDistinct(issues, titles[i], strip);
  }

  lemma GroupedNext(titles: seq<string>, groups: map<string, seq<OpenIssue>>, issues: seq<OpenIssue>, x: OpenIssue,
                    strip: Strip, titles': seq<string>, groups': map<string, seq<OpenIssue>>)
    requires Grouped(titles, groups, issues, strip)
    requires titles' == if strip(x.title) in groups then titles else titles + [strip(x.title)]
    requires groups' == groups[strip(x.title) := Group(groups, strip(x.title)) + [x]]
    ensures Grouped(titles', groups', issues + [x], strip)
  {
    forall u: string ensures Group(groups', u) == SameTitle(issues + [x], u, strip) {
      SameTitleAppend(issues, x, u, strip);
      assert Group(groups, u) == SameTitle(issues, u, strip);
    }
  }

  /** The first i duplicates have been tried. */
  predicate ClosedUpTo(was: seq<OpenIssue>, duplicates: seq<OpenIssue>, i: nat, closes: nat -> bool,
                       open: seq<OpenIssue>, count: nat)
    requires i <= |duplicates|
  {
    var gone := Succeeding(Numbers(duplicates[..i]), closes);
    open == Without(was, gone) && count == |gone|
  }

  lemma NoneClosed(was: seq<OpenIssue>, duplicates: seq<OpenIssue>, closes: nat -> bool)
    ensures ClosedUpTo(was, duplicates, 0, closes, was, 0)
  {
    WithoutNone(was);
    assert Succeeding(Numbers(duplicates[..0]), closes) == {};
  }

  lemma NextClosed(was: seq<OpenIssue>, duplicates: seq<OpenIssue>, i: nat, closes: nat -> bool,
                   open: seq<OpenIssue>, count: nat)
    requires i < |duplicates| && Ascending(duplicates) && ClosedUpTo(was, duplicates, i, closes, open, count)
    ensures var n := duplicates[i].number;
            if closes(n) then ClosedUpTo(was, duplicates, i + 1, closes, Without(open, {n}), count + 1)
            else ClosedUpTo(was, duplicates, i + 1, closes, open, count)
  {
    var n := duplicates[i].number;
    NextDuplicate(duplicates, i, closes);
    WithoutTwice(was, Succeeding(Numbers(duplicates[..i]), closes), {n});
  }

  lemma NextDuplicate(duplicates: seq<OpenIssue>, i: nat, closes: nat -> bool)
    requires i < |duplicates| && Ascending(duplicates)
    ensures var n := duplicates[i].number;
            && n !in Numbers(duplicates[..i])
            && Succeeding(Numbers(duplicates[..i + 1]), closes)
            == Succeeding(Numbers(duplicates[..i]), closes) + if closes(n) then {n} else {}
  {
    assert duplicates[..i + 1] == duplicates[..i] + [duplicates[i]];
    assert Numbers(duplicates[..i + 1]) == Numbers(duplicates[..i]) + {duplicates[i].number};
  }
}
