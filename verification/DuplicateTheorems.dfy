/** What closing duplicates leaves behind, and when a second run finds nothing to do. */
module DuplicateTheorems {
  import opened DuplicateIssues

  /** The lowest-numbered issue with the stripped title of x. */
  lemma {:induction false} Lowest(issues: seq<OpenIssue>, x: OpenIssue, strip: Strip) returns (z: OpenIssue)
    requires x in issues
    ensures z in issues && strip(z.title) == strip(x.title) && z.number <= x.number && !Surplus(issues, z, strip)
    decreases x.number
  {
    if Surplus(issues, x, strip) {
      var y :| y in issues && strip(y.title) == strip(x.title) && y.number < x.number;
      z := Lowest(issues, y, strip);
    } else {
      z := x;
    }
  }

  lemma OnlyOneLowest(issues: seq<OpenIssue>, x: OpenIssue, y: OpenIssue, strip: Strip)
    requires DistinctNumbers(issues) && x in issues && y in issues && strip(x.title) == strip(y.title)
    requires !Surplus(issues, x, strip) && !Surplus(issues, y, strip)
    ensures x == y
  {
    assert x.number == y.number;
    SameNumber(issues, x, y);
  }

  lemma SurplusNumber(issues: seq<OpenIssue>, x: OpenIssue, strip: Strip)
    requires DistinctNumbers(issues) && x in issues
    ensures x.number in SurplusNumbers(issues, strip) <==> Surplus(issues, x, strip)
  {
    if x.number in SurplusNumbers(issues, strip) {
      var y :| y in issues && Surplus(issues, y, strip) && y.number == x.number;
      SameNumber(issues, x, y);
    }
  }

  /** When every close goes through, exactly the lowest-numbered issue of each stripped
      title stays open: no title is lost and none is left twice. */
  lemma OneSurvivorPerTitle(issues: seq<OpenIssue>, strip: Strip, x: OpenIssue)
    requires DistinctNumbers(issues)
    ensures var left := Without(issues, SurplusNumbers(issues, strip));
            && (x in left <==>
                  x in issues && forall y :: y in issues && strip(y.title) == strip(x.title) ==> x.number <= y.number)
            && (x in issues ==> exists z :: z in left && strip(z.title) == strip(x.title))
            && (forall y :: x in left && y in left && strip(x.title) == strip(y.title) ==> x == y)
  {
    var gone := SurplusNumbers(issues, strip);
    var left := Without(issues, gone);
    forall y: OpenIssue ensures y in left <==> y in issues && !Surplus(issues, y, strip) {
      WithoutMember(issues, gone, y);
      if y in issues {
        SurplusNumber(issues, y, strip);
      }
    }
    if x in issues {
      var z := Lowest(issues, x, strip);
      assert z in left;
    }
    forall y | x in left && y in left && strip(x.title) == strip(y.title) ensures x == y {
      OnlyOneLowest(issues, x, y, strip);
    }
  }

  /** Closing some of the surplus issues leaves exactly the others surplus. */
  lemma SurplusAfter(issues: seq<OpenIssue>, gone: set<nat>, strip: Strip)
    requires DistinctNumbers(issues) && gone <= SurplusNumbers(issues, strip)
    ensures SurplusNumbers(Without(issues, gone), strip) == SurplusNumbers(issues, strip) - gone
  {
    var left := Without(issues, gone);
    forall x: OpenIssue ensures x in left <==> x in issues && x.number !in gone {
      WithoutMember(issues, gone, x);
    }
    forall x | x in left && Surplus(issues, x, strip) ensures Surplus(left, x, strip) {
      var z := Lowest(issues, x, strip);
      SurplusNumber(issues, z, strip);
      assert z.number < x.number by {
        if z.number == x.number {
          SameNumber(issues, x, z);
        }
      }
    }
    forall x | x in left && Surplus(left, x, strip) ensures Surplus(issues, x, strip) {
      var y :| y in left && strip(y.title) == strip(x.title) && y.number < x.number;
    }
  }

  /** A second run over all open issues finds the issues whose closing failed, and so it
      closes none exactly when every close of the first run went through. */
  lemma SecondRun(issues: seq<OpenIssue>, limit: nat, strip: Strip, closes: nat -> bool)
    requires DistinctNumbers(issues) && |issues| <= limit
    ensures var surplus := SurplusNumbers(Checked(issues, limit), strip);
            var left := Without(issues, Succeeding(surplus, closes));
            && SurplusNumbers(Checked(left, limit), strip) == surplus - Succeeding(surplus, closes)
            && (SurplusNumbers(Checked(left, limit), strip) == {} <==> forall n :: n in surplus ==> closes(n))
  {
    var surplus := SurplusNumbers(issues, strip);
    SurplusAfter(issues, Succeeding(surplus, closes), strip);
    WithoutShorter(issues, Succeeding(surplus, closes));
    if n :| n in surplus && !closes(n) {
      assert n in surplus - Succeeding(surplus, closes);
    }
  }

  lemma {:induction false} WithoutShorter(issues: seq<OpenIssue>, gone: set<nat>)
    ensures |Without(issues, gone)| <= |issues|
  {
    if issues != [] {
      WithoutShorter(issues[1..], gone);
    }
  }

  /** A run looks at the first issues of the listing, as many as the limit allows. */
  lemma CheckedMeans(issues: seq<OpenIssue>, limit: nat)
    ensures Checked(issues, limit) <= issues
    ensures |Checked(issues, limit)| == if |issues| < limit then |issues| else limit
  {
  }

  function Titles(issues: seq<OpenIssue>, strip: Strip): set<string>
  {
    set x | x in issues :: strip(x.title)
  }

  function LowestNumbers(issues: seq<OpenIssue>, titles: set<string>, strip: Strip): set<nat>
  {
    set x | x in issues && strip(x.title) in titles && !Surplus(issues, x, strip) :: x.number
  }

  lemma LowestOf(issues: seq<OpenIssue>, title: string, strip: Strip) returns (z: OpenIssue)
    requires title in Titles(issues, strip)
    ensures z in issues && strip(z.title) == title && !Surplus(issues, z, strip)
  {
    var x :| x in issues && strip(x.title) == title;
    z := Lowest(issues, x, strip);
  }

  lemma {:induction false} OneLowestEach(issues: seq<OpenIssue>, titles: set<string>, strip: Strip)
    requires DistinctNumbers(issues) && titles <= Titles(issues, strip)
    ensures |LowestNumbers(issues, titles, strip)| == |titles|
    decreases |titles|
  {
    if titles == {} {
      assert LowestNumbers(issues, titles, strip) == {};
    } else {
      var t :| t in titles;
      var rest := titles - {t};
      var z := LowestOf(issues, t, strip);
      OneLowestEach(issues, rest, strip);
      AddsLowest(issues, rest, z, strip);
      assert titles == rest + {strip(z.title)};
    }
  }

  lemma AddsLowest(issues: seq<OpenIssue>, rest: set<string>, z: OpenIssue, strip: Strip)
    requires DistinctNumbers(issues) && z in issues && !Surplus(issues, z, strip) && strip(z.title) !in rest
    ensures LowestNumbers(issues, rest + {strip(z.title)}, strip) == LowestNumbers(issues, rest, strip) + {z.number}
    ensures z.number !in LowestNumbers(issues, rest, strip)
  {
    forall x | x in issues && x.number == z.number ensures x == z {
      SameNumber(issues, x, z);
    }
    forall x | x in issues && strip(x.title) == strip(z.title) && !Surplus(issues, x, strip) ensures x == z {
      OnlyOneLowest(issues, x, z, strip);
    }
  }

  /** The count of a complete run, and of a dry run, is issues minus distinct titles. */
  lemma CountIsIssuesMinusTitles(issues: seq<OpenIssue>, strip: Strip)
    requires DistinctNumbers(issues)
    ensures |SurplusNumbers(issues, strip)| == |issues| - |Titles(issues, strip)|
  {
    var lowest := LowestNumbers(issues, Titles(issues, strip), strip);
    OneLowestEach(issues, Titles(issues, strip), strip);
    NumbersCount(issues);
    forall x | x in issues ensures x.number in SurplusNumbers(issues, strip) <==> Surplus(issues, x, strip) {
      SurplusNumber(issues, x, strip);
    }
    assert Numbers(issues) == SurplusNumbers(issues, strip) + lowest;
    forall n | n in lowest ensures n !in SurplusNumbers(issues, strip) {
      var x :| x in issues && !Surplus(issues, x, strip) && x.number == n;
    }
    assert SurplusNumbers(issues, strip) !! lowest;
  }
}
