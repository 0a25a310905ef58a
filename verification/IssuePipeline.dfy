/** Sorting, resolving and validating in the order of process_chronological in
    scripts/enhanced_issue_manager.py. */
module IssuePipeline {
  import opened Options
  import opened ChronologicalSort
  import opened UpdateScheduler
  import opened UpdateSchedulerTheorems
  import opened UpdateSequenceTheorems
  import opened UpdateCycleTheorems

  function UpdatesOf(stamped: seq<Stamped>): (updates: seq<Update>)
    ensures |updates| == |stamped| && forall i :: 0 <= i < |stamped| ==> updates[i] == stamped[i].update
  {
    seq(|stamped|, i requires 0 <= i < |stamped| => stamped[i].update)
  }

  /** The sort raises an error, the validator finds problems, or these updates are processed. */
  datatype Plan = SortFails | Invalid(problems: seq<Problem>) | Ready(updates: seq<Update>)

  method PlanChronological(stamped: seq<Stamped>) returns (plan: Plan)
    ensures plan.SortFails? <==> !OneKind(stamped)
    ensures OneKind(stamped) ==>
              var updates := UpdatesOf(Sorted(stamped));
              if ApplicableOnCycles(updates) then plan == Ready(Resolve(updates))
              else plan == Invalid(Problems(Resolve(updates))) && plan.problems != []
  {
    var sorted := SortChronologically(stamped);
    if sorted.None? {
      return SortFails;
    }
    var updates := UpdatesOf(sorted.value);
    var resolver := new Resolver();
    var resolved := resolver.ResolveDependencies(updates);
    var valid, problems := ValidateUpdateSequence(resolved);
    ValidatesIff(updates);
    NoProblems(resolved);
    plan := if valid then Ready(resolved) else Invalid(problems);
  }

  /** The place of an update in the chronological list is that of a smaller key, or of an
      equal key that stood earlier. */
  predicate Earlier(stamped: seq<Stamped>, i: nat, j: nat)
    requires OneKind(stamped) && i < |stamped| && j < |stamped|
  {
    SameKind(stamped[i].stamp, stamped[j].stamp) && KeyLE(stamped[i], stamped[j]) && !SameKey(stamped[i], stamped[j])
  }

  lemma SortedEarlier(sorted: seq<Stamped>, i: nat, j: nat)
    requires OneKind(sorted) && Chronological(sorted) && i < |sorted| && j < |sorted| && Earlier(sorted, i, j)
    ensures i < j
  {
    if j < i {
      KeyOrder(sorted[j], sorted[i], sorted[j]);
    }
  }

  /** In the plan an update is processed before a chronologically earlier one only if it is
      an ancestor of that one, or of an update taken up before that one. */
  lemma OnlyAncestorsOvertake(stamped: seq<Stamped>, sorted: seq<Stamped>, updates: seq<Update>, i: nat, j: nat,
            a: nat, b: nat)
    requires OneKind(stamped) && sorted == Sorted(stamped) && updates == UpdatesOf(sorted)
    requires UniqueGuids(updates) && AllDifferent(updates)
    requires i < |updates| && j < |updates| && Earlier(sorted, i, j)
    requires a < b < |Resolve(updates)| && Resolve(updates)[a] == updates[j] && Resolve(updates)[b] == updates[i]
    ensures updates[j].guid != "" && Called(GraphOf(updates), updates, i + 1, updates[j].guid)
  {
    SortedInOrder(stamped, sorted);
    SortedEarlier(sorted, i, j);
    OvertakersAreAncestors(updates, i, j, a, b);
  }

  lemma SortedInOrder(stamped: seq<Stamped>, sorted: seq<Stamped>)
    requires OneKind(stamped) && sorted == Sorted(stamped)
    ensures OneKind(sorted) && Chronological(sorted)
  {
    if stamped != [] {
      SortedChronologically(stamped, stamped[0]);
    }
  }
}
