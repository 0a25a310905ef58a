/**
 The rule table of internal/mapper/mapper.go: rules kept in descending priority by a sort
 that may break ties in any way, and a lookup in which the first matching rule wins.
 */
module PathMapper {
  import opened Options
  import opened Text

  datatype Kind = RegexRule | PrefixRule | ExactRule

  /** `rewrite` is absent unless the rule rewrites the path. */
  datatype Rule = Rule(kind: Kind, pattern: string, repository: string, rewrite: Option<string>, priority: int)

  /** The regular expressions, formatting and path joining of Go's library, uninterpreted. */
  datatype Library = Library(
    compiles: string -> bool,
    submatch: (string, string) -> Option<seq<string>>,
    replaceAll: (string, string, string) -> string,
    sprintf: (string, string) -> string,
    join: (string, string) -> string,
    isIndex: string -> bool)

  datatype Mapping = Mapping(repository: string, remotePath: string, cachePath: string, isIndex: bool, rule: Rule)

  datatype Result<T> = Ok(value: T) | Err(error: string)

  predicate HasPrefix(s: string, prefix: string) { prefix <= s }

  function TrimPrefix(s: string, prefix: string): string
  {
    if prefix <= s then s[|prefix|..] else s
  }

  predicate Matches(lib: Library, r: Rule, path: string)
  {
    match r.kind
    case RegexRule => lib.submatch(r.pattern, path).Some?
    case PrefixRule => HasPrefix(path, r.pattern)
    case ExactRule => path == r.pattern
  }

  /** The repository of a matching rule, with the first capture group filled in. */
  function RepositoryOf(lib: Library, r: Rule, path: string): string
    requires Matches(lib, r, path)
  {
    if r.kind.RegexRule? then
      var groups := lib.submatch(r.pattern, path).value;
      if Contains(r.repository, "%s") && |groups| > 1 then lib.sprintf(r.repository, groups[1]) else r.repository
    else r.repository
  }

  function RemotePathOf(lib: Library, r: Rule, path: string): string
    requires Matches(lib, r, path)
  {
    match r.kind
    case RegexRule =>
      if r.rewrite.Some? then lib.replaceAll(r.pattern, path, r.rewrite.value)
      else TrimPrefix(path, RepositoryOf(lib, r, path) + "/")
    case PrefixRule => TrimPrefix(TrimPrefix(path, r.pattern), "/")
    case ExactRule => ""
  }

  function MappingOf(lib: Library, r: Rule, path: string): Mapping
    requires Matches(lib, r, path)
  {
    var repo, remote := RepositoryOf(lib, r, path), RemotePathOf(lib, r, path);
    var cached := if HasPrefix(path, repo + "/") then path else lib.join(repo, remote);
    Mapping(repo, remote, cached, lib.isIndex(remote), r)
  }

  function SlashAt(path: string): nat
    ensures SlashAt(path) <= |path| && (SlashAt(path) < |path| ==> path[SlashAt(path)] == '/')
  {
    if path == "" || path[0] == '/' then 0 else SlashAt(path[1..]) + 1
  }

  /** Without a matching rule the first path component is the repository. */
  function DirectMapping(lib: Library, path: string): Result<Mapping>
  {
    var i := SlashAt(path);
    if i == |path| then Err("invalid path format: " + path)
    else
      var repo, remote := path[..i], path[i + 1..];
      Ok(Mapping(repo, remote, path, lib.isIndex(remote), Rule(PrefixRule, repo, repo, None, 0)))
  }

  function FirstMatch(lib: Library, rules: seq<Rule>, path: string): (r: Option<Rule>)
    ensures r.Some? ==> r.value in rules && Matches(lib, r.value, path)
  {
    if rules == [] then None
    else if Matches(lib, rules[0], path) then Some(rules[0])
    else FirstMatch(lib, rules[1..], path)
  }

  function Lookup(lib: Library, rules: seq<Rule>, request: string): Result<Mapping>
  {
    var path := TrimPrefix(request, "/");
    var r := FirstMatch(lib, rules, path);
    if r.Some? then Ok(MappingOf(lib, r.value, path)) else DirectMapping(lib, path)
  }

  predicate Descending(rules: seq<Rule>)
  {
    forall i, j :: 0 <= i < j < |rules| ==> rules[i].priority >= rules[j].priority
  }

  /** A table the sort may leave behind: the added rules in some descending order. */
  ghost predicate TableOf(rules: seq<Rule>, added: seq<Rule>)
  {
    Descending(rules) && multiset(rules) == multiset(added)
  }

  /** The rule an Add call appends, or its error. */
  predicate Highest(rules: seq<Rule>, k: int)
  {
    0 <= k < |rules| && forall j :: 0 <= j < |rules| ==> rules[j].priority <= rules[k].priority
  }

  lemma HighestExists(rules: seq<Rule>)
    requires rules != []
    ensures exists k :: Highest(rules, k)
  {
    var k := 0;
    for i := 1 to |rules|
      invariant 0 <= k < i && forall j :: 0 <= j < i ==> rules[j].priority <= rules[k].priority
    {
      if rules[i].priority > rules[k].priority {
        k := i;
      }
    }
    assert Highest(rules, k);
  }

  /** What is sorted already, what is left, and that nothing left belongs before it. */
  ghost predicate SortedSoFar(sorted: seq<Rule>, rest: seq<Rule>, rules: seq<Rule>)
  {
    && multiset(sorted) + multiset(rest) == multiset(rules)
    && Descending(sorted)
    && forall i, j :: 0 <= i < |sorted| && 0 <= j < |rest| ==> sorted[i].priority >= rest[j].priority
  }

  lemma TakeHighest(sorted: seq<Rule>, rest: seq<Rule>, rules: seq<Rule>, k: nat)
    requires SortedSoFar(sorted, rest, rules) && k < |rest| && Highest(rest, k)
    ensures SortedSoFar(sorted + [rest[k]], rest[..k] + rest[k + 1..], rules)
  {
    var left := rest[..k] + rest[k + 1..];
    assert rest == rest[..k] + [rest[k]] + rest[k + 1..];
    assert forall j :: 0 <= j < |left| ==> left[j] == rest[if j < k then j else j + 1];
  }

  // ---------------------------------------------------------------- which rule wins

  /** A matching rule of the highest matching priority. */
  ghost predicate Top(lib: Library, rules: seq<Rule>, path: string, r: Rule)
  {
    && r in rules && Matches(lib, r, path)
    && forall q :: q in rules && Matches(lib, q, path) ==> q.priority <= r.priority
  }

  lemma {:induction false} FirstMatchIsTop(lib: Library, rules: seq<Rule>, path: string)
    requires Descending(rules)
    ensures var r := FirstMatch(lib, rules, path);
            if r.Some? then Top(lib, rules, path, r.value) else forall q :: q in rules ==> !Matches(lib, q, path)
  {
    if rules != [] && !Matches(lib, rules[0], path) {
      FirstMatchIsTop(lib, rules[1..], path);
      assert forall q :: q in rules ==> q == rules[0] || q in rules[1..];
    }
  }

  /** The table picks a matching rule of the highest priority among all rules added, and
      falls back to the direct mapping exactly when none matches. */
  lemma PicksHighest(lib: Library, rules: seq<Rule>, added: seq<Rule>, request: string)
    requires TableOf(rules, added)
    ensures var path := TrimPrefix(request, "/");
            if exists q :: q in added && Matches(lib, q, path)
            then exists r :: Top(lib, added, path, r) && Lookup(lib, rules, request) == Ok(MappingOf(lib, r, path))
            else Lookup(lib, rules, request) == DirectMapping(lib, path)
  {
    var path := TrimPrefix(request, "/");
    FirstMatchIsTop(lib, rules, path);
    SameMembers(rules, added);
    var r := FirstMatch(lib, rules, path);
    if r.Some? {
      assert Top(lib, added, path, r.value);
    }
  }

  lemma SameMembers(a: seq<Rule>, b: seq<Rule>)
    requires multiset(a) == multiset(b)
    ensures forall r :: r in a <==> r in b
  {
    forall r: Rule ensures r in a <==> r in b {
      assert r in a <==> r in multiset(a);
      assert r in b <==> r in multiset(b);
    }
  }

  /** The direct mapping fails exactly on paths of one component; otherwise repository and
      remote path put together again are the cache path. */
  lemma DirectRejoins(lib: Library, path: string)
    ensures DirectMapping(lib, path).Ok? <==> '/' in path
    ensures DirectMapping(lib, path).Ok? ==>
              var m := DirectMapping(lib, path).value;
              m.cachePath == m.repository + "/" + m.remotePath == path && '/' !in m.repository
  {
    SlashIsFirst(path);
    var i := SlashAt(path);
    if i < |path| {
      assert path == path[..i] + [path[i]] + path[i + 1..];
    } else {
      assert path[..i] == path;
    }
  }

  lemma {:induction false} SlashIsFirst(path: string)
    ensures '/' !in path[..SlashAt(path)]
  {
    if path != "" && path[0] != '/' {
      SlashIsFirst(path[1..]);
      assert path[..SlashAt(path)] == [path[0]] + path[1..][..SlashAt(path[1..])];
    }
  }

  // ---------------------------------------------------------------- what the answer is

  /** The rule applies to the path. */
  predicate Fits(lib: Library, r: Rule, path: string)
  {
    match r.kind
    case PrefixRule => |r.pattern| <= |path| && path[..|r.pattern|] == r.pattern
    case ExactRule => path == r.pattern
    case RegexRule => lib.submatch(r.pattern, path).Some?
  }

  /** The remote path by kind of rule: behind a prefix and one slash, if there is one; nothing
      for an exact rule; the rewritten path, or the path behind its repository. */
  predicate RemoteRight(lib: Library, r: Rule, path: string, m: Mapping)
  {
    match r.kind
    case PrefixRule =>
      path == r.pattern + "/" + m.remotePath
      || (path == r.pattern + m.remotePath && (m.remotePath == "" || m.remotePath[0] != '/'))
    case ExactRule => m.remotePath == ""
    case RegexRule =>
      if r.rewrite.Some? then m.remotePath == lib.replaceAll(r.pattern, path, r.rewrite.value)
      else if m.repository + "/" <= path then path == m.repository + "/" + m.remotePath
      else m.remotePath == path
  }

  /** The repository is that of the rule, for a regular expression with the first group in
      the place of %s. */
  predicate RepositoryRight(lib: Library, r: Rule, path: string, m: Mapping)
  {
    if r.kind.RegexRule? && lib.submatch(r.pattern, path).Some? && |lib.submatch(r.pattern, path).value| > 1
       && exists i :: 0 <= i < |r.repository| - 1 && r.repository[i] == '%' && r.repository[i + 1] == 's' then
      m.repository == lib.sprintf(r.repository, lib.submatch(r.pattern, path).value[1])
    else m.repository == r.repository
  }

  predicate CacheRight(lib: Library, path: string, m: Mapping)
  {
    && m.cachePath == (if m.repository + "/" <= path then path else lib.join(m.repository, m.remotePath))
    && m.isIndex == lib.isIndex(m.remotePath)
  }

  /** The request without one slash in front. */
  predicate PathOf(request: string, path: string)
  {
    request == "/" + path || (request == path && (path == "" || path[0] != '/'))
  }

  /** The answer of a fitting rule of the highest priority. */
  ghost predicate RuleAnswers(lib: Library, added: seq<Rule>, path: string, result: Result<Mapping>)
  {
    result.Ok?
    && var m := result.value;
       && m.rule in added && Fits(lib, m.rule, path)
       && (forall q :: q in added && Fits(lib, q, path) ==> q.priority <= m.rule.priority)
       && RemoteRight(lib, m.rule, path, m) && RepositoryRight(lib, m.rule, path, m) && CacheRight(lib, path, m)
  }

  /** Without one the first component is the repository, and a single one is an error. */
  predicate DirectAnswers(lib: Library, path: string, result: Result<Mapping>)
  {
    if '/' in path then
      result.Ok?
      && var m := result.value;
         && path == m.repository + "/" + m.remotePath && '/' !in m.repository && m.cachePath == path
         && m.isIndex == lib.isIndex(m.remotePath) && m.rule == Rule(PrefixRule, m.repository, m.repository, None, 0)
    else result == Err("invalid path format: " + path)
  }

  ghost predicate Answered(lib: Library, added: seq<Rule>, request: string, result: Result<Mapping>)
  {
    exists path :: PathOf(request, path)
      && if exists q :: q in added && Fits(lib, q, path) then RuleAnswers(lib, added, path, result)
         else DirectAnswers(lib, path, result)
  }

  lemma FitsIff(lib: Library, r: Rule, path: string)
    ensures Matches(lib, r, path) <==> Fits(lib, r, path)
  {
  }

  lemma TwoLetters(s: string, c: char, d: char)
    ensures Contains(s, [c, d]) <==> exists i :: 0 <= i < |s| - 1 && s[i] == c && s[i + 1] == d
  {
    ContainsIff(s, [c, d]);
    if i :| 0 <= i < |s| - 1 && s[i] == c && s[i + 1] == d {
      assert s[i..i + 2] == [c, d];
      assert At(s, [c, d], i);
    }
    if i: nat :| At(s, [c, d], i) {
      assert s[i..i + 2][0] == s[i] && s[i..i + 2][1] == s[i + 1];
    }
  }

  lemma PrefixCut(path: string, prefix: string)
    requires prefix <= path
    ensures path == prefix + path[|prefix|..]
  {
  }

  lemma SlashFirst(s: string)
    ensures "/" <= s <==> s != "" && s[0] == '/'
  {
  }

  lemma RemoteIsRight(lib: Library, r: Rule, path: string)
    requires Matches(lib, r, path)
    ensures RemoteRight(lib, r, path, MappingOf(lib, r, path))
  {
    match r.kind
    case PrefixRule =>
      PrefixCut(path, r.pattern);
      var rest := path[|r.pattern|..];
      if "/" <= rest {
        PrefixCut(rest, "/");
        assert path == r.pattern + "/" + rest[1..];
      }
      SlashFirst(rest);
    case ExactRule =>
    case RegexRule =>
      var repo := RepositoryOf(lib, r, path);
      if repo + "/" <= path {
        PrefixCut(path, repo + "/");
      }
  }

  lemma RepositoryIsRight(lib: Library, r: Rule, path: string)
    requires Matches(lib, r, path)
    ensures RepositoryRight(lib, r, path, MappingOf(lib, r, path))
  {
    TwoLetters(r.repository, '%', 's');
  }

  lemma PathIsRight(request: string)
    ensures PathOf(request, TrimPrefix(request, "/"))
  {
    SlashFirst(request);
    if "/" <= request {
      PrefixCut(request, "/");
    }
  }

  lemma TopAnswers(lib: Library, added: seq<Rule>, path: string, r: Rule)
    requires Top(lib, added, path, r)
    ensures RuleAnswers(lib, added, path, Ok(MappingOf(lib, r, path)))
  {
    RemoteIsRight(lib, r, path);
    RepositoryIsRight(lib, r, path);
    forall q | q in added && Fits(lib, q, path) ensures q.priority <= r.priority {
      FitsIff(lib, q, path);
    }
  }

  lemma DirectIsRight(lib: Library, path: string)
    ensures DirectAnswers(lib, path, DirectMapping(lib, path))
  {
    DirectRejoins(lib, path);
  }

  lemma SomeFits(lib: Library, added: seq<Rule>, path: string)
    ensures (exists q :: q in added && Matches(lib, q, path)) <==> exists q :: q in added && Fits(lib, q, path)
  {
    forall q ensures Matches(lib, q, path) <==> Fits(lib, q, path) {
      FitsIff(lib, q, path);
    }
  }

  /** Every table that the sort may leave gives that answer. */
  lemma LookupAnswers(lib: Library, rules: seq<Rule>, added: seq<Rule>, request: string)
    requires TableOf(rules, added)
    ensures Answered(lib, added, request, Lookup(lib, rules, request))
  {
    var path := TrimPrefix(request, "/");
    PathIsRight(request);
    PicksHighest(lib, rules, added, request);
    SomeFits(lib, added, path);
    if exists q :: q in added && Matches(lib, q, path) {
      var r :| Top(lib, added, path, r) && Lookup(lib, rules, request) == Ok(MappingOf(lib, r, path));
      TopAnswers(lib, added, path, r);
    } else {
      DirectIsRight(lib, path);
    }
  }

  class PathMapper {
    const lib: Library
    var rules: seq<Rule>
    ghost var added: seq<Rule>

    ghost predicate Valid()
      reads this
    {
      TableOf(rules, added)
    }

    constructor (lib: Library)
      ensures Valid() && added == [] && this.lib == lib
    {
      this.lib := lib;
      rules, added := [], [];
    }

    /** sort.Slice with a comparison by priority: not stable, so any rule of the highest
        remaining priority may come next. */
    method SortRules()
      modifies this`rules
      ensures TableOf(rules, old(rules))
    {
      var rest, sorted := rules, [];
      while rest != []
        invariant SortedSoFar(sorted, rest, rules) && rules == old(rules)
        decreases |rest|
      {
        HighestExists(rest);
        var k :| 0 <= k < |rest| && Highest(rest, k);
        TakeHighest(sorted, rest, rules, k);
        sorted := sorted + [rest[k]];
        rest := rest[..k] + rest[k + 1..];
      }
      rules := sorted;
    }

    method Append(r: Rule)
      requires Valid()
      modifies this`rules, this`added
      ensures Valid() && added == old(added) + [r]
    {
      rules := rules + [r];
      added := added + [r];
      SortRules();
    }

    method AddPrefixRule(prefix: string, repo: string, priority: int)
      requires Valid()
      modifies this`rules, this`added
      ensures Valid() && added == old(added) + [Rule(PrefixRule, prefix, repo, None, priority)]
    {
      Append(Rule(PrefixRule, prefix, repo, None, priority));
    }

    method AddExactRule(exact: string, repo: string, priority: int)
      requires Valid()
      modifies this`rules, this`added
      ensures Valid() && added == old(added) + [Rule(ExactRule, exact, repo, None, priority)]
    {
      Append(Rule(ExactRule, exact, repo, None, priority));
    }

    method AddRegexRule(pattern: string, repo: string, priority: int) returns (error: Option<string>)
      requires Valid()
      modifies this`rules, this`added
      ensures Valid() && (error.None? <==> lib.compiles(pattern))
      ensures added == if error.None? then old(added) + [Rule(RegexRule, pattern, repo, None, priority)] else old(added)
      ensures error.Some? ==> rules == old(rules) && error.value == "invalid pattern " + pattern
    {
      if !lib.compiles(pattern) {
        return Some("invalid pattern " + pattern);
      }
      Append(Rule(RegexRule, pattern, repo, None, priority));
      error := None;
    }

    method AddRewriteRule(pattern: string, repo: string, rewrite: string, priority: int) returns (error: Option<string>)
      requires Valid()
      modifies this`rules, this`added
      ensures Valid() && (error.None? <==> lib.compiles(pattern))
      ensures added ==
        if error.None? then old(added) + [Rule(RegexRule, pattern, repo, Some(rewrite), priority)] else old(added)
      ensures error.Some? ==> rules == old(rules) && error.value == "invalid pattern " + pattern
    {
      if !lib.compiles(pattern) {
        return Some("invalid pattern " + pattern);
      }
      Append(Rule(RegexRule, pattern, repo, Some(rewrite), priority));
      error := None;
    }

    /** Adds exactly the rule the type stands for, or reports an error and changes nothing. */
    method AddRule(ruleType: string, pattern: string, repo: string, priority: int) returns (error: Option<string>)
      requires Valid()
      modifies this`rules, this`added
      ensures Valid()
      ensures error.None? <==>
                ruleType in {"prefix", "exact"} || (ruleType in {"regex", "rewrite"} && lib.compiles(pattern))
      ensures error.Some? ==> added == old(added) && rules == old(rules)
      ensures error.Some? ==> error.value == if ruleType in {"regex", "rewrite"} then "invalid pattern " + pattern
                                             else "unknown rule type: " + ruleType
      ensures error.None? && ruleType == "prefix" ==>
                added == old(added) + [Rule(PrefixRule, pattern, repo, None, priority)]
      ensures error.None? && ruleType == "exact" ==>
                added == old(added) + [Rule(ExactRule, pattern, repo, None, priority)]
      ensures error.None? && ruleType == "regex" ==>
                added == old(added) + [Rule(RegexRule, pattern, repo, None, priority)]
      ensures error.None? && ruleType == "rewrite" ==>
                added == old(added) + [Rule(RegexRule, pattern, repo, Some(pattern), priority)]
    {
      error := None;
      if ruleType == "prefix" {
        AddPrefixRule(pattern, repo, priority);
      } else if ruleType == "exact" {
        AddExactRule(pattern, repo, priority);
      } else if ruleType == "regex" {
        error := AddRegexRule(pattern, repo, priority);
      } else if ruleType == "rewrite" {
        error := AddRewriteRule(pattern, repo, pattern, priority);
      } else {
        error := Some("unknown rule type: " + ruleType);
      }
    }

    method MapPath(request: string) returns (result: Result<Mapping>)
      requires Valid()
      ensures result == Lookup(lib, rules, request) && Answered(lib, added, request, result)
    {
      LookupAnswers(lib, rules, added, request);
      var path := TrimPrefix(request, "/");
      for i := 0 to |rules|
        invariant FirstMatch(lib, rules, path) == FirstMatch(lib, rules[i..], path)
      {
        var rule := rules[i];
        assert rules[i..][0] == rule && rules[i..][1..] == rules[i + 1..];
        if Matches(lib, rule, path) {
          return Ok(MappingOf(lib, rule, path));
        }
      }
      result := DirectMapping(lib, path);
    }
  }

  // ---------------------------------------------------------------- confluence

  /** Puts a rule before all of its own priority. */
  function Insert(r: Rule, rules: seq<Rule>): seq<Rule>
  {
    if rules == [] || rules[0].priority <= r.priority then [r] + rules else [rules[0]] + Insert(r, rules[1..])
  }

  function Sorted(rules: seq<Rule>): seq<Rule>
  {
    if rules == [] then [] else Insert(rules[0], Sorted(rules[1..]))
  }

  lemma {:induction false} InsertAdds(r: Rule, rules: seq<Rule>)
    ensures multiset(Insert(r, rules)) == multiset(rules) + multiset{r}
  {
    if rules != [] && rules[0].priority > r.priority {
      InsertAdds(r, rules[1..]);
      assert rules == [rules[0]] + rules[1..];
    }
  }

  lemma DescendsFrom(first: Rule, rest: seq<Rule>)
    requires Descending(rest) && forall i :: 0 <= i < |rest| ==> rest[i].priority <= first.priority
    ensures Descending([first] + rest)
  {
  }

  lemma {:induction false} InsertDescends(r: Rule, rules: seq<Rule>)
    requires Descending(rules)
    ensures Descending(Insert(r, rules))
  {
    if rules != [] && rules[0].priority > r.priority {
      var rest := Insert(r, rules[1..]);
      InsertDescends(r, rules[1..]);
      InsertAdds(r, rules[1..]);
      SameMembers(rest, rules[1..] + [r]);
      forall i | 0 <= i < |rest| ensures rest[i].priority <= rules[0].priority {
        assert rest[i] in rules[1..] + [r];
      }
      DescendsFrom(rules[0], rest);
    }
  }

  lemma {:induction false} SortedIsTable(rules: seq<Rule>)
    ensures TableOf(Sorted(rules), rules)
  {
    if rules != [] {
      SortedIsTable(rules[1..]);
      InsertAdds(rules[0], Sorted(rules[1..]));
      InsertDescends(rules[0], Sorted(rules[1..]));
      assert rules == [rules[0]] + rules[1..];
    }
  }

  lemma {:induction false} InsertedWins(lib: Library, r: Rule, rules: seq<Rule>, path: string)
    requires Matches(lib, r, path)
    requires forall q :: q in rules && Matches(lib, q, path) ==> q.priority <= r.priority
    ensures FirstMatch(lib, Insert(r, rules), path) == Some(r)
  {
    if rules != [] && rules[0].priority > r.priority {
      assert rules[0] in rules;
      InsertedWins(lib, r, rules[1..], path);
      assert ([rules[0]] + Insert(r, rules[1..]))[1..] == Insert(r, rules[1..]);
    }
  }

  /** Every top rule is the one found in some table the sort may produce. */
  lemma AnyTopCanWin(lib: Library, added: seq<Rule>, path: string, r: Rule) returns (rules: seq<Rule>)
    requires Top(lib, added, path, r)
    ensures TableOf(rules, added) && FirstMatch(lib, rules, path) == Some(r)
  {
    var k :| 0 <= k < |added| && added[k] == r;
    var others := added[..k] + added[k + 1..];
    assert added == added[..k] + [r] + added[k + 1..];
    SortedIsTable(others);
    SameMembers(Sorted(others), others);
    rules := Insert(r, Sorted(others));
    InsertAdds(r, Sorted(others));
    InsertDescends(r, Sorted(others));
    InsertedWins(lib, r, Sorted(others), path);
  }

  /** Whatever the sort did, the answer is the same; TableOf looks at the added rules as a
      multiset, so the order of the additions makes no difference either. */
  ghost predicate Confluent(lib: Library, added: seq<Rule>, request: string)
  {
    forall a, b :: TableOf(a, added) && TableOf(b, added) ==> Lookup(lib, a, request) == Lookup(lib, b, request)
  }

  /** The answer to a request depends on the added rules alone exactly when all matching
      rules of the highest matching priority are one and the same rule. */
  lemma ConfluentIff(lib: Library, added: seq<Rule>, request: string)
    ensures var path := TrimPrefix(request, "/");
            Confluent(lib, added, request)
            <==> forall r, q :: Top(lib, added, path, r) && Top(lib, added, path, q) ==> r == q
  {
    var path := TrimPrefix(request, "/");
    if forall r, q :: Top(lib, added, path, r) && Top(lib, added, path, q) ==> r == q {
      forall a, b | TableOf(a, added) && TableOf(b, added)
        ensures Lookup(lib, a, request) == Lookup(lib, b, request) {
        PicksHighest(lib, a, added, request);
        PicksHighest(lib, b, added, request);
      }
    } else {
      var r, q :| Top(lib, added, path, r) && Top(lib, added, path, q) && r != q;
      var a := AnyTopCanWin(lib, added, path, r);
      var b := AnyTopCanWin(lib, added, path, q);
      assert Lookup(lib, a, request) != Lookup(lib, b, request);
    }
  }

  /** Where the answer sends a request, without the rule that gave it. */
  datatype Place = Place(repository: string, remotePath: string, cachePath: string)

  function PlaceOf(answer: Result<Mapping>): Option<Place>
  {
    if answer.Err? then None
    else Some(Place(answer.value.repository, answer.value.remotePath, answer.value.cachePath))
  }

  ghost predicate ConfluentPlace(lib: Library, added: seq<Rule>, request: string)
  {
    forall a, b :: TableOf(a, added) && TableOf(b, added) ==>
                     PlaceOf(Lookup(lib, a, request)) == PlaceOf(Lookup(lib, b, request))
  }

  /** The rules agree on repository and remote path. */
  predicate SameTarget(lib: Library, r: Rule, q: Rule, path: string)
    requires Matches(lib, r, path) && Matches(lib, q, path)
  {
    RepositoryOf(lib, r, path) == RepositoryOf(lib, q, path) && RemotePathOf(lib, r, path) == RemotePathOf(lib, q, path)
  }

  lemma SamePlaceIff(lib: Library, r: Rule, q: Rule, path: string)
    requires Matches(lib, r, path) && Matches(lib, q, path)
    ensures PlaceOf(Ok(MappingOf(lib, r, path))) == PlaceOf(Ok(MappingOf(lib, q, path)))
       <==> SameTarget(lib, r, q, path)
  {
  }

  /** Repository, remote path and cache path are determined exactly when all matching rules of
      the highest matching priority agree on the first two, different as the rules may be. */
  lemma ConfluentPlaceIff(lib: Library, added: seq<Rule>, request: string)
    ensures var path := TrimPrefix(request, "/");
            ConfluentPlace(lib, added, request)
            <==> forall r, q :: Top(lib, added, path, r) && Top(lib, added, path, q) ==> SameTarget(lib, r, q, path)
  {
    var path := TrimPrefix(request, "/");
    if forall r, q :: Top(lib, added, path, r) && Top(lib, added, path, q) ==> SameTarget(lib, r, q, path) {
      forall a, b | TableOf(a, added) && TableOf(b, added)
        ensures PlaceOf(Lookup(lib, a, request)) == PlaceOf(Lookup(lib, b, request)) {
        PicksHighest(lib, a, added, request);
        PicksHighest(lib, b, added, request);
        if exists q :: q in added && Matches(lib, q, path) {
          var r :| Top(lib, added, path, r) && Lookup(lib, a, request) == Ok(MappingOf(lib, r, path));
          var q :| Top(lib, added, path, q) && Lookup(lib, b, request) == Ok(MappingOf(lib, q, path));
          SamePlaceIff(lib, r, q, path);
        }
      }
    } else {
      var r, q :| Top(lib, added, path, r) && Top(lib, added, path, q) && !SameTarget(lib, r, q, path);
      var a := AnyTopCanWin(lib, added, path, r);
      var b := AnyTopCanWin(lib, added, path, q);
      SamePlaceIff(lib, r, q, path);
      assert Lookup(lib, a, request) == Ok(MappingOf(lib, r, path));
      assert Lookup(lib, b, request) == Ok(MappingOf(lib, q, path));
    }
  }
}
