/**
 From an index file to the prefetch queue: architecture filters and batching in
 internal/backend/prefetcher.go.
 */
module IndexPrefetch {
  import opened Text
  import opened PackageParser

  const PRESSURE_LIMIT: int := 85

  const COMMON_ARCHS := ["amd64", "i386", "arm64", "armhf", "ppc64el", "s390x", "riscv64"]

  predicate ForArch(url: string, arch: string)
  {
    Contains(url, "/binary-" + arch + "/") || Contains(url, "_" + arch + ".deb")
  }

  /** The URL names one of the common architectures. */
  predicate AnyArch(url: string)
  {
    exists i :: 0 <= i < |COMMON_ARCHS| && ForArch(url, COMMON_ARCHS[i])
  }

  /** Wanted with these architectures configured; none configured means all. */
  predicate Wanted(archs: set<string>, url: string)
  {
    archs == {} || !AnyArch(url) || exists a :: a in archs && ForArch(url, a)
  }

  function Select(urls: seq<string>, keep: string -> bool): seq<string>
  {
    if urls == [] then [] else (if keep(urls[0]) then [urls[0]] else []) + Select(urls[1..], keep)
  }

  lemma {:induction false} SelectAppend(a: seq<string>, b: seq<string>, keep: string -> bool)
    ensures Select(a + b, keep) == Select(a, keep) + Select(b, keep)
  {
    if a == [] {
      assert a + b == b;
    } else {
      assert (a + b)[1..] == a[1..] + b;
      SelectAppend(a[1..], b, keep);
    }
  }

  lemma SelectNext(urls: seq<string>, i: nat, keep: string -> bool)
    requires i < |urls|
    ensures Select(urls[..i + 1], keep) == Select(urls[..i], keep) + if keep(urls[i]) then [urls[i]] else []
  {
    assert urls[..i + 1] == urls[..i] + [urls[i]];
    SelectAppend(urls[..i], [urls[i]], keep);
  }

  /** containsAnyArch. */
  method ContainsAnyArch(url: string) returns (any: bool)
    ensures any == AnyArch(url)
  {
    for i := 0 to |COMMON_ARCHS|
      invariant forall k :: 0 <= k < i ==> !ForArch(url, COMMON_ARCHS[k])
    {
      if ForArch(url, COMMON_ARCHS[i]) {
        return true;
      }
    }
    any := false;
  }

  /** filterURLsByArchitecture walks the configured architectures in any order and asks for
      each whether the URL names it or names none: the same URLs are kept in every order. */
  method FilterForPrefetch(archs: set<string>, urls: seq<string>) returns (result: seq<string>)
    ensures result == Select(urls, u => Wanted(archs, u))
  {
    if archs == {} {
      KeepAll(archs, urls);
      return urls;
    }
    result := [];
    ghost var keep := u => Wanted(archs, u);
    for i := 0 to |urls|
      invariant result == Select(urls[..i], keep)
    {
      SelectNext(urls, i, keep);
      var url, rest := urls[i], archs;
      var any := ContainsAnyArch(url);
      while rest != {}
        invariant rest <= archs
        invariant result == Select(urls[..i], keep)
        invariant forall a :: a in archs - rest ==> !ForArch(url, a) && any
        decreases |rest|
      {
        var arch :| arch in rest;
        if ForArch(url, arch) || !any {
          result := result + [url];
          break;
        }
        rest := rest - {arch};
      }
      if rest == {} {
        ghost var a :| a in archs;
        assert a in archs - rest;
      }
    }
    assert urls[..|urls|] == urls;
  }

  lemma {:induction false} KeepAll(archs: set<string>, urls: seq<string>)
    requires archs == {}
    ensures Select(urls, u => Wanted(archs, u)) == urls
  {
    if urls != [] {
      KeepAll(archs, urls[1..]);
    }
  }

  /** FilterURLsByArchitecture, the exported form with two separate questions, keeps the
      same URLs. */
  method FilterURLsByArchitecture(archs: set<string>, urls: seq<string>) returns (result: seq<string>)
    ensures result == Select(urls, u => Wanted(archs, u))
  {
    if archs == {} {
      KeepAll(archs, urls);
      return urls;
    }
    result := [];
    ghost var keep := u => Wanted(archs, u);
    for i := 0 to |urls|
      invariant result == Select(urls[..i], keep)
    {
      SelectNext(urls, i, keep);
      var url, rest, included := urls[i], archs, false;
      while rest != {}
        invariant rest <= archs && !included
        invariant forall a :: a in archs - rest ==> !ForArch(url, a)
        decreases |rest|
      {
        var arch :| arch in rest;
        if ForArch(url, arch) {
          included := true;
          break;
        }
        rest := rest - {arch};
      }
      var any := ContainsAnyArch(url);
      if !any {
        included := true;
      }
      if included {
        result := result + [url];
      }
    }
    assert urls[..|urls|] == urls;
  }

  /** The URL has the directory or the file name of the architecture somewhere. */
  ghost predicate Names(url: string, arch: string)
  {
    exists i: nat :: At(url, "/binary-" + arch + "/", i) || At(url, "_" + arch + ".deb", i)
  }

  lemma ForArchIff(url: string, arch: string)
    ensures ForArch(url, arch) <==> Names(url, arch)
  {
    ContainsIff(url, "/binary-" + arch + "/");
    ContainsIff(url, "_" + arch + ".deb");
  }

  /** A URL is wanted if nothing is configured, if it names a configured architecture, or if
      it names none of the seven common ones. */
  lemma WantedIff(archs: set<string>, url: string)
    ensures Wanted(archs, url) <==>
              || archs == {}
              || (exists a :: a in archs && Names(url, a))
              || !exists a :: a in {"amd64", "i386", "arm64", "armhf", "ppc64el", "s390x", "riscv64"} && Names(url, a)
  {
    forall a: string ensures ForArch(url, a) <==> Names(url, a) {
      ForArchIff(url, a);
    }
    AnyArchIff(url);
  }

  lemma AnyArchIff(url: string)
    ensures AnyArch(url) <==>
              exists a :: a in {"amd64", "i386", "arm64", "armhf", "ppc64el", "s390x", "riscv64"} && ForArch(url, a)
  {
    var common := {"amd64", "i386", "arm64", "armhf", "ppc64el", "s390x", "riscv64"};
    assert forall i :: 0 <= i < |COMMON_ARCHS| ==> COMMON_ARCHS[i] in common;
    assert COMMON_ARCHS[0] == "amd64" && COMMON_ARCHS[1] == "i386" && COMMON_ARCHS[2] == "arm64";
    assert COMMON_ARCHS[3] == "armhf" && COMMON_ARCHS[4] == "ppc64el" && COMMON_ARCHS[5] == "s390x";
    assert COMMON_ARCHS[6] == "riscv64";
  }

  /** With SelectAppend: selecting keeps or drops each URL where it stands. */
  lemma SelectOne(url: string, keep: string -> bool)
    ensures Select([url], keep) == (if keep(url) then [url] else []) && Select([], keep) == []
  {
    assert [url][1..] == [];
  }

  class Feeder {
    var batchSize: int
    const architectures: set<string>

    ghost predicate Valid()
      reads this
    {
      batchSize > 0
    }

    constructor (architectures: set<string>)
      ensures Valid() && batchSize == 5 && this.architectures == architectures
    {
      this.architectures, batchSize := architectures, 5;
    }

    /** Sizes that would stop the batching loop from advancing are ignored. */
    method SetBatchSize(size: int)
      requires Valid()
      modifies this
      ensures Valid() && batchSize == if size > 0 then size else old(batchSize)
    {
      if size > 0 {
        batchSize := size;
      }
    }

    /** The URLs of one batch that are not active when their turn comes. */
    method OfferBatch(urls: seq<string>, start: nat, end: nat, active: (nat, string) -> bool, before: seq<string>)
      returns (offered: seq<string>)
      requires start <= end <= |urls| && before == Idle(urls[..start], active)
      ensures offered == Idle(urls[..end], active)
    {
      offered := before;
      for j := start to end
        invariant offered == Idle(urls[..j], active)
      {
        assert urls[..j + 1][..j] == urls[..j];
        if !active(j, urls[j]) {
          offered := offered + [urls[j]];
        }
      }
    }

    /** Whatever the batch size, every wanted URL of the index is offered to the queue once
        and in order, except those whose bare URL is in the active table when it is looked
        up; `active` answers the look-ups by position. */
    method ProcessIndexFile(data: string, pressure: int, active: (nat, string) -> bool) returns (offered: seq<string>)
      requires Valid()
      ensures offered ==
              if pressure > 85 then []
              else Idle(Select(UrlsOn(Lines(data)), u => Wanted(architectures, u)), active)
    {
      offered := [];
      if pressure > PRESSURE_LIMIT {
        return;
      }
      var urls := ExtractURLsFromIndex(data);
      var filtered := FilterForPrefetch(architectures, urls);
      var i, end := 0, 0;
      while i < |filtered|
        invariant 0 <= i && end == (if i < |filtered| then i else |filtered|)
        invariant offered == Idle(filtered[..end], active)
        decreases |filtered| - i
      {
        end := if i + batchSize < |filtered| then i + batchSize else |filtered|;
        offered := OfferBatch(filtered, i, end, active, offered);
        i := i + batchSize;
      }
      assert filtered[..|filtered|] == filtered;
    }
  }

  /** The URLs not active at their position. */
  function Idle(urls: seq<string>, active: (nat, string) -> bool): seq<string>
    decreases |urls|
  {
    if urls == [] then []
    else
      var n := |urls| - 1;
      Idle(urls[..n], active) + if active(n, urls[n]) then [] else [urls[n]]
  }

  /** Each URL is offered or not by the look-up at its position. */
  lemma IdleNext(urls: seq<string>, url: string, active: (nat, string) -> bool)
    ensures Idle(urls + [url], active) == Idle(urls, active) + if active(|urls|, url) then [] else [url]
  {
    assert (urls + [url])[..|urls|] == urls;
  }

  /** Nothing is offered when all are active, everything when none is. */
  lemma {:induction false} IdleExtremes(urls: seq<string>, active: (nat, string) -> bool)
    ensures (forall i :: 0 <= i < |urls| ==> active(i, urls[i])) ==> Idle(urls, active) == []
    ensures (forall i :: 0 <= i < |urls| ==> !active(i, urls[i])) ==> Idle(urls, active) == urls
    decreases |urls|
  {
    if urls != [] {
      var n := |urls| - 1;
      IdleExtremes(urls[..n], active);
      assert urls == urls[..n] + [urls[n]];
    }
  }
}
