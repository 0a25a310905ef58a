/**
 The index parsers of internal/parser/package_parser.go and the line scanner of
 internal/backend/prefetcher.go. The format is that of Debian control files (Debian Policy
 Manual, section 5.1), without continuation lines.
 */
module PackageParser {
  import opened Options
  import opened Text

  datatype PackageInfo = PackageInfo(
    name: string,
    version: string,
    architecture: string,
    filename: string,
    size: string,
    md5: string,
    sha1: string,
    sha256: string,
    description: string)

  const EMPTY := PackageInfo("", "", "", "", "", "", "", "", "")

  /** The assignment of one field; other keys are ignored. */
  function SetField(p: PackageInfo, key: string, value: string): PackageInfo
  {
    if key == "Package" then p.(name := value)
    else if key == "Version" then p.(version := value)
    else if key == "Architecture" then p.(architecture := value)
    else if key == "Filename" then p.(filename := value)
    else if key == "Size" then p.(size := value)
    else if key == "MD5sum" then p.(md5 := value)
    else if key == "SHA1" then p.(sha1 := value)
    else if key == "SHA256" then p.(sha256 := value)
    else if key == "Description" then p.(description := value)
    else p
  }

  /** What one line does to the stanza it stands in. */
  function SetLine(p: PackageInfo, line: string): PackageInfo
  {
    if ':' in line then
      var i := Find(line, ':');
      assert line[..|line|] == line;
      SetField(p, Trim(line[..i]), Trim(line[i + 1..]))
    else p
  }

  /** ParsePackagesFile ends a stanza at an empty line, ParsePackages at a blank one. */
  datatype Mode = EmptyLine | BlankLine

  predicate Ends(mode: Mode, line: string)
  {
    match mode
    case EmptyLine => line == ""
    case BlankLine => Trim(line) == ""
  }

  /** The packages read and the stanza being read. */
  datatype Progress = Progress(packages: seq<PackageInfo>, pending: Option<PackageInfo>)

  const START := Progress([], None)

  predicate Named(pending: Option<PackageInfo>)
  {
    pending.Some? && pending.value.name != ""
  }

  function Feed(mode: Mode, p: Progress, line: string): Progress
  {
    if Ends(mode, line) then
      if Named(p.pending) then Progress(p.packages + [p.pending.value], None) else p
    else
      p.(pending := Some(SetLine(if p.pending.Some? then p.pending.value else EMPTY, line)))
  }

  function FeedAll(mode: Mode, p: Progress, lines: seq<string>): Progress
    decreases |lines|
  {
    if lines == [] then p else FeedAll(mode, Feed(mode, p, lines[0]), lines[1..])
  }

  function Finish(p: Progress): seq<PackageInfo>
  {
    if Named(p.pending) then p.packages + [p.pending.value] else p.packages
  }

  function ParseLines(mode: Mode, lines: seq<string>): seq<PackageInfo>
  {
    Finish(FeedAll(mode, START, lines))
  }

  function Parse(mode: Mode, text: string): seq<PackageInfo>
  {
    ParseLines(mode, Lines(text))
  }

  lemma FeedFirst(mode: Mode, p: Progress, line: string, rest: seq<string>)
    ensures FeedAll(mode, p, [line] + rest) == FeedAll(mode, Feed(mode, p, line), rest)
  {
    assert ([line] + rest)[1..] == rest;
  }

  method ParsePackagesFile(data: string) returns (packages: seq<PackageInfo>)
    ensures packages == Parse(EmptyLine, data)
  {
    packages := [];
    var pkg: Option<PackageInfo> := None;
    var scanner := new Scanner(data);
    while true
      invariant fresh(scanner)
      invariant FeedAll(EmptyLine, Progress(packages, pkg), Lines(scanner.rest))
          == FeedAll(EmptyLine, START, Lines(data))
      decreases |scanner.rest|
    {
      ghost var before := Progress(packages, pkg);
      var more := scanner.Scan();
      if !more {
        break;
      }
      var line := scanner.text;
      FeedFirst(EmptyLine, before, line, Lines(scanner.rest));
      if line == "" {
        if pkg.Some? && pkg.value.name != "" {
          packages := packages + [pkg.value];
          pkg := None;
        }
        continue;
      }
      if pkg.None? {
        pkg := Some(EMPTY);
      }
      pkg := Some(SetLine(pkg.value, line));
    }
    if pkg.Some? && pkg.value.name != "" {
      packages := packages + [pkg.value];
    }
  }

  method ParsePackages(data: string) returns (packages: seq<PackageInfo>)
    ensures packages == Parse(BlankLine, data)
  {
    packages := [];
    var current: Option<PackageInfo> := None;
    var scanner := new Scanner(data);
    while true
      invariant fresh(scanner)
      invariant FeedAll(BlankLine, Progress(packages, current), Lines(scanner.rest))
          == FeedAll(BlankLine, START, Lines(data))
      decreases |scanner.rest|
    {
      ghost var before := Progress(packages, current);
      var more := scanner.Scan();
      if !more {
        break;
      }
      var line := scanner.text;
      FeedFirst(BlankLine, before, line, Lines(scanner.rest));
      if Trim(line) == "" {
        if current.Some? && current.value.name != "" {
          packages := packages + [current.value];
          current := None;
        }
        continue;
      }
      if current.None? {
        current := Some(EMPTY);
      }
      current := Some(SetLine(current.value, line));
    }
    if current.Some? && current.value.name != "" {
      packages := packages + [current.value];
    }
  }

  // ---------------------------------------------------------------- URLs

  /** The non-empty Filename fields, in order. */
  function Filenames(packages: seq<PackageInfo>): seq<string>
  {
    if packages == [] then []
    else (if packages[0].filename != "" then [packages[0].filename] else []) + Filenames(packages[1..])
  }

  /** The paths below the repository. */
  function Prefixed(repo: string, names: seq<string>): (urls: seq<string>)
    ensures |urls| == |names| && forall i :: 0 <= i < |names| ==> urls[i] == "/" + repo + "/" + names[i]
  {
    seq(|names|, i requires 0 <= i < |names| => "/" + repo + "/" + names[i])
  }

  lemma {:induction false} FilenamesAppend(a: seq<PackageInfo>, b: seq<PackageInfo>)
    ensures Filenames(a + b) == Filenames(a) + Filenames(b)
  {
    if a == [] {
      assert a + b == b;
    } else {
      assert (a + b)[1..] == a[1..] + b;
      FilenamesAppend(a[1..], b);
    }
  }

  method ExtractPackageURLs(repo: string, data: string) returns (urls: seq<string>)
    ensures urls == Prefixed(repo, Filenames(Parse(EmptyLine, data)))
  {
    var packages := ParsePackagesFile(data);
    urls := [];
    for i := 0 to |packages|
      invariant urls == Prefixed(repo, Filenames(packages[..i]))
    {
      var pkg := packages[i];
      assert packages[..i + 1] == packages[..i] + [pkg];
      FilenamesAppend(packages[..i], [pkg]);
      if pkg.filename != "" {
        urls := urls + ["/" + repo + "/" + pkg.filename];
      }
    }
    assert packages[..|packages|] == packages;
  }

  const FILENAME_PREFIX := "Filename: "

  /** The URL on a line, if there is one. */
  function UrlOn(line: string): seq<string>
  {
    if FILENAME_PREFIX <= line then
      var url := Trim(line[|FILENAME_PREFIX|..]);
      if url != "" then [url] else []
    else []
  }

  function UrlsOn(lines: seq<string>): seq<string>
  {
    if lines == [] then [] else UrlOn(lines[0]) + UrlsOn(lines[1..])
  }

  /** extractURLsFromIndexEfficient. */
  method ExtractURLsFromIndex(data: string) returns (urls: seq<string>)
    ensures urls == UrlsOn(Lines(data))
  {
    urls := [];
    var scanner := new Scanner(data);
    while true
      invariant fresh(scanner)
      invariant urls + UrlsOn(Lines(scanner.rest)) == UrlsOn(Lines(data))
      decreases |scanner.rest|
    {
      ghost var lines := Lines(scanner.rest);
      var more := scanner.Scan();
      if !more {
        break;
      }
      var line := scanner.text;
      assert lines[1..] == Lines(scanner.rest);
      ghost var before := urls;
      if FILENAME_PREFIX <= line {
        var url := Trim(line[|FILENAME_PREFIX|..]);
        if url != "" {
          urls := urls + [url];
        }
      }
      assert urls == before + UrlOn(line);
      Associate(before, UrlOn(line), UrlsOn(Lines(scanner.rest)));
    }
  }

  // ---------------------------------------------------------------- the in-memory index

  /** The packages of one name, in order. */
  function Called(packages: seq<PackageInfo>, name: string): seq<PackageInfo>
  {
    if packages == [] then []
    else (if packages[0].name == name then [packages[0]] else []) + Called(packages[1..], name)
  }

  lemma {:induction false} CalledAppend(a: seq<PackageInfo>, b: seq<PackageInfo>, name: string)
    ensures Called(a + b, name) == Called(a, name) + Called(b, name)
  {
    if a == [] {
      assert a + b == b;
    } else {
      assert (a + b)[1..] == a[1..] + b;
      CalledAppend(a[1..], b, name);
    }
  }

  function Bucket(m: map<string, seq<PackageInfo>>, name: string): seq<PackageInfo>
  {
    if name in m then m[name] else []
  }

  class PackageIndex {
    var packages: map<string, seq<PackageInfo>>

    constructor ()
      ensures packages == map[]
    {
      packages := map[];
    }

    method AddPackage(pkg: PackageInfo)
      modifies this
      ensures forall name :: Bucket(packages, name) == Bucket(old(packages), name) + Called([pkg], name)
      ensures packages.Keys == old(packages).Keys + {pkg.name}
    {
      var bucket := if pkg.name in packages then packages[pkg.name] else [];
      packages := packages[pkg.name := bucket + [pkg]];
    }
  }

  /** The index groups what was parsed by name and keeps its order. */
  method ParsePackagesFileWithIndex(data: string, index: PackageIndex) returns (packages: seq<PackageInfo>)
    modifies index
    ensures packages == Parse(EmptyLine, data)
    ensures forall name :: Bucket(index.packages, name) == Bucket(old(index.packages), name) + Called(packages, name)
  {
    packages := ParsePackagesFile(data);
    for i := 0 to |packages|
      invariant forall name ::
        Bucket(index.packages, name) == Bucket(old(index.packages), name) + Called(packages[..i], name)
    {
      assert packages[..i + 1] == packages[..i] + [packages[i]];
      ghost var before := index.packages;
      index.AddPackage(packages[i]);
      forall name: string
        ensures Bucket(index.packages, name) == Bucket(old(index.packages), name) + Called(packages[..i + 1], name) {
        CalledAppend(packages[..i], [packages[i]], name);
        Associate(Bucket(old(index.packages), name), Called(packages[..i], name), Called([packages[i]], name));
      }
    }
    assert packages[..|packages|] == packages;
  }
}
