/** What the index parsers promise: printing and parsing, joining files, and agreement. */
module PackageParserTheorems {
  import opened Options
  import opened Text
  import opened PackageParser

  lemma {:induction false} FeedAllAppend(mode: Mode, p: Progress, a: seq<string>, b: seq<string>)
    ensures FeedAll(mode, p, a + b) == FeedAll(mode, FeedAll(mode, p, a), b)
    decreases |a|
  {
    if a == [] {
      assert a + b == b;
    } else {
      assert (a + b)[1..] == a[1..] + b;
      FeedAllAppend(mode, Feed(mode, p, a[0]), a[1..], b);
    }
  }

  /** Packages already read do not influence what follows. */
  lemma {:induction false} EarlierPackages(mode: Mode, packages: seq<PackageInfo>, p: Progress, lines: seq<string>)
    ensures var q := FeedAll(mode, p, lines);
            FeedAll(mode, Progress(packages + p.packages, p.pending), lines)
                == Progress(packages + q.packages, q.pending)
    decreases |lines|
  {
    if lines != [] {
      var next := Feed(mode, p, lines[0]);
      if Ends(mode, lines[0]) && Named(p.pending) {
        Associate(packages, p.packages, [p.pending.value]);
      }
      EarlierPackages(mode, packages, next, lines[1..]);
    }
  }

  // ---------------------------------------------------------------- printing and parsing

  /** The fields in printing order. */
  function Key(k: nat): string
    requires k < 9
  {
    ["Package", "Version", "Architecture", "Filename", "Size", "MD5sum", "SHA1", "SHA256", "Description"][k]
  }

  function Value(p: PackageInfo, k: nat): string
    requires k < 9
  {
    [p.name, p.version, p.architecture, p.filename, p.size, p.md5, p.sha1, p.sha256, p.description][k]
  }

  function FieldLine(key: string, value: string): string
  {
    key + [':'] + (" " + value)
  }

  /** The lines of a stanza from field k on; empty fields are not printed. */
  function Stanza(p: PackageInfo, k: nat): seq<string>
    requires k <= 9
    decreases 9 - k
  {
    if k == 9 then []
    else (if Value(p, k) != "" then [FieldLine(Key(k), Value(p, k))] else []) + Stanza(p, k + 1)
  }

  function Printed(packages: seq<PackageInfo>): seq<string>
  {
    if packages == [] then [] else Stanza(packages[0], 0) + [""] + Printed(packages[1..])
  }

  /** A Packages file. */
  function Print(packages: seq<PackageInfo>): string
  {
    Unlines(Printed(packages))
  }

  /** Every value is a trimmed single line, and the package has a name. */
  predicate Printable(p: PackageInfo)
  {
    p.name != "" && forall k :: 0 <= k < 9 ==> Trimmed(Value(p, k)) && '\n' !in Value(p, k)
  }

  predicate AllPrintable(packages: seq<PackageInfo>)
  {
    forall i :: 0 <= i < |packages| ==> Printable(packages[i])
  }

  lemma KeyPlain(k: nat)
    requires k < 9
    ensures Trimmed(Key(k)) && Key(k) != "" && ':' !in Key(k) && '\n' !in Key(k)
  {
  }

  lemma FieldLineReads(key: string, value: string)
    requires Trimmed(key) && key != "" && ':' !in key && '\n' !in key
    requires Trimmed(value) && value != "" && '\n' !in value
    ensures OneLine(FieldLine(key, value)) && Trim(FieldLine(key, value)) != ""
    ensures forall p :: SetLine(p, FieldLine(key, value)) == SetField(p, key, value)
  {
    var line := FieldLine(key, value);
    FindAt(key, ':', " " + value);
    assert line[..|key|] == key && line[|key| + 1..] == " " + value;
    TrimTrimmed(key);
    TrimAround(" ", value, "");
    assert " " + value + "" == " " + value;
    assert line[|key|] == ':';
    TrimBlank(line);
    assert !IsSpace(line[0]) by {
      assert line[0] == key[0];
    }
    assert line[|line| - 1] == value[|value| - 1];
  }

  /** The first k fields of a package. */
  function First(p: PackageInfo, k: nat): PackageInfo
  {
    PackageInfo(
      if k > 0 then p.name else "", if k > 1 then p.version else "", if k > 2 then p.architecture else "",
      if k > 3 then p.filename else "", if k > 4 then p.size else "", if k > 5 then p.md5 else "",
      if k > 6 then p.sha1 else "", if k > 7 then p.sha256 else "", if k > 8 then p.description else "")
  }

  lemma FirstGrows(p: PackageInfo, k: nat)
    requires k < 9
    ensures SetField(First(p, k), Key(k), Value(p, k)) == First(p, k + 1)
    ensures Value(p, k) == "" ==> First(p, k) == First(p, k + 1)
  {
  }

  lemma {:induction false} FeedStanza(mode: Mode, packages: seq<PackageInfo>, p: PackageInfo, k: nat)
    requires Printable(p) && k <= 9
    ensures FeedAll(mode, Progress(packages, Some(First(p, k))), Stanza(p, k)) == Progress(packages, Some(p))
    decreases 9 - k
  {
    if k < 9 {
      FirstGrows(p, k);
      FeedStanza(mode, packages, p, k + 1);
      if Value(p, k) != "" {
        KeyPlain(k);
        FieldLineReads(Key(k), Value(p, k));
        TrimBlank("");
        FeedFirst(mode, Progress(packages, Some(First(p, k))), FieldLine(Key(k), Value(p, k)), Stanza(p, k + 1));
      } else {
        assert [] + Stanza(p, k + 1) == Stanza(p, k + 1);
      }
    }
  }

  lemma FeedPrinted(mode: Mode, packages: seq<PackageInfo>, p: PackageInfo)
    requires Printable(p)
    ensures FeedAll(mode, Progress(packages, None), Stanza(p, 0) + [""]) == Progress(packages + [p], None)
  {
    var start := Progress(packages, None);
    KeyPlain(0);
    FieldLineReads(Key(0), Value(p, 0));
    FirstGrows(p, 0);
    assert First(p, 0) == EMPTY;
    var line := FieldLine(Key(0), Value(p, 0));
    assert Feed(mode, start, line) == Progress(packages, Some(First(p, 1)));
    assert Stanza(p, 0) == [line] + Stanza(p, 1);
    FeedFirst(mode, start, line, Stanza(p, 1));
    FeedStanza(mode, packages, p, 1);
    FeedAllAppend(mode, start, Stanza(p, 0), [""]);
    FeedFirst(mode, Progress(packages, Some(p)), "", []);
    assert [""] + [] == [""];
  }

  lemma EarlierPackage(mode: Mode, p: PackageInfo, lines: seq<string>, rest: seq<PackageInfo>)
    requires FeedAll(mode, START, lines) == Progress(rest, None)
    ensures FeedAll(mode, Progress([p], None), lines) == Progress([p] + rest, None)
  {
    EarlierPackages(mode, [p], START, lines);
    assert [p] + [] == [p];
  }

  lemma {:induction false} ParsePrinted(mode: Mode, packages: seq<PackageInfo>)
    requires AllPrintable(packages)
    ensures FeedAll(mode, START, Printed(packages)) == Progress(packages, None)
  {
    if packages != [] {
      var p, rest := packages[0], packages[1..];
      FeedPrinted(mode, [], p);
      assert [] + [p] == [p];
      FeedAllAppend(mode, START, Stanza(p, 0) + [""], Printed(rest));
      ParsePrinted(mode, rest);
      EarlierPackage(mode, p, Printed(rest), rest);
      assert [p] + rest == packages;
    }
  }

  lemma {:induction false} StanzaOneLine(p: PackageInfo, k: nat)
    requires Printable(p) && k <= 9
    ensures forall i :: 0 <= i < |Stanza(p, k)| ==> OneLine(Stanza(p, k)[i])
    decreases 9 - k
  {
    if k < 9 {
      StanzaOneLine(p, k + 1);
      KeyPlain(k);
      if Value(p, k) != "" {
        FieldLineReads(Key(k), Value(p, k));
      }
    }
  }

  lemma {:induction false} PrintedOneLine(packages: seq<PackageInfo>)
    requires AllPrintable(packages)
    ensures forall i :: 0 <= i < |Printed(packages)| ==> OneLine(Printed(packages)[i])
  {
    if packages != [] {
      StanzaOneLine(packages[0], 0);
      PrintedOneLine(packages[1..]);
    }
  }

  /** Either parser reads back exactly the packages that were printed. */
  lemma RoundTrip(mode: Mode, packages: seq<PackageInfo>)
    requires AllPrintable(packages)
    ensures Parse(mode, Print(packages)) == packages
  {
    PrintedOneLine(packages);
    LinesUnlines(Printed(packages));
    ParsePrinted(mode, packages);
  }

  // ---------------------------------------------------------------- the line scanner

  lemma {:induction false} UrlsAppend(a: seq<string>, b: seq<string>)
    ensures UrlsOn(a + b) == UrlsOn(a) + UrlsOn(b)
  {
    if a == [] {
      assert a + b == b;
    } else {
      assert (a + b)[1..] == a[1..] + b;
      UrlsAppend(a[1..], b);
    }
  }

  lemma UrlOnField(k: nat, value: string)
    requires k < 9 && Trimmed(value) && value != ""
    ensures UrlOn(FieldLine(Key(k), value)) == if k == 3 then [value] else []
  {
    var line := FieldLine(Key(k), value);
    if k == 3 {
      assert line[..10] == FILENAME_PREFIX && line[10..] == value;
      TrimTrimmed(value);
    } else {
      assert line[0] == Key(k)[0] && FILENAME_PREFIX[0] == 'F';
    }
  }

  lemma UrlsFirst(line: string, rest: seq<string>)
    ensures UrlsOn([line] + rest) == UrlOn(line) + UrlsOn(rest)
  {
    assert ([line] + rest)[1..] == rest;
  }

  lemma UrlsOnField(p: PackageInfo, k: nat)
    requires Printable(p) && k < 9 && Value(p, k) != ""
    ensures UrlsOn(Stanza(p, k)) == (if k == 3 then [p.filename] else []) + UrlsOn(Stanza(p, k + 1))
  {
    UrlOnField(k, Value(p, k));
    UrlsFirst(FieldLine(Key(k), Value(p, k)), Stanza(p, k + 1));
  }

  lemma {:induction false} UrlsOnStanza(p: PackageInfo, k: nat)
    requires Printable(p) && k <= 9
    ensures UrlsOn(Stanza(p, k)) == if k <= 3 && p.filename != "" then [p.filename] else []
    decreases 9 - k
  {
    if k < 9 {
      UrlsOnStanza(p, k + 1);
      if Value(p, k) != "" {
        UrlsOnField(p, k);
      } else {
        assert Stanza(p, k) == [] + Stanza(p, k + 1) == Stanza(p, k + 1);
      }
    }
  }

  lemma UrlsOnEntry(p: PackageInfo)
    requires Printable(p)
    ensures UrlsOn(Stanza(p, 0) + [""]) == Filenames([p])
  {
    UrlsOnStanza(p, 0);
    UrlsAppend(Stanza(p, 0), [""]);
    UrlsOnEmptyLine();
  }

  lemma UrlsOnEmptyLine()
    ensures UrlsOn([""]) == []
  {
    assert UrlOn("") == [];
  }

  lemma {:induction false} UrlsOnPrinted(packages: seq<PackageInfo>)
    requires AllPrintable(packages)
    ensures UrlsOn(Printed(packages)) == Filenames(packages)
  {
    if packages != [] {
      var p, rest := packages[0], packages[1..];
      UrlsOnEntry(p);
      UrlsAppend(Stanza(p, 0) + [""], Printed(rest));
      UrlsOnPrinted(rest);
      FilenamesAppend([p], rest);
      assert [p] + rest == packages;
    }
  }

  /** On a printed file the line scanner finds the non-empty Filename fields of the parsed
      packages, in order, and ExtractPackageURLs gives those below the repository. */
  lemma FastExtractionAgrees(repo: string, packages: seq<PackageInfo>)
    requires AllPrintable(packages)
    ensures UrlsOn(Lines(Print(packages))) == Filenames(packages)
    ensures Prefixed(repo, Filenames(Parse(EmptyLine, Print(packages))))
        == Prefixed(repo, UrlsOn(Lines(Print(packages))))
  {
    RoundTrip(EmptyLine, packages);
    PrintedOneLine(packages);
    LinesUnlines(Printed(packages));
    UrlsOnPrinted(packages);
  }

  // ---------------------------------------------------------------- the line scanner on any text

  /** The line sets the field of this key. */
  predicate Sets(line: string, key: string)
  {
    ':' in line && Trim(line[..Find(line, ':')]) == key
  }

  lemma ColonFound(line: string)
    requires ':' in line
    ensures Find(line, ':') < |line|
  {
    assert line[..|line|] == line;
  }

  function ValueOn(line: string): string
    requires ':' in line
  {
    ColonFound(line);
    Trim(line[Find(line, ':') + 1..])
  }

  /** A line with a colon sets the field of its trimmed key to its trimmed value, whatever the
      field held, and no other field. */
  lemma SetLineMeans(p: PackageInfo, line: string)
    ensures ':' !in line ==> SetLine(p, line) == p
    ensures ':' in line ==>
              var (q, key, value) := (SetLine(p, line), Trim(line[..Find(line, ':')]), ValueOn(line));
              && q.name == (if key == "Package" then value else p.name)
              && q.version == (if key == "Version" then value else p.version)
              && q.architecture == (if key == "Architecture" then value else p.architecture)
              && q.filename == (if key == "Filename" then value else p.filename)
              && q.size == (if key == "Size" then value else p.size)
              && q.md5 == (if key == "MD5sum" then value else p.md5)
              && q.sha1 == (if key == "SHA1" then value else p.sha1)
              && q.sha256 == (if key == "SHA256" then value else p.sha256)
              && q.description == (if key == "Description" then value else p.description)
  {
    KeysDiffer();
    if ':' in line {
      ColonFound(line);
    }
  }

  lemma KeysDiffer()
    ensures forall i, j :: 0 <= i < j < 9 ==> Key(i) != Key(j)
  {
    forall i, j | 0 <= i < j < 9 ensures Key(i) != Key(j) {
      assert |Key(i)| != |Key(j)| || Key(i)[0] != Key(j)[0] || Key(i)[|Key(i)| - 1] != Key(j)[|Key(j)| - 1];
    }
  }

  /** An empty line ends a stanza for ParsePackagesFile, any blank line for ParsePackages; a
      stanza that has its Package is then a package, and any other is read on. */
  lemma FeedMeans(p: Progress, line: string)
    ensures Feed(EmptyLine, p, line) == if line == "" then Closed(p) else Extended(p, line)
    ensures Feed(BlankLine, p, line) == if AllSpaces(line) then Closed(p) else Extended(p, line)
  {
    TrimBlank(line);
  }

  function Closed(p: Progress): Progress
  {
    if p.pending.Some? && p.pending.value.name != "" then Progress(p.packages + [p.pending.value], None) else p
  }

  function Extended(p: Progress, line: string): Progress
  {
    Progress(p.packages, Some(SetLine(if p.pending.Some? then p.pending.value else EMPTY, line)))
  }

  /** With CalledAppend: a package is called by its name and by no other. */
  lemma CalledOne(p: PackageInfo, name: string)
    ensures Called([p], name) == (if p.name == name then [p] else []) && Called([], name) == []
  {
    assert [p][1..] == [];
  }

  /** Likewise the file names of packages: one that is empty is left out. */
  lemma FilenamesOne(p: PackageInfo)
    ensures Filenames([p]) == (if p.filename == "" then [] else [p.filename]) && Filenames([]) == []
  {
    assert [p][1..] == [];
  }

  /** At the end of the text an open stanza counts if it has its Package. */
  lemma FinishMeans(p: Progress)
    ensures Finish(p) == Closed(p).packages
  {
  }

  /** What a line makes of the two fields that matter. */
  lemma SetLineFields(p: PackageInfo, line: string)
    ensures SetLine(p, line).filename == if Sets(line, "Filename") then ValueOn(line) else p.filename
    ensures SetLine(p, line).name == if Sets(line, "Package") then ValueOn(line) else p.name
  {
    if ':' in line {
      ColonFound(line);
      var key := Trim(line[..Find(line, ':')]);
      assert key == "Filename" ==> key[0] != "Package"[0];
    }
  }

  /** The line scanner sees the Filename lines that are written plainly. */
  lemma UrlOnLine(line: string)
    ensures FILENAME_PREFIX <= line ==> Sets(line, "Filename")
    ensures UrlOn(line) == if FILENAME_PREFIX <= line && ValueOn(line) != "" then [ValueOn(line)] else []
  {
    if FILENAME_PREFIX <= line {
      var rest := line[|FILENAME_PREFIX|..];
      assert line == "Filename" + [':'] + (" " + rest);
      FindAt("Filename", ':', " " + rest);
      assert line[..8] == "Filename" && line[9..] == " " + rest && (" " + rest)[1..] == rest;
      TrimTrimmed("Filename");
    }
  }

  function FilenameOf(pending: Option<PackageInfo>): string
  {
    if pending.Some? then pending.value.filename else ""
  }

  /** In this stanza the parser and the line scanner make the same of the line. Of a Filename
      line with a value: before the Package the scanner must miss it, behind it must see it,
      and a second one may only repeat the first where the scanner does not look. Behind a
      Filename no Package line may give the stanza its name, or take it. */
  predicate Plain(mode: Mode, pending: Option<PackageInfo>, line: string)
  {
    Ends(mode, line)
    || ((Sets(line, "Filename") ==>
           if !Named(pending) then ValueOn(line) == "" || !(FILENAME_PREFIX <= line)
           else if FilenameOf(pending) == "" then ValueOn(line) == "" || FILENAME_PREFIX <= line
           else ValueOn(line) == FilenameOf(pending) && !(FILENAME_PREFIX <= line))
        && (Sets(line, "Package") ==>
              FilenameOf(pending) == "" || (Named(pending) <==> ValueOn(line) != "")))
  }

  /** The file names of the packages if the text ended here. */
  function Names(p: Progress): seq<string>
  {
    Filenames(Finish(p))
  }

  function Last(pending: Option<PackageInfo>): seq<string>
  {
    if Named(pending) && pending.value.filename != "" then [pending.value.filename] else []
  }

  lemma NamesLast(p: Progress)
    ensures Names(p) == Filenames(p.packages) + Last(p.pending)
  {
    if Named(p.pending) {
      FilenamesAppend(p.packages, [p.pending.value]);
      assert Filenames([p.pending.value]) == Last(p.pending);
    }
  }

  lemma Cancel<T>(a: seq<T>, x: seq<T>, y: seq<T>)
    ensures a + x == a + y <==> x == y
  {
    assert (a + x)[|a|..] == x && (a + y)[|a|..] == y;
  }

  lemma EndMarksNothing(mode: Mode, line: string)
    requires Ends(mode, line)
    ensures UrlOn(line) == []
  {
    TrimBlank(line);
    assert FILENAME_PREFIX <= line ==> !IsSpace(line[0]);
  }

  lemma FeedKeepsNames(mode: Mode, p: Progress, line: string)
    requires Ends(mode, line)
    ensures Names(Feed(mode, p, line)) == Names(p)
  {
    NamesLast(p);
    NamesLast(Feed(mode, p, line));
    if Named(p.pending) {
      FilenamesAppend(p.packages, [p.pending.value]);
      assert Filenames([p.pending.value]) == Last(p.pending);
    }
  }

  lemma FieldMatters(mode: Mode, p: Progress, line: string)
    requires !Ends(mode, line)
    ensures Last(Feed(mode, p, line).pending) == Last(p.pending) + UrlOn(line) <==> Plain(mode, p.pending, line)
  {
    SetLineFields(if p.pending.Some? then p.pending.value else EMPTY, line);
    UrlOnLine(line);
    assert "Filename"[0] != "Package"[0];
  }

  lemma LineMatters(mode: Mode, p: Progress, line: string)
    ensures Names(Feed(mode, p, line)) == Names(p) + UrlOn(line) <==> Plain(mode, p.pending, line)
  {
    if Ends(mode, line) {
      EndMarksNothing(mode, line);
      FeedKeepsNames(mode, p, line);
      assert Names(p) + [] == Names(p);
    } else {
      var q := Feed(mode, p, line);
      NamesLast(p);
      NamesLast(q);
      FieldMatters(mode, p, line);
      Associate(Filenames(p.packages), Last(p.pending), UrlOn(line));
      Cancel(Filenames(p.packages), Last(q.pending), Last(p.pending) + UrlOn(line));
    }
  }

  /** Scanner and parser agree on the first n lines. */
  predicate AgreeOn(mode: Mode, lines: seq<string>, n: nat)
    requires n <= |lines|
  {
    UrlsOn(lines[..n]) == Filenames(ParseLines(mode, lines[..n]))
  }

  predicate PlainAt(mode: Mode, lines: seq<string>, n: nat)
    requires n < |lines|
  {
    Plain(mode, FeedAll(mode, START, lines[..n]).pending, lines[n])
  }

  lemma AgreeNext(mode: Mode, lines: seq<string>, n: nat)
    requires n < |lines| && AgreeOn(mode, lines, n)
    ensures AgreeOn(mode, lines, n + 1) <==> PlainAt(mode, lines, n)
  {
    var p := FeedAll(mode, START, lines[..n]);
    assert lines[..n + 1] == lines[..n] + [lines[n]];
    FeedAllAppend(mode, START, lines[..n], [lines[n]]);
    assert FeedAll(mode, p, [lines[n]]) == Feed(mode, p, lines[n]);
    UrlsAppend(lines[..n], [lines[n]]);
    assert UrlsOn([lines[n]]) == UrlOn(lines[n]) + [] == UrlOn(lines[n]);
    LineMatters(mode, p, lines[n]);
  }

  lemma {:induction false} AgreeUpTo(mode: Mode, lines: seq<string>, n: nat)
    requires n <= |lines| && forall k :: 0 <= k < n ==> PlainAt(mode, lines, k)
    ensures AgreeOn(mode, lines, n)
  {
    if n > 0 {
      AgreeUpTo(mode, lines, n - 1);
      AgreeNext(mode, lines, n - 1);
    } else {
      assert lines[..0] == [];
    }
  }

  /** On any text, the line scanner finds the Filename fields of the parsed packages, in the
      text and in each beginning of it, exactly if every line is plain in its stanza. */
  lemma FastExtractionIff(mode: Mode, data: string)
    ensures var lines := Lines(data);
            (forall n :: 0 <= n <= |lines| ==> AgreeOn(mode, lines, n))
            <==> forall n :: 0 <= n < |lines| ==> PlainAt(mode, lines, n)
  {
    var lines := Lines(data);
    if forall n :: 0 <= n <= |lines| ==> AgreeOn(mode, lines, n) {
      forall n | 0 <= n < |lines| ensures PlainAt(mode, lines, n) {
        assert AgreeOn(mode, lines, n + 1);
        AgreeNext(mode, lines, n);
      }
    }
    if forall n :: 0 <= n < |lines| ==> PlainAt(mode, lines, n) {
      forall n | 0 <= n <= |lines| ensures AgreeOn(mode, lines, n) {
        AgreeUpTo(mode, lines, n);
      }
    }
  }

  /** So on a text of plain lines the fast extraction and the full parse give the same URLs. */
  lemma PlainTextAgrees(repo: string, data: string)
    requires forall n :: 0 <= n < |Lines(data)| ==> PlainAt(EmptyLine, Lines(data), n)
    ensures Prefixed(repo, UrlsOn(Lines(data))) == Prefixed(repo, Filenames(Parse(EmptyLine, data)))
  {
    var lines := Lines(data);
    AgreeUpTo(EmptyLine, lines, |lines|);
    assert lines[..|lines|] == lines;
  }

  // ---------------------------------------------------------------- joining files

  /** An unnamed stanza with no field set reads on like none at all. */
  predicate Blank(pending: Option<PackageInfo>)
  {
    pending.None? || pending.value == EMPTY
  }

  lemma {:induction false} BlankIsNone(mode: Mode, packages: seq<PackageInfo>, lines: seq<string>)
    ensures Finish(FeedAll(mode, Progress(packages, Some(EMPTY)), lines))
        == Finish(FeedAll(mode, Progress(packages, None), lines))
    decreases |lines|
  {
    if lines != [] {
      if Ends(mode, lines[0]) {
        BlankIsNone(mode, packages, lines[1..]);
      } else {
        assert Feed(mode, Progress(packages, Some(EMPTY)), lines[0]) == Feed(mode, Progress(packages, None), lines[0]);
      }
    }
  }

  /** Reading on from a blank stanza is reading from the start. */
  lemma ReadOn(mode: Mode, p: Progress, lines: seq<string>)
    requires Blank(p.pending)
    ensures Finish(FeedAll(mode, p, lines)) == p.packages + ParseLines(mode, lines)
  {
    EarlierPackages(mode, p.packages, START, lines);
    assert p.packages + [] == p.packages;
    BlankIsNone(mode, p.packages, lines);
    var q := FeedAll(mode, START, lines);
    if Named(q.pending) {
      Associate(p.packages, q.packages, [q.pending.value]);
    }
  }

  /** What the text leaves unfinished. */
  function Left(mode: Mode, text: string): Progress
  {
    FeedAll(mode, START, Lines(text))
  }

  const NEXT := "Package: x"

  lemma NextLine()
    ensures Lines(NEXT) == [NEXT]
  {
    var c: char := '\n';
    assert c !in NEXT;
    assert NEXT[..Find(NEXT, c)] == NEXT;
  }

  lemma NextReads(mode: Mode, p: Progress)
    ensures Finish(FeedAll(mode, p, [NEXT]))
         == p.packages + [(if p.pending.Some? then p.pending.value else EMPTY).(name := "x")]
  {
    KeyPlain(0);
    assert NEXT == FieldLine(Key(0), "x");
    FieldLineReads(Key(0), "x");
    assert !Ends(mode, NEXT);
    FeedFirst(mode, p, NEXT, []);
    assert [NEXT] + [] == [NEXT];
  }

  lemma Join(mode: Mode, a: string, b: string)
    requires Terminated(a)
    ensures Parse(mode, a + b) == Finish(FeedAll(mode, Left(mode, a), Lines(b)))
  {
    LinesAppend(a, b);
    FeedAllAppend(mode, START, Lines(a), Lines(b));
  }

  lemma JoinFails(mode: Mode, a: string)
    requires Terminated(a) && !Blank(Left(mode, a).pending)
    ensures Parse(mode, a + NEXT) != Parse(mode, a) + Parse(mode, NEXT)
  {
    var p := Left(mode, a);
    Join(mode, a, NEXT);
    NextLine();
    NextReads(mode, p);
    NextReads(mode, START);
    assert [] + [EMPTY.(name := "x")] == [EMPTY.(name := "x")];
    Differ(p.packages, p.pending.value);
  }

  /** Two files joined with nothing between parse to their packages one after the other, for
      every second file, exactly when the first leaves no stanza with anything in it. */
  lemma JoinIff(mode: Mode, a: string)
    requires Terminated(a)
    ensures (forall b: string :: Parse(mode, a + b) == Parse(mode, a) + Parse(mode, b))
            <==> Blank(Left(mode, a).pending)
  {
    if Blank(Left(mode, a).pending) {
      forall b: string ensures Parse(mode, a + b) == Parse(mode, a) + Parse(mode, b) {
        Join(mode, a, b);
        ReadOn(mode, Left(mode, a), Lines(b));
        BlankFinishes(Left(mode, a));
      }
    } else {
      JoinFails(mode, a);
    }
  }

  lemma BlankFinishes(p: Progress)
    requires Blank(p.pending)
    ensures Finish(p) == p.packages
  {
  }

  lemma Differ(packages: seq<PackageInfo>, left: PackageInfo)
    requires left != EMPTY
    ensures left.name != "" ==>
              packages + [left.(name := "x")] != (packages + [left]) + [EMPTY.(name := "x")]
    ensures left.name == "" ==> packages + [left.(name := "x")] != packages + [EMPTY.(name := "x")]
  {
    var n := |packages|;
    if left.name == "" {
      assert (packages + [left.(name := "x")])[n] != (packages + [EMPTY.(name := "x")])[n];
    } else {
      assert |packages + [left.(name := "x")]| == n + 1;
    }
  }

  /** With an empty line between, it is enough that the first file's last stanza has a
      Package; a stanza that has fields but no Package bleeds into the next file. */
  lemma JoinSeparatedIff(mode: Mode, a: string)
    requires Terminated(a)
    ensures (forall b: string :: Parse(mode, a + ['\n'] + b) == Parse(mode, a) + Parse(mode, b))
       <==> (Named(Left(mode, a).pending) || Blank(Left(mode, a).pending))
  {
    var joined := a + ['\n'];
    Separator(mode, a);
    JoinIff(mode, joined);
    forall b: string ensures a + ['\n'] + b == joined + b {
    }
  }

  lemma Separator(mode: Mode, a: string)
    requires Terminated(a)
    ensures var p, q := Left(mode, a), Left(mode, a + ['\n']);
            q == (if Named(p.pending) then Progress(p.packages + [p.pending.value], None) else p)
            && Parse(mode, a + ['\n']) == Parse(mode, a)
  {
    LinesStep("", "");
    assert "" + ['\n'] + "" == ['\n'];
    LinesAppend(a, ['\n']);
    FeedAllAppend(mode, START, Lines(a), [""]);
    FeedFirst(mode, Left(mode, a), "", []);
    assert [""] + [] == [""];
    TrimBlank("");
  }

  // ---------------------------------------------------------------- the two parsers

  /** Not empty, but nothing on it. */
  predicate OnlySpaces(line: string)
  {
    line != "" && AllSpaces(line)
  }

  /** A line of white space stands inside a stanza that has its Package. */
  predicate SplitInside(p: Progress, lines: seq<string>)
    decreases |lines|
  {
    lines != [] && ((OnlySpaces(lines[0]) && Named(p.pending)) || SplitInside(Feed(EmptyLine, p, lines[0]), lines[1..]))
  }

  /** Up to an unnamed empty stanza, the states of the two parsers. */
  predicate SameState(p: Progress, q: Progress)
  {
    p.packages == q.packages && (p.pending == q.pending || (Blank(p.pending) && Blank(q.pending)))
  }

  lemma SpacesSetNothing(line: string)
    requires AllSpaces(line)
    ensures Trim(line) == "" && forall p :: SetLine(p, line) == p
  {
    TrimBlank(line);
    assert !IsSpace(':');
  }

  lemma FeedSame(p: Progress, q: Progress, line: string)
    requires SameState(p, q) && !(OnlySpaces(line) && Named(p.pending))
    ensures SameState(Feed(EmptyLine, p, line), Feed(BlankLine, q, line))
  {
    TrimBlank(line);
    if OnlySpaces(line) {
      SpacesSetNothing(line);
    }
  }

  lemma {:induction false} FeedAllSame(p: Progress, q: Progress, lines: seq<string>)
    requires SameState(p, q) && !SplitInside(p, lines)
    ensures SameState(FeedAll(EmptyLine, p, lines), FeedAll(BlankLine, q, lines))
    decreases |lines|
  {
    if lines != [] {
      FeedSame(p, q, lines[0]);
      FeedAllSame(Feed(EmptyLine, p, lines[0]), Feed(BlankLine, q, lines[0]), lines[1..]);
    }
  }

  /** The two parsers agree on every file in which no line of white space stands inside a
      stanza that has its Package. */
  lemma ParsersAgree(text: string)
    requires !SplitInside(START, Lines(text))
    ensures Parse(EmptyLine, text) == Parse(BlankLine, text)
  {
    FeedAllSame(START, START, Lines(text));
  }

  lemma {:induction false} NoWhiteSpaceLines(p: Progress, lines: seq<string>)
    requires forall i :: 0 <= i < |lines| ==> !OnlySpaces(lines[i])
    ensures !SplitInside(p, lines)
    decreases |lines|
  {
    if lines != [] {
      NoWhiteSpaceLines(Feed(EmptyLine, p, lines[0]), lines[1..]);
    }
  }

  lemma Continued(mode: Mode, lines: seq<string>, line: string, more: seq<string>)
    ensures ParseLines(mode, lines + [line] + more)
        == Finish(FeedAll(mode, Feed(mode, FeedAll(mode, START, lines), line), more))
  {
    FeedAllAppend(mode, START, lines + [line], more);
    FeedAllAppend(mode, START, lines, [line]);
    FeedFirst(mode, FeedAll(mode, START, lines), line, []);
    assert [line] + [] == [line];
  }

  lemma WhiteSpaceHarmless(lines: seq<string>, line: string, more: seq<string>)
    requires !SplitInside(START, lines) && OnlySpaces(line) && !Named(FeedAll(EmptyLine, START, lines).pending)
    requires forall i :: 0 <= i < |more| ==> !OnlySpaces(more[i])
    ensures ParseLines(EmptyLine, lines + [line] + more) == ParseLines(BlankLine, lines + [line] + more)
  {
    Continued(EmptyLine, lines, line, more);
    Continued(BlankLine, lines, line, more);
    var p, q := FeedAll(EmptyLine, START, lines), FeedAll(BlankLine, START, lines);
    FeedAllSame(START, START, lines);
    FeedSame(p, q, line);
    NoWhiteSpaceLines(Feed(EmptyLine, p, line), more);
    FeedAllSame(Feed(EmptyLine, p, line), Feed(BlankLine, q, line), more);
  }

  lemma NextPackage(mode: Mode, p: Progress)
    ensures |Finish(FeedAll(mode, p, [NEXT]))| == |p.packages| + 1
  {
    NextReads(mode, p);
  }

  lemma WhiteSpaceSplits(lines: seq<string>, line: string)
    requires !SplitInside(START, lines) && OnlySpaces(line) && Named(FeedAll(EmptyLine, START, lines).pending)
    ensures ParseLines(EmptyLine, lines + [line] + [NEXT]) != ParseLines(BlankLine, lines + [line] + [NEXT])
    ensures !OnlySpaces(NEXT)
  {
    var p, q := FeedAll(EmptyLine, START, lines), FeedAll(BlankLine, START, lines);
    FeedAllSame(START, START, lines);
    SpacesSetNothing(line);
    PackagesBehind(EmptyLine, lines, line);
    PackagesBehind(BlankLine, lines, line);
    assert Feed(EmptyLine, p, line).packages == p.packages;
    assert |Feed(BlankLine, q, line).packages| == |q.packages| + 1;
    assert !IsSpace(NEXT[0]);
  }

  lemma PackagesBehind(mode: Mode, lines: seq<string>, line: string)
    ensures |ParseLines(mode, lines + [line] + [NEXT])| == |Feed(mode, FeedAll(mode, START, lines), line).packages| + 1
  {
    Continued(mode, lines, line, [NEXT]);
    NextPackage(mode, Feed(mode, FeedAll(mode, START, lines), line));
  }

  /** No continuation without white-space lines tells the two parsers apart. */
  ghost predicate Alike(lines: seq<string>)
  {
    forall more: seq<string> :: (forall i :: 0 <= i < |more| ==> !OnlySpaces(more[i])) ==>
      ParseLines(EmptyLine, lines + more) == ParseLines(BlankLine, lines + more)
  }

  /** After a beginning on which they agree, a line of white space can make the parsers
      differ exactly when a stanza with its Package is open. */
  lemma WhiteSpaceLineIff(lines: seq<string>, line: string)
    requires !SplitInside(START, lines) && OnlySpaces(line)
    ensures Alike(lines + [line]) <==> !Named(FeedAll(EmptyLine, START, lines).pending)
  {
    if Named(FeedAll(EmptyLine, START, lines).pending) {
      WhiteSpaceSplits(lines, line);
    } else {
      forall more: seq<string> | forall i :: 0 <= i < |more| ==> !OnlySpaces(more[i])
        ensures ParseLines(EmptyLine, lines + [line] + more) == ParseLines(BlankLine, lines + [line] + more) {
        WhiteSpaceHarmless(lines, line, more);
      }
    }
  }
}
