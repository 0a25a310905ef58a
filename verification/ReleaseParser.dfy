/** The file list of a Release file: ParseIndexFilenames of internal/parser/package_parser.go. */
module ReleaseParser {
  import opened Text

  const MARKER := "SHA256:"

  /** The paths listed from here on; the list ends at the first line that is not indented. */
  function FileList(lines: seq<string>, inside: bool): seq<string>
  {
    if lines == [] then []
    else if !inside then FileList(lines[1..], MARKER <= lines[0])
    else if lines[0] == "" || lines[0][0] != ' ' then []
    else PathOn(lines[0]) + FileList(lines[1..], true)
  }

  /** Checksum, size, path; lines with fewer fields are passed over. */
  function PathOn(line: string): seq<string>
  {
    var fields := Fields(line);
    if |fields| >= 3 then [fields[2]] else []
  }

  method ParseIndexFilenames(data: string) returns (names: seq<string>)
    ensures names == FileList(Lines(data), false)
  {
    names := [];
    var inside := false;
    var scanner := new Scanner(data);
    while true
      invariant fresh(scanner)
      invariant names + FileList(Lines(scanner.rest), inside) == FileList(Lines(data), false)
      decreases |scanner.rest|
    {
      ghost var lines, before := Lines(scanner.rest), names;
      var more := scanner.Scan();
      if !more {
        break;
      }
      var line := scanner.text;
      assert lines[0] == line && lines[1..] == Lines(scanner.rest);
      if !inside && MARKER <= line {
        inside := true;
        continue;
      }
      if inside {
        if line == "" || line[0] != ' ' {
          break;
        }
        var fields := Fields(line);
        if |fields| >= 3 {
          names := names + [fields[2]];
        }
        assert names == before + PathOn(line);
        Associate(before, PathOn(line), FileList(Lines(scanner.rest), true));
      }
    }
  }

  datatype Entry = Entry(checksum: string, size: string, path: string)

  function EntryLine(e: Entry): string
  {
    " " + (e.checksum + (" " + (e.size + (" " + e.path))))
  }

  predicate Word(s: string) { s != "" && NoSpaces(s) }

  predicate Plain(e: Entry) { Word(e.checksum) && Word(e.size) && Word(e.path) }

  lemma EntryFields(e: Entry)
    requires Plain(e)
    ensures Fields(EntryLine(e)) == [e.checksum, e.size, e.path]
  {
    FieldsWord(e.path, "");
    assert e.path + "" == e.path;
    FieldsSpace(e.path);
    FieldsWord(e.size, " " + e.path);
    FieldsSpace(e.size + (" " + e.path));
    FieldsWord(e.checksum, " " + (e.size + (" " + e.path)));
    FieldsSpace(e.checksum + (" " + (e.size + (" " + e.path))));
  }

  lemma EntryOneLine(e: Entry)
    requires Plain(e)
    ensures OneLine(EntryLine(e))
  {
    assert IsSpace('\n') && IsSpace('\r');
    var line := EntryLine(e);
    assert line[|line| - 1] == e.path[|e.path| - 1];
  }

  lemma EntryFirst(e: Entry, rest: seq<string>)
    requires Plain(e)
    ensures FileList([EntryLine(e)] + rest, true) == [e.path] + FileList(rest, true)
  {
    EntryFields(e);
    assert ([EntryLine(e)] + rest)[1..] == rest;
  }

  function EntryLines(entries: seq<Entry>): (lines: seq<string>)
    ensures |lines| == |entries| && forall i :: 0 <= i < |entries| ==> lines[i] == EntryLine(entries[i])
  {
    seq(|entries|, i requires 0 <= i < |entries| => EntryLine(entries[i]))
  }

  function Paths(entries: seq<Entry>): (paths: seq<string>)
    ensures |paths| == |entries| && forall i :: 0 <= i < |entries| ==> paths[i] == entries[i].path
  {
    seq(|entries|, i requires 0 <= i < |entries| => entries[i].path)
  }

  lemma {:induction false} ListReads(entries: seq<Entry>, tail: seq<string>)
    requires forall i :: 0 <= i < |entries| ==> Plain(entries[i])
    requires tail == [] || tail[0] == "" || tail[0][0] != ' '
    ensures FileList(EntryLines(entries) + tail, true) == Paths(entries)
    decreases |entries|
  {
    if entries == [] {
      assert EntryLines(entries) + tail == tail;
    } else {
      EntriesFirst(entries, tail);
      ListReads(entries[1..], tail);
      EntryFirst(entries[0], EntryLines(entries[1..]) + tail);
    }
  }

  lemma EntriesFirst(entries: seq<Entry>, tail: seq<string>)
    requires entries != []
    ensures EntryLines(entries) + tail == [EntryLine(entries[0])] + (EntryLines(entries[1..]) + tail)
    ensures Paths(entries) == [entries[0].path] + Paths(entries[1..])
  {
    var rest := entries[1..];
    assert forall i :: 0 < i < |entries| ==> entries[i] == rest[i - 1];
    assert EntryLines(entries) == [EntryLine(entries[0])] + EntryLines(rest);
  }

  lemma {:induction false} HeaderSkipped(header: seq<string>, marker: string, rest: seq<string>)
    requires "SHA256:" <= marker && forall i :: 0 <= i < |header| ==> !("SHA256:" <= header[i])
    ensures FileList(header + [marker] + rest, false) == FileList(rest, true)
    decreases |header|
  {
    var lines := header + [marker] + rest;
    if header == [] {
      assert lines[1..] == rest;
    } else {
      assert lines[1..] == header[1..] + [marker] + rest;
      HeaderSkipped(header[1..], marker, rest);
    }
  }

  /** From any Release file the paths of the first SHA256 section come back, in order and
      complete, whatever stands before the section and behind it. */
  lemma SectionReads(header: seq<string>, marker: string, entries: seq<Entry>, tail: seq<string>)
    requires "SHA256:" <= marker && forall i :: 0 <= i < |header| ==> !("SHA256:" <= header[i])
    requires forall i :: 0 <= i < |entries| ==> Plain(entries[i])
    requires tail == [] || tail[0] == "" || tail[0][0] != ' '
    requires OneLine(marker) && (forall i :: 0 <= i < |header| ==> OneLine(header[i]))
    requires forall i :: 0 <= i < |tail| ==> OneLine(tail[i])
    ensures FileList(Lines(Unlines(header + [marker] + (EntryLines(entries) + tail))), false) == Paths(entries)
  {
    forall i | 0 <= i < |entries| ensures OneLine(EntryLines(entries)[i]) {
      EntryOneLine(entries[i]);
    }
    LinesUnlines(header + [marker] + (EntryLines(entries) + tail));
    HeaderSkipped(header, marker, EntryLines(entries) + tail);
    ListReads(entries, tail);
  }

  // ---------------------------------------------------------------- any text

  /** The third fields of the lines that have one. */
  function Thirds(lines: seq<string>): seq<string>
  {
    if lines == [] then []
    else (if |Fields(lines[0])| > 2 then [Fields(lines[0])[2]] else []) + Thirds(lines[1..])
  }

  predicate Indented(line: string) { line != "" && line[0] == ' ' }

  lemma {:induction false} ListEnds(lines: seq<string>, rest: seq<string>)
    requires (forall i :: 0 <= i < |lines| ==> Indented(lines[i])) && (rest == [] || !Indented(rest[0]))
    ensures FileList(lines + rest, true) == Thirds(lines)
    decreases |lines|
  {
    if lines == [] {
      assert lines + rest == rest;
    } else {
      assert (lines + rest)[1..] == lines[1..] + rest;
      ListEnds(lines[1..], rest);
    }
  }

  /** Whatever the text: the list is what the indented lines right behind the first line
      that starts with SHA256: have for third field. */
  lemma FirstSectionOnly(header: seq<string>, marker: string, list: seq<string>, rest: seq<string>)
    requires "SHA256:" <= marker && forall i :: 0 <= i < |header| ==> !("SHA256:" <= header[i])
    requires (forall i :: 0 <= i < |list| ==> Indented(list[i])) && (rest == [] || !Indented(rest[0]))
    ensures FileList(header + [marker] + (list + rest), false) == Thirds(list)
  {
    HeaderSkipped(header, marker, list + rest);
    ListEnds(list, rest);
  }

  /** And without such a line there is none. */
  lemma {:induction false} NoSection(lines: seq<string>)
    requires forall i :: 0 <= i < |lines| ==> !("SHA256:" <= lines[i])
    ensures FileList(lines, false) == []
  {
    if lines != [] {
      NoSection(lines[1..]);
    }
  }
}
