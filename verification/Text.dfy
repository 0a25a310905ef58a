/** Text as Go's strings, unicode and bufio packages handle it: trimming, fields and lines. */
module Text {

  /** unicode.IsSpace. */
  predicate IsSpace(c: char)
  {
    var n := c as int;
    || 9 <= n <= 13 || n == 32 || n == 0x85 || n == 0xA0 || n == 0x1680 || 0x2000 <= n <= 0x200A
    || n == 0x2028 || n == 0x2029 || n == 0x202F || n == 0x205F || n == 0x3000
  }

  /** These code points and no others. */
  lemma SpacesAre(c: char)
    ensures IsSpace(c) <==>
              c as int in {9, 10, 11, 12, 13, 32, 133, 160, 5760, 8192, 8193, 8194, 8195, 8196, 8197,
                           8198, 8199, 8200, 8201, 8202, 8232, 8233, 8239, 8287, 12288}
  {
  }

  predicate AllSpaces(s: string) { forall i :: 0 <= i < |s| ==> IsSpace(s[i]) }

  predicate NoSpaces(s: string) { forall i :: 0 <= i < |s| ==> !IsSpace(s[i]) }

  function TrimLeft(s: string): string
  {
    if s != "" && IsSpace(s[0]) then TrimLeft(s[1..]) else s
  }

  function TrimRight(s: string): string
  {
    if s != "" && IsSpace(s[|s| - 1]) then TrimRight(s[..|s| - 1]) else s
  }

  /** strings.TrimSpace. */
  function Trim(s: string): string { TrimRight(TrimLeft(s)) }

  /** Nothing to trim. */
  predicate Trimmed(s: string)
  {
    s != "" ==> !IsSpace(s[0]) && !IsSpace(s[|s| - 1])
  }

  lemma {:induction false} TrimLeftSplits(s: string, t: string)
    requires AllSpaces(s) && (t != "" ==> !IsSpace(t[0]))
    ensures TrimLeft(s + t) == t
    decreases |s|
  {
    if s == "" {
      assert s + t == t;
    } else {
      assert (s + t)[1..] == s[1..] + t;
      TrimLeftSplits(s[1..], t);
    }
  }

  lemma {:induction false} TrimRightSplits(t: string, s: string)
    requires AllSpaces(s) && (t != "" ==> !IsSpace(t[|t| - 1]))
    ensures TrimRight(t + s) == t
    decreases |s|
  {
    if s == "" {
      assert t + s == t;
    } else {
      assert (t + s)[..|t + s| - 1] == t + s[..|s| - 1];
      TrimRightSplits(t, s[..|s| - 1]);
    }
  }

  /** Trimming takes away the white space around a text and nothing else. */
  lemma TrimAround(before: string, t: string, after: string)
    requires AllSpaces(before) && AllSpaces(after) && Trimmed(t)
    ensures Trim(before + t + after) == t
  {
    if t == "" {
      assert before + t + after == (before + after) + "";
      TrimLeftSplits(before + after, "");
    } else {
      assert before + t + after == before + (t + after);
      TrimLeftSplits(before, t + after);
      TrimRightSplits(t, after);
    }
  }

  lemma TrimTrimmed(t: string)
    requires Trimmed(t)
    ensures Trim(t) == t
  {
    TrimAround("", t, "");
    assert "" + t + "" == t;
  }

  lemma {:induction false} TrimBlank(s: string)
    ensures Trim(s) == "" <==> AllSpaces(s)
    decreases |s|
  {
    if s != "" {
      if IsSpace(s[0]) {
        TrimBlank(s[1..]);
        assert AllSpaces(s[1..]) <==> AllSpaces(s) by {
          assert forall i :: 0 < i < |s| ==> s[i] == s[1..][i - 1];
        }
      } else {
        TrimRightKeepsHead(s);
      }
    }
  }

  lemma {:induction false} TrimRightKeepsHead(s: string)
    requires s != "" && !IsSpace(s[0])
    ensures TrimRight(s) != ""
    decreases |s|
  {
    if IsSpace(s[|s| - 1]) {
      TrimRightKeepsHead(s[..|s| - 1]);
    }
  }

  /** Where c first occurs in s, or |s|. */
  function Find(s: string, c: char): (i: nat)
    ensures i <= |s| && c !in s[..i] && (i < |s| ==> s[i] == c)
  {
    if s == "" || s[0] == c then 0
    else
      var j := Find(s[1..], c);
      assert s[..j + 1] == [s[0]] + s[1..][..j];
      j + 1
  }

  lemma {:induction false} FindAt(a: string, c: char, b: string)
    requires c !in a
    ensures Find(a + [c] + b, c) == |a|
  {
    if a != "" {
      assert (a + [c] + b)[1..] == a[1..] + [c] + b;
      FindAt(a[1..], c, b);
    }
  }

  lemma FindLast(a: string, c: char)
    requires a != "" && a[|a| - 1] == c
    ensures Find(a, c) < |a|
  {
    assert a[..|a|] == a && c in a;
  }

  predicate Contains(s: string, t: string)
  {
    t <= s || (s != "" && Contains(s[1..], t))
  }

  lemma {:induction false} ContainsAround(before: string, t: string, after: string)
    ensures Contains(before + t + after, t)
    decreases |before|
  {
    if before == "" {
      assert before + t + after == t + after;
    } else {
      assert (before + t + after)[1..] == before[1..] + t + after;
      ContainsAround(before[1..], t, after);
    }
  }

  /** t stands in s at place i. */
  predicate At(s: string, t: string, i: nat)
  {
    i + |t| <= |s| && s[i..i + |t|] == t
  }

  lemma {:induction false} ContainsIff(s: string, t: string)
    ensures Contains(s, t) <==> exists i: nat :: At(s, t, i)
  {
    if t <= s {
      assert At(s, t, 0);
    } else {
      assert !At(s, t, 0);
      if s != "" {
        ContainsIff(s[1..], t);
        if i: nat :| At(s[1..], t, i) {
          assert s[1..][i..i + |t|] == s[i + 1..i + 1 + |t|];
          assert At(s, t, i + 1);
        }
        if i: nat :| At(s, t, i) {
          assert s[1..][i - 1..i - 1 + |t|] == s[i..i + |t|];
          assert At(s[1..], t, i - 1);
        }
      }
    }
  }

  // ---------------------------------------------------------------- fields

  /** strings.Fields: the runs of characters between white space. */
  function Fields(s: string): seq<string>
    decreases |s|
  {
    if s == "" then []
    else if IsSpace(s[0]) then Fields(s[1..])
    else [s[..RunEnd(s)]] + Fields(s[RunEnd(s)..])
  }

  function RunEnd(s: string): (n: nat)
    ensures n <= |s| && (s != "" && !IsSpace(s[0]) ==> n > 0)
    ensures NoSpaces(s[..n]) && (n < |s| ==> IsSpace(s[n]))
  {
    if s == "" || IsSpace(s[0]) then 0
    else
      var n := RunEnd(s[1..]);
      assert s[..n + 1] == [s[0]] + s[1..][..n];
      n + 1
  }

  lemma {:induction false} RunEndAt(word: string, rest: string)
    requires NoSpaces(word) && (rest == "" || IsSpace(rest[0]))
    ensures RunEnd(word + rest) == |word|
    decreases |word|
  {
    if word == "" {
      assert word + rest == rest;
    } else {
      assert (word + rest)[1..] == word[1..] + rest;
      RunEndAt(word[1..], rest);
    }
  }

  lemma FieldsWord(word: string, rest: string)
    requires word != "" && NoSpaces(word) && (rest == "" || IsSpace(rest[0]))
    ensures Fields(word + rest) == [word] + Fields(rest)
  {
    RunEndAt(word, rest);
    assert (word + rest)[..|word|] == word && (word + rest)[|word|..] == rest;
  }

  lemma {:induction false} FieldsBlank(s: string)
    requires AllSpaces(s)
    ensures Fields(s) == []
    decreases |s|
  {
    if s != "" {
      FieldsBlank(s[1..]);
    }
  }

  /** White space in front of a word is passed over, and the word ends at the next. */
  lemma {:induction false} FieldsNext(before: string, word: string, rest: string)
    requires AllSpaces(before) && word != "" && NoSpaces(word) && (rest == "" || IsSpace(rest[0]))
    ensures Fields(before + word + rest) == [word] + Fields(rest)
    decreases |before|
  {
    if before == "" {
      assert before + word + rest == word + rest;
      FieldsWord(word, rest);
    } else {
      assert (before + word + rest)[1..] == before[1..] + word + rest;
      FieldsNext(before[1..], word, rest);
    }
  }

  lemma FieldsSpace(s: string)
    ensures Fields(" " + s) == Fields(s)
  {
    assert (" " + s)[1..] == s;
  }

  // ---------------------------------------------------------------- lines

  /** bufio.ScanLines drops one carriage return before the line feed. */
  function DropCR(s: string): string
  {
    if s != "" && s[|s| - 1] == '\r' then s[..|s| - 1] else s
  }

  /** What is left behind the first line. */
  function AfterLine(s: string): (rest: string)
    requires s != ""
    ensures |rest| < |s|
  {
    var i := Find(s, '\n');
    if i == |s| then "" else s[i + 1..]
  }

  function FirstLine(s: string): string
    requires s != ""
  {
    DropCR(s[..Find(s, '\n')])
  }

  /** The lines a scanner yields; an unterminated rest is a line, an empty rest is none. */
  function Lines(s: string): seq<string>
    decreases |s|
  {
    if s == "" then [] else [FirstLine(s)] + Lines(AfterLine(s))
  }

  /** A bufio.Scanner reading lines. */
  class Scanner {
    var rest: string
    var text: string

    constructor (data: string)
      ensures rest == data
    {
      rest := data;
      text := "";
    }

    method Scan() returns (more: bool)
      modifies this
      ensures more <==> old(rest) != ""
      ensures more ==> Lines(old(rest)) == [text] + Lines(rest) && |rest| < |old(rest)|
    {
      more := rest != "";
      if more {
        ghost var was := rest;
        var i := Find(rest, '\n');
        text := DropCR(rest[..i]);
        rest := if i == |rest| then "" else rest[i + 1..];
        assert text == FirstLine(was) && rest == AfterLine(was);
      }
    }
  }

  /** A text that can be written as a line and read back. */
  predicate OneLine(s: string)
  {
    '\n' !in s && (s != "" ==> s[|s| - 1] != '\r')
  }

  lemma LineAt(line: string, rest: string)
    requires '\n' !in line
    ensures var s := line + ['\n'] + rest; FirstLine(s) == DropCR(line) && AfterLine(s) == rest
  {
    var s := line + ['\n'] + rest;
    FindAt(line, '\n', rest);
    assert s[..|line|] == line && s[|line| + 1..] == rest;
  }

  lemma LinesStep(line: string, rest: string)
    requires '\n' !in line
    ensures Lines(line + ['\n'] + rest) == [DropCR(line)] + Lines(rest)
  {
    LineAt(line, rest);
    assert line + ['\n'] + rest != "";
  }

  lemma LinesTerminated(line: string, rest: string)
    requires OneLine(line)
    ensures Lines(line + ['\n'] + rest) == [line] + Lines(rest)
  {
    LinesStep(line, rest);
  }

  /** Of the carriage returns before a line feed one is dropped, and no other character. */
  lemma CarriageReturnDropped(line: string, rest: string)
    requires '\n' !in line
    ensures Lines(line + "\r\n" + rest) == [line] + Lines(rest)
    ensures line == "" || line[|line| - 1] != '\r' ==> Lines(line + "\n" + rest) == [line] + Lines(rest)
  {
    assert line + "\r\n" + rest == (line + ['\r']) + ['\n'] + rest;
    LinesStep(line + ['\r'], rest);
    assert (line + ['\r'])[..|line|] == line;
    assert line + "\n" + rest == line + ['\n'] + rest;
    LinesStep(line, rest);
  }

  /** What stands behind the last line feed is a line if it is not empty. */
  lemma LastLine(line: string)
    requires '\n' !in line && line != ""
    ensures Lines(line) == [if line[|line| - 1] == '\r' then line[..|line| - 1] else line]
  {
    assert Find(line, '\n') == |line| && line[..|line|] == line;
  }

  predicate Terminated(s: string)
  {
    s == "" || s[|s| - 1] == '\n'
  }

  /** Texts that end in a line feed can be read one after the other. */
  lemma {:induction false} LinesAppend(a: string, b: string)
    requires Terminated(a)
    ensures Lines(a + b) == Lines(a) + Lines(b)
    decreases |a|
  {
    if a == "" {
      assert a + b == b;
    } else {
      var line, rest := CutLine(a);
      LinesStep(line, rest);
      assert a + b == line + ['\n'] + (rest + b);
      LinesStep(line, rest + b);
      LinesAppend(rest, b);
      Associate([DropCR(line)], Lines(rest), Lines(b));
    }
  }

  lemma CutLine(a: string) returns (line: string, rest: string)
    requires Terminated(a) && a != ""
    ensures a == line + ['\n'] + rest && '\n' !in line && Terminated(rest) && |rest| < |a|
  {
    FindLast(a, '\n');
    var i := Find(a, '\n');
    line, rest := a[..i], a[i + 1..];
  }

  lemma Associate<T>(x: seq<T>, y: seq<T>, z: seq<T>)
    ensures x + (y + z) == (x + y) + z
  {
  }

  /** Every line with its line feed. */
  function Unlines(lines: seq<string>): string
  {
    if lines == [] then "" else lines[0] + ['\n'] + Unlines(lines[1..])
  }

  /** Writing lines and scanning them are inverse. */
  lemma {:induction false} LinesUnlines(lines: seq<string>)
    requires forall i :: 0 <= i < |lines| ==> OneLine(lines[i])
    ensures Lines(Unlines(lines)) == lines
  {
    if lines != [] {
      LinesUnlines(lines[1..]);
      LinesTerminated(lines[0], Unlines(lines[1..]));
    }
  }
}
