/**
 * The part of the file system the core touches: text files by path, written
 * in text mode and read back line by line with `read_file_to_list`.
 */
module Filesystem {
  import opened Wrappers
  import opened Text

  /** The error `open(path, 'r')` raises for a path that holds no file. */
  datatype FsError = FileNotFound(path: string)

  /** The text files that exist, by path. */
  class FileSystem {
    var files: map<string, string>

    constructor (initial: map<string, string>)
      ensures files == initial
    {
      files := initial;
    }

    /** `open(path, 'w')`: creates the file or empties an existing one. */
    method Truncate(path: string)
      modifies this
      ensures files == old(files)[path := ""]
    {
      files := files[path := ""];
    }

    /** `file.write(text)` on a file opened for writing. */
    method Append(path: string, text: string)
      requires path in files
      modifies this
      ensures files == old(files)[path := old(files)[path] + text]
    {
      files := files[path := files[path] + text];
    }
  }

  /**
   * Universal newlines, as Python's text mode applies them when reading:
   * every `"\r\n"` and every lone `'\r'` becomes `'\n'`.
   */
  function Translated(s: string): (r: string)
    ensures '\r' !in r
    ensures '\r' !in s ==> r == s
    ensures |r| <= |s|
    decreases |s|
  {
    if |s| == 0 then []
    else if s[0] == '\r' then
      "\n" + Translated(if |s| > 1 && s[1] == '\n' then s[2..] else s[1..])
    else
      [s[0]] + Translated(s[1..])
  }

  /** Text without `'\r'` reads as it is, whatever follows it. */
  lemma {:induction false} TranslatedPrefix(a: string, b: string)
    requires '\r' !in a
    ensures Translated(a + b) == a + Translated(b)
    decreases |a|
  {
    if a != [] {
      var s := a + b;
      assert s[0] == a[0] != '\r';
      assert s[1..] == a[1..] + b;
      assert Translated(s) == [a[0]] + Translated(a[1..] + b);
      TranslatedPrefix(a[1..], b);
      assert a == [a[0]] + a[1..];
    } else {
      assert a + b == b;
    }
  }

  /** A Windows line end `"\r\n"` reads as one `'\n'`. */
  lemma TranslatedCrLf(a: string, b: string)
    requires '\r' !in a
    ensures Translated(a + "\r\n" + b) == a + "\n" + Translated(b)
  {
    var t := "\r\n" + b;
    calc {
      Translated(a + "\r\n" + b);
      { assert a + "\r\n" + b == a + t; }
      Translated(a + t);
      { TranslatedPrefix(a, t); }
      a + Translated(t);
      { assert t[0] == '\r' && |t| > 1 && t[1] == '\n' && t[2..] == b; }
      a + ("\n" + Translated(b));
    }
  }

  /** An old-Mac line end, a `'\r'` not followed by `'\n'`, reads as `'\n'`. */
  lemma TranslatedLoneCr(a: string, b: string)
    requires '\r' !in a && (b == [] || b[0] != '\n')
    ensures Translated(a + "\r" + b) == a + "\n" + Translated(b)
  {
    var t := "\r" + b;
    calc {
      Translated(a + "\r" + b);
      { assert a + "\r" + b == a + t; }
      Translated(a + t);
      { TranslatedPrefix(a, t); }
      a + Translated(t);
      { LoneCrStep(b); }
      a + ("\n" + Translated(b));
    }
  }

  lemma LoneCrStep(b: string)
    requires b == [] || b[0] != '\n'
    ensures Translated("\r" + b) == "\n" + Translated(b)
  {
    var t := "\r" + b;
    assert t[0] == '\r' && t[1..] == b;
    assert !(|t| > 1 && t[1] == '\n');
  }

  function Concat(lines: seq<string>): string
  {
    if lines == [] then [] else lines[0] + Concat(lines[1..])
  }

  /** The lines `for line in file` yields, terminators kept. */
  function LinesOf(s: string): seq<string>
    decreases |s|
  {
    if s == [] then []
    else
      var k := FirstIndex(s, '\n');
      if k == |s| then [s] else [s[..k + 1]] + LinesOf(s[k + 1..])
  }

  /** The lines concatenate, in order, to the text they were read from; an empty text has none. */
  lemma {:induction false} LinesOfConcat(s: string)
    ensures Concat(LinesOf(s)) == s
    ensures s == [] <==> LinesOf(s) == []
    decreases |s|
  {
    if s != [] {
      var k := FirstIndex(s, '\n');
      if k < |s| {
        LinesOfConcat(s[k + 1..]);
        assert s == s[..k + 1] + s[k + 1..];
      }
    }
  }

  /** A line ends at the first `'\n'`; the rest of the text splits on its own. */
  lemma LinesOfAt(s: string, k: nat)
    requires k < |s| && s[k] == '\n' && '\n' !in s[..k]
    ensures LinesOf(s) == [s[..k + 1]] + LinesOf(s[k + 1..])
  {
    FirstIndexAt(s, '\n', k);
  }

  /** A text that starts with a line `p + "\n"` yields that line first. */
  lemma LinesOfLine(p: string, rest: string)
    requires '\n' !in p
    ensures LinesOf(p + "\n" + rest) == [p + "\n"] + LinesOf(rest)
  {
    var s := p + "\n" + rest;
    assert s[..|p|] == p && s[|p|] == '\n';
    assert s[..|p| + 1] == p + "\n";
    assert s[|p| + 1..] == rest;
    LinesOfAt(s, |p|);
  }

  /** A line holds no `'\n'` before its last character. */
  predicate LineShaped(line: string)
  {
    |line| > 0 && '\n' !in line[..|line| - 1]
  }

  /** A line ends in `'\n'`. */
  predicate Terminated(line: string)
  {
    |line| > 0 && line[|line| - 1] == '\n'
  }

  /** Every line is non-empty and ends at its first `'\n'`; only the last may lack one. */
  lemma {:induction false} LinesOfTerminated(s: string)
    ensures forall i :: 0 <= i < |LinesOf(s)| ==> LineShaped(LinesOf(s)[i])
    ensures forall i :: 0 <= i < |LinesOf(s)| - 1 ==> Terminated(LinesOf(s)[i])
    decreases |s|
  {
    if s != [] {
      var k := FirstIndex(s, '\n');
      if k == |s| {
        assert LinesOf(s) == [s];
        assert s[..|s| - 1] <= s[..k];
      } else {
        var line, rest := s[..k + 1], LinesOf(s[k + 1..]);
        var lines := [line] + rest;
        LinesOfAt(s, k);
        assert LineShaped(line) && Terminated(line) by {
          assert line[..k] == s[..k];
        }
        LinesOfTerminated(s[k + 1..]);
        forall i | 0 < i < |lines|
          ensures LineShaped(lines[i])
          ensures i < |lines| - 1 ==> Terminated(lines[i])
        {
          assert lines[i] == rest[i - 1];
        }
      }
    }
  }

  /** What `read_file_to_list` returns for file contents `text`. */
  function StrippedLines(text: string): seq<string>
  {
    var raw := LinesOf(Translated(text));
    seq(|raw|, i requires 0 <= i < |raw| => RStrip(raw[i]))
  }

  /**
   * One element per line, in file order, each the line with all trailing
   * whitespace (not only the terminator) cut off and its leading whitespace
   * kept, so that no element ends in whitespace; an empty file gives none.
   */
  lemma StrippedLinesSpec(text: string)
    ensures var r, raw := StrippedLines(text), LinesOf(Translated(text));
            && |r| == |raw|
            && (forall i :: 0 <= i < |r| ==>
                  r[i] <= raw[i] && AllSpace(raw[i][|r[i]|..]) && !EndsInSpace(r[i]))
            && (text == [] ==> r == [])
  {
    var raw := LinesOf(Translated(text));
    forall i | 0 <= i < |raw| {
      RStripSpec(raw[i]);
    }
  }

  /**
   * `read_file_to_list(path)`: a missing file raises; otherwise the loop
   * appends the rstripped lines one by one.
   */
  method ReadFileToList(fs: FileSystem, path: string) returns (r: Result<seq<string>, FsError>)
    ensures r.Failure? <==> path !in fs.files
    ensures r.Failure? ==> r.error == FileNotFound(path)
    ensures r.Success? ==> r.value == StrippedLines(fs.files[path])
  {
    if path !in fs.files {
      return Failure(FileNotFound(path));
    }
    var raw := LinesOf(Translated(fs.files[path]));
    var linesList: seq<string> := [];
    for i := 0 to |raw|
      invariant |linesList| == i
      invariant forall j :: 0 <= j < i ==> linesList[j] == RStrip(raw[j])
    {
      var lineWithoutNewline := RStrip(raw[i]);
      linesList := linesList + [lineWithoutNewline];
    }
    return Success(linesList);
  }
}
