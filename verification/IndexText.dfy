/** The session index as text: ReadAll after WriteAll returns exactly the lines that were written. */
module IndexText {
  import opened Common
  import opened TextLines

  /** The scanner's buffer: a line must be shorter. */
  const MAX_LINE: nat := 1024 * 1024

  /** What WriteAll writes: lines separated by newlines, and one newline at the end. */
  function FileText(lines: seq<string>): string {
    if lines == [] then [NEWLINE] else Unlines(lines)
  }

  method WriteAll(lines: seq<string>) returns (text: string)
    ensures text == FileText(lines)
  {
    text := "";
    for i := 0 to |lines|
      invariant i == 0 ==> text == ""
      invariant i > 0 ==> text + [NEWLINE] == Unlines(lines[..i])
    {
      UnlinesNext(lines, i);
      if i > 0 {
        text := text + [NEWLINE];
      }
      text := text + lines[i];
    }
    assert lines[..|lines|] == lines;
    text := text + [NEWLINE];
  }

  lemma {:induction false} UnlinesAppend(a: seq<string>, line: string)
    ensures Unlines(a + [line]) == Unlines(a) + line + [NEWLINE]
  {
    if a == [] {
      assert a + [line] == [line];
      assert [line][1..] == [];
      assert Unlines([line]) == line + [NEWLINE] + "";
    } else {
      UnlinesAppend(a[1..], line);
      assert (a + [line])[1..] == a[1..] + [line];
    }
  }

  lemma UnlinesNext(lines: seq<string>, i: nat)
    requires i < |lines|
    ensures Unlines(lines[..i + 1]) == Unlines(lines[..i]) + lines[i] + [NEWLINE]
  {
    assert lines[..i + 1] == lines[..i] + [lines[i]];
    UnlinesAppend(lines[..i], lines[i]);
  }

  /** The lines ReadAll keeps: trimmed, and without the blank ones. */
  function Kept(lines: seq<string>): seq<string> {
    if lines == [] then []
    else
      var line := Trim(lines[|lines| - 1]);
      Kept(lines[..|lines| - 1]) + (if line == "" then [] else [line])
  }

  /** ReadAll, without the decoding: the lines read, and whether the scanner got to the end. */
  method ReadAll(text: string) returns (lines: seq<string>, ok: bool)
    ensures lines == Kept(ScanText(text, MAX_LINE).lines) && ok == ScanText(text, MAX_LINE).ok
  {
    var scan := ScanText(text, MAX_LINE);
    lines := [];
    for i := 0 to |scan.lines|
      invariant lines == Kept(scan.lines[..i])
    {
      assert scan.lines[..i + 1][..i] == scan.lines[..i];
      var line := Trim(scan.lines[i]);
      if line == "" {
        assert lines + [] == lines;
        continue;
      }
      lines := lines + [line];
    }
    assert scan.lines[..|scan.lines|] == scan.lines;
    ok := scan.ok;
  }

  /** A line that survives the file: trimmed, not blank, one line, and short enough. */
  predicate Storable(line: string) {
    line != "" && Trimmed(line) && NEWLINE !in line && |line| < MAX_LINE
  }

  /** What ReadAll keeps of the scanned lines: each that is not blank, in order, without the white space around it. */
  lemma {:induction false} KeptExactly(lines: seq<string>)
    ensures Kept(lines) == Map(Trim, Filter((line: string) => Trim(line) != "", lines))
  {
    if lines != [] {
      KeptExactly(lines[..|lines| - 1]);
    }
  }

  lemma {:induction false} StorableLinesScan(lines: seq<string>)
    requires forall i :: 0 <= i < |lines| ==> Storable(lines[i])
    ensures Scanned(lines, MAX_LINE) == Scan(lines, true)
  {
    if lines != [] {
      assert Storable(lines[0]);
      StorableLinesScan(lines[1..]);
    }
  }

  lemma {:induction false} StorableLinesKept(lines: seq<string>)
    requires forall i :: 0 <= i < |lines| ==> Storable(lines[i])
    ensures Kept(lines) == lines
  {
    if lines != [] {
      var front, last := lines[..|lines| - 1], lines[|lines| - 1];
      StorableLinesKept(front);
      assert Storable(last);
      TrimmedUnchanged(last);
      assert lines == front + [last];
    }
  }

  /** Every line the reader returns is one it would return again. */
  lemma {:induction false} KeptAreStorable(raw: seq<string>)
    requires forall i :: 0 <= i < |raw| ==> NEWLINE !in raw[i] && |raw[i]| < MAX_LINE
    ensures forall i :: 0 <= i < |Kept(raw)| ==> Storable(Kept(raw)[i])
  {
    if raw != [] {
      KeptAreStorable(raw[..|raw| - 1]);
      TrimIsTrimmed(raw[|raw| - 1]);
      TrimMembers(raw[|raw| - 1], NEWLINE);
    }
  }

  lemma {:induction false} ScannedLines(raw: seq<string>)
    requires forall i :: 0 <= i < |raw| ==> NEWLINE !in raw[i]
    ensures forall i :: 0 <= i < |Scanned(raw, MAX_LINE).lines| ==>
              NEWLINE !in Scanned(raw, MAX_LINE).lines[i] && |Scanned(raw, MAX_LINE).lines[i]| < MAX_LINE
  {
    if raw != [] && |raw[0]| < MAX_LINE {
      ScannedLines(raw[1..]);
    }
  }

  lemma {:induction false} RawLinesHaveNoNewline(text: string)
    ensures forall i :: 0 <= i < |RawLines(text)| ==> NEWLINE !in RawLines(text)[i]
    decreases |text|
  {
    if text != "" && IndexOf(text, NEWLINE) >= 0 {
      RawLinesHaveNoNewline(text[IndexOf(text, NEWLINE) + 1..]);
    }
  }

  /** What ReadAll returns for a text. */
  function ReadBack(text: string): Scan {
    Scan(Kept(ScanText(text, MAX_LINE).lines), ScanText(text, MAX_LINE).ok)
  }

  /** ReadAll after WriteAll returns the same lines exactly when every line is storable. */
  lemma ReadAfterWriteExactly(lines: seq<string>)
    ensures ReadBack(FileText(lines)) == Scan(lines, true) <==> forall i :: 0 <= i < |lines| ==> Storable(lines[i])
  {
    if forall i :: 0 <= i < |lines| ==> Storable(lines[i]) {
      if lines == [] {
        EmptyFile();
      } else {
        RawLinesOfUnlines(lines);
        StorableLinesScan(lines);
        StorableLinesKept(lines);
      }
    }
    var text := FileText(lines);
    RawLinesHaveNoNewline(text);
    ScannedLines(RawLines(text));
    KeptAreStorable(ScanText(text, MAX_LINE).lines);
  }

  lemma EmptyFile()
    ensures ReadBack([NEWLINE]) == Scan([], true)
  {
    assert [NEWLINE] == "" + [NEWLINE] + "";
    IndexOfFirst("", NEWLINE, "");
    assert [NEWLINE][1..] == "";
    assert [NEWLINE][..0] == "";
    assert RawLines([NEWLINE]) == [""];
    assert [""][1..] == [];
    assert Scanned([""], MAX_LINE) == Scan([""], true);
    TrimBlank("");
    assert [""][..0] == [];
  }
}
