/** Text as lines: trimming, searching, and the line scanner with its size limit. */
module TextLines {

  predicate IsSpace(c: char) {
    c == ' ' || c == '\t' || c == '\n' || c == '\r' || c == 11 as char || c == 12 as char
  }

  predicate Blank(s: string) {
    forall i :: 0 <= i < |s| ==> IsSpace(s[i])
  }

  function TrimLeft(s: string): (r: string)
    ensures |r| <= |s|
    ensures r != "" ==> !IsSpace(r[0])
  {
    if s != "" && IsSpace(s[0]) then TrimLeft(s[1..]) else s
  }

  function TrimRight(s: string): (r: string)
    ensures r <= s
    ensures r != "" ==> !IsSpace(r[|r| - 1])
  {
    if s != "" && IsSpace(s[|s| - 1]) then TrimRight(s[..|s| - 1]) else s
  }

  /** strings.TrimSpace */
  function Trim(s: string): string {
    TrimRight(TrimLeft(s))
  }

  /** Neither end is white space. */
  predicate Trimmed(s: string) {
    s != "" ==> !IsSpace(s[0]) && !IsSpace(s[|s| - 1])
  }

  lemma {:induction false} TrimLeftPad(pad: string, s: string)
    requires Blank(pad) && (s != "" ==> !IsSpace(s[0]))
    ensures TrimLeft(pad + s) == s
  {
    if pad == "" {
      assert pad + s == s;
    } else {
      assert (pad + s)[1..] == pad[1..] + s;
      TrimLeftPad(pad[1..], s);
    }
  }

  lemma {:induction false} TrimRightPad(s: string, pad: string)
    requires Blank(pad) && (s != "" ==> !IsSpace(s[|s| - 1]))
    ensures TrimRight(s + pad) == s
  {
    if pad == "" {
      assert s + pad == s;
    } else {
      assert (s + pad)[..|s + pad| - 1] == s + pad[..|pad| - 1];
      TrimRightPad(s, pad[..|pad| - 1]);
    }
  }

  /** Surrounding white space is all that trimming removes. */
  lemma TrimPadded(left: string, s: string, right: string)
    requires Blank(left) && Blank(right) && s != "" && Trimmed(s)
    ensures Trim(left + s + right) == s
  {
    assert left + s + right == left + (s + right);
    TrimLeftPad(left, s + right);
    TrimRightPad(s, right);
  }

  lemma {:induction false} TrimBlank(s: string)
    requires Blank(s)
    ensures Trim(s) == ""
  {
    TrimLeftPad(s, "");
    assert s + "" == s;
  }

  lemma {:induction false} TrimLeftMembers(s: string, c: char)
    ensures c in TrimLeft(s) ==> c in s
  {
    if s != "" && IsSpace(s[0]) {
      TrimLeftMembers(s[1..], c);
    }
  }

  lemma TrimMembers(s: string, c: char)
    ensures c in Trim(s) ==> c in s
    ensures |Trim(s)| <= |s|
  {
    TrimLeftMembers(s, c);
  }

  lemma TrimmedUnchanged(s: string)
    requires Trimmed(s)
    ensures Trim(s) == s
  {
    TrimLeftPad("", s);
    TrimRightPad(s, "");
    assert "" + s == s && s + "" == s;
  }

  lemma TrimIsTrimmed(s: string)
    ensures Trimmed(Trim(s))
    ensures Trim(s) == s <==> Trimmed(s)
  {
    assert Trim(s) != "" ==> Trim(s)[0] == TrimLeft(s)[0];
    if Trimmed(s) {
      TrimmedUnchanged(s);
    }
  }

  lemma {:induction false} TrimRightAppend(core: string, tail: string)
    requires core != "" && !IsSpace(core[|core| - 1])
    ensures TrimRight(core + tail) == core + TrimRight(tail)
  {
    if tail == "" {
      assert core + tail == core;
    } else {
      assert (core + tail)[..|core + tail| - 1] == core + tail[..|tail| - 1];
      TrimRightAppend(core, tail[..|tail| - 1]);
    }
  }

  /** Trimming a line whose core starts and ends with other characters. */
  lemma TrimCore(left: string, core: string, tail: string)
    requires Blank(left) && core != "" && Trimmed(core)
    ensures Trim(left + core + tail) == core + TrimRight(tail)
  {
    assert left + core + tail == left + (core + tail);
    TrimLeftPad(left, core + tail);
    TrimRightAppend(core, tail);
  }

  lemma {:induction false} TrimLeftAppend(s: string, c: char)
    requires IsSpace(c)
    ensures TrimLeft(s + [c]) == if TrimLeft(s) == "" then "" else TrimLeft(s) + [c]
  {
    if s == "" {
      assert s + [c] == [c];
      assert [c][1..] == "";
    } else if IsSpace(s[0]) {
      assert (s + [c])[1..] == s[1..] + [c];
      TrimLeftAppend(s[1..], c);
    }
  }

  /** A trailing carriage return makes no difference to a trimmed line. */
  lemma TrimIgnoresLast(s: string, c: char)
    requires IsSpace(c)
    ensures Trim(s + [c]) == Trim(s)
  {
    TrimLeftAppend(s, c);
    if TrimLeft(s) != "" {
      assert (TrimLeft(s) + [c])[..|TrimLeft(s)|] == TrimLeft(s);
    }
  }

  /** Position of the first occurrence, or -1. */
  function IndexOf(s: string, c: char): (r: int)
    ensures -1 <= r < |s|
    ensures r >= 0 ==> s[r] == c
    ensures forall i :: 0 <= i < (if r < 0 then |s| else r) ==> s[i] != c
  {
    if s == "" then -1
    else if s[0] == c then 0
    else
      var r := IndexOf(s[1..], c);
      if r < 0 then -1 else r + 1
  }

  lemma {:induction false} IndexOfFirst(a: string, c: char, b: string)
    requires c !in a
    ensures IndexOf(a + [c] + b, c) == |a|
  {
    if a == "" {
      assert a + [c] + b == [c] + b;
    } else {
      assert a[0] in a;
      assert (a + [c] + b)[1..] == a[1..] + [c] + b;
      IndexOfFirst(a[1..], c, b);
    }
  }

  lemma IndexOfNone(s: string, c: char)
    ensures IndexOf(s, c) < 0 <==> c !in s
  {
  }

  // ---------------------------------------------------------------- scanning lines

  const NEWLINE: char := '\n'

  /** The lines of a text; a last line without a newline counts, an empty one after the last newline does not. */
  function RawLines(text: string): seq<string>
    decreases |text|
  {
    if text == "" then []
    else
      var i := IndexOf(text, NEWLINE);
      if i < 0 then [text] else [text[..i]] + RawLines(text[i + 1..])
  }

  function DropCR(line: string): string {
    if line != "" && line[|line| - 1] == '\r' then line[..|line| - 1] else line
  }

  /** Lines read before the scanner stops, and whether it reached the end. */
  datatype Scan = Scan(lines: seq<string>, ok: bool)

  /** bufio.Scanner: a line that does not fit the buffer stops it with an error. */
  function Scanned(raw: seq<string>, limit: nat): Scan {
    if raw == [] then Scan([], true)
    else if |raw[0]| >= limit then Scan([], false)
    else
      var rest := Scanned(raw[1..], limit);
      Scan([DropCR(raw[0])] + rest.lines, rest.ok)
  }

  function ScanText(text: string, limit: nat): Scan {
    Scanned(RawLines(text), limit)
  }

  /** Every line followed by a newline. */
  function Unlines(lines: seq<string>): string {
    if lines == [] then "" else lines[0] + [NEWLINE] + Unlines(lines[1..])
  }

  lemma {:induction false} RawLinesOfUnlines(lines: seq<string>)
    requires forall i :: 0 <= i < |lines| ==> NEWLINE !in lines[i]
    ensures RawLines(Unlines(lines)) == lines
  {
    if lines != [] {
      var rest := Unlines(lines[1..]);
      var text := lines[0] + [NEWLINE] + rest;
      IndexOfFirst(lines[0], NEWLINE, rest);
      assert text[..|lines[0]|] == lines[0];
      assert text[|lines[0]| + 1..] == rest;
      RawLinesOfUnlines(lines[1..]);
    }
  }

  /** A text whose last line has no newline keeps that line, too. */
  lemma {:induction false} RawLinesUnterminated(lines: seq<string>, last: string)
    requires (forall i :: 0 <= i < |lines| ==> NEWLINE !in lines[i]) && NEWLINE !in last && last != ""
    ensures RawLines(Unlines(lines) + last) == lines + [last]
  {
    if lines == [] {
      assert Unlines(lines) + last == last;
    } else {
      var rest := Unlines(lines[1..]) + last;
      var text := lines[0] + [NEWLINE] + rest;
      assert Unlines(lines) + last == text;
      IndexOfFirst(lines[0], NEWLINE, rest);
      assert text[..|lines[0]|] == lines[0];
      assert text[|lines[0]| + 1..] == rest;
      RawLinesUnterminated(lines[1..], last);
      assert lines + [last] == [lines[0]] + (lines[1..] + [last]);
    }
  }

  /** The scanner takes the lines before the first one that reaches the limit, and fails if there is one. */
  lemma {:induction false} ScanExactly(raw: seq<string>, limit: nat)
    ensures var n := |Scanned(raw, limit).lines|;
            && n <= |raw| && (Scanned(raw, limit).ok <==> n == |raw|) && (n < |raw| ==> |raw[n]| >= limit)
            && forall i :: 0 <= i < n ==>
                 |raw[i]| < limit && (raw[i] == Scanned(raw, limit).lines[i] || raw[i] == Scanned(raw, limit).lines[i] + "\r")
  {
    if raw != [] && |raw[0]| < limit {
      ScanExactly(raw[1..], limit);
      assert DropCR(raw[0]) == raw[0] || raw[0] == DropCR(raw[0]) + "\r";
    }
  }

  /** It fails if and only if there is such a line. */
  lemma ScanFailsExactly(raw: seq<string>, limit: nat)
    ensures !Scanned(raw, limit).ok <==> exists i :: 0 <= i < |raw| && |raw[i]| >= limit
  {
    ScanExactly(raw, limit);
  }
}
