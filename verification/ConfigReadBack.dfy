/**
 Reading a configuration back: export blocks, the older server section and foreign sections, written
 with any spacing, order of keys, blank lines and comments, parse to exactly the targets they describe.

 A line is rendered from white space, a key, a value and a tail that may hold a comment. Trimming
 leaves key, value and the trimmed tail; the first equals sign ends the key, the closing quote or
 the first hash sign ends the value. Lines then compose to blocks, blocks to a document, and the
 scanner gives the document's lines back because they are short and free of newlines.
 */
module ConfigReadBack {
  import opened Common
  import opened TextLines
  import opened Config

  const Q: string := "\""

  // ---------------------------------------------------------------- what may be written

  /** The white space around a key, its equals sign and its value; tail may end in a comment. */
  datatype Spacing = Spacing(left: string, beforeEquals: string, afterEquals: string, tail: string)

  /** One element of a signals array with the white space around it. */
  datatype Part = Part(left: string, value: string, quoted: bool, right: string)

  datatype Item =
    | Noise(line: string)
    | Assign(field: Field, value: string, quoted: bool, spacing: Spacing)
    | AssignSignals(parts: seq<Part>, inside: string, arraySpacing: Spacing)

  function Quoted(v: string): string {
    Q + v + Q
  }

  /** Values may be written with or without quotes. */
  function Written(v: string, quoted: bool): string {
    if quoted then Quoted(v) else v
  }

  /** A value holds no quote; without quotes it is not empty, has no white space around it and no comment in it. */
  predicate Writable(v: string, quoted: bool) {
    '"' !in v && (!quoted ==> v != "" && Trimmed(v) && '#' !in v)
  }

  function PartText(p: Part): string {
    p.left + Written(p.value, p.quoted) + p.right
  }

  /** Array elements separated by commas. */
  function Joined(parts: seq<Part>): string {
    if parts == [] then ""
    else if |parts| == 1 then PartText(parts[0])
    else PartText(parts[0]) + "," + Joined(parts[1..])
  }

  function ArrayText(parts: seq<Part>, inside: string): string {
    "[" + (if parts == [] then inside else Joined(parts)) + "]"
  }

  function Line(s: Spacing, key: string, value: string): string {
    s.left + (key + s.beforeEquals + "=" + s.afterEquals + value) + s.tail
  }

  function Render(item: Item): string {
    match item
    case Noise(line) => line
    case Assign(f, v, quoted, s) => Line(s, FieldText(f), Written(v, quoted))
    case AssignSignals(parts, inside, s) => Line(s, SIGNALS, ArrayText(parts, inside))
  }

  /** White space, possibly followed by a comment. */
  ghost predicate IsTail(tail: string) {
    exists n :: 0 <= n <= |tail| && Blank(tail[..n]) && (n < |tail| ==> tail[n] == '#')
  }

  ghost predicate GoodSpacing(s: Spacing) {
    Blank(s.left) && Blank(s.beforeEquals) && Blank(s.afterEquals) && IsTail(s.tail)
  }

  ghost predicate GoodPart(p: Part) {
    && Blank(p.left) && Blank(p.right) && p.value != "" && Writable(p.value, p.quoted)
    && '#' !in p.value && ',' !in p.value
  }

  /** In quotes a value may hold '#', '=' and '[', and without them the latter two. */
  ghost predicate Good(item: Item) {
    match item
    case Noise(line) => Trim(line) == "" || Trim(line)[0] == '#'
    case Assign(f, v, quoted, s) => GoodSpacing(s) && Writable(v, quoted)
    case AssignSignals(parts, inside, s) =>
      GoodSpacing(s) && Blank(inside) && forall i :: 0 <= i < |parts| ==> GoodPart(parts[i])
  }

  function Values(parts: seq<Part>): seq<string> {
    if parts == [] then [] else [parts[0].value] + Values(parts[1..])
  }

  /** A field as it is written, a token with its reference to the environment resolved. */
  function Given(t: ExportTarget, f: Field, v: string, env: string -> string): ExportTarget {
    match f
    case Id => t.(id := v)
    case Endpoint => t.(endpoint := v)
    case Token => t.(token := ExpandEnv(v, env))
    case AuthHeader => t.(authHeader := v)
    case AuthScheme => t.(authScheme := v)
    case Encoding => t.(encoding := v)
  }

  /** What an item says about its target. */
  function Effect(t: ExportTarget, item: Item, env: string -> string): ExportTarget {
    match item
    case Noise(_) => t
    case Assign(f, v, _, _) => Given(t, f, v, env)
    case AssignSignals(parts, _, _) => t.(signals := Values(parts))
  }

  /** The older section has an endpoint and a token, and everything else in it is ignored. */
  function ServerEffect(t: ExportTarget, item: Item, env: string -> string): ExportTarget {
    if item.Assign? && (item.field.Endpoint? || item.field.Token?) then Given(t, item.field, item.value, env) else t
  }

  // ---------------------------------------------------------------- reading one line back

  lemma KeysAreRecognized(f: Field)
    ensures FieldOf(FieldText(f)) == Some(f)
    ensures FieldOf(SIGNALS) == None
  {
  }

  /** A key as it is written: no space, no equals sign, and no start of a comment or a section. */
  predicate PlainKey(key: string) {
    && key != "" && (forall i :: 0 <= i < |key| ==> !IsSpace(key[i]) && key[i] != '=')
    && key[0] != '#' && key[0] != '['
  }

  lemma FieldTextsArePlain(f: Field)
    ensures PlainKey(FieldText(f)) && PlainKey(SIGNALS)
  {
  }

  lemma IsTailTrimmed(tail: string)
    requires IsTail(tail)
    ensures IsTail(TrimRight(tail))
  {
    var n :| 0 <= n <= |tail| && Blank(tail[..n]) && (n < |tail| ==> tail[n] == '#');
    var t := TrimRight(tail);
    var m := if n <= |t| then n else |t|;
    assert t[..m] == tail[..m];
    assert Blank(t[..m]) by {
      assert forall i :: 0 <= i < m ==> tail[..m][i] == tail[..n][i];
    }
  }

  lemma {:induction false} TrimRightTwice(s: string)
    ensures TrimRight(TrimRight(s)) == TrimRight(s)
  {
    if s != "" && IsSpace(s[|s| - 1]) {
      TrimRightTwice(s[..|s| - 1]);
    }
  }

  /** Cutting a tail at its comment leaves white space. */
  lemma CutTail(tail: string)
    requires IsTail(tail) && TrimRight(tail) == tail
    ensures var hash := IndexOf(tail, '#');
            Blank(if hash >= 0 then tail[..hash] else tail)
  {
    var n :| 0 <= n <= |tail| && Blank(tail[..n]) && (n < |tail| ==> tail[n] == '#');
    var hash := IndexOf(tail, '#');
    if n < |tail| {
      assert forall i :: 0 <= i < n ==> tail[i] == tail[..n][i] && tail[i] != '#';
      assert hash == n;
    } else {
      assert tail[..n] == tail;
    }
  }

  lemma BlankFree(s: string, c: char)
    requires Blank(s) && !IsSpace(c)
    ensures c !in s
  {
  }

  lemma CutLine(head: string, rest: string)
    requires '=' !in head
    ensures IndexOf(head + ['='] + rest, '=') == |head|
    ensures (head + ['='] + rest)[..|head|] == head && (head + ['='] + rest)[|head| + 1..] == rest
  {
    IndexOfFirst(head, '=', rest);
  }

  lemma KeyOnly(key: string, before: string)
    requires PlainKey(key) && Blank(before)
    ensures Trim(key + before) == key && '=' !in key + before
  {
    BlankFree(before, '=');
    TrimPadded("", key, before);
    assert "" + key + before == key + before;
  }

  /** Splitting the trimmed text of a line into key and value. */
  lemma SplitLine(key: string, before: string, after: string, value: string, tail: string)
    requires PlainKey(key) && Blank(before) && Blank(after)
    requires value != "" && Trimmed(value) && TrimRight(tail) == tail
    ensures SplitKV(key + before + "=" + after + value + tail) == Some(KV(key, StripInlineComment(value + tail)))
  {
    var head, rest := key + before, after + value + tail;
    KeyOnly(key, before);
    CutLine(head, rest);
    TrimCore(after, value, tail);
    SplitAt(head + ['='] + rest, head, rest, key, value + tail);
    Regroup(key, before, after, value, tail);
  }

  lemma SplitAt(line: string, head: string, rest: string, key: string, value: string)
    requires IndexOf(line, '=') == |head| && line[..|head|] == head && line[|head| + 1..] == rest
    requires Trim(head) == key && key != "" && Trim(rest) == value
    ensures SplitKV(line) == Some(KV(key, StripInlineComment(value)))
  {
  }

  lemma Regroup(key: string, before: string, after: string, value: string, tail: string)
    ensures key + before + "=" + after + value + tail == (key + before) + ['='] + (after + value + tail)
  {
  }

  lemma QuotedShape(v: string, tail: string)
    ensures var value := Quoted(v) + tail;
            && value[0] == '"' && value[1..] == v + ['"'] + tail
            && value[..|v| + 2] == Quoted(v) && value[|v| + 2..] == tail
  {
  }

  lemma TrimAfter(head: string, pad: string)
    requires head != "" && Trimmed(head) && Blank(pad)
    ensures Trim(head + pad) == head
  {
    TrimPadded("", head, pad);
    assert "" + head + pad == head + pad;
  }

  /** A quoted value comes back whatever follows it on the line. */
  lemma StripQuoted(v: string, tail: string)
    requires '"' !in v && IsTail(tail) && TrimRight(tail) == tail
    ensures StripInlineComment(Quoted(v) + tail) == Quoted(v)
  {
    QuotedShape(v, tail);
    IndexOfFirst(v, '"', tail);
    CutTail(tail);
    var hash := IndexOf(tail, '#');
    TrimAfter(Quoted(v), if hash >= 0 then tail[..hash] else tail);
  }

  lemma UnquoteQuoted(v: string)
    ensures Unquote(Quoted(v)) == v
  {
    assert Quoted(v)[1..|Quoted(v)| - 1] == v;
  }

  lemma WrittenShape(v: string, quoted: bool)
    requires Writable(v, quoted)
    ensures Written(v, quoted) != "" && Trimmed(Written(v, quoted)) && !IsSpace(Written(v, quoted)[0])
  {
  }

  lemma UnquoteWritten(v: string, quoted: bool)
    requires Writable(v, quoted)
    ensures Unquote(Written(v, quoted)) == v
  {
    if quoted {
      UnquoteQuoted(v);
    } else {
      assert v[0] in v;
    }
  }

  /** A value comes back whatever follows it on the line. */
  lemma StripWritten(v: string, quoted: bool, tail: string)
    requires Writable(v, quoted) && IsTail(tail) && TrimRight(tail) == tail
    ensures StripInlineComment(Written(v, quoted) + tail) == Written(v, quoted)
  {
    if quoted {
      StripQuoted(v, tail);
    } else {
      assert v[0] in v;
      StripPlain(v, tail);
    }
  }

  /** What trimming and splitting make of a line, for any key and value text that trimming leaves alone. */
  lemma ReadKV(s: Spacing, key: string, value: string)
    requires GoodSpacing(s) && PlainKey(key) && value != "" && Trimmed(value)
    ensures var line := Trim(Line(s, key, value));
            && line != "" && line[0] != '#' && line[0] != '[' && !StartsWith(line, HEADER)
            && SplitKV(line) == Some(KV(key, StripInlineComment(value + TrimRight(s.tail))))
  {
    var core := key + s.beforeEquals + "=" + s.afterEquals + value;
    var tail := TrimRight(s.tail);
    assert core[0] == key[0] && core[|core| - 1] == value[|value| - 1];
    TrimCore(s.left, core, s.tail);
    var line := core + tail;
    assert line == key + s.beforeEquals + "=" + s.afterEquals + value + tail;
    assert line[0] == key[0];
    IsTailTrimmed(s.tail);
    TrimRightTwice(s.tail);
    SplitLine(key, s.beforeEquals, s.afterEquals, value, tail);
    NotASection(line);
  }

  /** The parsed line inside an export block. */
  lemma ReadLine(p: Parsed, s: Spacing, key: string, value: string, env: string -> string)
    requires GoodSpacing(s) && PlainKey(key) && value != "" && Trimmed(value)
    requires p.section.ExportSection? && p.exports != []
    ensures ParseLine(p, Line(s, key, value), env) ==
            p.(exports := p.exports[..|p.exports| - 1]
                          + [ApplyExportKey(p.exports[|p.exports| - 1], key,
                                            StripInlineComment(value + TrimRight(s.tail)), env)])
  {
    ReadKV(s, key, value);
  }

  lemma NotASection(line: string)
    requires line != "" && line[0] != '['
    ensures !StartsWith(line, "[[export]]")
  {
    if |line| >= 10 {
      assert line[..10][0] == line[0];
    }
  }

  lemma AssignReadsBack(p: Parsed, item: Item, env: string -> string)
    requires item.Assign? && Good(item) && p.section.ExportSection? && p.exports != []
    ensures ParseLine(p, Render(item), env) ==
            p.(exports := p.exports[..|p.exports| - 1] + [Effect(p.exports[|p.exports| - 1], item, env)])
  {
    var s := item.spacing;
    FieldTextsArePlain(item.field);
    WrittenShape(item.value, item.quoted);
    ReadLine(p, s, FieldText(item.field), Written(item.value, item.quoted), env);
    IsTailTrimmed(s.tail);
    TrimRightTwice(s.tail);
    StripWritten(item.value, item.quoted, TrimRight(s.tail));
    ApplyAssign(p.exports[|p.exports| - 1], item.field, item.value, item.quoted, env);
  }

  lemma ApplyAssign(t: ExportTarget, f: Field, v: string, quoted: bool, env: string -> string)
    requires Writable(v, quoted)
    ensures ApplyExportKey(t, FieldText(f), Written(v, quoted), env) == Given(t, f, v, env)
  {
    KeysAreRecognized(f);
    UnquoteWritten(v, quoted);
  }

  // ---------------------------------------------------------------- reading an array back

  lemma {:induction false} JoinedFree(parts: seq<Part>, c: char)
    requires forall i :: 0 <= i < |parts| ==> GoodPart(parts[i])
    requires c == '#'
    ensures c !in Joined(parts)
  {
    if parts != [] {
      BlankFree(parts[0].left, c);
      BlankFree(parts[0].right, c);
      assert GoodPart(parts[0]);
      JoinedFree(parts[1..], c);
    }
  }

  lemma PartFree(p: Part)
    requires GoodPart(p)
    ensures ',' !in PartText(p)
    ensures Unquote(Trim(PartText(p))) == p.value
  {
    BlankFree(p.left, ',');
    BlankFree(p.right, ',');
    WrittenShape(p.value, p.quoted);
    TrimPadded(p.left, Written(p.value, p.quoted), p.right);
    UnquoteWritten(p.value, p.quoted);
  }

  lemma {:induction false} JoinedReadsBack(parts: seq<Part>)
    requires parts != [] && forall i :: 0 <= i < |parts| ==> GoodPart(parts[i])
    ensures NonEmptyParts(SplitOn(Joined(parts), ',')) == Values(parts)
    decreases |parts|
  {
    var first := PartText(parts[0]);
    PartFree(parts[0]);
    if |parts| == 1 {
      IndexOfNone(first, ',');
      assert [first][1..] == [];
      assert parts[1..] == [];
      assert Values(parts) == [parts[0].value] + [];
    } else {
      var rest := Joined(parts[1..]);
      assert Joined(parts) == first + [','] + rest;
      IndexOfFirst(first, ',', rest);
      assert Joined(parts)[..|first|] == first && Joined(parts)[|first| + 1..] == rest;
      var split := SplitOn(rest, ',');
      assert ([first] + split)[1..] == split;
      JoinedReadsBack(parts[1..]);
    }
  }

  lemma BracketShape(inner: string)
    ensures var text := "[" + inner + "]";
            text[0] == '[' && Trimmed(text) && text[1..] == inner + "]"
  {
  }

  lemma ParseBracketed(text: string, body: string, inner: string)
    requires Trim(text) == text && text != "" && text[0] == '[' && body == text[1..] && body == inner + "]"
    ensures ParseStringArray(text) == if Trim(inner) == "" then [] else NonEmptyParts(SplitOn(inner, ','))
  {
    assert body[..|body| - 1] == inner;
  }

  lemma ArrayReadsBack(parts: seq<Part>, inside: string)
    requires Blank(inside) && forall i :: 0 <= i < |parts| ==> GoodPart(parts[i])
    ensures ParseStringArray(ArrayText(parts, inside)) == Values(parts)
  {
    var inner := if parts == [] then inside else Joined(parts);
    var text := "[" + inner + "]";
    BracketShape(inner);
    TrimmedUnchanged(text);
    ParseBracketed(text, inner + "]", inner);
    if parts == [] {
      TrimBlank(inside);
    } else {
      JoinedReadsBack(parts);
      JoinedNotBlank(parts);
    }
  }

  lemma JoinedNotBlank(parts: seq<Part>)
    requires parts != [] && GoodPart(parts[0])
    ensures Trim(Joined(parts)) != ""
  {
    var first := |parts[0].left|;
    WrittenShape(parts[0].value, parts[0].quoted);
    assert Joined(parts)[first] == Written(parts[0].value, parts[0].quoted)[0];
    TrimToNothing(Joined(parts));
  }

  lemma {:induction false} TrimLeftToNothing(s: string)
    ensures TrimLeft(s) == "" ==> Blank(s)
  {
    if s != "" && IsSpace(s[0]) {
      TrimLeftToNothing(s[1..]);
      assert forall i :: 1 <= i < |s| ==> s[i] == s[1..][i - 1];
    }
  }

  lemma {:induction false} TrimRightToNothing(s: string)
    ensures TrimRight(s) == "" ==> Blank(s)
  {
    if s != "" && IsSpace(s[|s| - 1]) {
      TrimRightToNothing(s[..|s| - 1]);
    }
  }

  lemma TrimToNothing(s: string)
    ensures Trim(s) == "" ==> Blank(s)
  {
    TrimRightToNothing(TrimLeft(s));
    TrimLeftToNothing(s);
  }

  /** An unquoted value without a hash sign comes back whatever follows it on the line. */
  lemma StripPlain(text: string, tail: string)
    requires text != "" && Trimmed(text) && text[0] != '"' && '#' !in text
    requires IsTail(tail) && TrimRight(tail) == tail
    ensures StripInlineComment(text + tail) == text
  {
    CutTail(tail);
    var hash := IndexOf(tail, '#');
    if hash >= 0 {
      CutAtHash(text, tail, hash);
      StripComment(text, tail[..hash], tail[hash + 1..]);
    } else {
      TrimRightPad("", tail);
      NoTail(text, tail);
      StripAt(text, text);
    }
  }

  lemma CutAtHash(text: string, tail: string, hash: nat)
    requires hash < |tail| && tail[hash] == '#'
    ensures text + tail == text + tail[..hash] + ['#'] + tail[hash + 1..]
  {
  }

  lemma NoTail(text: string, tail: string)
    requires TrimRight("" + tail) == "" && TrimRight(tail) == tail
    ensures text + tail == text
  {
    assert "" + tail == tail;
  }

  lemma StripComment(text: string, cut: string, comment: string)
    requires text != "" && Trimmed(text) && text[0] != '"' && '#' !in text && Blank(cut)
    ensures StripInlineComment(text + cut + ['#'] + comment) == text
  {
    CommentFollows(text, cut, comment);
    StripAt(text + cut + ['#'] + comment, text + cut);
    TrimAfter(text, cut);
  }

  lemma CommentFollows(text: string, cut: string, comment: string)
    requires '#' !in text && Blank(cut)
    ensures var line := (text + cut) + ['#'] + comment;
            IndexOf(line, '#') == |text + cut| && line[..|text + cut|] == text + cut
  {
    BlankFree(cut, '#');
    IndexOfFirst(text + cut, '#', comment);
  }

  /** An unquoted value is cut at its first hash sign, if it has one. */
  lemma StripAt(value: string, head: string)
    requires value != "" && value[0] != '"' && head <= value
    requires if head == value then '#' !in value else IndexOf(value, '#') == |head|
    ensures StripInlineComment(value) == if head == value then value else Trim(head)
  {
    IndexOfNone(value, '#');
  }

  lemma StripArray(parts: seq<Part>, inside: string, tail: string)
    requires Blank(inside) && (forall i :: 0 <= i < |parts| ==> GoodPart(parts[i]))
    requires IsTail(tail) && TrimRight(tail) == tail
    ensures StripInlineComment(ArrayText(parts, inside) + tail) == ArrayText(parts, inside)
  {
    JoinedFree(parts, '#');
    BlankFree(inside, '#');
    StripPlain(ArrayText(parts, inside), tail);
  }

  lemma SignalsReadBack(p: Parsed, item: Item, env: string -> string)
    requires item.AssignSignals? && Good(item) && p.section.ExportSection? && p.exports != []
    ensures ParseLine(p, Render(item), env) ==
            p.(exports := p.exports[..|p.exports| - 1] + [Effect(p.exports[|p.exports| - 1], item, env)])
  {
    var s, text := item.arraySpacing, ArrayText(item.parts, item.inside);
    FieldTextsArePlain(Id);
    ReadLine(p, s, SIGNALS, text, env);
    IsTailTrimmed(s.tail);
    TrimRightTwice(s.tail);
    StripArray(item.parts, item.inside, TrimRight(s.tail));
    ApplySignals(p.exports[|p.exports| - 1], item.parts, item.inside, env);
  }

  lemma ApplySignals(t: ExportTarget, parts: seq<Part>, inside: string, env: string -> string)
    requires Blank(inside) && forall i :: 0 <= i < |parts| ==> GoodPart(parts[i])
    ensures ApplyExportKey(t, SIGNALS, ArrayText(parts, inside), env) == t.(signals := Values(parts))
  {
    KeysAreRecognized(Id);
    ArrayReadsBack(parts, inside);
  }

  // ---------------------------------------------------------------- the older section

  lemma QuotedLine(item: Item)
    requires item.Assign? && Good(item)
    ensures var line := Trim(Render(item));
            && line != "" && line[0] != '#' && line[0] != '[' && !StartsWith(line, HEADER)
            && SplitKV(line) == Some(KV(FieldText(item.field), Written(item.value, item.quoted)))
  {
    WrittenShape(item.value, item.quoted);
    var s := item.spacing;
    FieldTextsArePlain(item.field);
    ReadKV(s, FieldText(item.field), Written(item.value, item.quoted));
    IsTailTrimmed(s.tail);
    TrimRightTwice(s.tail);
    StripWritten(item.value, item.quoted, TrimRight(s.tail));
  }

  lemma SignalsLine(item: Item)
    requires item.AssignSignals? && Good(item)
    ensures var line := Trim(Render(item));
            && line != "" && line[0] != '#' && line[0] != '[' && !StartsWith(line, HEADER)
            && SplitKV(line).Some? && SplitKV(line).value.key == SIGNALS
  {
    FieldTextsArePlain(Id);
    BracketShape(if item.parts == [] then item.inside else Joined(item.parts));
    ReadKV(item.arraySpacing, SIGNALS, ArrayText(item.parts, item.inside));
  }

  /** What a line of the older section does, by its key. */
  lemma ServerLine(p: Parsed, text: string, kv: KV, env: string -> string)
    requires p.section.ServerSection?
    requires var line := Trim(text);
             line != "" && line[0] != '#' && line[0] != '[' && !StartsWith(line, HEADER) && SplitKV(line) == Some(kv)
    ensures ParseLine(p, text, env) ==
            if kv.key == "endpoint" then p.(server := p.server.(endpoint := Unquote(kv.value)))
            else if kv.key == "token" then p.(server := p.server.(token := ExpandEnv(Unquote(kv.value), env)))
            else p
  {
  }

  lemma ServerKeys(f: Field)
    ensures FieldText(f) == "endpoint" <==> f.Endpoint?
    ensures FieldText(f) == "token" <==> f.Token?
    ensures SIGNALS != "endpoint" && SIGNALS != "token"
  {
  }

  lemma ServerAssign(p: Parsed, item: Item, env: string -> string)
    requires item.Assign? && Good(item) && p.section.ServerSection?
    ensures ParseLine(p, Render(item), env) == p.(server := ServerEffect(p.server, item, env))
  {
    QuotedLine(item);
    UnquoteWritten(item.value, item.quoted);
    ServerKeys(item.field);
    ServerLine(p, Render(item), KV(FieldText(item.field), Written(item.value, item.quoted)), env);
  }

  lemma ServerItemReadsBack(p: Parsed, item: Item, env: string -> string)
    requires Good(item) && p.section.ServerSection?
    ensures ParseLine(p, Render(item), env) == p.(server := ServerEffect(p.server, item, env))
  {
    if item.Assign? {
      ServerAssign(p, item, env);
    } else if item.AssignSignals? {
      SignalsLine(item);
      ServerKeys(Id);
      ServerLine(p, Render(item), SplitKV(Trim(Render(item))).value, env);
    }
  }

  // ---------------------------------------------------------------- a whole file

  /** A section: its header line, with anything after the closing brackets, and what follows. */
  datatype Block =
    | ExportBlock(left: string, rest: string, items: seq<Item>)
    | ServerBlock(left: string, rest: string, items: seq<Item>)
    | OtherBlock(header: string, lines: seq<string>)

  /** Lines before the first section, and the sections in any order. */
  datatype Document = Document(preamble: seq<string>, blocks: seq<Block>)

  const HEADER := "[[export]]"
  const SERVER_HEADER := "[server]"

  function RenderAll(items: seq<Item>): seq<string> {
    if items == [] then [] else RenderAll(items[..|items| - 1]) + [Render(items[|items| - 1])]
  }

  function BlockLines(b: Block): seq<string> {
    match b
    case ExportBlock(left, rest, items) => [left + HEADER + rest] + RenderAll(items)
    case ServerBlock(left, rest, items) => [left + SERVER_HEADER + rest] + RenderAll(items)
    case OtherBlock(header, lines) => [header] + lines
  }

  function AllLines(blocks: seq<Block>): seq<string> {
    if blocks == [] then [] else AllLines(blocks[..|blocks| - 1]) + BlockLines(blocks[|blocks| - 1])
  }

  function DocumentLines(doc: Document): seq<string> {
    doc.preamble + AllLines(doc.blocks)
  }

  /** The target a block describes: its items one after the other, a later one overriding an earlier. */
  function Described(items: seq<Item>, env: string -> string): ExportTarget {
    if items == [] then UNSET else Effect(Described(items[..|items| - 1], env), items[|items| - 1], env)
  }

  /** The targets of the export blocks, in order. */
  function Exports(blocks: seq<Block>, env: string -> string): seq<ExportTarget> {
    if blocks == [] then []
    else
      var last := blocks[|blocks| - 1];
      Exports(blocks[..|blocks| - 1], env) + (if last.ExportBlock? then [Described(last.items, env)] else [])
  }

  function ServerAfter(t: ExportTarget, items: seq<Item>, env: string -> string): ExportTarget {
    if items == [] then t else ServerEffect(ServerAfter(t, items[..|items| - 1], env), items[|items| - 1], env)
  }

  /** What all server sections together say. */
  function ServerOf(blocks: seq<Block>, env: string -> string): ExportTarget {
    if blocks == [] then UNSET
    else
      var last, before := blocks[|blocks| - 1], ServerOf(blocks[..|blocks| - 1], env);
      if last.ServerBlock? then ServerAfter(before, last.items, env) else before
  }

  predicate HasServer(blocks: seq<Block>) {
    exists i :: 0 <= i < |blocks| && blocks[i].ServerBlock?
  }

  /** The targets a document describes: that of the server sections first, if there is one. */
  function DescribedAll(doc: Document, env: string -> string): seq<ExportTarget> {
    (if HasServer(doc.blocks) then [ServerOf(doc.blocks, env).(id := "server")] else []) + Exports(doc.blocks, env)
  }

  /** A line that opens no section. */
  predicate OpensNothing(line: string) {
    Trim(line) == "" || Trim(line)[0] != '['
  }

  predicate OpensOther(line: string) {
    Trim(line) != "" && Trim(line)[0] == '[' && !StartsWith(Trim(line), HEADER) && !StartsWith(Trim(line), SERVER_HEADER)
  }

  ghost predicate GoodBlock(b: Block) {
    match b
    case ExportBlock(left, _, items) => Blank(left) && forall i :: 0 <= i < |items| ==> Good(items[i])
    case ServerBlock(left, _, items) => Blank(left) && forall i :: 0 <= i < |items| ==> Good(items[i])
    case OtherBlock(header, lines) => OpensOther(header) && forall i :: 0 <= i < |lines| ==> OpensNothing(lines[i])
  }

  ghost predicate GoodDocument(doc: Document) {
    && (forall i :: 0 <= i < |doc.preamble| ==> OpensNothing(doc.preamble[i]))
    && (forall i :: 0 <= i < |doc.blocks| ==> GoodBlock(doc.blocks[i]))
    && (forall i :: 0 <= i < |DocumentLines(doc)| ==>
          NEWLINE !in DocumentLines(doc)[i] && |DocumentLines(doc)[i]| < MAX_LINE)
  }

  lemma {:induction false} ParseFromAppend(p: Parsed, a: seq<string>, b: seq<string>, env: string -> string)
    ensures ParseFrom(p, a + b, env) == ParseFrom(ParseFrom(p, a, env), b, env)
  {
    if b == [] {
      assert a + b == a;
    } else {
      assert (a + b)[..|a + b| - 1] == a + b[..|b| - 1];
      ParseFromAppend(p, a, b[..|b| - 1], env);
    }
  }

  lemma HeaderReadsBack(p: Parsed, left: string, rest: string, env: string -> string)
    requires Blank(left)
    ensures ParseLine(p, left + HEADER + rest, env) == p.(section := ExportSection, exports := p.exports + [UNSET])
  {
    TrimCore(left, HEADER, rest);
    var line := HEADER + TrimRight(rest);
    assert line[..|HEADER|] == HEADER;
    assert line[0] == '[';
  }

  lemma ItemReadsBack(p: Parsed, item: Item, env: string -> string)
    requires Good(item) && p.section.ExportSection? && p.exports != []
    ensures ParseLine(p, Render(item), env) ==
            p.(exports := p.exports[..|p.exports| - 1] + [Effect(p.exports[|p.exports| - 1], item, env)])
  {
    match item
    case Noise(line) => assert p.exports == p.exports[..|p.exports| - 1] + [p.exports[|p.exports| - 1]];
    case Assign(_, _, _, _) => AssignReadsBack(p, item, env);
    case AssignSignals(_, _, _) => SignalsReadBack(p, item, env);
  }

  lemma {:induction false} ItemsReadBack(p: Parsed, before: seq<ExportTarget>, items: seq<Item>, env: string -> string)
    requires p.section.ExportSection? && p.exports == before + [UNSET]
    requires forall i :: 0 <= i < |items| ==> Good(items[i])
    ensures ParseFrom(p, RenderAll(items), env) == p.(exports := before + [Described(items, env)])
  {
    if items != [] {
      var front, last := items[..|items| - 1], items[|items| - 1];
      ItemsReadBack(p, before, front, env);
      LastLine(p, RenderAll(front), Render(last), env);
      var q := p.(exports := before + [Described(front, env)]);
      ItemReadsBack(q, last, env);
      assert q.exports[..|q.exports| - 1] == before;
    }
  }

  lemma LastLine(p: Parsed, front: seq<string>, last: string, env: string -> string)
    ensures ParseFrom(p, front + [last], env) == ParseLine(ParseFrom(p, front, env), last, env)
  {
    assert (front + [last])[..|front|] == front;
  }

  lemma ExportBlockReadsBack(p: Parsed, b: Block, env: string -> string)
    requires b.ExportBlock? && GoodBlock(b)
    ensures ParseFrom(p, BlockLines(b), env) == p.(section := ExportSection, exports := p.exports + [Described(b.items, env)])
  {
    var header := b.left + HEADER + b.rest;
    HeadedBlock(p, header, RenderAll(b.items), env);
    HeaderReadsBack(p, b.left, b.rest, env);
    ItemsReadBack(p.(section := ExportSection, exports := p.exports + [UNSET]), p.exports, b.items, env);
  }

  lemma HeadedBlock(p: Parsed, header: string, lines: seq<string>, env: string -> string)
    ensures ParseFrom(p, [header] + lines, env) == ParseFrom(ParseLine(p, header, env), lines, env)
  {
    ParseFromAppend(p, [header], lines, env);
    LastLine(p, [], header, env);
    assert [] + [header] == [header];
  }

  lemma ServerHeaderReadsBack(p: Parsed, left: string, rest: string, env: string -> string)
    requires Blank(left)
    ensures ParseLine(p, left + SERVER_HEADER + rest, env) == p.(section := ServerSection, hasServer := true)
  {
    TrimCore(left, SERVER_HEADER, rest);
    var line := SERVER_HEADER + TrimRight(rest);
    assert line[..|SERVER_HEADER|] == SERVER_HEADER;
    assert line[0] == '[' && line[1] == 's';
    assert |line| >= 10 ==> line[..10][1] == 's';
  }

  lemma {:induction false} ServerItemsReadBack(p: Parsed, items: seq<Item>, env: string -> string)
    requires p.section.ServerSection? && forall i :: 0 <= i < |items| ==> Good(items[i])
    ensures ParseFrom(p, RenderAll(items), env) == p.(server := ServerAfter(p.server, items, env))
  {
    if items != [] {
      var front, last := items[..|items| - 1], items[|items| - 1];
      ServerItemsReadBack(p, front, env);
      LastLine(p, RenderAll(front), Render(last), env);
      ServerItemReadsBack(p.(server := ServerAfter(p.server, front, env)), last, env);
    }
  }

  lemma ServerBlockReadsBack(p: Parsed, b: Block, env: string -> string)
    requires b.ServerBlock? && GoodBlock(b)
    ensures ParseFrom(p, BlockLines(b), env) ==
            p.(section := ServerSection, hasServer := true, server := ServerAfter(p.server, b.items, env))
  {
    HeadedBlock(p, b.left + SERVER_HEADER + b.rest, RenderAll(b.items), env);
    ServerHeaderReadsBack(p, b.left, b.rest, env);
    ServerItemsReadBack(p.(section := ServerSection, hasServer := true), b.items, env);
  }

  lemma {:induction false} IgnoredLines(p: Parsed, lines: seq<string>, env: string -> string)
    requires p.section.NoSection? && forall i :: 0 <= i < |lines| ==> OpensNothing(lines[i])
    ensures ParseFrom(p, lines, env) == p
  {
    if lines != [] {
      IgnoredLines(p, lines[..|lines| - 1], env);
      var line := Trim(lines[|lines| - 1]);
      if line != "" { NotASection(line); }
    }
  }

  lemma OtherBlockReadsBack(p: Parsed, b: Block, env: string -> string)
    requires b.OtherBlock? && GoodBlock(b)
    ensures ParseFrom(p, BlockLines(b), env) == p.(section := NoSection)
  {
    HeadedBlock(p, b.header, b.lines, env);
    IgnoredLines(p.(section := NoSection), b.lines, env);
  }

  /** The parser's state after the sections, apart from which one it is in. */
  ghost predicate HasRead(p: Parsed, blocks: seq<Block>, env: string -> string) {
    p.exports == Exports(blocks, env) && p.server == ServerOf(blocks, env) && p.hasServer == HasServer(blocks)
  }

  lemma BlockReadsBack(p: Parsed, blocks: seq<Block>, b: Block, env: string -> string)
    requires HasRead(p, blocks, env) && GoodBlock(b)
    ensures HasRead(ParseFrom(p, BlockLines(b), env), blocks + [b], env)
  {
    var all := blocks + [b];
    assert all[..|blocks|] == blocks && all[|blocks|] == b;
    HasServerSnoc(blocks, b);
    match b
    case ExportBlock(_, _, _) => ExportBlockReadsBack(p, b, env);
    case ServerBlock(_, _, _) => ServerBlockReadsBack(p, b, env);
    case OtherBlock(_, _) => OtherBlockReadsBack(p, b, env);
  }

  lemma HasServerSnoc(blocks: seq<Block>, b: Block)
    ensures HasServer(blocks + [b]) <==> HasServer(blocks) || b.ServerBlock?
  {
    if i :| 0 <= i < |blocks| && blocks[i].ServerBlock? {
      assert (blocks + [b])[i] == blocks[i];
    }
    assert (blocks + [b])[|blocks|] == b;
  }

  lemma {:induction false} BlocksReadBack(blocks: seq<Block>, env: string -> string)
    requires forall i :: 0 <= i < |blocks| ==> GoodBlock(blocks[i])
    ensures HasRead(ParseFrom(NOTHING, AllLines(blocks), env), blocks, env)
  {
    if blocks != [] {
      var front, last := blocks[..|blocks| - 1], blocks[|blocks| - 1];
      BlocksReadBack(front, env);
      ParseFromAppend(NOTHING, AllLines(front), BlockLines(last), env);
      BlockReadsBack(ParseFrom(NOTHING, AllLines(front), env), front, last, env);
      assert blocks == front + [last];
    }
  }

  // ---------------------------------------------------------------- through the scanner

  function DropAll(lines: seq<string>): seq<string> {
    if lines == [] then [] else [DropCR(lines[0])] + DropAll(lines[1..])
  }

  lemma {:induction false} ShortLinesScan(lines: seq<string>)
    requires forall i :: 0 <= i < |lines| ==> |lines[i]| < MAX_LINE
    ensures Scanned(lines, MAX_LINE) == Scan(DropAll(lines), true)
  {
    if lines != [] {
      ShortLinesScan(lines[1..]);
    }
  }

  lemma OnlyTrimmedCounts(p: Parsed, a: string, b: string, env: string -> string)
    requires Trim(a) == Trim(b)
    ensures ParseLine(p, a, env) == ParseLine(p, b, env)
  {
  }

  lemma DropCRTrims(line: string)
    ensures Trim(DropCR(line)) == Trim(line)
  {
    if line != "" && line[|line| - 1] == '\r' {
      TrimIgnoresLast(line[..|line| - 1], '\r');
      assert line == line[..|line| - 1] + ['\r'];
    }
  }

  lemma CarriageReturnIgnored(p: Parsed, line: string, env: string -> string)
    ensures ParseLine(p, DropCR(line), env) == ParseLine(p, line, env)
  {
    DropCRTrims(line);
    OnlyTrimmedCounts(p, DropCR(line), line, env);
  }

  lemma {:induction false} CarriageReturnsIgnored(p: Parsed, lines: seq<string>, env: string -> string)
    ensures ParseFrom(p, DropAll(lines), env) == ParseFrom(p, lines, env)
    decreases |lines|
  {
    if lines != [] {
      var first, rest := lines[0], lines[1..];
      ParseFromAppend(p, [DropCR(first)], DropAll(rest), env);
      ParseFromAppend(p, [first], rest, env);
      assert lines == [first] + rest;
      LastLine(p, [], first, env);
      LastLine(p, [], DropCR(first), env);
      assert [] + [first] == [first] && [] + [DropCR(first)] == [DropCR(first)];
      CarriageReturnIgnored(p, first, env);
      CarriageReturnsIgnored(ParseLine(p, first, env), rest, env);
    }
  }

  lemma DocumentParses(doc: Document, env: string -> string)
    requires GoodDocument(doc)
    ensures HasRead(ParseFrom(NOTHING, DocumentLines(doc), env), doc.blocks, env)
  {
    ParseFromAppend(NOTHING, doc.preamble, AllLines(doc.blocks), env);
    IgnoredLines(NOTHING, doc.preamble, env);
    BlocksReadBack(doc.blocks, env);
  }

  /** Targets with distinct, non-empty ids whose encodings and signals are known or left open. */
  ghost predicate Acceptable(targets: seq<ExportTarget>) {
    && (forall i :: 0 <= i < |targets| ==> targets[i].id != "")
    && (forall i, j :: 0 <= i < j < |targets| ==> targets[i].id != targets[j].id)
    && (forall i :: 0 <= i < |targets| ==> targets[i].encoding in ["", "json", "protobuf"])
    && (forall i, s :: 0 <= i < |targets| && s in targets[i].signals ==> s in ["logs", "metrics"])
  }

  /**
   Read-back: a document of export blocks, server sections and other sections loads as exactly the
   normalized targets it describes, in order, if and only if these are acceptable.
   */
  lemma DocumentReadsBackExactly(doc: Document, env: string -> string)
    requires GoodDocument(doc)
    ensures var described, loaded := DescribedAll(doc, env), Load(Some(Unlines(DocumentLines(doc))), env);
            && (loaded.Targets? <==> Acceptable(described))
            && (loaded.Targets? ==> loaded.targets == Map(Normalize, described))
  {
    DocumentLoads(doc, env);
    DocumentParses(doc, env);
    TargetsAccepted(ParseFrom(NOTHING, DocumentLines(doc), env), DescribedAll(doc, env));
  }

  lemma DocumentLoads(doc: Document, env: string -> string)
    requires GoodDocument(doc)
    ensures Load(Some(Unlines(DocumentLines(doc))), env) == Checked(ParseFrom(NOTHING, DocumentLines(doc), env))
  {
    var lines := DocumentLines(doc);
    RawLinesOfUnlines(lines);
    ShortLinesScan(lines);
    CarriageReturnsIgnored(NOTHING, lines, env);
  }

  lemma NormalizedIds(targets: seq<ExportTarget>)
    ensures UniqueIds(Map(Normalize, targets)) <==> forall i, j :: 0 <= i < j < |targets| ==> targets[i].id != targets[j].id
  {
    forall i | 0 <= i < |targets|
      ensures Map(Normalize, targets)[i].id == targets[i].id
    {
      NormalizeExactly(targets[i]);
    }
  }

  lemma NormalizedTarget(t: ExportTarget)
    ensures Normalize(t).encoding == "json" || Normalize(t).encoding == "protobuf" <==> t.encoding in ["", "json", "protobuf"]
    ensures (forall s :: s in Normalize(t).signals ==> s == "logs" || s == "metrics") <==>
            (forall s :: s in t.signals ==> s in ["logs", "metrics"])
  {
    NormalizeExactly(t);
  }

  /** Whether the normalized targets are all known, in terms of the targets themselves. */
  lemma NormalizedKnown(targets: seq<ExportTarget>)
    ensures var normalized := Map(Normalize, targets);
            && ((forall i :: 0 <= i < |normalized| ==> normalized[i].encoding == "json" || normalized[i].encoding == "protobuf")
                <==> forall i :: 0 <= i < |targets| ==> targets[i].encoding in ["", "json", "protobuf"])
            && ((forall i, s :: 0 <= i < |normalized| && s in normalized[i].signals ==> s == "logs" || s == "metrics")
                <==> forall i, s :: 0 <= i < |targets| && s in targets[i].signals ==> s in ["logs", "metrics"])
  {
    var normalized := Map(Normalize, targets);
    forall i | 0 <= i < |targets|
      ensures normalized[i].encoding == "json" || normalized[i].encoding == "protobuf" <==> targets[i].encoding in ["", "json", "protobuf"]
      ensures (forall s :: s in normalized[i].signals ==> s == "logs" || s == "metrics") <==>
              (forall s :: s in targets[i].signals ==> s in ["logs", "metrics"])
    {
      assert normalized[i] == Normalize(targets[i]);
      NormalizedTarget(targets[i]);
    }
  }

  lemma TargetsAccepted(p: Parsed, described: seq<ExportTarget>)
    requires described == (if p.hasServer then [p.server.(id := "server")] else []) + p.exports
    ensures Checked(p).Targets? <==> Acceptable(described)
    ensures Checked(p).Targets? ==> Checked(p).targets == Map(Normalize, described)
  {
    AcceptedExactly(p);
    CollectedTargets(p, described);
    NormalizedIds(described);
    NormalizedKnown(described);
    ServerHasId(p, described);
  }

  lemma CollectedTargets(p: Parsed, described: seq<ExportTarget>)
    requires described == (if p.hasServer then [p.server.(id := "server")] else []) + p.exports
    ensures Collected(p) == Map(Normalize, described)
  {
  }

  lemma ServerHasId(p: Parsed, described: seq<ExportTarget>)
    requires described == (if p.hasServer then [p.server.(id := "server")] else []) + p.exports
    ensures (forall i :: 0 <= i < |described| ==> described[i].id != "") <==> (forall i :: 0 <= i < |p.exports| ==> p.exports[i].id != "")
  {
    var n := if p.hasServer then 1 else 0;
    assert forall i :: 0 <= i < |p.exports| ==> described[n + i] == p.exports[i];
    assert forall i :: n <= i < |described| ==> described[i] == p.exports[i - n];
  }
}
