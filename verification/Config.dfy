/** The line-based configuration parser and the checks on its result. */
module Config {
  import opened Common
  import opened TextLines

  datatype ExportTarget = ExportTarget(
    id: string, endpoint: string, token: string, authHeader: string, authScheme: string, encoding: string,
    signals: seq<string>)

  const UNSET := ExportTarget("", "", "", "", "", "", [])

  const SERVER_ID := "server"
  const MAX_LINE: nat := 65536

  /** The keys of an export block that hold one string. */
  datatype Field = Id | Endpoint | Token | AuthHeader | AuthScheme | Encoding

  function FieldText(f: Field): string {
    match f
    case Id => "id"
    case Endpoint => "endpoint"
    case Token => "token"
    case AuthHeader => "auth_header"
    case AuthScheme => "auth_scheme"
    case Encoding => "encoding"
  }

  const SIGNALS := "signals"

  function FieldOf(key: string): Option<Field> {
    if key == "id" then Some(Id)
    else if key == "endpoint" then Some(Endpoint)
    else if key == "token" then Some(Token)
    else if key == "auth_header" then Some(AuthHeader)
    else if key == "auth_scheme" then Some(AuthScheme)
    else if key == "encoding" then Some(Encoding)
    else None
  }

  // ---------------------------------------------------------------- one line

  function Unquote(v: string): string {
    if |v| >= 2 && v[0] == '"' && v[|v| - 1] == '"' then v[1..|v| - 1] else v
  }

  function StripInlineComment(value: string): string {
    if value != "" && value[0] == '"' then
      var end := IndexOf(value[1..], '"');
      if end >= 0 then
        var head, tail := value[..end + 2], value[end + 2..];
        var hash := IndexOf(tail, '#');
        Trim(head + (if hash >= 0 then tail[..hash] else tail))
      else value
    else
      var hash := IndexOf(value, '#');
      if hash >= 0 then Trim(value[..hash]) else value
  }

  datatype KV = KV(key: string, value: string)

  function SplitKV(line: string): Option<KV> {
    var eq := IndexOf(line, '=');
    if eq < 0 then None
    else
      var key := Trim(line[..eq]);
      if key == "" then None else Some(KV(key, StripInlineComment(Trim(line[eq + 1..]))))
  }

  /** "${NAME}" stands for an environment variable; everything else for itself. */
  function ExpandEnv(v: string, env: string -> string): string {
    if IsReference(v) then env(v[2..|v| - 1]) else v
  }

  predicate IsReference(v: string) {
    |v| > 3 && v[0] == '$' && v[1] == '{' && v[|v| - 1] == '}'
  }

  /** strings.Split on one character: always at least one part. */
  function SplitOn(s: string, c: char): (r: seq<string>)
    ensures r != []
    decreases |s|
  {
    var i := IndexOf(s, c);
    if i < 0 then [s] else [s[..i]] + SplitOn(s[i + 1..], c)
  }

  function NonEmptyParts(parts: seq<string>): seq<string> {
    if parts == [] then []
    else
      var s := Unquote(Trim(parts[0]));
      (if s == "" then [] else [s]) + NonEmptyParts(parts[1..])
  }

  function ParseStringArray(value: string): seq<string> {
    var v := Trim(value);
    var body := if v != "" && v[0] == '[' then v[1..] else v;
    var inner := if body != "" && body[|body| - 1] == ']' then body[..|body| - 1] else body;
    if Trim(inner) == "" then [] else NonEmptyParts(SplitOn(inner, ','))
  }

  function SetField(t: ExportTarget, f: Field, v: string, env: string -> string): ExportTarget {
    match f
    case Id => t.(id := v)
    case Endpoint => t.(endpoint := v)
    case Token => t.(token := ExpandEnv(v, env))
    case AuthHeader => t.(authHeader := v)
    case AuthScheme => t.(authScheme := v)
    case Encoding => t.(encoding := v)
  }

  /** applyExportKey */
  function ApplyExportKey(t: ExportTarget, key: string, value: string, env: string -> string): ExportTarget {
    match FieldOf(key)
    case Some(f) => SetField(t, f, Unquote(value), env)
    case None => if key == SIGNALS then t.(signals := ParseStringArray(value)) else t
  }

  datatype Section = NoSection | ServerSection | ExportSection

  datatype Parsed = Parsed(server: ExportTarget, hasServer: bool, exports: seq<ExportTarget>, section: Section)

  predicate StartsWith(s: string, prefix: string) {
    |prefix| <= |s| && s[..|prefix|] == prefix
  }

  /** The loop body of LoadConfig. */
  function ParseLine(p: Parsed, text: string, env: string -> string): Parsed {
    var line := Trim(text);
    if line == "" || line[0] == '#' then p
    else if StartsWith(line, "[[export]]") then p.(section := ExportSection, exports := p.exports + [UNSET])
    else if line[0] == '[' then
      if StartsWith(line, "[server]") then p.(section := ServerSection, hasServer := true)
      else p.(section := NoSection)
    else
      match SplitKV(line)
      case None => p
      case Some(kv) =>
        match p.section
        case NoSection => p
        case ServerSection =>
          if kv.key == "endpoint" then p.(server := p.server.(endpoint := Unquote(kv.value)))
          else if kv.key == "token" then p.(server := p.server.(token := ExpandEnv(Unquote(kv.value), env)))
          else p
        case ExportSection =>
          if p.exports == [] then p
          else
            var n := |p.exports| - 1;
            p.(exports := p.exports[..n] + [ApplyExportKey(p.exports[n], kv.key, kv.value, env)])
  }

  const NOTHING := Parsed(UNSET, false, [], NoSection)

  /** The state after more lines. */
  function ParseFrom(p: Parsed, lines: seq<string>, env: string -> string): Parsed {
    if lines == [] then p
    else ParseLine(ParseFrom(p, lines[..|lines| - 1], env), lines[|lines| - 1], env)
  }

  // ---------------------------------------------------------------- the whole file

  /** normalizeTarget */
  function Normalize(t: ExportTarget): ExportTarget {
    var header := if t.authHeader == "" then "Authorization" else t.authHeader;
    t.(authHeader := header,
       authScheme := if header == "Authorization" && t.authScheme == "" then "Bearer" else t.authScheme,
       encoding := if t.encoding == "" then "json" else t.encoding,
       signals := if t.signals == [] then ["logs"] else t.signals)
  }

  /** A target as its file describes it, with what it leaves open filled in; everything it gives is kept. */
  lemma NormalizeExactly(t: ExportTarget)
    ensures var n := Normalize(t);
            && n.id == t.id && n.endpoint == t.endpoint && n.token == t.token
            && (if t.authHeader == "" then n.authHeader == "Authorization" else n.authHeader == t.authHeader)
            && (if t.authScheme == "" && t.authHeader in ["", "Authorization"] then n.authScheme == "Bearer"
                else n.authScheme == t.authScheme)
            && (if t.encoding == "" then n.encoding == "json" else n.encoding == t.encoding)
            && (if t.signals == [] then n.signals == ["logs"] else n.signals == t.signals)
    ensures Normalize(Normalize(t)) == Normalize(t)
  {
  }

  /** A reference stands for the variable it names; an empty name is no reference, nor is anything else. */
  lemma ExpandEnvExactly(v: string, name: string, env: string -> string)
    ensures name != "" ==> ExpandEnv("${" + name + "}", env) == env(name)
    ensures (forall x :: x != "" ==> v != "${" + x + "}") ==> ExpandEnv(v, env) == v
  {
    var text := "${" + name + "}";
    assert text[2..|text| - 1] == name;
    if IsReference(v) {
      assert v == "${" + v[2..|v| - 1] + "}";
    }
  }

  datatype Loaded =
    | Targets(targets: seq<ExportTarget>)
    | LineTooLong
    | MissingId
    | DuplicateId(id: string)
    | UnknownEncoding(id: string)
    | UnknownSignal(id: string)

  predicate KnownEncoding(t: ExportTarget) {
    t.encoding == "json" || t.encoding == "protobuf"
  }

  predicate KnownSignals(t: ExportTarget) {
    forall s :: s in t.signals ==> s == "logs" || s == "metrics"
  }

  /** The first target, if any, whose id repeats an earlier one. */
  function FirstDuplicate(targets: seq<ExportTarget>, n: nat): Option<string>
    requires n <= |targets|
    decreases |targets| - n
  {
    if n == |targets| then None
    else if exists i :: 0 <= i < n && targets[i].id == targets[n].id then Some(targets[n].id)
    else FirstDuplicate(targets, n + 1)
  }

  function FirstInvalid(targets: seq<ExportTarget>): Option<Loaded> {
    if targets == [] then None
    else if !KnownEncoding(targets[0]) then Some(UnknownEncoding(targets[0].id))
    else if !KnownSignals(targets[0]) then Some(UnknownSignal(targets[0].id))
    else FirstInvalid(targets[1..])
  }

  /** The targets in file order, the legacy section first. */
  function Collected(p: Parsed): seq<ExportTarget> {
    (if p.hasServer then [Normalize(p.server.(id := SERVER_ID))] else []) + Map(Normalize, p.exports)
  }

  function Checked(p: Parsed): Loaded {
    if exists i :: 0 <= i < |p.exports| && p.exports[i].id == "" then MissingId
    else Judged(Collected(p))
  }

  function Judged(targets: seq<ExportTarget>): Loaded {
    match FirstDuplicate(targets, 0)
    case Some(id) => DuplicateId(id)
    case None =>
      match FirstInvalid(targets)
      case Some(error) => error
      case None => Targets(targets)
  }

  function ScanOf(text: string): Scan {
    ScanText(text, MAX_LINE)
  }

  /** LoadConfig as a function of the file's text; None is a missing file. */
  function Load(text: Option<string>, env: string -> string): Loaded {
    match text
    case None => Targets([])
    case Some(t) =>
      var scan := ScanOf(t);
      if !scan.ok then LineTooLong else Checked(ParseFrom(NOTHING, scan.lines, env))
  }

  /** The scanning loop of LoadConfig with its accumulators. */
  method LoadConfig(text: Option<string>, env: string -> string) returns (r: Loaded)
    ensures r == Load(text, env)
  {
    if text.None? {
      return Targets([]);
    }
    var scan := ScanOf(text.value);
    var server, hasServer := UNSET, false;
    var exports: seq<ExportTarget> := [];
    var section := NoSection;
    for i := 0 to |scan.lines|
      invariant Parsed(server, hasServer, exports, section) == ParseFrom(NOTHING, scan.lines[..i], env)
    {
      assert scan.lines[..i + 1][..i] == scan.lines[..i];
      var line := Trim(scan.lines[i]);
      if line == "" || line[0] == '#' {
        continue;
      }
      if StartsWith(line, "[[export]]") {
        section := ExportSection;
        exports := exports + [UNSET];
        continue;
      }
      if line[0] == '[' {
        if StartsWith(line, "[server]") {
          section := ServerSection;
          hasServer := true;
        } else {
          section := NoSection;
        }
        continue;
      }
      var kv := SplitKV(line);
      if kv.None? {
        continue;
      }
      match section
      case NoSection =>
      case ServerSection =>
        if kv.value.key == "endpoint" {
          server := server.(endpoint := Unquote(kv.value.value));
        } else if kv.value.key == "token" {
          server := server.(token := ExpandEnv(Unquote(kv.value.value), env));
        }
      case ExportSection =>
        if exports != [] {
          var n := |exports| - 1;
          exports := exports[..n] + [ApplyExportKey(exports[n], kv.value.key, kv.value.value, env)];
        }
    }
    assert scan.lines[..|scan.lines|] == scan.lines;
    if !scan.ok {
      return LineTooLong;
    }
    r := Checked(Parsed(server, hasServer, exports, section));
  }

  // ---------------------------------------------------------------- what is accepted

  ghost predicate UniqueIds(targets: seq<ExportTarget>) {
    forall i, j :: 0 <= i < j < |targets| ==> targets[i].id != targets[j].id
  }

  lemma {:induction false} DuplicatesFound(targets: seq<ExportTarget>, n: nat)
    requires n <= |targets|
    ensures FirstDuplicate(targets, n).None? <==>
            forall i, j :: 0 <= i < j < |targets| && n <= j ==> targets[i].id != targets[j].id
    decreases |targets| - n
  {
    if n < |targets| {
      DuplicatesFound(targets, n + 1);
    }
  }

  lemma {:induction false} InvalidFound(targets: seq<ExportTarget>)
    ensures FirstInvalid(targets).None? <==> forall i :: 0 <= i < |targets| ==> KnownEncoding(targets[i]) && KnownSignals(targets[i])
    ensures FirstInvalid(targets).Some? ==> !FirstInvalid(targets).value.Targets?
  {
    if targets != [] {
      InvalidFound(targets[1..]);
      assert forall i :: 1 <= i < |targets| ==> targets[i] == targets[1..][i - 1];
    }
  }

  /**
   A parsed file is accepted exactly when every export has an id, no two targets share one, and all
   encodings and signals are known; it then yields the normalized targets.
   */
  lemma AcceptedExactly(p: Parsed)
    ensures var targets := Collected(p);
            && (Checked(p).Targets? <==>
                  && (forall i :: 0 <= i < |p.exports| ==> p.exports[i].id != "")
                  && UniqueIds(targets)
                  && (forall i :: 0 <= i < |targets| ==> targets[i].encoding == "json" || targets[i].encoding == "protobuf")
                  && (forall i, s :: 0 <= i < |targets| && s in targets[i].signals ==> s == "logs" || s == "metrics"))
            && (Checked(p).Targets? ==> Checked(p).targets == targets)
  {
    JudgedExactly(Collected(p));
  }

  lemma JudgedExactly(targets: seq<ExportTarget>)
    ensures Judged(targets).Targets? <==>
            && UniqueIds(targets)
            && (forall i :: 0 <= i < |targets| ==> targets[i].encoding == "json" || targets[i].encoding == "protobuf")
            && (forall i, s :: 0 <= i < |targets| && s in targets[i].signals ==> s == "logs" || s == "metrics")
    ensures Judged(targets).Targets? ==> Judged(targets).targets == targets
  {
    DuplicatesFound(targets, 0);
    InvalidFound(targets);
    KnownExactly(targets);
  }

  lemma KnownExactly(targets: seq<ExportTarget>)
    ensures (forall i :: 0 <= i < |targets| ==> KnownEncoding(targets[i]) && KnownSignals(targets[i])) <==>
            && (forall i :: 0 <= i < |targets| ==> targets[i].encoding == "json" || targets[i].encoding == "protobuf")
            && (forall i, s :: 0 <= i < |targets| && s in targets[i].signals ==> s == "logs" || s == "metrics")
  {
  }

  /** The target at position j is the first to repeat an id. */
  ghost predicate RepeatsFirst(targets: seq<ExportTarget>, j: int) {
    && 0 <= j < |targets| && UniqueIds(targets[..j])
    && exists i :: 0 <= i < j && targets[i].id == targets[j].id
  }

  lemma {:induction false} DuplicateFound(targets: seq<ExportTarget>, n: nat)
    requires n <= |targets| && UniqueIds(targets[..n]) && FirstDuplicate(targets, n).Some?
    ensures exists j :: RepeatsFirst(targets, j) && FirstDuplicate(targets, n) == Some(targets[j].id)
    decreases |targets| - n
  {
    if exists i :: 0 <= i < n && targets[i].id == targets[n].id {
      assert RepeatsFirst(targets, n);
    } else {
      assert forall i :: 0 <= i < n ==> targets[..n + 1][i] == targets[..n][i];
      DuplicateFound(targets, n + 1);
    }
  }

  /** The target at position i is the first with an unknown encoding or signal. */
  ghost predicate InvalidFirst(targets: seq<ExportTarget>, i: int) {
    && 0 <= i < |targets| && !(KnownEncoding(targets[i]) && KnownSignals(targets[i]))
    && forall k :: 0 <= k < i ==> KnownEncoding(targets[k]) && KnownSignals(targets[k])
  }

  lemma {:induction false} InvalidIs(targets: seq<ExportTarget>)
    requires FirstInvalid(targets).Some?
    ensures exists i :: InvalidFirst(targets, i) &&
              FirstInvalid(targets).value ==
              if KnownEncoding(targets[i]) then UnknownSignal(targets[i].id) else UnknownEncoding(targets[i].id)
  {
    if !KnownEncoding(targets[0]) || !KnownSignals(targets[0]) {
      assert InvalidFirst(targets, 0);
    } else {
      InvalidIs(targets[1..]);
      var i :| InvalidFirst(targets[1..], i) &&
               FirstInvalid(targets[1..]).value ==
               if KnownEncoding(targets[1..][i]) then UnknownSignal(targets[1..][i].id) else UnknownEncoding(targets[1..][i].id);
      InvalidLater(targets, i);
    }
  }

  lemma InvalidLater(targets: seq<ExportTarget>, i: int)
    requires targets != [] && KnownEncoding(targets[0]) && KnownSignals(targets[0]) && InvalidFirst(targets[1..], i)
    ensures InvalidFirst(targets, i + 1) && targets[i + 1] == targets[1..][i]
  {
    forall k | 0 <= k < i + 1
      ensures KnownEncoding(targets[k]) && KnownSignals(targets[k])
    {
      if k > 0 { assert targets[k] == targets[1..][k - 1]; }
    }
  }

  lemma JudgedIs(targets: seq<ExportTarget>)
    ensures !Judged(targets).MissingId? && !Judged(targets).LineTooLong?
    ensures Judged(targets).DuplicateId? <==> FirstDuplicate(targets, 0).Some?
  {
    if FirstInvalid(targets).Some? { InvalidIs(targets); }
  }

  /** A missing id comes before everything else. */
  lemma MissingIdExactly(p: Parsed)
    ensures Checked(p).MissingId? <==> exists i :: 0 <= i < |p.exports| && p.exports[i].id == ""
    ensures !Checked(p).LineTooLong?
  {
    JudgedIs(Collected(p));
  }

  lemma DuplicateOf(targets: seq<ExportTarget>)
    requires Judged(targets).DuplicateId?
    ensures exists j :: RepeatsFirst(targets, j) && Judged(targets).id == targets[j].id
  {
    JudgedIs(targets);
    DuplicateFound(targets, 0);
  }

  /** Then the first repeated id. */
  lemma DuplicateIdIs(p: Parsed)
    requires Checked(p).DuplicateId?
    ensures exists j :: RepeatsFirst(Collected(p), j) && Checked(p).id == Collected(p)[j].id
  {
    DuplicateOf(Collected(p));
  }

  /** Then the first target with an unknown encoding or, failing that, an unknown signal. */
  lemma UnknownIs(p: Parsed)
    requires Checked(p).UnknownEncoding? || Checked(p).UnknownSignal?
    ensures UniqueIds(Collected(p))
    ensures exists i :: InvalidFirst(Collected(p), i) &&
              Checked(p) == if KnownEncoding(Collected(p)[i]) then UnknownSignal(Collected(p)[i].id) else UnknownEncoding(Collected(p)[i].id)
  {
    var targets := Collected(p);
    DuplicatesFound(targets, 0);
    InvalidIs(targets);
  }

  lemma LoadFails(text: string, env: string -> string)
    ensures Load(Some(text), env).LineTooLong? <==> !Scanned(RawLines(text), 65536).ok
  {
    MissingIdExactly(ParseFrom(NOTHING, ScanOf(text).lines, env));
  }

  /** A file is refused for a long line exactly when it has one. */
  lemma TooLongExactly(text: string, env: string -> string)
    ensures Load(Some(text), env).LineTooLong? <==> exists i :: 0 <= i < |RawLines(text)| && |RawLines(text)[i]| >= 65536
  {
    LoadFails(text, env);
    var raw := RawLines(text);
    ScanFailsExactly(raw, 65536);
  }
}
