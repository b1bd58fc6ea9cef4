/**
 One line of the session index: a token-level JSON object (section 4 of RFC 8259), the canonical
 re-encoding that changes one field, and the schema of a session entry.
 */
module JsonLine {
  import opened Common
  import opened Ordering

  /** An array element as seen by a field that wants strings: a string, null, or anything else. */
  datatype Element = EStr(s: string) | ENull | EBad

  /**
   What a JSON value means to the Go decoder. VStrs is an array of strings, VMixed an array that may
   also hold nulls and other values, VOther any value no session field accepts.
   */
  datatype Value =
    | VStr(s: string)
    | VBool(b: bool)
    | VNum(n: int)
    | VStrs(ss: seq<string>)
    | VMixed(elems: seq<Element>)
    | VNull
    | VOther(text: string)

  /** A raw value keeps the bytes it was written with: equal meanings may be spelled differently. */
  datatype RawValue = RawValue(meaning: Value, spelling: nat)

  /** An object key: the fields with a fixed place in the output, and every other key by its name. */
  datatype JsonKey =
    | CodingAgent | AgentVersion | Timestamp | SessionID | Cwd | Repo | Branch
    | IsDefaultBranch | PRURLs | PRPinned | PRTitle | Transcript | ParentSessionID
    | EndedAt | EndReason | BackfillChecked | IsMerged | ReviewComments | ChangesRequested
    | Named(name: string)

  /** The one schema field without a fixed place. */
  const USER_ID := Named("user_id")

  datatype Token = LBrace | RBrace | Comma | Colon | Blank | Key(key: JsonKey) | Val(val: RawValue)

  type Raw = seq<Token>

  type Object = map<JsonKey, RawValue>

  /** The encoder always uses the same spelling. */
  function Encode(v: Value): RawValue {
    RawValue(v, 0)
  }

  // ---------------------------------------------------------------- reading

  function SkipBlanks(t: Raw): (r: Raw)
    ensures |r| <= |t|
    ensures r != [] ==> r[0] != Blank
  {
    if t != [] && t[0] == Blank then SkipBlanks(t[1..]) else t
  }

  /** One key with its value, as they stand in the text; a key may occur more than once. */
  datatype Entry = Entry(key: JsonKey, value: RawValue)

  /** The key/value pairs of an object in text order, or None when the text is not an object. */
  function Entries(raw: Raw): Option<seq<Entry>> {
    var t := SkipBlanks(raw);
    if t == [] || t[0] != LBrace then None
    else
      var u := SkipBlanks(t[1..]);
      if u != [] && u[0] == RBrace then
        if SkipBlanks(u[1..]) == [] then Some([]) else None
      else
        EntryList(u)
  }

  function EntryList(raw: Raw): Option<seq<Entry>>
    decreases |raw|
  {
    var t := SkipBlanks(raw);
    if t == [] || !t[0].Key? then None
    else
      var u := SkipBlanks(t[1..]);
      if u == [] || u[0] != Colon then None
      else
        var v := SkipBlanks(u[1..]);
        if v == [] || !v[0].Val? then None
        else
          var first := Entry(t[0].key, v[0].val);
          var w := SkipBlanks(v[1..]);
          if w == [] then None
          else if w[0] == RBrace then
            if SkipBlanks(w[1..]) == [] then Some([first]) else None
          else if w[0] == Comma then Chain(first, EntryList(w[1..]))
          else None
  }

  lemma EntryListStep(raw: Raw, t: Raw, u: Raw, v: Raw, w: Raw)
    requires SkipBlanks(raw) == t && t != [] && t[0].Key?
    requires SkipBlanks(t[1..]) == u && u != [] && u[0] == Colon
    requires SkipBlanks(u[1..]) == v && v != [] && v[0].Val?
    requires SkipBlanks(v[1..]) == w && w != []
    ensures EntryList(raw) ==
            if w[0] == RBrace then
              if SkipBlanks(w[1..]) == [] then Some([Entry(t[0].key, v[0].val)]) else None
            else if w[0] == Comma then Chain(Entry(t[0].key, v[0].val), EntryList(w[1..]))
            else None
  {
  }

  function Chain(first: Entry, rest: Option<seq<Entry>>): Option<seq<Entry>> {
    match rest
    case None => None
    case Some(es) => Some([first] + es)
  }

  /** Decoding into a map keeps the last value of a repeated key. */
  function LastWins(es: seq<Entry>): Object {
    if es == [] then map[]
    else LastWins(es[..|es| - 1])[es[|es| - 1].key := es[|es| - 1].value]
  }

  function ParseObject(raw: Raw): Option<Object> {
    match Entries(raw)
    case None => None
    case Some(es) => Some(LastWins(es))
  }

  // ---------------------------------------------------------------- writing

  /** Position of the fields with a fixed place in the output. */
  function Rank(key: JsonKey): Option<int> {
    match key
    case CodingAgent => Some(-2)
    case AgentVersion => Some(-1)
    case Timestamp => Some(0)
    case SessionID => Some(1)
    case Cwd => Some(2)
    case Repo => Some(3)
    case Branch => Some(4)
    case IsDefaultBranch => Some(5)
    case PRURLs => Some(6)
    case PRPinned => Some(7)
    case PRTitle => Some(8)
    case Transcript => Some(9)
    case ParentSessionID => Some(10)
    case EndedAt => Some(11)
    case EndReason => Some(12)
    case BackfillChecked => Some(13)
    case IsMerged => Some(14)
    case ReviewComments => Some(15)
    case ChangesRequested => Some(16)
    case Named(_) => None
  }

  /** Ranked fields first in rank order, all other fields after them in lexicographic order. */
  predicate FieldLess(a: JsonKey, b: JsonKey) {
    match (Rank(a), Rank(b))
    case (Some(x), Some(y)) => x < y
    case (Some(_), None) => true
    case (None, Some(_)) => false
    case (None, None) => LexLess(a.name, b.name)
  }

  lemma FieldLessIrreflexive(a: JsonKey)
    ensures !FieldLess(a, a)
  {
    if a.Named? { LexTotal(a.name, a.name); }
  }

  lemma RankIsInjective(a: JsonKey, b: JsonKey)
    requires Rank(a).Some? && Rank(a) == Rank(b)
    ensures a == b
  {
  }

  lemma FieldLessIsTotal(a: JsonKey, b: JsonKey)
    ensures !FieldLess(a, a)
    ensures a != b ==> FieldLess(a, b) || FieldLess(b, a)
  {
    FieldLessIrreflexive(a);
    if Rank(a).Some? && Rank(b).Some? {
      if Rank(a) == Rank(b) { RankIsInjective(a, b); }
    } else if Rank(a).None? && Rank(b).None? {
      LexTotal(a.name, b.name);
    }
  }

  /** The comparator of the re-encoder is a strict total order on distinct keys. */
  lemma FieldOrderIsStrictTotal()
    ensures StrictTotalOrder(FieldLess)
  {
    forall a: JsonKey, b: JsonKey
      ensures !FieldLess(a, a) && (a != b ==> FieldLess(a, b) || FieldLess(b, a))
    {
      FieldLessIsTotal(a, b);
    }
    forall a: JsonKey, b: JsonKey, c: JsonKey | FieldLess(a, b) && FieldLess(b, c)
      ensures FieldLess(a, c)
    {
      if Rank(a).None? && Rank(b).None? && Rank(c).None? {
        LexTransitive(a.name, b.name, c.name);
      }
    }
  }

  function Pair(key: JsonKey, v: RawValue, pad: Raw): Raw {
    pad + [Key(key), Colon] + pad + [Val(v)]
  }

  /** Key/value pairs in the given order; pad is what is written before a key and before a value. */
  function Pairs(m: Object, keys: seq<JsonKey>, pad: Raw): Raw
    requires forall k :: k in keys ==> k in m
  {
    if keys == [] then []
    else
      Pair(keys[0], m[keys[0]], pad) + (if |keys| == 1 then [] else [Comma] + Pairs(m, keys[1..], pad))
  }

  function PrintWith(m: Object, keys: seq<JsonKey>, pad: Raw): Raw
    requires forall k :: k in keys ==> k in m
  {
    [LBrace] + Pairs(m, keys, pad) + [RBrace]
  }

  /** A set of keys in canonical order. */
  ghost function KeysInOrder(keys: set<JsonKey>): (r: seq<JsonKey>)
    ensures SortedBy(FieldLess, r) && forall k :: k in r <==> k in keys
  {
    FieldOrderIsStrictTotal();
    assert forall k :: k in Sorted(FieldLess, keys) <==> k in Elements(Sorted(FieldLess, keys));
    Sorted(FieldLess, keys)
  }

  /** There is only one listing in canonical order. */
  lemma KeysInOrderAreUnique(keys: set<JsonKey>, s: seq<JsonKey>)
    requires SortedBy(FieldLess, s) && forall k :: k in s <==> k in keys
    ensures s == KeysInOrder(keys)
  {
    FieldOrderIsStrictTotal();
    assert Elements(s) == Elements(KeysInOrder(keys));
    SortedListingIsUnique(FieldLess, s, KeysInOrder(keys));
  }

  ghost function CanonicalKeys(m: Object): (r: seq<JsonKey>)
    ensures forall k :: k in r <==> k in m
  {
    KeysInOrder(m.Keys)
  }

  /** The one canonical text of an object. */
  ghost function Print(m: Object): Raw {
    PrintWith(m, CanonicalKeys(m), [Blank])
  }

  ghost predicate IsPad(pad: Raw) {
    pad == [] || pad == [Blank]
  }

  lemma SkipPad(pad: Raw, t: Raw)
    requires IsPad(pad) && t != [] && t[0] != Blank
    ensures SkipBlanks(pad + t) == t
  {
    if pad == [Blank] {
      assert (pad + t)[1..] == t;
      assert SkipBlanks(pad + t) == SkipBlanks(t);
    } else {
      assert pad + t == t;
    }
  }

  /** The pairs written for the listed keys. */
  function EntriesFor(m: Object, keys: seq<JsonKey>): (r: seq<Entry>)
    requires forall k :: k in keys ==> k in m
    ensures |r| == |keys| && forall i :: 0 <= i < |keys| ==> r[i] == Entry(keys[i], m[keys[i]])
  {
    seq(|keys|, i requires 0 <= i < |keys| => Entry(keys[i], m[keys[i]]))
  }

  lemma {:induction false} LastWinsOfKeys(m: Object, keys: seq<JsonKey>)
    requires forall k :: k in keys ==> k in m
    ensures LastWins(EntriesFor(m, keys)) == map k | k in keys :: m[k]
  {
    if keys != [] {
      var n := |keys| - 1;
      LastWinsOfKeys(m, keys[..n]);
      assert EntriesFor(m, keys)[..n] == EntriesFor(m, keys[..n]);
      assert keys == keys[..n] + [keys[n]];
    }
  }

  /** What the pair reader sees, one token at a time. */
  lemma PairShape(key: JsonKey, v: RawValue, pad: Raw, tail: Raw)
    ensures var fromVal := [Val(v)] + tail;
            var fromColon := [Colon] + (pad + fromVal);
            var fromKey := [Key(key)] + fromColon;
            && Pair(key, v, pad) + tail == pad + fromKey
            && fromKey[1..] == fromColon && fromColon[1..] == pad + fromVal && fromVal[1..] == tail
  {
  }

  /** One step of the pair reader on a well-formed pair. */
  lemma ReadOnePair(key: JsonKey, v: RawValue, pad: Raw, tail: Raw)
    requires IsPad(pad)
    requires tail != [] && tail[0] != Blank
    ensures EntryList(Pair(key, v, pad) + tail) ==
            if tail[0] == RBrace then
              if SkipBlanks(tail[1..]) == [] then Some([Entry(key, v)]) else None
            else if tail[0] == Comma then Chain(Entry(key, v), EntryList(tail[1..]))
            else None
  {
    var fromVal := [Val(v)] + tail;
    var fromColon := [Colon] + (pad + fromVal);
    var fromKey := [Key(key)] + fromColon;
    PairShape(key, v, pad, tail);
    SkipPad(pad, fromKey);
    SkipPad(pad, fromVal);
    EntryListStep(pad + fromKey, fromKey, fromColon, fromVal, tail);
  }

  /** The text of several pairs is the first pair, a comma and the rest. */
  lemma PairsShape(m: Object, keys: seq<JsonKey>, pad: Raw)
    requires |keys| > 1 && forall k :: k in keys ==> k in m
    ensures var tail := [Comma] + (Pairs(m, keys[1..], pad) + [RBrace]);
            && Pairs(m, keys, pad) + [RBrace] == Pair(keys[0], m[keys[0]], pad) + tail
            && tail[1..] == Pairs(m, keys[1..], pad) + [RBrace]
    ensures EntriesFor(m, keys) == [Entry(keys[0], m[keys[0]])] + EntriesFor(m, keys[1..])
  {
    assert Pairs(m, keys, pad) == Pair(keys[0], m[keys[0]], pad) + ([Comma] + Pairs(m, keys[1..], pad));
  }

  lemma {:induction false} ReadBackPairs(m: Object, keys: seq<JsonKey>, pad: Raw)
    requires IsPad(pad) && keys != []
    requires forall k :: k in keys ==> k in m
    ensures EntryList(Pairs(m, keys, pad) + [RBrace]) == Some(EntriesFor(m, keys))
    decreases |keys|
  {
    var head := Pair(keys[0], m[keys[0]], pad);
    if |keys| == 1 {
      ReadOnePair(keys[0], m[keys[0]], pad, [RBrace]);
      assert Pairs(m, keys, pad) + [RBrace] == head + [RBrace];
      assert [RBrace][1..] == [];
      assert EntriesFor(m, keys) == [Entry(keys[0], m[keys[0]])];
    } else {
      PairsShape(m, keys, pad);
      ReadOnePair(keys[0], m[keys[0]], pad, [Comma] + (Pairs(m, keys[1..], pad) + [RBrace]));
      ReadBackPairs(m, keys[1..], pad);
    }
  }

  /** Reading back what was written for the listed keys gives exactly those pairs, in that order. */
  lemma ReadBack(m: Object, keys: seq<JsonKey>, pad: Raw)
    requires IsPad(pad)
    requires forall k :: k in keys ==> k in m
    ensures Entries(PrintWith(m, keys, pad)) == Some(EntriesFor(m, keys))
  {
    if keys == [] {
      EmptyObjectParses();
      assert PrintWith(m, keys, pad) == [LBrace, RBrace];
    } else {
      var body := Pairs(m, keys, pad) + [RBrace];
      assert PrintWith(m, keys, pad) == [LBrace] + body;
      ReadBackPairs(m, keys, pad);
      ObjectOfPairs(body);
    }
  }

  /** A line that spells out a list of pairs as it is, repetitions included. */
  function Spelled(es: seq<Entry>): Raw
    requires es != []
  {
    [LBrace] + (SpelledPairs(es) + [RBrace])
  }

  function SpelledPairs(es: seq<Entry>): Raw
    requires es != []
  {
    Pair(es[0].key, es[0].value, []) + (if |es| == 1 then [] else [Comma] + SpelledPairs(es[1..]))
  }

  lemma SpelledSplit(es: seq<Entry>)
    requires |es| > 1
    ensures SpelledPairs(es) + [RBrace] == Pair(es[0].key, es[0].value, []) + ([Comma] + (SpelledPairs(es[1..]) + [RBrace]))
  {
  }

  lemma {:induction false} SpelledPairsRead(es: seq<Entry>)
    requires es != []
    ensures EntryList(SpelledPairs(es) + [RBrace]) == Some(es)
    decreases |es|
  {
    if |es| == 1 {
      ReadOnePair(es[0].key, es[0].value, [], [RBrace]);
      assert SpelledPairs(es) + [RBrace] == Pair(es[0].key, es[0].value, []) + [RBrace];
      assert [RBrace][1..] == [] && [es[0]] == es;
    } else {
      var rest := SpelledPairs(es[1..]) + [RBrace];
      SpelledSplit(es);
      SpelledPairsRead(es[1..]);
      ReadOnePair(es[0].key, es[0].value, [], [Comma] + rest);
      assert ([Comma] + rest)[1..] == rest;
      assert [es[0]] + es[1..] == es;
    }
  }

  lemma SpelledReads(es: seq<Entry>)
    requires es != []
    ensures Entries(Spelled(es)) == Some(es)
  {
    SpelledPairsRead(es);
    ObjectOfPairs(SpelledPairs(es) + [RBrace]);
  }

  // ---------------------------------------------------------------- which texts are objects

  /** The tokens without the blanks. */
  function NonBlank(t: Raw): Raw {
    if t == [] then []
    else if t[0] == Blank then NonBlank(t[1..])
    else [t[0]] + NonBlank(t[1..])
  }

  lemma {:induction false} NextToken(t: Raw)
    ensures var u := SkipBlanks(t); NonBlank(t) == if u == [] then [] else [u[0]] + NonBlank(u[1..])
    decreases |t|
  {
    if t != [] && t[0] == Blank {
      NextToken(t[1..]);
    }
  }

  lemma {:induction false} PairsAreSpelled(raw: Raw)
    ensures EntryList(raw).Some? ==>
              EntryList(raw).value != [] && NonBlank(raw) == SpelledPairs(EntryList(raw).value) + [RBrace]
    decreases |raw|
  {
    if EntryList(raw).Some? {
      var t := SkipBlanks(raw);
      var u := SkipBlanks(t[1..]);
      var v := SkipBlanks(u[1..]);
      var w := SkipBlanks(v[1..]);
      NextToken(raw);
      NextToken(t[1..]);
      NextToken(u[1..]);
      NextToken(v[1..]);
      NextToken(w[1..]);
      EntryListStep(raw, t, u, v, w);
      if w[0] == RBrace {
        OneSpelledPair(raw, t[0], v[0]);
      } else {
        PairsAreSpelled(w[1..]);
        MoreSpelledPairs(raw, t[0], v[0], EntryList(w[1..]).value);
      }
    }
  }

  lemma OneSpelledPair(raw: Raw, k: Token, v: Token)
    requires k.Key? && v.Val? && NonBlank(raw) == [k] + ([Colon] + ([v] + ([RBrace] + [])))
    ensures NonBlank(raw) == SpelledPairs([Entry(k.key, v.val)]) + [RBrace]
  {
  }

  lemma MoreSpelledPairs(raw: Raw, k: Token, v: Token, rest: seq<Entry>)
    requires k.Key? && v.Val? && rest != []
    requires NonBlank(raw) == [k] + ([Colon] + ([v] + ([Comma] + (SpelledPairs(rest) + [RBrace]))))
    ensures NonBlank(raw) == SpelledPairs([Entry(k.key, v.val)] + rest) + [RBrace]
  {
    var es := [Entry(k.key, v.val)] + rest;
    assert es[1..] == rest;
    SpelledSplit(es);
  }

  /** The parser looks at nothing but the tokens that are not blank. */
  lemma {:induction false} BlanksDoNotCount(raw: Raw)
    ensures EntryList(NonBlank(raw)) == EntryList(raw)
    decreases |raw|
  {
    var t := SkipBlanks(raw);
    NextToken(raw);
    NonBlankTwice(raw);
    if t != [] && t[0].Key? {
      var u := SkipBlanks(t[1..]);
      NextToken(t[1..]);
      NonBlankTwice(t[1..]);
      if u != [] && u[0] == Colon {
        var v := SkipBlanks(u[1..]);
        NextToken(u[1..]);
        NonBlankTwice(u[1..]);
        if v != [] && v[0].Val? {
          var w := SkipBlanks(v[1..]);
          NextToken(v[1..]);
          NonBlankTwice(v[1..]);
          if w != [] {
            NextToken(w[1..]);
            NonBlankTwice(w[1..]);
            BlanksDoNotCount(w[1..]);
          }
        }
      }
    }
  }

  lemma {:induction false} NonBlankTwice(t: Raw)
    ensures SkipBlanks(NonBlank(t)) == NonBlank(t)
    ensures NonBlank(t) != [] ==> NonBlank(t)[0] != Blank
  {
    if t != [] && t[0] == Blank {
      NonBlankTwice(t[1..]);
    }
  }

  lemma EntriesSkipBlanks(raw: Raw)
    ensures Entries(NonBlank(raw)) == Entries(raw)
  {
    var t := SkipBlanks(raw);
    NextToken(raw);
    NonBlankTwice(raw);
    if t != [] && t[0] == LBrace {
      var u := SkipBlanks(t[1..]);
      NextToken(t[1..]);
      NonBlankTwice(t[1..]);
      EntryListSkipsBlanks(t[1..]);
      BlanksDoNotCount(t[1..]);
      if u != [] {
        NextToken(u[1..]);
        NonBlankTwice(u[1..]);
      }
    }
  }

  /** What an object with the given pairs looks like, blanks aside. */
  function ObjectTokens(es: seq<Entry>): Raw {
    if es == [] then [LBrace, RBrace] else Spelled(es)
  }

  lemma ObjectsAreSpelled(raw: Raw)
    requires Entries(raw).Some?
    ensures NonBlank(raw) == ObjectTokens(Entries(raw).value)
  {
    var t := SkipBlanks(raw);
    var u := SkipBlanks(t[1..]);
    NextToken(raw);
    NextToken(t[1..]);
    if u != [] && u[0] == RBrace {
      NextToken(u[1..]);
    } else {
      EntryListSkipsBlanks(t[1..]);
      PairsAreSpelled(t[1..]);
    }
  }

  /**
   A text is an object with the given pairs if and only if its tokens, blanks aside, are a brace, the
   pairs with colons inside and commas between them, and the closing brace.
   */
  lemma ObjectTextExactly(raw: Raw, es: seq<Entry>)
    ensures Entries(raw) == Some(es) <==> NonBlank(raw) == ObjectTokens(es)
  {
    if Entries(raw) == Some(es) {
      ObjectsAreSpelled(raw);
    }
    if NonBlank(raw) == ObjectTokens(es) {
      EntriesSkipBlanks(raw);
      if es == [] { EmptyObjectParses(); } else { SpelledReads(es); }
    }
  }

  /** Of a repeated key the map holds the value that comes last. */
  lemma {:induction false} LastValueCounts(es: seq<Entry>, key: JsonKey)
    ensures key in LastWins(es) <==> exists i :: 0 <= i < |es| && es[i].key == key
    ensures key in LastWins(es) ==>
              exists i :: 0 <= i < |es| && es[i] == Entry(key, LastWins(es)[key]) && forall j :: i < j < |es| ==> es[j].key != key
  {
    if es != [] {
      var front, last := es[..|es| - 1], es[|es| - 1];
      LastValueCounts(front, key);
      if last.key == key {
        assert es[|es| - 1] == Entry(key, LastWins(es)[key]);
      } else if key in LastWins(front) {
        var i :| 0 <= i < |front| && front[i] == Entry(key, LastWins(front)[key]) && forall j :: i < j < |front| ==> front[j].key != key;
        assert es[i] == front[i];
        assert forall j :: i < j < |es| ==> es[j].key != key;
      } else {
        assert forall j :: 0 <= j < |front| ==> front[j] == es[j];
      }
    }
  }

  lemma EmptyObjectParses()
    ensures Entries([LBrace, RBrace]) == Some([])
  {
    var t: Raw := [LBrace, RBrace];
    assert SkipBlanks(t) == t;
    assert t[1..] == [RBrace];
    assert SkipBlanks(t[1..]) == t[1..];
    assert t[1..][1..] == [];
  }

  lemma ObjectOfPairs(body: Raw)
    requires EntryList(body).Some?
    ensures Entries([LBrace] + body) == EntryList(body)
  {
    var t := [LBrace] + body;
    assert SkipBlanks(t) == t;
    assert t[1..] == body;
    EntryListSkipsBlanks(body);
  }

  lemma EntryListSkipsBlanks(raw: Raw)
    ensures EntryList(SkipBlanks(raw)) == EntryList(raw)
    ensures EntryList(raw).Some? ==> SkipBlanks(raw) != [] && SkipBlanks(raw)[0].Key?
  {
    assert SkipBlanks(SkipBlanks(raw)) == SkipBlanks(raw);
  }

  /** Round trip: the canonical text of an object reads back as that object. */
  lemma PrintParse(m: Object)
    ensures Entries(Print(m)) == Some(EntriesFor(m, CanonicalKeys(m)))
    ensures ParseObject(Print(m)) == Some(m)
  {
    ReadBack(m, CanonicalKeys(m), [Blank]);
    LastWinsOfKeys(m, CanonicalKeys(m));
    assert m == map k | k in CanonicalKeys(m) :: m[k];
  }

  // ---------------------------------------------------------------- what the canonical text looks like

  /** The fields with a fixed place, as they stand in every rewritten line. */
  const FIXED_ORDER: seq<JsonKey> := [
    CodingAgent, AgentVersion, Timestamp, SessionID, Cwd, Repo, Branch, IsDefaultBranch, PRURLs, PRPinned, PRTitle,
    Transcript, ParentSessionID, EndedAt, EndReason, BackfillChecked, IsMerged, ReviewComments, ChangesRequested
  ]

  lemma FixedRank(i: nat)
    requires i < |FIXED_ORDER|
    ensures Rank(FIXED_ORDER[i]) == Some(i - 2)
  {
  }

  lemma FixedOrderIsSorted()
    ensures SortedBy(FieldLess, FIXED_ORDER)
  {
    forall i, j | 0 <= i < j < |FIXED_ORDER|
      ensures FieldLess(FIXED_ORDER[i], FIXED_ORDER[j])
    {
      FixedRank(i);
      FixedRank(j);
    }
  }

  function FixedPosition(key: JsonKey): (i: nat)
    requires !key.Named?
    ensures i < |FIXED_ORDER| && FIXED_ORDER[i] == key
  {
    match key
    case CodingAgent => 0
    case AgentVersion => 1
    case Timestamp => 2
    case SessionID => 3
    case Cwd => 4
    case Repo => 5
    case Branch => 6
    case IsDefaultBranch => 7
    case PRURLs => 8
    case PRPinned => 9
    case PRTitle => 10
    case Transcript => 11
    case ParentSessionID => 12
    case EndedAt => 13
    case EndReason => 14
    case BackfillChecked => 15
    case IsMerged => 16
    case ReviewComments => 17
    case ChangesRequested => 18
  }

  lemma FixedMember(key: JsonKey)
    ensures key in FIXED_ORDER <==> !key.Named?
  {
    if key in FIXED_ORDER {
      var i :| 0 <= i < |FIXED_ORDER| && FIXED_ORDER[i] == key;
      FixedRank(i);
    }
    if !key.Named? {
      assert FIXED_ORDER[FixedPosition(key)] == key;
    }
  }

  lemma FixedThenNamed(fixed: seq<JsonKey>, named: seq<JsonKey>)
    requires SortedBy(FieldLess, fixed) && SortedBy(FieldLess, named)
    requires forall k :: k in fixed ==> !k.Named?
    requires forall k :: k in named ==> k.Named?
    ensures SortedBy(FieldLess, fixed + named)
  {
    var all := fixed + named;
    forall i, j | 0 <= i < j < |all|
      ensures FieldLess(all[i], all[j])
    {
      if i < |fixed| <= j {
        assert all[i] in fixed && all[j] in named;
      }
    }
  }

  ghost predicate NamesAscend(named: seq<JsonKey>) {
    && (forall i :: 0 <= i < |named| ==> named[i].Named?)
    && (forall i, j :: 0 <= i < j < |named| ==> LexLess(named[i].name, named[j].name))
  }

  lemma FilterMembers(keep: JsonKey -> bool, s: seq<JsonKey>)
    ensures forall k :: k in Filter(keep, s) <==> k in s && keep(k)
  {
    forall k
      ensures k in Filter(keep, s) <==> k in s && keep(k)
    {
      FilterMember(keep, s, k);
    }
  }

  lemma CanonicalParts(m: Object, fixed: seq<JsonKey>, named: seq<JsonKey>)
    requires SortedBy(FieldLess, fixed) && SortedBy(FieldLess, named)
    requires forall k :: k in fixed <==> k in m && !k.Named?
    requires forall k :: k in named <==> k in m && k.Named?
    ensures CanonicalKeys(m) == fixed + named
  {
    FixedThenNamed(fixed, named);
    KeysInOrderAreUnique(m.Keys, fixed + named);
  }

  lemma FixedPart(m: Object, order: seq<JsonKey>, present: JsonKey -> bool)
    requires SortedBy(FieldLess, order) && forall k :: k in order <==> !k.Named?
    requires forall k :: present(k) <==> k in m
    ensures SortedBy(FieldLess, Filter(present, order))
    ensures forall k :: k in Filter(present, order) <==> k in m && !k.Named?
  {
    FilterSorted(FieldLess, present, order);
    FilterMembers(present, order);
  }

  lemma NamedPart(m: Object) returns (named: seq<JsonKey>)
    ensures SortedBy(FieldLess, named)
    ensures forall k :: k in named <==> k in m && k.Named?
  {
    var isNamed := (k: JsonKey) => k.Named?;
    named := Filter(isNamed, CanonicalKeys(m));
    FilterSorted(FieldLess, isNamed, CanonicalKeys(m));
    FilterMembers(isNamed, CanonicalKeys(m));
  }

  lemma OrderedKeys(m: Object, order: seq<JsonKey>, present: JsonKey -> bool) returns (named: seq<JsonKey>)
    requires SortedBy(FieldLess, order) && forall k :: k in order <==> !k.Named?
    requires forall k :: present(k) <==> k in m
    ensures CanonicalKeys(m) == Filter(present, order) + named
    ensures NamesAscend(named) && forall k :: k in named <==> k in m && k.Named?
  {
    named := NamedPart(m);
    FixedPart(m, order, present);
    CanonicalParts(m, Filter(present, order), named);
    NamesInOrder(named);
  }

  /** The keys with a fixed place that occur, in their order, and then all others by name. */
  lemma CanonicalOrder(m: Object, present: JsonKey -> bool) returns (named: seq<JsonKey>)
    requires forall k :: present(k) <==> k in m
    ensures CanonicalKeys(m) == Filter(present, FIXED_ORDER) + named
    ensures NamesAscend(named) && forall k :: k in named <==> k in m && k.Named?
  {
    FixedOrderIsSorted();
    forall k
      ensures k in FIXED_ORDER <==> !k.Named?
    {
      FixedMember(k);
    }
    named := OrderedKeys(m, FIXED_ORDER, present);
  }

  lemma NamesInOrder(named: seq<JsonKey>)
    requires SortedBy(FieldLess, named) && forall k :: k in named ==> k.Named?
    ensures NamesAscend(named)
  {
    forall i, j | 0 <= i < j < |named|
      ensures named[i].Named? && named[j].Named? && LexLess(named[i].name, named[j].name)
    {
      assert named[i] in named && named[j] in named && FieldLess(named[i], named[j]);
    }
  }

  /** Every pair takes six tokens: a blank, the key, a colon, a blank, the value, and a comma or the closing brace. */
  lemma {:induction false} PairsLayout(m: Object, keys: seq<JsonKey>, i: nat)
    requires (forall k :: k in keys ==> k in m) && i < |keys|
    ensures |Pairs(m, keys, [Blank])| == 6 * |keys| - 1
    ensures Pairs(m, keys, [Blank])[6 * i..6 * i + 5] == [Blank, Key(keys[i]), Colon, Blank, Val(m[keys[i]])]
    ensures i > 0 ==> Pairs(m, keys, [Blank])[6 * i - 1] == Comma
    decreases |keys|
  {
    var head, all := Pair(keys[0], m[keys[0]], [Blank]), Pairs(m, keys, [Blank]);
    assert head == [Blank, Key(keys[0]), Colon, Blank, Val(m[keys[0]])];
    if |keys| > 1 {
      var rest := Pairs(m, keys[1..], [Blank]);
      assert all == head + [Comma] + rest;
      PairsLayout(m, keys[1..], if i == 0 then 0 else i - 1);
      if i > 0 {
        assert all[6 * i..6 * i + 5] == rest[6 * (i - 1)..6 * (i - 1) + 5];
        assert i > 1 ==> all[6 * i - 1] == rest[6 * (i - 1) - 1];
      }
    }
  }

  /** Token for token, the text that stands for an object with the given keys in the given order. */
  ghost predicate LaidOut(text: Raw, m: Object, keys: seq<JsonKey>)
    requires forall k :: k in keys ==> k in m
  {
    && (keys == [] ==> text == [LBrace, RBrace])
    && (keys != [] ==> |text| == 6 * |keys| + 1 && text[0] == LBrace && text[|text| - 1] == RBrace)
    && (forall i :: 0 <= i < |keys| ==>
          text[6 * i + 1..6 * i + 6] == [Blank, Key(keys[i]), Colon, Blank, Val(m[keys[i]])] &&
          (i > 0 ==> text[6 * i] == Comma))
  }

  lemma Shifted(text: Raw, body: Raw, i: nat, j: nat)
    requires text == [LBrace] + body + [RBrace] && i <= j <= |body|
    ensures text[i + 1..j + 1] == body[i..j]
  {
  }

  lemma PrintLaidOut(m: Object, keys: seq<JsonKey>)
    requires forall k :: k in keys ==> k in m
    ensures LaidOut(PrintWith(m, keys, [Blank]), m, keys)
  {
    var text, body := PrintWith(m, keys, [Blank]), Pairs(m, keys, [Blank]);
    if keys != [] { PairsLayout(m, keys, 0); }
    forall i | 0 <= i < |keys|
      ensures text[6 * i + 1..6 * i + 6] == [Blank, Key(keys[i]), Colon, Blank, Val(m[keys[i]])]
      ensures i > 0 ==> text[6 * i] == Comma
    {
      PairsLayout(m, keys, i);
      Shifted(text, body, 6 * i, 6 * i + 5);
      if i > 0 { assert text[6 * i] == body[6 * i - 1]; }
    }
  }

  lemma PrintedKeys(m: Object, keys: seq<JsonKey>)
    requires CanonicalKeys(m) == keys
    ensures forall k :: k in keys <==> k in m
    ensures LaidOut(Print(m), m, keys)
  {
    PrintLaidOut(m, keys);
  }

  /**
   A rewritten line, token for token: the fields with a fixed place in their order, then all other keys
   by name, each with its raw value.
   */
  lemma RewrittenLine(raw: Raw, key: JsonKey, v: Value, present: JsonKey -> bool) returns (named: seq<JsonKey>)
    requires ParseObject(raw).Some?
    requires forall k :: present(k) <==> k in ParseObject(raw).value[key := Encode(v)]
    ensures var m, keys := ParseObject(raw).value[key := Encode(v)], Filter(present, FIXED_ORDER) + named;
            && NamesAscend(named) && (forall k :: k in named <==> k in m && k.Named?)
            && (forall k :: k in keys <==> k in m)
            && Remarshaled(raw, key, v).Some? && LaidOut(Remarshaled(raw, key, v).value, m, keys)
  {
    var m := ParseObject(raw).value[key := Encode(v)];
    named := CanonicalOrder(m, present);
    PrintedKeys(m, Filter(present, FIXED_ORDER) + named);
  }

  // ---------------------------------------------------------------- changing one field

  /** The text after setting one field, or None when the text is not an object. */
  ghost function Remarshaled(raw: Raw, key: JsonKey, v: Value): Option<Raw> {
    match ParseObject(raw)
    case None => None
    case Some(m) => Some(Print(m[key := Encode(v)]))
  }

  /** remarshalWithUpdate: collect the keys in whatever order the map yields them, sort, print. */
  method RemarshalWithUpdate(raw: Raw, key: JsonKey, v: Value) returns (r: Option<Raw>)
    ensures r == Remarshaled(raw, key, v)
  {
    var parsed := ParseObject(raw);
    if parsed.None? {
      return None;
    }
    var m := parsed.value[key := Encode(v)];
    var keys := Collect(m.Keys);
    FieldOrderIsStrictTotal();
    keys := Sort(FieldLess, keys);
    KeysInOrderAreUnique(m.Keys, keys);
    var text := PrintInOrder(m, keys);
    return Some(text);
  }

  /** The loop that grows the byte buffer. */
  method PrintInOrder(m: Object, keys: seq<JsonKey>) returns (buf: Raw)
    requires forall k :: k in keys ==> k in m
    ensures buf == PrintWith(m, keys, [Blank])
  {
    buf := [LBrace];
    for i := 0 to |keys|
      invariant buf == [LBrace] + PairsPrefix(m, keys, i)
    {
      if i > 0 {
        buf := buf + [Comma];
      }
      buf := buf + Pair(keys[i], m[keys[i]], [Blank]);
    }
    PairsPrefixAll(m, keys);
    buf := buf + [RBrace];
  }

  /** The pairs before position n, without a trailing comma. */
  ghost function PairsPrefix(m: Object, keys: seq<JsonKey>, n: nat): Raw
    requires n <= |keys|
    requires forall k :: k in keys ==> k in m
  {
    if n == 0 then []
    else
      PairsPrefix(m, keys, n - 1) + (if n > 1 then [Comma] else []) + Pair(keys[n - 1], m[keys[n - 1]], [Blank])
  }

  lemma {:induction false} PairsPrefixSplit(m: Object, keys: seq<JsonKey>, n: nat)
    requires 0 < n < |keys|
    requires forall k :: k in keys ==> k in m
    ensures PairsPrefix(m, keys, n) + [Comma] + Pairs(m, keys[n..], [Blank]) == Pairs(m, keys, [Blank])
    decreases n
  {
    var last := Pair(keys[n - 1], m[keys[n - 1]], [Blank]);
    var rest := Pairs(m, keys[n..], [Blank]);
    assert keys[n - 1..][1..] == keys[n..];
    if n == 1 {
      assert PairsPrefix(m, keys, 1) == last;
    } else {
      PairsPrefixSplit(m, keys, n - 1);
      var prefix := PairsPrefix(m, keys, n - 1);
      assert Pairs(m, keys[n - 1..], [Blank]) == last + ([Comma] + rest);
      assert (prefix + [Comma] + last) + [Comma] + rest == prefix + [Comma] + (last + ([Comma] + rest));
    }
  }

  lemma PairsPrefixAll(m: Object, keys: seq<JsonKey>)
    requires forall k :: k in keys ==> k in m
    ensures PairsPrefix(m, keys, |keys|) == Pairs(m, keys, [Blank])
  {
    if |keys| > 1 {
      var n := |keys| - 1;
      PairsPrefixSplit(m, keys, n);
      assert keys[n..] == [keys[n]];
    } else if |keys| == 1 {
      assert PairsPrefix(m, keys, 0) == [];
    }
  }

  /** Every other key keeps its raw value, including keys the tool does not know. */
  lemma RemarshalChangesOnlyTheKey(raw: Raw, key: JsonKey, v: Value)
    requires ParseObject(raw).Some?
    ensures var before, after := ParseObject(raw).value, ParseObject(Remarshaled(raw, key, v).value);
            && after.Some?
            && after.value.Keys == before.Keys + {key}
            && after.value[key] == Encode(v)
            && forall k :: k in before && k != key ==> after.value[k] == before[k]
  {
    PrintParse(ParseObject(raw).value[key := Encode(v)]);
  }

  lemma UpdatesCommute(m: Object, k1: JsonKey, v1: RawValue, k2: JsonKey, v2: RawValue)
    requires k1 != k2
    ensures m[k1 := v1][k2 := v2] == m[k2 := v2][k1 := v1]
  {
  }

  /** Updates of different keys commute byte for byte. */
  lemma RemarshalCommutes(raw: Raw, k1: JsonKey, v1: Value, k2: JsonKey, v2: Value)
    requires ParseObject(raw).Some? && k1 != k2
    ensures Remarshaled(Remarshaled(raw, k1, v1).value, k2, v2)
         == Remarshaled(Remarshaled(raw, k2, v2).value, k1, v1)
  {
    var m := ParseObject(raw).value;
    RemarshalTwice(raw, k1, v1, k2, v2);
    RemarshalTwice(raw, k2, v2, k1, v1);
    UpdatesCommute(m, k1, Encode(v1), k2, Encode(v2));
  }

  lemma RemarshalTwice(raw: Raw, k1: JsonKey, v1: Value, k2: JsonKey, v2: Value)
    requires ParseObject(raw).Some?
    ensures Remarshaled(Remarshaled(raw, k1, v1).value, k2, v2)
         == Some(Print(ParseObject(raw).value[k1 := Encode(v1)][k2 := Encode(v2)]))
  {
    PrintParse(ParseObject(raw).value[k1 := Encode(v1)]);
  }

  /** Repeating an update leaves every byte alone. */
  lemma RemarshalIsIdempotent(raw: Raw, key: JsonKey, v: Value)
    requires ParseObject(raw).Some?
    ensures Remarshaled(Remarshaled(raw, key, v).value, key, v) == Remarshaled(raw, key, v)
  {
    var m := ParseObject(raw).value;
    RemarshalTwice(raw, key, v, key, v);
    assert m[key := Encode(v)][key := Encode(v)] == m[key := Encode(v)];
  }

  // ---------------------------------------------------------------- sessions

  datatype Kind = KStr | KBool | KInt | KStrs

  /** The fields of a session entry in declaration order, and whether a zero value is omitted. */
  datatype Field = Field(key: JsonKey, kind: Kind, omitEmpty: bool)

  const SCHEMA: seq<Field> := [
    Field(CodingAgent, KStr, false),
    Field(AgentVersion, KStr, false),
    Field(USER_ID, KStr, true),
    Field(Timestamp, KStr, false),
    Field(SessionID, KStr, false),
    Field(Cwd, KStr, false),
    Field(Repo, KStr, false),
    Field(Branch, KStr, false),
    Field(IsDefaultBranch, KBool, true),
    Field(PRURLs, KStrs, false),
    Field(PRPinned, KBool, true),
    Field(PRTitle, KStr, true),
    Field(Transcript, KStr, false),
    Field(ParentSessionID, KStr, false),
    Field(EndedAt, KStr, false),
    Field(EndReason, KStr, false),
    Field(BackfillChecked, KBool, false),
    Field(IsMerged, KBool, false),
    Field(ReviewComments, KInt, false),
    Field(ChangesRequested, KInt, false)
  ]

  /** The Go type a schema field decodes into. */
  function KindOf(key: JsonKey): Option<Kind> {
    match key
    case Named(name) => if key == USER_ID then Some(KStr) else None
    case PRURLs => Some(KStrs)
    case IsDefaultBranch => Some(KBool)
    case PRPinned => Some(KBool)
    case BackfillChecked => Some(KBool)
    case IsMerged => Some(KBool)
    case ReviewComments => Some(KInt)
    case ChangesRequested => Some(KInt)
    case _ => Some(KStr)
  }

  lemma SchemaKinds(i: nat)
    requires i < |SCHEMA|
    ensures KindOf(SCHEMA[i].key) == Some(SCHEMA[i].kind)
  {
  }

  /** Where a schema field stands. */
  function PositionOf(key: JsonKey): (i: nat)
    requires KindOf(key).Some?
    ensures i < |SCHEMA| && SCHEMA[i].key == key
  {
    match key
    case CodingAgent => 0
    case AgentVersion => 1
    case Named(_) => 2
    case Timestamp => 3
    case SessionID => 4
    case Cwd => 5
    case Repo => 6
    case Branch => 7
    case IsDefaultBranch => 8
    case PRURLs => 9
    case PRPinned => 10
    case PRTitle => 11
    case Transcript => 12
    case ParentSessionID => 13
    case EndedAt => 14
    case EndReason => 15
    case BackfillChecked => 16
    case IsMerged => 17
    case ReviewComments => 18
    case ChangesRequested => 19
  }

  lemma SchemaCoversEveryKnownKey(key: JsonKey)
    ensures KindOf(key).Some? <==> exists i :: 0 <= i < |SCHEMA| && SCHEMA[i].key == key
    ensures forall i :: 0 <= i < |SCHEMA| ==> KindOf(SCHEMA[i].key) == Some(SCHEMA[i].kind)
  {
    forall i | 0 <= i < |SCHEMA|
      ensures KindOf(SCHEMA[i].key) == Some(SCHEMA[i].kind)
    {
      SchemaKinds(i);
    }
    if KindOf(key).Some? {
      assert SCHEMA[PositionOf(key)].key == key;
    }
  }

  predicate OfKind(v: Value, kind: Kind) {
    match kind
    case KStr => v.VStr?
    case KBool => v.VBool?
    case KInt => v.VNum?
    case KStrs => v.VStrs?
  }

  function Zero(kind: Kind): Value {
    match kind
    case KStr => VStr("")
    case KBool => VBool(false)
    case KInt => VNum(0)
    case KStrs => VStrs([])
  }

  /** A decoded entry: the fields present with a usable value; an absent field reads as zero. */
  datatype Session = Session(fields: map<JsonKey, Value>) {
    function Get(key: JsonKey, kind: Kind): (v: Value)
      ensures OfKind(v, kind)
    {
      if key in fields && OfKind(fields[key], kind) then fields[key] else Zero(kind)
    }
    function Str(key: JsonKey): string { Get(key, KStr).s }
    function Bool(key: JsonKey): bool { Get(key, KBool).b }
    function Int(key: JsonKey): int { Get(key, KInt).n }
    function Strs(key: JsonKey): seq<string> { Get(key, KStrs).ss }
  }

  const EMPTY_SESSION := Session(map[])
}
