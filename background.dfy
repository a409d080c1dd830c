/** The extension's service worker: the query it sends to the public
    translation endpoint, the normaliser that turns the endpoint's
    positional nested-array reply into a fixed translation record, and the
    reply it sends back to the page. The HTTP exchange itself is an input
    (`Fetched`): a network failure, or a status with a body that did or did
    not decode as JSON. */
module Background {
  import opened Wrappers
  import opened Text
  import opened Json

  const TranslateApiUrl := "https://translate.googleapis.com/translate_a/single"

  /** The data types requested, one `dt` parameter each, in this order. */
  const DataTypes: seq<string> := ["t", "bd", "rm", "md", "ex"]

  // ---------------------------------------------------------------------
  // The query

  /** The (name, value) pairs of the query string, in the order they are
      appended to the URL. */
  function QueryParams(text: string): seq<(string, string)> {
    [("client", "gtx"), ("sl", "auto"), ("tl", "zh-CN")]
    + DtParams(DataTypes)
    + [("q", text)]
  }

  function DtParams(dts: seq<string>): seq<(string, string)> {
    if dts == [] then [] else [("dt", dts[0])] + DtParams(dts[1..])
  }

  /** `searchParams.getAll(name)`: the values stored under `name`, in order. */
  function ValuesOf(params: seq<(string, string)>, name: string): seq<string> {
    if params == [] then []
    else (if params[0].0 == name then [params[0].1] else []) + ValuesOf(params[1..], name)
  }

  lemma {:induction false} ValuesOfAppend(a: seq<(string, string)>, b: seq<(string, string)>, name: string)
    ensures ValuesOf(a + b, name) == ValuesOf(a, name) + ValuesOf(b, name)
  {
    if a == [] {
      assert a + b == b;
    } else {
      assert (a + b)[1..] == a[1..] + b;
      ValuesOfAppend(a[1..], b, name);
    }
  }

  lemma {:induction false} DtParamsValues(dts: seq<string>, name: string)
    ensures ValuesOf(DtParams(dts), name) == if name == "dt" then dts else []
  {
    if dts != [] {
      ValuesOfAppend([("dt", dts[0])], DtParams(dts[1..]), name);
      DtParamsValues(dts[1..], name);
    }
  }

  /** The text to translate travels exactly once, under `q`; the five data
      types travel under `dt` in order; source and target language are fixed. */
  lemma QueryParamsCarryText(text: string)
    ensures ValuesOf(QueryParams(text), "q") == [text]
    ensures ValuesOf(QueryParams(text), "dt") == DataTypes
    ensures ValuesOf(QueryParams(text), "client") == ["gtx"]
    ensures ValuesOf(QueryParams(text), "sl") == ["auto"]
    ensures ValuesOf(QueryParams(text), "tl") == ["zh-CN"]
  {
    QueryParamsValues(text, "q");
    QueryParamsValues(text, "dt");
    QueryParamsValues(text, "client");
    QueryParamsValues(text, "sl");
    QueryParamsValues(text, "tl");
  }

  lemma QueryParamsValues(text: string, name: string)
    ensures ValuesOf(QueryParams(text), name)
         == (if name == "client" then ["gtx"] else [])
          + (if name == "sl" then ["auto"] else [])
          + (if name == "tl" then ["zh-CN"] else [])
          + (if name == "dt" then DataTypes else [])
          + (if name == "q" then [text] else [])
  {
    var fixed: seq<(string, string)> := [("client", "gtx"), ("sl", "auto"), ("tl", "zh-CN")];
    ValuesOfAppend(fixed + DtParams(DataTypes), [("q", text)], name);
    ValuesOfAppend(fixed, DtParams(DataTypes), name);
    DtParamsValues(DataTypes, name);
    ValuesOfAppend([fixed[0]], fixed[1..], name);
    ValuesOfAppend([fixed[1]], [fixed[2]], name);
    assert fixed == [fixed[0]] + ([fixed[1]] + [fixed[2]]);
    assert [("q", text)][1..] == [];
  }

  /** Appends the query parameters one by one, the data types in a loop. */
  method BuildQuery(text: string) returns (params: seq<(string, string)>)
    ensures params == QueryParams(text)
  {
    params := [("client", "gtx"), ("sl", "auto"), ("tl", "zh-CN")];
    var i := 0;
    while i < |DataTypes|
      invariant 0 <= i <= |DataTypes|
      invariant params + DtParams(DataTypes[i..]) == QueryParams(text)[..8]
    {
      assert DataTypes[i..] == [DataTypes[i]] + DataTypes[i + 1..];
      params := params + [("dt", DataTypes[i])];
      i := i + 1;
    }
    assert DataTypes[i..] == [];
    params := params + [("q", text)];
  }

  // ---------------------------------------------------------------------
  // The exchange and its failures

  /** What `translateText` rejects with. */
  datatype Error =
    | ApiError(status: nat)    // a non-OK HTTP status
    | Raised(message: string)  // `fetch` or `response.json()` failed with this message
    | TypeError                // the normaliser read a property of null/undefined or called a missing method

  datatype Body = Parsed(data: Json) | Unparsable(message: string)

  /** The outcome of `fetch`, which the model takes as an input. */
  datatype Fetched = NetworkFailure(message: string) | Http(status: nat, body: Body)

  /** `response.ok`: a 2xx status. */
  predicate IsOk(status: nat) {
    200 <= status <= 299
  }

  /** The message of the error thrown for a non-OK status. */
  function ApiErrorMessage(status: nat): string {
    "API Error: " + Decimal(status)
  }

  /** The message names the status, and the status can be read back from it. */
  lemma ApiErrorMessageNamesStatus(status: nat)
    ensures StartsWith(ApiErrorMessage(status), "API Error: ")
    ensures var digits := ApiErrorMessage(status)[11..];
            IsDigits(digits) && ParseDecimal(digits) == status
  {
    assert ApiErrorMessage(status)[11..] == Decimal(status);
    ParseDecimalInverts(status);
  }

  /** `v[i]` in the normaliser, where reading from null/undefined throws. */
  function Get(v: Json, i: nat): (r: Result<Json, Error>)
    ensures r.Err? <==> Nullish(v)
    ensures r.Err? ==> r.error == TypeError
    ensures r.Ok? ==> Index(v, i) == Some(r.value)
  {
    match Index(v, i)
    case None => Err(TypeError)
    case Some(x) => Ok(x)
  }

  // ---------------------------------------------------------------------
  // The record

  /** A dictionary entry: the part of speech and at most five terms. */
  datatype DictEntry = DictEntry(pos: Json, terms: Json)

  /** A definition group: the part of speech and at most three definitions. */
  datatype DefEntry = DefEntry(pos: Json, defs: seq<Json>)

  /** The normalised record. `None` is JavaScript's `null`. */
  datatype Translation = Translation(
    original: string,
    translated: string,
    phonetic: string,
    dictionary: Option<seq<DictEntry>>,
    definitions: Option<seq<DefEntry>>,
    examples: Option<seq<Json>>)

  // ---------------------------------------------------------------------
  // Translation text: data[0]

  /** A truthy first element of a segment is a string (the concatenation of
      anything else would go through JavaScript's string conversion, which
      is not modelled). */
  predicate SegmentTextIsString(seg: Json) {
    match Index(seg, 0)
    case Some(first) => Truthy(first) ==> first.Str?
    case None => true
  }

  predicate SegmentTextsAreStrings(segs: seq<Json>) {
    forall i :: 0 <= i < |segs| ==> SegmentTextIsString(segs[i])
  }

  /** The condition above for the segment list of a response, when it has one. */
  predicate SegmentsWellTyped(data: Json) {
    match Index(data, 0)
    case Some(Arr(segs)) => SegmentTextsAreStrings(segs)
    case _ => true
  }

  /** What one segment adds to the translation: its first element when that
      is truthy, nothing otherwise; a null segment throws. */
  function Piece(seg: Json): (r: Result<string, Error>)
    requires SegmentTextIsString(seg)
    ensures r.Err? <==> Nullish(seg)
    ensures r.Err? ==> r.error == TypeError
    ensures !Nullish(seg) && Truthy(Index(seg, 0).value) ==> r == Ok(Index(seg, 0).value.s)
    ensures !Nullish(seg) && !Truthy(Index(seg, 0).value) ==> r == Ok("")
  {
    match Index(seg, 0)
    case None => Err(TypeError)
    case Some(first) => Ok(if Truthy(first) then first.s else "")
  }

  /** The text a segment shows: its first element when that is a string. */
  function SegmentText(seg: Json): string {
    match Index(seg, 0)
    case Some(Str(s)) => s
    case _ => ""
  }

  /** The translation: the pieces of all segments, in order. */
  function Concatenation(segs: seq<Json>): (r: Result<string, Error>)
    requires SegmentTextsAreStrings(segs)
    ensures r.Err? ==> r.error == TypeError
    ensures r.Ok? ==> r.value == ConcatMap(segs, SegmentText)
  {
    if segs == [] then Ok("")
    else
      var head :- Piece(segs[0]);
      var rest :- Concatenation(segs[1..]);
      Ok(head + rest)
  }

  /** Sequencing two string-producing steps: the first failure wins. */
  function Then(x: Result<string, Error>, y: Result<string, Error>): Result<string, Error> {
    if x.Err? then x else if y.Err? then y else Ok(x.value + y.value)
  }

  /** The translation of two runs of segments is the two translations joined. */
  lemma {:induction false} ConcatenationAppend(a: seq<Json>, b: seq<Json>)
    requires SegmentTextsAreStrings(a) && SegmentTextsAreStrings(b)
    ensures SegmentTextsAreStrings(a + b)
    ensures Concatenation(a + b) == Then(Concatenation(a), Concatenation(b))
  {
    assert SegmentTextsAreStrings(a + b) by {
      forall i | 0 <= i < |a + b| ensures SegmentTextIsString((a + b)[i]) {
        if i < |a| { assert (a + b)[i] == a[i]; } else { assert (a + b)[i] == b[i - |a|]; }
      }
    }
    if a == [] {
      assert a + b == b;
      if Concatenation(b).Ok? {
        assert "" + Concatenation(b).value == Concatenation(b).value;
      }
    } else {
      assert (a + b)[1..] == a[1..] + b;
      assert (a + b)[0] == a[0];
      ConcatenationAppend(a[1..], b);
      if Piece(a[0]).Ok? && Concatenation(a[1..]).Ok? && Concatenation(b).Ok? {
        var h, x, y := Piece(a[0]).value, Concatenation(a[1..]).value, Concatenation(b).value;
        assert h + (x + y) == (h + x) + y;
      }
    }
  }

  /** A single segment's translation is its piece. */
  lemma ConcatenationSingle(seg: Json)
    requires SegmentTextIsString(seg)
    ensures SegmentTextsAreStrings([seg])
    ensures Concatenation([seg]) == Piece(seg)
  {
    assert [seg][1..] == [];
    if Piece(seg).Ok? {
      assert Piece(seg).value + "" == Piece(seg).value;
    }
  }

  /** The translation fails exactly when some segment is null or undefined. */
  lemma {:induction false} ConcatenationFailsIffNullish(segs: seq<Json>)
    requires SegmentTextsAreStrings(segs)
    ensures Concatenation(segs).Err? <==> exists i :: 0 <= i < |segs| && Nullish(segs[i])
  {
    if segs != [] {
      ConcatenationFailsIffNullish(segs[1..]);
      if exists i :: 0 <= i < |segs[1..]| && Nullish(segs[1..][i]) {
        var i :| 0 <= i < |segs[1..]| && Nullish(segs[1..][i]);
        assert Nullish(segs[i + 1]);
      }
      if exists i :: 0 <= i < |segs| && Nullish(segs[i]) {
        var i :| 0 <= i < |segs| && Nullish(segs[i]);
        if i > 0 { assert Nullish(segs[1..][i - 1]); }
      }
    }
  }

  /** A segment whose first element is falsy contributes nothing. */
  lemma SkipsFalsySegment(a: seq<Json>, seg: Json, b: seq<Json>)
    requires SegmentTextsAreStrings(a) && SegmentTextsAreStrings(b)
    requires Index(seg, 0).Some? && !Truthy(Index(seg, 0).value)
    ensures SegmentTextsAreStrings(a + [seg] + b)
    ensures Concatenation(a + [seg] + b) == Concatenation(a + b)
  {
    ConcatenationSingle(seg);
    assert Concatenation([seg]) == Ok("");
    ConcatenationAppend(a, [seg]);
    ConcatenationAppend(a + [seg], b);
    ConcatenationAppend(a, b);
    if Concatenation(a).Ok? {
      assert Concatenation(a).value + "" == Concatenation(a).value;
    }
  }

  /** Accumulates the translation with `+=` over the segments. */
  method AccumulateTranslated(segs: seq<Json>) returns (r: Result<string, Error>)
    requires SegmentTextsAreStrings(segs)
    ensures r == Concatenation(segs)
  {
    var translated := "";
    var i := 0;
    while i < |segs|
      invariant 0 <= i <= |segs|
      invariant SegmentTextsAreStrings(segs[..i])
      invariant Concatenation(segs[..i]) == Ok(translated)
    {
      ConcatenationSingle(segs[i]);
      ConcatenationAppend(segs[..i], [segs[i]]);
      assert segs[..i + 1] == segs[..i] + [segs[i]];
      var first := Index(segs[i], 0);
      if first.None? {
        assert SegmentTextsAreStrings(segs[i..]);
        ConcatenationAppend(segs[..i + 1], segs[i + 1..]);
        assert segs[..i + 1] + segs[i + 1..] == segs;
        return Err(TypeError);
      }
      if Truthy(first.value) {
        translated := translated + first.value.s;
      } else {
        assert translated + "" == translated;
      }
      i := i + 1;
    }
    assert segs[..i] == segs;
    return Ok(translated);
  }

  // ---------------------------------------------------------------------
  // Phonetic: a heuristic on the last segment

  function LastSegment(segs: seq<Json>): Json {
    if segs == [] then Undefined else segs[|segs| - 1]
  }

  /** `seg[i]` when it is a string whose JavaScript trim is non-empty. */
  function Candidate(seg: Json, i: nat): (r: Option<string>)
    ensures r.Some? <==> Index(seg, i).Some? && Index(seg, i).value.Str? && NonBlank(Index(seg, i).value.s)
    ensures r.Some? ==> Index(seg, i) == Some(Str(r.value))
    ensures r.Some? ==> exists k :: 0 <= k < |r.value| && !JsWhitespace(r.value[k])
  {
    match Index(seg, i)
    case Some(Str(s)) =>
      TrimEmptyIffBlank(s, JsWhitespace);
      if NonBlank(s) then Some(s) else None
    case _ => None
  }

  /** The phonetic: read from the last segment only when that has at least
      three slots; slot 2 wins over slot 3; the chosen string is not trimmed. */
  function Phonetic(segs: seq<Json>): (r: string)
    ensures var last := LastSegment(segs);
      && (!Truthy(last) || !LengthAtLeast(last, 3) ==> r == "")
      && (Truthy(last) && LengthAtLeast(last, 3) && Candidate(last, 2).Some? ==> r == Candidate(last, 2).value)
      && (Truthy(last) && LengthAtLeast(last, 3) && Candidate(last, 2).None? ==>
            r == if Candidate(last, 3).Some? then Candidate(last, 3).value else "")
      && (r != "" ==> Index(last, 2) == Some(Str(r)) || Index(last, 3) == Some(Str(r)))
      && (r != "" ==> NonBlank(r))
  {
    var last := LastSegment(segs);
    if Truthy(last) && LengthAtLeast(last, 3) then
      match Candidate(last, 2)
      case Some(p) => p
      case None =>
        match Candidate(last, 3)
        case Some(p) => p
        case None => ""
    else ""
  }

  /** Translation and phonetic, both `""` unless the response has a truthy
      segment list; `forEach` on anything but an array throws. */
  function TranslatedAndPhonetic(data: Json): (r: Result<(string, string), Error>)
    requires SegmentsWellTyped(data)
    ensures r.Ok? <==>
      (Truthy(data) && Truthy(Index(data, 0).value) ==>
         Index(data, 0).value.Arr? && Concatenation(Index(data, 0).value.items).Ok?)
    ensures r.Err? ==> r.error == TypeError
  {
    if Truthy(data) && Truthy(Index(data, 0).value) then
      match Index(data, 0).value
      case Arr(segs) =>
        var t :- Concatenation(segs);
        Ok((t, Phonetic(segs)))
      case _ => Err(TypeError)
    else Ok(("", ""))
  }

  // ---------------------------------------------------------------------
  // Dictionary, definitions and examples: data[1], data[12], data[13]

  /** `xs.map(f)` with a callback that may throw: the first failure aborts. */
  function MapAll<T>(xs: seq<Json>, f: Json -> Result<T, Error>): (r: Result<seq<T>, Error>)
    ensures r.Ok? <==> forall k :: 0 <= k < |xs| ==> f(xs[k]).Ok?
    ensures r.Ok? ==> |r.value| == |xs| && forall k :: 0 <= k < |xs| ==> r.value[k] == f(xs[k]).value
    ensures (forall x :: f(x).Err? ==> f(x).error == TypeError) ==> (r.Err? ==> r.error == TypeError)
  {
    if xs == [] then Ok([])
    else
      var head :- f(xs[0]);
      var rest :- MapAll(xs[1..], f);
      Ok([head] + rest)
  }

  /** `v.slice(0, n)`: a prefix of an array or string; anything else throws. */
  function SliceTo(v: Json, n: nat): (r: Result<Json, Error>)
    ensures r.Ok? <==> v.Arr? || v.Str?
    ensures v.Arr? ==> r.Ok? && r.value.Arr? && |r.value.items| == Min(n, |v.items|) && r.value.items <= v.items
    ensures v.Str? ==> r.Ok? && r.value.Str? && |r.value.s| == Min(n, |v.s|) && r.value.s <= v.s
  {
    match v
    case Arr(items) => Ok(Arr(items[..Min(n, |items|)]))
    case Str(s) => Ok(Str(s[..Min(n, |s|)]))
    case _ => Err(TypeError)
  }

  /** `def => def[0]`. */
  function First(v: Json): Result<Json, Error> {
    Get(v, 0)
  }

  /** `v.map(x => x[0])` runs: `v` is an array (only arrays have `map`)
      none of whose elements is null or undefined. */
  predicate Mappable(v: Json) {
    v.Arr? && forall j :: 0 <= j < |v.items| ==> !Nullish(v.items[j])
  }

  /** `v.map(x => x[0])`. */
  function Firsts(v: Json): (r: Result<seq<Json>, Error>)
    ensures r.Ok? <==> Mappable(v)
    ensures r.Err? ==> r.error == TypeError
    ensures r.Ok? ==>
      && |r.value| == |v.items|
      && forall j :: 0 <= j < |v.items| ==> Index(v.items[j], 0) == Some(r.value[j])
  {
    match v
    case Arr(xs) => MapAll(xs, First)
    case _ => Err(TypeError)
  }

  /** An entry the dictionary can read: not null or undefined, with terms
      that have `slice`. */
  predicate DictEntryReadable(entry: Json) {
    !Nullish(entry) && (Index(entry, 1).value.Arr? || Index(entry, 1).value.Str?)
  }

  /** `{pos: entry[0], terms: entry[1].slice(0, 5)}`. */
  function DictEntryOf(entry: Json): (r: Result<DictEntry, Error>)
    ensures r.Ok? <==> DictEntryReadable(entry)
    ensures r.Err? ==> r.error == TypeError
    ensures r.Ok? ==> DictEntryFrom(r.value, entry)
  {
    if Nullish(entry) then Err(TypeError)
    else
      var terms :- SliceTo(Index(entry, 1).value, 5);
      Ok(DictEntry(Index(entry, 0).value, terms))
  }

  /** `d` is what the dictionary keeps of `entry`: its part of speech, and
      the first terms (at most five, in order) of its term list. */
  predicate DictEntryFrom(d: DictEntry, entry: Json) {
    && Index(entry, 0) == Some(d.pos)
    && match Index(entry, 1)
       case Some(Arr(ts)) => d.terms.Arr? && |d.terms.items| == Min(5, |ts|) && d.terms.items <= ts
       case Some(Str(s)) => d.terms.Str? && |d.terms.s| == Min(5, |s|) && d.terms.s <= s
       case _ => false
  }

  /** `data[1] ? data[1].map(...) : null`. */
  function Dictionary(d1: Json): (r: Result<Option<seq<DictEntry>>, Error>)
    ensures r.Ok? ==> (r.value.None? <==> !Truthy(d1))
    ensures !Truthy(d1) ==> r == Ok(None)
    ensures Truthy(d1) && !d1.Arr? ==> r.Err?
    ensures d1.Arr? ==> (r.Ok? <==> forall k :: 0 <= k < |d1.items| ==> DictEntryReadable(d1.items[k]))
    ensures r.Err? ==> r.error == TypeError
    ensures d1 == Arr([]) ==> r == Ok(Some([]))
    ensures r.Ok? && r.value.Some? ==>
      |r.value.value| == |d1.items|
      && forall k :: 0 <= k < |d1.items| ==> DictEntryFrom(r.value.value[k], d1.items[k])
  {
    if !Truthy(d1) then Ok(None)
    else
      match d1
      case Arr(entries) =>
        var ds :- MapAll(entries, DictEntryOf);
        Ok(Some(ds))
      case _ => Err(TypeError)
  }

  /** `{pos: entry[0], defs: entry[1].map(def => def[0]).slice(0, 3)}`: every
      definition is read before three are kept. */
  function DefEntryOf(entry: Json): (r: Result<DefEntry, Error>)
    ensures r.Ok? <==> DefEntryReadable(entry)
    ensures r.Err? ==> r.error == TypeError
    ensures r.Ok? ==> DefEntryFrom(r.value, entry)
  {
    if Nullish(entry) then Err(TypeError)
    else
      var defs :- Firsts(Index(entry, 1).value);
      Ok(DefEntry(Index(entry, 0).value, defs[..Min(3, |defs|)]))
  }

  /** An entry the definitions can read: not null or undefined, with a
      definition list that can be mapped. */
  predicate DefEntryReadable(entry: Json) {
    !Nullish(entry) && Mappable(Index(entry, 1).value)
  }

  /** `d` is what the definitions keep of `entry`: its part of speech, and
      the first element of each of its first (at most three) sub-items. */
  predicate DefEntryFrom(d: DefEntry, entry: Json) {
    && Index(entry, 0) == Some(d.pos)
    && match Index(entry, 1)
       case Some(Arr(subs)) =>
         && |d.defs| == Min(3, |subs|)
         && forall j :: 0 <= j < |d.defs| ==> Index(subs[j], 0) == Some(d.defs[j])
       case _ => false
  }

  /** `data[12] ? data[12].map(...) : null`. */
  function Definitions(d12: Json): (r: Result<Option<seq<DefEntry>>, Error>)
    ensures r.Ok? ==> (r.value.None? <==> !Truthy(d12))
    ensures !Truthy(d12) ==> r == Ok(None)
    ensures Truthy(d12) && !d12.Arr? ==> r.Err?
    ensures d12.Arr? ==> (r.Ok? <==> forall k :: 0 <= k < |d12.items| ==> DefEntryReadable(d12.items[k]))
    ensures r.Err? ==> r.error == TypeError
    ensures r.Ok? && r.value.Some? ==>
      |r.value.value| == |d12.items|
      && forall k :: 0 <= k < |d12.items| ==> DefEntryFrom(r.value.value[k], d12.items[k])
  {
    if !Truthy(d12) then Ok(None)
    else
      match d12
      case Arr(entries) =>
        var ds :- MapAll(entries, DefEntryOf);
        Ok(Some(ds))
      case _ => Err(TypeError)
  }

  /** A definition group is read in full: a null definition past the third
      still makes the whole normalisation throw. */
  lemma DefinitionsReadEveryDefinition(entries: seq<Json>, k: nat, subs: seq<Json>, j: nat)
    requires k < |entries| && !Nullish(entries[k])
    requires Index(entries[k], 1) == Some(Arr(subs))
    requires j < |subs| && Nullish(subs[j])
    ensures Definitions(Arr(entries)).Err?
  {
    assert DefEntryOf(entries[k]).Err?;
  }

  /** `data[13] && data[13][0] ? data[13][0].map(ex => ex[0]).slice(0, 3) : null`. */
  function Examples(d13: Json): (r: Result<Option<seq<Json>>, Error>)
    ensures r.Ok? ==> (r.value.Some? <==> Truthy(d13) && Truthy(Index(d13, 0).value))
    ensures !(Truthy(d13) && Truthy(Index(d13, 0).value)) ==> r == Ok(None)
    ensures Truthy(d13) && Truthy(Index(d13, 0).value) ==> (r.Ok? <==> Mappable(Index(d13, 0).value))
    ensures r.Err? ==> r.error == TypeError
    ensures r.Ok? && r.value.Some? ==>
      var list := Index(d13, 0).value;
      && list.Arr?
      && |r.value.value| == Min(3, |list.items|)
      && forall j :: 0 <= j < |r.value.value| ==> Index(list.items[j], 0) == Some(r.value.value[j])
  {
    if Truthy(d13) && Truthy(Index(d13, 0).value) then
      var exs :- Firsts(Index(d13, 0).value);
      Ok(Some(exs[..Min(3, |exs|)]))
    else Ok(None)
  }

  // ---------------------------------------------------------------------
  // The whole normalisation

  /** The record from the optional fields, once translation and phonetic are known. */
  function Assemble(text: string, data: Json, translated: string, phonetic: string): Result<Translation, Error> {
    if Nullish(data) then Err(TypeError)
    else
      var dictionary :- Dictionary(Index(data, 1).value);
      var definitions :- Definitions(Index(data, 12).value);
      var examples :- Examples(Index(data, 13).value);
      Ok(Translation(text, translated, phonetic, dictionary, definitions, examples))
  }

  /** The record `translateText` resolves with for a decoded response
      `data`; it resolves exactly when every part can be read. */
  function Normalize(text: string, data: Json): (r: Result<Translation, Error>)
    requires SegmentsWellTyped(data)
    ensures r.Ok? <==>
      && !Nullish(data)
      && TranslatedAndPhonetic(data).Ok?
      && Dictionary(Index(data, 1).value).Ok?
      && Definitions(Index(data, 12).value).Ok?
      && Examples(Index(data, 13).value).Ok?
    ensures r.Err? ==> r.error == TypeError
    ensures r.Ok? ==> r.value.original == text
  {
    var tp :- TranslatedAndPhonetic(data);
    Assemble(text, data, tp.0, tp.1)
  }

  /** A `null` response throws: the guard on the segment list does not
      protect the unguarded read of `data[1]`. */
  lemma NormalizeNullDataThrows(text: string, data: Json)
    requires Nullish(data)
    ensures Normalize(text, data) == Err(TypeError)
  {
  }

  /** A response holding nothing but a segment list without null segments
      resolves: the absent positions are expected and give `null` fields. */
  lemma NormalizeSegmentsOnly(text: string, segs: seq<Json>)
    requires SegmentTextsAreStrings(segs)
    requires forall i :: 0 <= i < |segs| ==> !Nullish(segs[i])
    ensures SegmentsWellTyped(Arr([Arr(segs)]))
    ensures Normalize(text, Arr([Arr(segs)]))
         == Ok(Translation(text, ConcatMap(segs, SegmentText), Phonetic(segs), None, None, None))
  {
    var data := Arr([Arr(segs)]);
    assert Index(data, 0) == Some(Arr(segs));
    ConcatenationFailsIffNullish(segs);
    TranslatedFromSegments(data, segs);
    assert Index(data, 1) == Some(Undefined) && Index(data, 12) == Some(Undefined) && Index(data, 13) == Some(Undefined);
  }

  lemma TranslatedFromSegments(data: Json, segs: seq<Json>)
    requires Truthy(data) && Index(data, 0) == Some(Arr(segs))
    requires SegmentTextsAreStrings(segs) && Concatenation(segs).Ok?
    ensures SegmentsWellTyped(data)
    ensures TranslatedAndPhonetic(data) == Ok((ConcatMap(segs, SegmentText), Phonetic(segs)))
  {
  }

  /** Without a truthy segment list, translation and phonetic are both `""`. */
  lemma NormalizeWithoutSegments(text: string, data: Json)
    requires SegmentsWellTyped(data)
    requires !Nullish(data) && !Truthy(Index(data, 0).value)
    requires Normalize(text, data).Ok?
    ensures Normalize(text, data).value.translated == ""
    ensures Normalize(text, data).value.phonetic == ""
  {
  }

  /** With a segment list, the translation is its concatenation and the
      phonetic comes from its last segment. */
  lemma NormalizeWithSegments(text: string, data: Json, segs: seq<Json>)
    requires Truthy(data) && Index(data, 0) == Some(Arr(segs))
    requires SegmentTextsAreStrings(segs)
    requires Normalize(text, data).Ok?
    ensures Concatenation(segs).Ok?
    ensures Normalize(text, data).value.translated == Concatenation(segs).value
    ensures Normalize(text, data).value.phonetic == Phonetic(segs)
  {
  }

  /** The optional fields come from positions 1, 12 and 13, each `null`
      exactly when its position is falsy (examples also when `data[13][0]` is). */
  lemma NormalizeOptionalFields(text: string, data: Json)
    requires SegmentsWellTyped(data)
    requires Normalize(text, data).Ok?
    ensures !Nullish(data)
    ensures var t := Normalize(text, data).value;
      && Dictionary(Index(data, 1).value) == Ok(t.dictionary)
      && Definitions(Index(data, 12).value) == Ok(t.definitions)
      && Examples(Index(data, 13).value) == Ok(t.examples)
      && (t.dictionary.None? <==> !Truthy(Index(data, 1).value))
      && (t.definitions.None? <==> !Truthy(Index(data, 12).value))
  {
  }

  // ---------------------------------------------------------------------
  // translateText and the message listener

  predicate WellTypedResponse(fetched: Fetched) {
    fetched.Http? && fetched.body.Parsed? ==> SegmentsWellTyped(fetched.body.data)
  }

  /** What `translateText` resolves or rejects with for a given exchange. */
  function Translate(text: string, fetched: Fetched): (r: Result<Translation, Error>)
    requires WellTypedResponse(fetched)
    ensures fetched.NetworkFailure? ==> r == Err(Raised(fetched.message))
    ensures fetched.Http? && !IsOk(fetched.status) ==> r == Err(ApiError(fetched.status))
    ensures fetched.Http? && IsOk(fetched.status) && fetched.body.Unparsable? ==> r == Err(Raised(fetched.body.message))
    ensures fetched.Http? && IsOk(fetched.status) && fetched.body.Parsed? ==> r == Normalize(text, fetched.body.data)
  {
    match fetched
    case NetworkFailure(message) => Err(Raised(message))
    case Http(status, body) =>
      if !IsOk(status) then Err(ApiError(status))
      else
        match body
        case Unparsable(message) => Err(Raised(message))
        case Parsed(data) => Normalize(text, data)
  }

  /** `translateText`: the query it sends, and its outcome. */
  method TranslateText(text: string, fetched: Fetched) returns (query: seq<(string, string)>, r: Result<Translation, Error>)
    requires WellTypedResponse(fetched)
    ensures query == QueryParams(text)
    ensures r == Translate(text, fetched)
  {
    query := BuildQuery(text);
    match fetched
    case NetworkFailure(message) =>
      r := Err(Raised(message));
    case Http(status, body) =>
      if !IsOk(status) {
        r := Err(ApiError(status));
        return;
      }
      match body
      case Unparsable(message) =>
        r := Err(Raised(message));
      case Parsed(data) =>
        var translated, phonetic := "", "";
        if Truthy(data) && Truthy(Index(data, 0).value) {
          match Index(data, 0).value
          case Arr(segs) =>
            var acc := AccumulateTranslated(segs);
            if acc.Err? {
              r := Err(acc.error);
              return;
            }
            translated := acc.value;
            phonetic := Phonetic(segs);
          case _ =>
            r := Err(TypeError);
            return;
        }
        r := Assemble(text, data, translated, phonetic);
  }

  /** `error.message`: the status line for a non-OK status and the
      failure's own message otherwise; the engine's wording of a TypeError
      is not modelled (`None`). */
  function Message(e: Error): Option<string> {
    match e
    case ApiError(status) => Some(ApiErrorMessage(status))
    case Raised(message) => Some(message)
    case TypeError => None
  }

  /** The listener's answer: `{success: true, data}` or `{success: false, error}`. */
  datatype Reply = Succeeded(data: Translation) | Failed(error: Option<string>)

  /** The answer to a `translate` message. */
  function OnTranslate(text: string, fetched: Fetched): (reply: Reply)
    requires WellTypedResponse(fetched)
    ensures fetched.NetworkFailure? ==> reply == Failed(Some(fetched.message))
    ensures fetched.Http? && !IsOk(fetched.status) ==> reply == Failed(Some(ApiErrorMessage(fetched.status)))
    ensures fetched.Http? && IsOk(fetched.status) && fetched.body.Unparsable? ==>
      reply == Failed(Some(fetched.body.message))
    ensures fetched.Http? && IsOk(fetched.status) && fetched.body.Parsed? ==>
      var n := Normalize(text, fetched.body.data);
      && (reply.Succeeded? <==> n.Ok?)
      && (reply.Succeeded? ==> reply.data == n.value)
      && (reply.Failed? ==> reply.error == None)
    ensures reply.Succeeded? ==> reply.data.original == text
  {
    match Translate(text, fetched)
    case Ok(t) => Succeeded(t)
    case Err(e) => Failed(Message(e))
  }
}
