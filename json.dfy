/** JavaScript values as a decoded JSON response presents them to the
    extension, with the two language rules the normaliser leans on:
    truthiness, and what `v[i]` reads. */
module Json {
  import opened Wrappers
  import opened Text

  datatype Json =
    | Undefined                    // an absent array slot or object key
    | Null
    | Bool(b: bool)
    | Num(n: real)
    | Str(s: string)
    | Arr(items: seq<Json>)
    | Obj(fields: map<string, Json>)

  /** JavaScript's truthiness: `undefined`, `null`, `false`, `0` and `""`
      are falsy; every array and object, even an empty one, is truthy. */
  predicate Truthy(v: Json) {
    match v
    case Undefined => false
    case Null => false
    case Bool(b) => b
    case Num(n) => n != 0.0
    case Str(s) => s != ""
    case Arr(_) => true
    case Obj(_) => true
  }

  /** Reading a property of `null` or `undefined` throws a TypeError. */
  predicate Nullish(v: Json) {
    v.Undefined? || v.Null?
  }

  /** `v[i]`: `None` when the read throws (on `null`/`undefined`); an
      out-of-range or missing slot reads as `undefined`; a string yields
      its one-character substring; an object is looked up under the
      decimal key; a boolean or number has no indexed properties. */
  function Index(v: Json, i: nat): (r: Option<Json>)
    ensures r.None? <==> Nullish(v)
    ensures v.Arr? && i < |v.items| ==> r == Some(v.items[i])
    ensures v.Arr? && i >= |v.items| ==> r == Some(Undefined)
  {
    match v
    case Undefined => None
    case Null => None
    case Bool(_) => Some(Undefined)
    case Num(_) => Some(Undefined)
    case Str(s) => Some(if i < |s| then Str([s[i]]) else Undefined)
    case Arr(items) => Some(if i < |items| then items[i] else Undefined)
    case Obj(fields) =>
      var key := Decimal(i);
      Some(if key in fields then fields[key] else Undefined)
  }

  /** `v.length >= k` for a value that is not `null`/`undefined`: arrays
      and strings compare their length; an object compares its `length`
      property when that is a number; for anything else `length` is
      `undefined` and the comparison is false. */
  predicate LengthAtLeast(v: Json, k: nat) {
    match v
    case Arr(items) => |items| >= k
    case Str(s) => |s| >= k
    case Obj(fields) => "length" in fields && fields["length"].Num? && fields["length"].n >= k as real
    case _ => false
  }

  /** The characters JavaScript's `String.prototype.trim` removes: white
      space (tab, vertical tab, form feed, space, no-break space, byte
      order mark and the Unicode space separators) and line terminators. */
  predicate JsWhitespace(c: char) {
    || c == '\t' || c == '\n' || c == '\U{B}' || c == '\U{C}' || c == '\r' || c == ' '
    || c == '\U{A0}' || c == '\U{1680}' || ('\U{2000}' <= c <= '\U{200A}')
    || c == '\U{2028}' || c == '\U{2029}' || c == '\U{202F}' || c == '\U{205F}'
    || c == '\U{3000}' || c == '\U{FEFF}'
  }

  /** `s.trim()` is truthy: something is left after JavaScript's trim. */
  predicate NonBlank(s: string) {
    Trim(s, JsWhitespace) != ""
  }
}
