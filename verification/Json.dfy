/**
 * Decoded JSON, as `encoding/json` hands it to the gateway (`map[string]any`), and the
 * typed look-ups (`v, ok := m[k].(T)`) the gateway performs on it.
 */
module Json {
  import opened Text
  import Utf8

  type Object = map<string, Json>

  /** A number is `mantissa * 2^exponent`, as in a float64. */
  datatype Json =
    | Null
    | Bool(b: bool)
    | Num(mantissa: int, exponent: int)
    | Str(s: string)
    | Arr(items: seq<Json>)
    | Obj(fields: map<string, Json>)

  function StrAt(o: Object, k: string): Option<string> {
    if k in o && o[k].Str? then Some(o[k].s) else None
  }

  function ObjAt(o: Object, k: string): Option<Object> {
    if k in o && o[k].Obj? then Some(o[k].fields) else None
  }

  function ArrAt(o: Object, k: string): Option<seq<Json>> {
    if k in o && o[k].Arr? then Some(o[k].items) else None
  }

  /** The value of the first listed key that holds a string, even an empty one; "" if none does. */
  function FirstStr(o: Object, keys: seq<string>): string {
    if keys == [] then "" else match StrAt(o, keys[0])
      case Some(s) => s
      case None => FirstStr(o, keys[1..])
  }

  lemma {:induction false} FirstStrOfNone(o: Object, keys: seq<string>)
    requires forall i | 0 <= i < |keys| :: StrAt(o, keys[i]) == None
    ensures FirstStr(o, keys) == ""
  {
    if keys != [] {
      assert forall i | 0 <= i < |keys| - 1 :: keys[1..][i] == keys[i + 1];
      FirstStrOfNone(o, keys[1..]);
    }
  }

  // ----- numbers -----

  function Pow2(n: nat): (p: nat)
    ensures p > 0
  {
    if n == 0 then 1 else 2 * Pow2(n - 1)
  }

  lemma {:induction false} Pow2Grows(n: nat, k: nat)
    requires k <= n
    ensures Pow2(k) <= Pow2(n)
    decreases n
  {
    if k < n {
      Pow2Grows(n - 1, k);
    }
  }

  function Abs(i: int): nat {
    if i < 0 then -i else i
  }

  /** A finite float64 in lowest terms; zero has one form. */
  predicate IsFloat(mantissa: int, exponent: int) {
    || (mantissa == 0 && exponent == 0)
    || (mantissa % 2 != 0 && Abs(mantissa) < Pow2(53) && -1074 <= exponent < 1024
      && Abs(mantissa) < Pow2(1024 - exponent))
  }

  /** An integer as a number in lowest terms. */
  function IntNum(i: int): (j: Json)
    ensures j.Num?
    decreases Abs(i)
  {
    if i == 0 then Num(0, 0)
    else if i % 2 != 0 then Num(i, 0)
    else
      var half := IntNum(i / 2);
      Num(half.mantissa, half.exponent + 1)
  }

  /** Go's `int(v)` on a float64: truncation toward zero. */
  function Truncate(mantissa: int, exponent: int): int {
    if exponent >= 0 then mantissa * Pow2(exponent)
    else if mantissa >= 0 then mantissa / Pow2(-exponent)
    else -(-mantissa / Pow2(-exponent))
  }

  lemma {:induction false} IntNumTruncates(i: int)
    ensures IntNum(i).exponent >= 0 && Truncate(IntNum(i).mantissa, IntNum(i).exponent) == i
    decreases Abs(i)
  {
    if i != 0 && i % 2 == 0 {
      var half := IntNum(i / 2);
      IntNumTruncates(i / 2);
      assert half.mantissa * Pow2(half.exponent + 1) == 2 * (half.mantissa * Pow2(half.exponent));
    }
  }

  lemma {:induction false} IntNumShape(i: int, n: nat)
    requires i != 0 && Abs(i) < Pow2(n)
    ensures var j := IntNum(i); j.mantissa % 2 != 0 && Abs(j.mantissa) <= Abs(i) && 0 <= j.exponent <= n
    decreases n
  {
    if i % 2 == 0 {
      IntNumShape(i / 2, n - 1);
    }
  }

  /** Integers of up to 53 bits are exact. */
  lemma IntNumIsFloat(i: int)
    requires Abs(i) < Pow2(53)
    ensures IsFloat(IntNum(i).mantissa, IntNum(i).exponent)
  {
    if i != 0 {
      IntNumShape(i, 53);
      Pow2Grows(1024 - IntNum(i).exponent, 53);
    }
  }

  // ----- the library -----

  /** What decoding yields and encoding keeps: float64 numbers, and UTF-8 throughout. */
  predicate Encodable(j: Json) {
    match j
    case Str(s) => Utf8.Valid(s)
    case Num(mantissa, exponent) => IsFloat(mantissa, exponent)
    case Arr(items) => forall i | 0 <= i < |items| :: Encodable(items[i])
    case Obj(fields) => forall k | k in fields :: Utf8.Valid(k) && Encodable(fields[k])
    case _ => true
  }

  predicate EncodableObject(o: Object) {
    Encodable(Obj(o))
  }

  /** How deep the decoder goes. */
  const MAX_DEPTH: nat := 10_000

  /** Does the value nest no deeper than this? */
  predicate Nests(j: Json, depth: int) {
    match j
    case Arr(items) => depth > 0 && forall i | 0 <= i < |items| :: Nests(items[i], depth - 1)
    case Obj(fields) => depth > 0 && forall k | k in fields :: Nests(fields[k], depth - 1)
    case _ => true
  }

  lemma {:induction false} NestsMore(j: Json, depth: int, more: int)
    requires Nests(j, depth) && depth <= more
    ensures Nests(j, more)
  {
    match j
    case Arr(items) =>
      forall i | 0 <= i < |items| ensures Nests(items[i], more - 1) {
        NestsMore(items[i], depth - 1, more - 1);
      }
    case Obj(fields) =>
      forall k | k in fields ensures Nests(fields[k], more - 1) {
        NestsMore(fields[k], depth - 1, more - 1);
      }
    case _ =>
  }

  /** What the library hands out and takes in. */
  predicate Carried(o: Object) {
    EncodableObject(o) && Nests(Obj(o), MAX_DEPTH)
  }

  /** The value can be carried at this depth. */
  predicate Fits(j: Json, at: nat) {
    Encodable(j) && Nests(j, MAX_DEPTH - at)
  }

  lemma FitsEmpty(at: nat)
    requires at < MAX_DEPTH
    ensures Fits(Obj(map[]), at)
  {
  }

  lemma FitsWith(o: Object, k: string, j: Json, at: nat)
    requires Fits(Obj(o), at) && Utf8.Valid(k) && Fits(j, at + 1)
    ensures Fits(Obj(o[k := j]), at)
  {
    hide Utf8.Valid;
    EncodableWith(o, k, j);
  }

  lemma FitsField(k: string, j: Json, at: nat)
    requires at < MAX_DEPTH && Utf8.Valid(k) && Fits(j, at + 1)
    ensures Fits(Obj(map[k := j]), at)
  {
    hide Utf8.Valid;
  }

  lemma FitsItem(j: Json, at: nat)
    requires at < MAX_DEPTH && Fits(j, at + 1)
    ensures Fits(Arr([j]), at)
  {
  }

  /**
   * What `json.Unmarshal` leaves in a map: the fields as it filled them in, and whether it reported no error. A number
   * outside float64 is an error that leaves null in its place and the other fields filled in.
   */
  datatype Decoded = Decoded(fields: Object, whole: bool)

  /** Not an object, or nested too deep: an error, and nothing filled in. */
  const UNREADABLE := Decoded(map[], false)

  /** The JSON library and the answer unwrapper, as the stream engine sees them. */
  datatype Codec = Codec(decode: string -> Decoded, encode: Object -> string, unwrap: string -> string)

  /**
   * What the engine needs of the library: decoding fills in encodable fields of bounded depth, and an encodable object
   * is written as one line, brace to brace, that decodes to it unless it nests too deep.
   */
  ghost predicate Faithful(c: Codec) {
    && c.decode("[DONE]") == UNREADABLE
    && (forall s: string :: Carried(c.decode(s).fields))
    && (forall o: Object :: EncodableObject(o) ==> WrittenAs(c, o, c.encode(o)))
  }

  predicate WrittenAs(c: Codec, o: Object, s: string) {
    && c.decode(s) == (if Carried(o) then Decoded(o, true) else UNREADABLE)
    && |s| >= 2 && s[0] == '{' && s[|s| - 1] == '}' && Free(s, '\n')
  }

  lemma WrittenFaithfully(c: Codec, o: Object)
    requires Faithful(c) && EncodableObject(o)
    ensures WrittenAs(c, o, c.encode(o))
  {
    hide EncodableObject, WrittenAs;
  }

  lemma DecodedIsCarried(c: Codec, s: string)
    requires Faithful(c)
    ensures Carried(c.decode(s).fields)
  {
    hide Carried, WrittenAs;
  }

  lemma EncodableEmpty()
    ensures EncodableObject(map[])
  {
  }

  lemma EncodableWith(o: Object, k: string, j: Json)
    requires EncodableObject(o) && Utf8.Valid(k) && Encodable(j)
    ensures EncodableObject(o[k := j])
  {
    hide Utf8.Valid;
    forall l | l in o[k := j] ensures Utf8.Valid(l) && Encodable(o[k := j][l]) {
      assert l != k ==> Utf8.Valid(l) && Encodable(o[l]);
    }
  }

  // ----- a payload decoded in part -----

  /** A chunk with a tool call and a number outside float64. */
  const OVERFLOWING :=
    "{\"choices\":" + "[{\"delta\":{\"tool_calls\":[{\"index\":0,\"id\":\"a\"}]}}],\"created\":1e999}"

  /** What decoding fills in before it reports the number. */
  function OverflowingFields(): Object {
    map["choices" := Arr([Obj(map["delta" := Obj(OverflowingDelta())])]), "created" := Null]
  }

  function OverflowingDelta(): Object {
    map["tool_calls" := Arr([Obj(map["index" := Num(0, 0), "id" := Str("a")])])]
  }
}
