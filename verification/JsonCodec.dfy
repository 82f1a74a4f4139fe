/**
 * A codec that is `Faithful`, so that the theorems under that hypothesis speak of something. It writes integers in
 * unary and fields in an order of its own; only that it can be read back matters.
 */
module JsonCodec {
  import opened Text
  import opened Json
  import Utf8

  // ----- writing, each piece in front of what follows it -----

  function WriteNat(n: nat, tail: string): string {
    if n == 0 then [';'] + tail else ['1'] + WriteNat(n - 1, tail)
  }

  function WriteInt(i: int, tail: string): string {
    [if i < 0 then '-' else '+'] + WriteNat(Abs(i), tail)
  }

  function WriteText(s: string, tail: string): string {
    if s == "" then ['"'] + tail
    else if s[0] == '\n' then ['\\', 'n'] + WriteText(s[1..], tail)
    else if s[0] == '"' || s[0] == '\\' then ['\\', s[0]] + WriteText(s[1..], tail)
    else [s[0]] + WriteText(s[1..], tail)
  }

  ghost function Write(j: Json, tail: string): string
    decreases j, 1, 0
  {
    match j
    case Null => ['n'] + tail
    case Bool(b) => [if b then 't' else 'f'] + tail
    case Num(mantissa, exponent) => ['#'] + WriteInt(mantissa, WriteInt(exponent, tail))
    case Str(s) => ['"'] + WriteText(s, tail)
    case Arr(items) => ['['] + WriteItems(j, items, tail)
    case Obj(fields) => ['{'] + WriteFields(j, fields, tail)
  }

  ghost function WriteItems(whole: Json, items: seq<Json>, tail: string): string
    requires forall i | 0 <= i < |items| :: items[i] < whole
    decreases whole, 0, |items|
  {
    if items == [] then [']'] + tail else [','] + Write(items[0], WriteItems(whole, items[1..], tail))
  }

  ghost function WriteFields(whole: Json, fields: Object, tail: string): string
    requires forall k | k in fields :: fields[k] < whole
    decreases whole, 0, |fields|
  {
    if fields == map[] then ['}'] + tail
    else
      var k :| k in fields;
      [','] + WriteText(k, Write(fields[k], WriteFields(whole, fields - {k}, tail)))
  }

  // ----- it can be read back -----

  lemma Cons(c: char, s: string, d: char, t: string)
    requires [c] + s == [d] + t
    ensures c == d && s == t
  {
    assert ([c] + s)[0] == c && ([c] + s)[1..] == s;
    assert ([d] + t)[0] == d && ([d] + t)[1..] == t;
  }

  lemma {:induction false} NatUnique(n: nat, s: string, m: nat, t: string)
    requires WriteNat(n, s) == WriteNat(m, t)
    ensures n == m && s == t
  {
    if n == 0 {
      Cons(';', s, if m == 0 then ';' else '1', if m == 0 then t else WriteNat(m - 1, t));
    } else {
      Cons('1', WriteNat(n - 1, s), if m == 0 then ';' else '1', if m == 0 then t else WriteNat(m - 1, t));
      NatUnique(n - 1, s, m - 1, t);
    }
  }

  lemma IntUnique(i: int, s: string, j: int, t: string)
    requires WriteInt(i, s) == WriteInt(j, t)
    ensures i == j && s == t
  {
    Cons(if i < 0 then '-' else '+', WriteNat(Abs(i), s), if j < 0 then '-' else '+', WriteNat(Abs(j), t));
    NatUnique(Abs(i), s, Abs(j), t);
  }

  /** The text in front: the closing quote, or the first character as it is written. */
  function FirstWritten(x: string): string {
    if x == "" then ['"']
    else if x[0] == '\n' then ['\\', 'n']
    else if x[0] == '"' || x[0] == '\\' then ['\\', x[0]]
    else [x[0]]
  }

  lemma WriteTextStep(x: string, s: string)
    ensures WriteText(x, s) == FirstWritten(x) + if x == "" then s else WriteText(x[1..], s)
  {
  }

  /** What is in front tells the first character, or that there is none. */
  lemma FirstUnique(x: string, s: string, y: string, t: string)
    requires FirstWritten(x) + s == FirstWritten(y) + t
    ensures (x == "" <==> y == "") && (x != "" && y != "" ==> x[0] == y[0]) && s == t
  {
    var l, r := FirstWritten(x) + s, FirstWritten(y) + t;
    assert l[0] == FirstWritten(x)[0] && r[0] == FirstWritten(y)[0];
    assert |FirstWritten(x)| == |FirstWritten(y)|;
    var n := |FirstWritten(x)|;
    assert l[..n] == FirstWritten(x) && r[..n] == FirstWritten(y) && l[n..] == s && r[n..] == t;
    assert n > 1 ==> l[1] == FirstWritten(x)[1] && r[1] == FirstWritten(y)[1];
  }

  lemma {:induction false} TextUnique(x: string, s: string, y: string, t: string)
    requires WriteText(x, s) == WriteText(y, t)
    ensures x == y && s == t
    decreases |x|
  {
    WriteTextStep(x, s);
    WriteTextStep(y, t);
    hide FirstWritten;
    FirstUnique(x, if x == "" then s else WriteText(x[1..], s), y, if y == "" then t else WriteText(y[1..], t));
    if x != "" {
      TextUnique(x[1..], s, y[1..], t);
      assert x == [x[0]] + x[1..] && y == [y[0]] + y[1..];
    }
  }

  /** The character in front tells the kind of value. */
  function Kind(j: Json): char {
    match j
    case Null => 'n'
    case Bool(b) => if b then 't' else 'f'
    case Num(_, _) => '#'
    case Str(_) => '"'
    case Arr(_) => '['
    case Obj(_) => '{'
  }

  ghost function Inside(j: Json, tail: string): string {
    match j
    case Null => tail
    case Bool(_) => tail
    case Num(mantissa, exponent) => WriteInt(mantissa, WriteInt(exponent, tail))
    case Str(s) => WriteText(s, tail)
    case Arr(items) => WriteItems(j, items, tail)
    case Obj(fields) => WriteFields(j, fields, tail)
  }

  lemma WriteStep(j: Json, tail: string)
    ensures Write(j, tail) == [Kind(j)] + Inside(j, tail)
  {
  }

  lemma {:induction false} WriteUnique(x: Json, s: string, y: Json, t: string)
    requires Write(x, s) == Write(y, t)
    ensures x == y && s == t
    decreases x, 1, 0
  {
    WriteStep(x, s);
    WriteStep(y, t);
    Cons(Kind(x), Inside(x, s), Kind(y), Inside(y, t));
    hide Write;
    match x {
      case Num(m, e) =>
        IntUnique(m, WriteInt(e, s), y.mantissa, WriteInt(y.exponent, t));
        IntUnique(e, s, y.exponent, t);
      case Str(text) => TextUnique(text, s, y.s, t);
      case Arr(items) => ItemsUnique(x, items, s, y, y.items, t);
      case Obj(fields) => FieldsUnique(x, fields, s, y, y.fields, t);
      case _ =>
    }
  }

  ghost function FirstItem(whole: Json, items: seq<Json>, tail: string): string
    requires forall i | 0 <= i < |items| :: items[i] < whole
  {
    if items == [] then tail else Write(items[0], WriteItems(whole, items[1..], tail))
  }

  lemma {:induction false} ItemsUnique(whole: Json, xs: seq<Json>, s: string, whole': Json, ys: seq<Json>, t: string)
    requires (forall i | 0 <= i < |xs| :: xs[i] < whole) && forall i | 0 <= i < |ys| :: ys[i] < whole'
    requires WriteItems(whole, xs, s) == WriteItems(whole', ys, t)
    ensures xs == ys && s == t
    decreases whole, 0, |xs|
  {
    Cons(if xs == [] then ']' else ',', FirstItem(whole, xs, s),
         if ys == [] then ']' else ',', FirstItem(whole', ys, t));
    if xs != [] {
      WriteUnique(xs[0], WriteItems(whole, xs[1..], s), ys[0], WriteItems(whole', ys[1..], t));
      ItemsUnique(whole, xs[1..], s, whole', ys[1..], t);
      assert xs == [xs[0]] + xs[1..] && ys == [ys[0]] + ys[1..];
    }
  }

  lemma Rejoin(fields: Object, k: string)
    requires k in fields
    ensures (fields - {k})[k := fields[k]] == fields
  {
  }

  /** The field that `WriteFields` puts first. */
  lemma FirstField(whole: Json, fields: Object, tail: string) returns (k: string)
    requires fields != map[] && forall k | k in fields :: fields[k] < whole
    ensures k in fields
    ensures WriteFields(whole, fields, tail) ==
      [','] + WriteText(k, Write(fields[k], WriteFields(whole, fields - {k}, tail)))
  {
    k :| k in fields && WriteFields(whole, fields, tail) ==
      [','] + WriteText(k, Write(fields[k], WriteFields(whole, fields - {k}, tail)));
  }

  lemma FieldsHead(whole: Json, fields: Object, tail: string)
    requires forall k | k in fields :: fields[k] < whole
    ensures var written := WriteFields(whole, fields, tail);
      written != "" && written[0] == (if fields == map[] then '}' else ',')
  {
    hide Write, WriteText;
  }

  lemma {:induction false} FieldsUnique(whole: Json, xs: Object, s: string, whole': Json, ys: Object, t: string)
    requires (forall k | k in xs :: xs[k] < whole) && forall k | k in ys :: ys[k] < whole'
    requires WriteFields(whole, xs, s) == WriteFields(whole', ys, t)
    ensures xs == ys && s == t
    decreases whole, 0, |xs|
  {
    FieldsHead(whole, xs, s);
    FieldsHead(whole', ys, t);
    if xs == map[] {
      Cons('}', s, '}', t);
    } else {
      var k := FirstField(whole, xs, s);
      var k' := FirstField(whole', ys, t);
      hide WriteFields;
      var rest, rest' := WriteFields(whole, xs - {k}, s), WriteFields(whole', ys - {k'}, t);
      Cons(',', WriteText(k, Write(xs[k], rest)), ',', WriteText(k', Write(ys[k'], rest')));
      TextUnique(k, Write(xs[k], rest), k', Write(ys[k'], rest'));
      WriteUnique(xs[k], rest, ys[k'], rest');
      FieldsUnique(whole, xs - {k}, s, whole', ys - {k'}, t);
      Rejoin(xs, k);
      Rejoin(ys, k);
    }
  }

  // ----- one line, brace to brace -----

  /** A piece of output: a line that ends with a brace. */
  predicate Piece(s: string) {
    Free(s, '\n') && s != "" && s[|s| - 1] == '}'
  }

  lemma PieceCons(c: char, s: string)
    requires c != '\n' && Piece(s)
    ensures Piece([c] + s)
  {
  }

  lemma {:induction false} NatPiece(n: nat, tail: string)
    requires Piece(tail)
    ensures Piece(WriteNat(n, tail))
  {
    if n > 0 {
      NatPiece(n - 1, tail);
    }
  }

  lemma FirstPiece(s: string, rest: string)
    requires Piece(rest)
    ensures Piece(FirstWritten(s) + rest)
  {
    hide Piece;
    var first := FirstWritten(s);
    var c := first[|first| - 1];
    PieceCons(c, rest);
    if |first| == 2 {
      PieceCons('\\', [c] + rest);
      assert ['\\'] + ([c] + rest) == first + rest;
    }
  }

  lemma {:induction false} TextPiece(s: string, tail: string)
    requires Piece(tail)
    ensures Piece(WriteText(s, tail))
  {
    hide Piece;
    WriteTextStep(s, tail);
    if s != "" {
      TextPiece(s[1..], tail);
    }
    hide WriteText;
    FirstPiece(s, if s == "" then tail else WriteText(s[1..], tail));
  }

  lemma {:induction false} WritePiece(j: Json, tail: string)
    requires Piece(tail)
    ensures Piece(Write(j, tail))
    decreases j, 1, 0
  {
    WriteStep(j, tail);
    assert Piece(Inside(j, tail)) by {
      match j {
        case Num(mantissa, exponent) =>
          NatPiece(Abs(exponent), tail);
          NatPiece(Abs(mantissa), WriteInt(exponent, tail));
        case Str(s) => TextPiece(s, tail);
        case Arr(items) => ItemsPiece(j, items, tail);
        case Obj(fields) => FieldsPiece(j, fields, tail);
        case _ =>
      }
    }
    hide Write, Inside;
    PieceCons(Kind(j), Inside(j, tail));
  }

  lemma {:induction false} ItemsPiece(whole: Json, items: seq<Json>, tail: string)
    requires Piece(tail) && forall i | 0 <= i < |items| :: items[i] < whole
    ensures Piece(WriteItems(whole, items, tail))
    decreases whole, 0, |items|
  {
    if items != [] {
      ItemsPiece(whole, items[1..], tail);
      WritePiece(items[0], WriteItems(whole, items[1..], tail));
    }
  }

  lemma {:induction false} FieldsPiece(whole: Json, fields: Object, tail: string)
    requires (Piece(tail) || tail == "") && forall k | k in fields :: fields[k] < whole
    ensures Piece(WriteFields(whole, fields, tail))
    decreases whole, 0, |fields|
  {
    if fields != map[] {
      var k := FirstField(whole, fields, tail);
      hide WriteFields, Write, WriteText;
      FieldsPiece(whole, fields - {k}, tail);
      WritePiece(fields[k], WriteFields(whole, fields - {k}, tail));
      TextPiece(k, Write(fields[k], WriteFields(whole, fields - {k}, tail)));
      PieceCons(',', WriteText(k, Write(fields[k], WriteFields(whole, fields - {k}, tail))));
    }
  }

  // ----- the codec -----

  ghost function Encode(o: Object): string {
    Write(Obj(o), "")
  }

  /** Anything but what `Encode` writes is unreadable, apart from one text with a number outside float64. */
  ghost function Decode(s: string): Decoded {
    if s == OVERFLOWING then Decoded(OverflowingFields(), false)
    else if exists o: Object :: Carried(o) && Encode(o) == s then
      var o: Object :| Carried(o) && Encode(o) == s;
      Decoded(o, true)
    else UNREADABLE
  }

  lemma DecodeEncode(o: Object)
    requires Encode(o) != OVERFLOWING
    ensures Decode(Encode(o)) == if Carried(o) then Decoded(o, true) else UNREADABLE
  {
    forall p: Object | Encode(p) == Encode(o) ensures p == o {
      WriteUnique(Obj(p), "", Obj(o), "");
    }
  }

  /** What is written for an object has a comma or a brace behind its first brace. */
  lemma EncodeShape(o: Object)
    ensures var s := Encode(o); s != OVERFLOWING && Free(s, '\n') && |s| >= 2 && s[0] == '{' && s[|s| - 1] == '}'
  {
    WriteStep(Obj(o), "");
    FieldsPiece(Obj(o), o, "");
    assert Encode(o)[1] in {',', '}'};
    assert OVERFLOWING[1] == '"';
  }

  lemma OverflowingIsCarried()
    ensures Carried(OverflowingFields())
  {
    hide Utf8.Valid;
    Utf8.AsciiIsValid("choices");
    Utf8.AsciiIsValid("delta");
    Utf8.AsciiIsValid("created");
    var delta := Obj(OverflowingDelta());
    OverflowingDeltaFits();
    assert Fits(Null, 1);
    hide Encodable, Nests, OverflowingDelta;
    FitsField("delta", delta, 2);
    FitsItem(Obj(map["delta" := delta]), 1);
    FitsField("choices", Arr([Obj(map["delta" := delta])]), 0);
    FitsWith(map["choices" := Arr([Obj(map["delta" := delta])])], "created", Null, 0);
  }

  lemma OverflowingDeltaFits()
    ensures Fits(Obj(OverflowingDelta()), 3)
  {
    hide Utf8.Valid;
    Utf8.AsciiIsValid("tool_calls");
    Utf8.AsciiIsValid("index");
    Utf8.AsciiIsValid("id");
    Utf8.AsciiIsValid("a");
    assert Fits(Num(0, 0), 6) && Fits(Str("a"), 6);
    hide Fits;
    var call := Obj(map["index" := Num(0, 0), "id" := Str("a")]);
    FitsField("index", Num(0, 0), 5);
    FitsWith(map["index" := Num(0, 0)], "id", Str("a"), 5);
    FitsItem(call, 4);
    FitsField("tool_calls", Arr([call]), 3);
  }

  lemma DecodedFields(s: string)
    ensures Carried(Decode(s).fields)
  {
    OverflowingIsCarried();
    EncodableEmpty();
    hide EncodableObject, OverflowingFields, Encode;
    assert Nests(Obj(map[]), MAX_DEPTH);
  }

  lemma DecodeOverflowing()
    ensures Decode(OVERFLOWING) == Decoded(OverflowingFields(), false)
  {
    hide Encode, OverflowingFields, OVERFLOWING;
  }

  lemma DecodeDone()
    ensures Decode("[DONE]") == UNREADABLE
  {
    assert "[DONE]"[0] == '[' && OVERFLOWING[0] == '{';
    forall o: Object ensures Encode(o) != "[DONE]" {
      EncodeShape(o);
    }
    hide Encode, OverflowingFields, OVERFLOWING, Carried;
  }

  /** There is a faithful library, and it may decode a payload with a number outside float64 in part. */
  lemma FaithfulIsMet() returns (c: Codec)
    ensures Faithful(c) && c.decode(OVERFLOWING) == Decoded(OverflowingFields(), false)
  {
    hide Decode, Encode, Carried, EncodableObject, OverflowingFields, OVERFLOWING;
    c := Codec(s => Decode(s), o => Encode(o), s => s);
    DecodeDone();
    forall s: string ensures Carried(c.decode(s).fields) {
      DecodedFields(s);
    }
    forall o: Object ensures WrittenAs(c, o, c.encode(o)) {
      EncodeShape(o);
      DecodeEncode(o);
    }
    DecodeOverflowing();
  }
}
