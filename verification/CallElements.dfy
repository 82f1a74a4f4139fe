/** What one element of a `tool_calls` array does to the calls, read off the JSON. */
module CallElements {
  import opened Text
  import opened Json
  import opened ToolCalls

  /** The calls after an array of elements. */
  function Applied(calls: Calls, items: seq<Json>): Calls {
    ApplyAll(calls, Fragments(map["tool_calls" := Arr(items)]))
  }

  /** The integer part of a number: its size and its sign. */
  predicate IsIntegerPart(mantissa: int, exponent: int, k: int) {
    && (if exponent >= 0 then Abs(k) == Abs(mantissa) * Pow2(exponent)
        else Abs(k) * Pow2(-exponent) <= Abs(mantissa) < (Abs(k) + 1) * Pow2(-exponent))
    && (k > 0 ==> mantissa > 0) && (k < 0 ==> mantissa < 0)
  }

  /** The element at `position` belongs to call `k`: by its numeric index, else by where it stands. */
  predicate Addresses(item: Object, position: nat, k: int) {
    if "index" in item && item["index"].Num? then IsIntegerPart(item["index"].mantissa, item["index"].exponent, k)
    else k == position
  }

  /** The string under `key`, or "". */
  function Field(o: Object, key: string): string {
    if key in o && o[key].Str? then o[key].s else ""
  }

  /** The string under `function.key`, or "". */
  function FunctionField(item: Object, key: string): string {
    if "function" in item && item["function"].Obj? then Field(item["function"].fields, key) else ""
  }

  /** A call as an element opens it: of type "function", the rest empty. */
  function Opened(k: int): ToolCall {
    ToolCall(k, "", "function", "", "")
  }

  /** The call with what the element says added: name and arguments appended, id and type replaced unless empty. */
  predicate Takes(before: ToolCall, item: Object, after: ToolCall) {
    && after.index == before.index
    && after.id == (if Field(item, "id") != "" then Field(item, "id") else before.id)
    && after.typ == (if Field(item, "type") != "" then Field(item, "type") else before.typ)
    && after.name == before.name + FunctionField(item, "name")
    && after.arguments == before.arguments + FunctionField(item, "arguments")
  }

  lemma TruncateIsIntegerPart(mantissa: int, exponent: int, k: int)
    ensures IsIntegerPart(mantissa, exponent, k) <==> k == Truncate(mantissa, exponent)
  {
    if exponent >= 0 {
      var p := Pow2(exponent);
      hide Pow2;
      Scaled(mantissa, p, k);
    } else {
      var p := Pow2(-exponent);
      hide Pow2;
      Divided(mantissa, p, k);
    }
  }

  lemma Scaled(m: int, p: nat, k: int)
    requires p > 0
    ensures Abs(k) == Abs(m) * p && (k > 0 ==> m > 0) && (k < 0 ==> m < 0) <==> k == m * p
  {
    if m < 0 {
      assert m * p == -(-m * p);
      assert m * p < 0;
    } else if m > 0 {
      assert m * p > 0;
    }
  }

  lemma Quotient(m: nat, p: nat, k: nat)
    requires p > 0
    ensures k * p <= m < (k + 1) * p <==> k == m / p
  {
    assert m == m / p * p + m % p;
    if k < m / p {
      assert (k + 1) * p <= m / p * p;
    } else if k > m / p {
      assert (m / p + 1) * p <= k * p;
    }
  }

  lemma Divided(m: int, p: nat, k: int)
    requires p > 0
    ensures Abs(k) * p <= Abs(m) < (Abs(k) + 1) * p && (k > 0 ==> m > 0) && (k < 0 ==> m < 0) <==>
      k == if m >= 0 then m / p else -(-m / p)
  {
    Quotient(Abs(m), p, Abs(k));
    var q := Abs(m) / p;
    assert q >= 0 && q == if m >= 0 then m / p else -m / p;
    if m == 0 {
      assert q == 0;
    }
  }

  /** An integral index is its own integer part. */
  lemma IntegerIsItsPart(i: int, k: int)
    ensures IsIntegerPart(IntNum(i).mantissa, IntNum(i).exponent, k) <==> k == i
  {
    IntNumTruncates(i);
    TruncateIsIntegerPart(IntNum(i).mantissa, IntNum(i).exponent, k);
  }

  lemma {:induction false} FragmentsSnoc(items: seq<Json>, item: Json, position: nat)
    requires position <= |items|
    ensures FragmentsFrom(items + [item], position) ==
      FragmentsFrom(items, position) + if item.Obj? then [FragmentOf(item.fields, |items|)] else []
    decreases |items| - position
  {
    hide FragmentOf;
    var all := items + [item];
    if position == |items| {
      assert FragmentsFrom(all, position + 1) == [];
    } else {
      assert all[position] == items[position];
      FragmentsSnoc(items, item, position + 1);
      var head := if items[position].Obj? then [FragmentOf(items[position].fields, position)] else [];
      var last := if item.Obj? then [FragmentOf(item.fields, |items|)] else [];
      assert head + (FragmentsFrom(items, position + 1) + last) == head + FragmentsFrom(items, position + 1) + last;
    }
  }

  /** The call it addresses changes, and no other. */
  ghost predicate OnlyTakes(before: Calls, item: Object, k: int, after: Calls) {
    && after.Keys == before.Keys + {k}
    && (forall j :: j in before && j != k ==> after[j] == before[j])
    && Takes(if k in before then before[k] else Opened(k), item, after[k])
  }

  lemma FragmentTakes(before: Calls, item: Object, position: nat, k: int)
    requires Addresses(item, position, k) && (k in before ==> before[k].index == k)
    ensures OnlyTakes(before, item, k, Apply(before, FragmentOf(item, position)))
  {
    if "index" in item && item["index"].Num? {
      TruncateIsIntegerPart(item["index"].mantissa, item["index"].exponent, k);
    }
    hide Truncate, IsIntegerPart;
    var f := FragmentOf(item, position);
    assert f.index == k;
    assert f.name == FunctionField(item, "name") && f.arguments == FunctionField(item, "arguments");
    assert f.id == Field(item, "id") && f.typ == Field(item, "type");
    hide FragmentOf, FunctionField, Field;
  }

  /**
   * One more element, wherever it stands and whatever came before. If it is an object, exactly the call it addresses
   * changes: it is opened if there was none, and takes what the element says. Anything else is skipped.
   */
  lemma ElementApplies(calls: Calls, items: seq<Json>, item: Json)
    requires Keyed(calls)
    ensures var before, after := Applied(calls, items), Applied(calls, items + [item]);
      if item.Obj? then forall k :: Addresses(item.fields, |items|, k) ==> OnlyTakes(before, item.fields, k, after)
      else after == before
  {
    var before, after := Applied(calls, items), Applied(calls, items + [item]);
    var fs := FragmentsFrom(items, 0);
    FragmentsSnoc(items, item, 0);
    AccumulationKeepsKeys(calls, fs);
    hide FragmentOf, Addresses, OnlyTakes, FragmentsFrom;
    if item.Obj? {
      var f := FragmentOf(item.fields, |items|);
      ApplyAllConcat(calls, fs, [f]);
      ApplyOne(before, f);
      forall k | Addresses(item.fields, |items|, k) ensures OnlyTakes(before, item.fields, k, Apply(before, f)) {
        FragmentTakes(before, item.fields, |items|, k);
      }
    } else {
      assert fs + [] == fs;
    }
  }

  lemma ApplyOne(calls: Calls, f: Fragment)
    ensures ApplyAll(calls, [f]) == Apply(calls, f)
  {
    assert [f][1..] == [];
  }

  /** An element addresses one call. */
  lemma AddressesOne(item: Object, position: nat) returns (k: int)
    ensures forall j :: Addresses(item, position, j) <==> j == k
  {
    if "index" in item && item["index"].Num? {
      var m, e := item["index"].mantissa, item["index"].exponent;
      k := Truncate(m, e);
      forall j ensures IsIntegerPart(m, e, j) <==> j == k {
        TruncateIsIntegerPart(m, e, j);
      }
    } else {
      k := position;
    }
  }

  /** A delta does what its `tool_calls` array does, and nothing if it has none or an empty one. */
  lemma DeltaApplies(calls: Calls, delta: Object)
    ensures ApplyAll(calls, Fragments(delta)) ==
      if "tool_calls" in delta && delta["tool_calls"].Arr? then Applied(calls, delta["tool_calls"].items) else calls
    ensures Applied(calls, []) == calls
  {
  }
}
