/**
 * Reassembly of streamed tool calls: fragments of id, name and arguments arrive per index,
 * interleaved, and are concatenated into whole calls.
 */
module ToolCalls {
  import opened Text
  import opened Json

  datatype ToolCall = ToolCall(index: int, id: string, typ: string, name: string, arguments: string)

  /** One element of `delta.tool_calls` with its index resolved; absent strings are "". */
  datatype Fragment = Fragment(index: int, id: string, typ: string, name: string, arguments: string)

  type Calls = map<int, ToolCall>

  /** A fragment is addressed by its numeric `index`, or by its position in the array. */
  function FragmentOf(item: Object, position: nat): Fragment {
    var index := if "index" in item && item["index"].Num?
      then Truncate(item["index"].mantissa, item["index"].exponent) else position;
    var fn := ObjAt(item, "function").GetOr(map[]);
    Fragment(index, StrAt(item, "id").GetOr(""), StrAt(item, "type").GetOr(""),
             StrAt(fn, "name").GetOr(""), StrAt(fn, "arguments").GetOr(""))
  }

  /** The fragments of an array from `position` on; elements that are not objects are skipped. */
  function FragmentsFrom(items: seq<Json>, position: nat): seq<Fragment>
    decreases |items| - position
  {
    if position >= |items| then [] else
      (if items[position].Obj? then [FragmentOf(items[position].fields, position)] else [])
      + FragmentsFrom(items, position + 1)
  }

  function Fragments(delta: Object): seq<Fragment> {
    FragmentsFrom(ArrAt(delta, "tool_calls").GetOr([]), 0)
  }

  function Extend(c: ToolCall, f: Fragment): ToolCall {
    c.(id := if f.id != "" then f.id else c.id,
       typ := if f.typ != "" then f.typ else c.typ,
       name := c.name + f.name,
       arguments := c.arguments + f.arguments)
  }

  function Fresh(index: int): ToolCall {
    ToolCall(index, "", "function", "", "")
  }

  function Apply(calls: Calls, f: Fragment): Calls {
    calls[f.index := Extend(if f.index in calls then calls[f.index] else Fresh(f.index), f)]
  }

  function ApplyAll(calls: Calls, fs: seq<Fragment>): Calls
    decreases |fs|
  {
    if fs == [] then calls else ApplyAll(Apply(calls, fs[0]), fs[1..])
  }

  /** The accumulation loop. */
  method ApplyToolCallDeltas(delta: Option<Object>, calls: Calls) returns (out: Calls)
    ensures out == ApplyAll(calls, Fragments(delta.GetOr(map[])))
  {
    out := calls;
    if delta.None? || ArrAt(delta.value, "tool_calls").None? {
      return;
    }
    var items := delta.value["tool_calls"].items;
    var position := 0;
    while position < |items|
      invariant 0 <= position <= |items|
      invariant ApplyAll(out, FragmentsFrom(items, position)) == ApplyAll(calls, FragmentsFrom(items, 0))
    {
      if items[position].Obj? {
        var item := items[position].fields;
        var index := position;
        if "index" in item && item["index"].Num? {
          index := Truncate(item["index"].mantissa, item["index"].exponent);
        }
        var call := if index in out then out[index] else Fresh(index);
        var id := StrAt(item, "id");
        if id.Some? && id.value != "" {
          call := call.(id := id.value);
        }
        var typ := StrAt(item, "type");
        if typ.Some? && typ.value != "" {
          call := call.(typ := typ.value);
        }
        var fn := ObjAt(item, "function");
        if fn.Some? {
          var name := StrAt(fn.value, "name");
          if name.Some? {
            call := call.(name := call.name + name.value);
          }
          var arguments := StrAt(fn.value, "arguments");
          if arguments.Some? {
            call := call.(arguments := call.arguments + arguments.value);
          }
        }
        ghost var f := FragmentOf(item, position);
        assert call.name == Apply(out, f)[index].name && call.arguments == Apply(out, f)[index].arguments;
        assert ([f] + FragmentsFrom(items, position + 1))[1..] == FragmentsFrom(items, position + 1);
        out := out[index := call];
      } else {
        assert [] + FragmentsFrom(items, position + 1) == FragmentsFrom(items, position + 1);
      }
      position := position + 1;
    }
  }

  // ----- closed form: what each index ends with -----

  /** The fragments addressed to one index, in arrival order. */
  function Of(fs: seq<Fragment>, index: int): seq<Fragment> {
    if fs == [] then [] else
      (if fs[0].index == index then [fs[0]] else []) + Of(fs[1..], index)
  }

  function Names(fs: seq<Fragment>): string {
    if fs == [] then "" else fs[0].name + Names(fs[1..])
  }

  function Arguments(fs: seq<Fragment>): string {
    if fs == [] then "" else fs[0].arguments + Arguments(fs[1..])
  }

  function LastId(fs: seq<Fragment>, otherwise: string): string {
    if fs == [] then otherwise
    else if fs[|fs| - 1].id != "" then fs[|fs| - 1].id
    else LastId(fs[..|fs| - 1], otherwise)
  }

  function LastType(fs: seq<Fragment>, otherwise: string): string {
    if fs == [] then otherwise
    else if fs[|fs| - 1].typ != "" then fs[|fs| - 1].typ
    else LastType(fs[..|fs| - 1], otherwise)
  }

  function Whole(c: ToolCall, fs: seq<Fragment>): ToolCall {
    c.(id := LastId(fs, c.id), typ := LastType(fs, c.typ), name := c.name + Names(fs),
      arguments := c.arguments + Arguments(fs))
  }

  lemma {:induction false} LastOfCons(f: Fragment, fs: seq<Fragment>, id: string, typ: string)
    ensures LastId([f] + fs, id) == LastId(fs, if f.id != "" then f.id else id)
    ensures LastType([f] + fs, typ) == LastType(fs, if f.typ != "" then f.typ else typ)
    decreases |fs|
  {
    if fs == [] {
      assert [f] + fs == [f];
      assert [f][..0] == [];
    } else {
      var all := [f] + fs;
      assert all[|all| - 1] == fs[|fs| - 1];
      assert all[..|all| - 1] == [f] + fs[..|fs| - 1];
      LastOfCons(f, fs[..|fs| - 1], id, typ);
    }
  }

  lemma WholeOfCons(c: ToolCall, f: Fragment, fs: seq<Fragment>)
    ensures Whole(c, [f] + fs) == Whole(Extend(c, f), fs)
  {
    LastOfCons(f, fs, c.id, c.typ);
    assert ([f] + fs)[1..] == fs;
    assert c.name + (f.name + Names(fs)) == c.name + f.name + Names(fs);
    assert c.arguments + (f.arguments + Arguments(fs)) == c.arguments + f.arguments + Arguments(fs);
  }

  /**
   * Closed form of accumulation, for any prior calls and any fragments: an index is present exactly if it was
   * or some fragment names it, and then holds its names and arguments concatenated in arrival order and the
   * last non-empty id and type addressed to it. Fragments for other indexes play no part.
   */
  lemma {:induction false} ReassemblyClosedForm(calls: Calls, fs: seq<Fragment>, k: int)
    ensures k in ApplyAll(calls, fs) <==> k in calls || Of(fs, k) != []
    ensures k in ApplyAll(calls, fs) ==>
      ApplyAll(calls, fs)[k] == Whole(if k in calls then calls[k] else Fresh(k), Of(fs, k))
    decreases |fs|
  {
    if fs != [] {
      var f := fs[0];
      ReassemblyClosedForm(Apply(calls, f), fs[1..], k);
      if f.index == k {
        WholeOfCons(if k in calls then calls[k] else Fresh(k), f, Of(fs[1..], k));
      } else {
        assert [] + Of(fs[1..], k) == Of(fs[1..], k);
      }
    }
  }

  /** Interleaving does not matter: only the order within each index does. */
  lemma ReassemblyIgnoresInterleaving(calls: Calls, fs: seq<Fragment>, gs: seq<Fragment>)
    requires forall k: int :: Of(fs, k) == Of(gs, k)
    ensures ApplyAll(calls, fs) == ApplyAll(calls, gs)
  {
    forall k: int
      ensures k in ApplyAll(calls, fs) <==> k in ApplyAll(calls, gs)
      ensures k in ApplyAll(calls, fs) ==> ApplyAll(calls, fs)[k] == ApplyAll(calls, gs)[k]
    {
      ReassemblyClosedForm(calls, fs, k);
      ReassemblyClosedForm(calls, gs, k);
    }
  }

  lemma {:induction false} ApplyAllConcat(calls: Calls, fs: seq<Fragment>, gs: seq<Fragment>)
    ensures ApplyAll(calls, fs + gs) == ApplyAll(ApplyAll(calls, fs), gs)
    decreases |fs|
  {
    if fs == [] {
      assert fs + gs == gs;
    } else {
      assert (fs + gs)[1..] == fs[1..] + gs;
      ApplyAllConcat(Apply(calls, fs[0]), fs[1..], gs);
    }
  }

  // ----- the sorted list handed to the client -----

  ghost predicate Keyed(calls: Calls) {
    forall k | k in calls :: calls[k].index == k
  }

  predicate Increasing(xs: seq<int>) {
    forall i, j | 0 <= i < j < |xs| :: xs[i] < xs[j]
  }

  function Indexes(out: seq<ToolCall>): seq<int> {
    seq(|out|, i requires 0 <= i < |out| => out[i].index)
  }

  /** `out` lists exactly the accumulated calls, in strictly increasing index order. */
  ghost predicate IsSortedList(calls: Calls, out: seq<ToolCall>) {
    && Increasing(Indexes(out))
    && (forall k :: k in Indexes(out) <==> k in calls)
    && (forall i | 0 <= i < |out| :: out[i].index in calls ==> calls[out[i].index] == out[i])
  }

  lemma {:induction false} IncreasingUnique(xs: seq<int>, ys: seq<int>)
    requires Increasing(xs) && Increasing(ys)
    requires forall k :: k in xs <==> k in ys
    ensures xs == ys
    decreases |xs|
  {
    assert |xs| > 0 ==> xs[0] in xs && xs[0] in ys;
    assert |ys| > 0 ==> ys[0] in ys && ys[0] in xs;
    if xs != [] {
      assert xs[0] == ys[0];
      assert xs == [xs[0]] + xs[1..] && ys == [ys[0]] + ys[1..];
      forall k ensures k in xs[1..] <==> k in ys[1..] {
        assert k in xs[1..] <==> k in xs && k != xs[0];
        assert k in ys[1..] <==> k in ys && k != ys[0];
      }
      IncreasingUnique(xs[1..], ys[1..]);
    } else {
      assert ys == [];
    }
  }

  /** Such a list is unique, so the map's iteration order cannot show. */
  lemma SortedListUnique(calls: Calls, xs: seq<ToolCall>, ys: seq<ToolCall>)
    requires IsSortedList(calls, xs) && IsSortedList(calls, ys)
    ensures xs == ys
  {
    IncreasingUnique(Indexes(xs), Indexes(ys));
    assert |Indexes(xs)| == |xs| && |Indexes(ys)| == |ys|;
    forall i | 0 <= i < |xs| ensures xs[i] == ys[i] {
      assert Indexes(xs)[i] == xs[i].index && Indexes(ys)[i] == ys[i].index;
      assert Indexes(xs)[i] in Indexes(xs);
    }
  }

  /** `sort.Ints` on distinct integers, one ordered insertion at a time. */
  function Insert(x: int, xs: seq<int>): (r: seq<int>)
    requires Increasing(xs) && x !in xs
    ensures Increasing(r)
    ensures forall y :: y in r <==> y == x || y in xs
  {
    if xs == [] || x < xs[0] then [x] + xs
    else
      assert xs == [xs[0]] + xs[1..];
      var rest := Insert(x, xs[1..]);
      assert forall j | 0 <= j < |rest| :: rest[j] in rest;
      [xs[0]] + rest
  }

  ghost function SortedIndexes(keys: set<int>): (r: seq<int>)
    ensures Increasing(r)
    ensures forall k :: k in r <==> k in keys
  {
    if exists k :: k in keys then
      var k: int :| k in keys;
      Insert(k, SortedIndexes(keys - {k}))
    else []
  }

  /** The list the client receives for the accumulated calls. */
  ghost function Sorted(calls: Calls): seq<ToolCall> {
    var keys := SortedIndexes(calls.Keys);
    seq(|keys|, i requires 0 <= i < |keys| => assert keys[i] in keys; calls[keys[i]])
  }

  lemma SortedIsSortedList(calls: Calls)
    requires Keyed(calls)
    ensures IsSortedList(calls, Sorted(calls))
  {
    var keys := SortedIndexes(calls.Keys);
    forall i | 0 <= i < |keys| ensures keys[i] in calls && Indexes(Sorted(calls))[i] == keys[i] {
      assert keys[i] in keys;
    }
    assert Indexes(Sorted(calls)) == keys;
  }

  /** The list tells which calls there are. */
  lemma SortedTells(xs: Calls, ys: Calls)
    requires Keyed(xs) && Keyed(ys)
    ensures Sorted(xs) == Sorted(ys) <==> xs == ys
  {
    SortedIsSortedList(xs);
    SortedIsSortedList(ys);
    var out := Sorted(xs);
    if out == Sorted(ys) {
      forall k: int
        ensures k in xs <==> k in ys
        ensures k in xs && k in ys ==> xs[k] == ys[k]
      {
        if k in Indexes(out) {
          var i :| 0 <= i < |out| && Indexes(out)[i] == k;
          assert out[i].index == k;
        }
      }
    }
  }

  /** Collects the indexes in whatever order the map iterates, sorts them, and looks the calls up. */
  method SortedToolCalls(calls: Calls) returns (out: seq<ToolCall>)
    requires Keyed(calls)
    ensures out == Sorted(calls)
    ensures IsSortedList(calls, out)
  {
    var indexes: seq<int> := [];
    var todo := calls.Keys;
    while exists k :: k in todo
      invariant todo <= calls.Keys
      invariant Increasing(indexes)
      invariant forall k :: k in indexes <==> k in calls.Keys - todo
      decreases todo
    {
      var index :| index in todo;
      indexes := Insert(index, indexes);
      todo := todo - {index};
    }
    out := [];
    var i := 0;
    while i < |indexes|
      invariant 0 <= i <= |indexes|
      invariant Indexes(out) == indexes[..i]
      invariant forall j | 0 <= j < |out| :: out[j].index in calls && calls[out[j].index] == out[j]
    {
      assert indexes[i] in indexes;
      out := out + [calls[indexes[i]]];
      i := i + 1;
    }
    assert indexes[..i] == indexes;
    SortedIsSortedList(calls);
    SortedListUnique(calls, out, Sorted(calls));
  }

  lemma {:induction false} AccumulationKeepsKeys(calls: Calls, fs: seq<Fragment>)
    requires Keyed(calls)
    ensures Keyed(ApplyAll(calls, fs))
    decreases |fs|
  {
    if fs != [] {
      AccumulationKeepsKeys(Apply(calls, fs[0]), fs[1..]);
    }
  }
}
