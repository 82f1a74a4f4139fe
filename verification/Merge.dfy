/** Merging the lists of several sources into one list per lower-case ID. */
module Merge {
  import opened Text
  import opened Models

  predicate BetterModel(a: ModelInfo, b: ModelInfo) {
    if (a.contextWindow > 0) != (b.contextWindow > 0) then a.contextWindow > 0
    else a.id != Lower(a.id) && b.id == Lower(b.id)
  }

  function RicherModel(cur: ModelInfo, next: ModelInfo): ModelInfo {
    var (keep, drop) := if BetterModel(next, cur) then (next, cur) else (cur, next);
    keep.(benefit := cur.benefit || next.benefit,
          supportsImages := cur.supportsImages || next.supportsImages,
          name := if keep.name == "" then drop.name else keep.name,
          contextWindow := if keep.contextWindow == 0 then drop.contextWindow else keep.contextWindow,
          maxTokens := if keep.maxTokens == 0 then drop.maxTokens else keep.maxTokens,
          desc := if keep.desc == "" then drop.desc else keep.desc,
          sortOrder := if keep.sortOrder == 0 then drop.sortOrder else keep.sortOrder)
  }

  /** One entry added to the merge map; entries without an ID are skipped. */
  function Put(merged: map<string, ModelInfo>, m: ModelInfo): map<string, ModelInfo> {
    if m.id == "" then merged
    else merged[Key(m) := if Key(m) in merged then RicherModel(merged[Key(m)], m) else m]
  }

  function Merged(entries: seq<ModelInfo>): map<string, ModelInfo> {
    if entries == [] then map[] else Put(Merged(entries[..|entries| - 1]), entries[|entries| - 1])
  }

  function Flatten(sets: seq<seq<ModelInfo>>): seq<ModelInfo> {
    if sets == [] then [] else Flatten(sets[..|sets| - 1]) + sets[|sets| - 1]
  }

  predicate SeesImages(m: ModelInfo) { m.supportsImages }
  predicate HasName(m: ModelInfo) { m.name != "" }
  predicate HasWindow(m: ModelInfo) { m.contextWindow != 0 }
  predicate HasLimit(m: ModelInfo) { m.maxTokens != 0 }
  predicate HasDesc(m: ModelInfo) { m.desc != "" }
  predicate HasRank(m: ModelInfo) { m.sortOrder != 0 }

  /** A property that the richer of two entries has exactly if either does accumulates over all contributors. */
  lemma {:induction false} MergedAnyOf(entries: seq<ModelInfo>, key: string, p: ModelInfo -> bool)
    requires forall a, b :: p(RicherModel(a, b)) <==> p(a) || p(b)
    ensures key in Merged(entries) <==> AnyOf(entries, key, Anything)
    ensures key in Merged(entries) ==> (p(Merged(entries)[key]) <==> AnyOf(entries, key, p))
    ensures key in Merged(entries) ==> Contributes(Merged(entries)[key], key)
    decreases |entries|
  {
    if entries != [] {
      MergedAnyOf(entries[..|entries| - 1], key, p);
      AnyOfSnoc(entries, key, Anything);
      AnyOfSnoc(entries, key, p);
      hide AnyOf;
    }
  }

  /**
   * The merge in closed form: one entry per lower-case ID that any list mentions, its flags the disjunction over all
   * contributors, and each of its parameters filled in exactly if some contributor fills it in.
   */
  lemma MergedClosedForm(entries: seq<ModelInfo>, key: string)
    ensures key in Merged(entries) <==> AnyOf(entries, key, Anything)
    ensures key in Merged(entries) ==> var m := Merged(entries)[key];
      && Contributes(m, key)
      && (m.benefit <==> AnyOf(entries, key, Benefits))
      && (m.supportsImages <==> AnyOf(entries, key, SeesImages))
      && (m.name != "" <==> AnyOf(entries, key, HasName))
      && (m.contextWindow != 0 <==> AnyOf(entries, key, HasWindow))
      && (m.maxTokens != 0 <==> AnyOf(entries, key, HasLimit))
      && (m.desc != "" <==> AnyOf(entries, key, HasDesc))
      && (m.sortOrder != 0 <==> AnyOf(entries, key, HasRank))
  {
    hide AnyOf, Merged;
    MergedAnyOf(entries, key, Benefits);
    MergedAnyOf(entries, key, SeesImages);
    MergedAnyOf(entries, key, HasName);
    MergedAnyOf(entries, key, HasWindow);
    MergedAnyOf(entries, key, HasLimit);
    MergedAnyOf(entries, key, HasDesc);
    MergedAnyOf(entries, key, HasRank);
  }

  // ----- whose values win -----

  /** Entries with a context window come before those without, and then spellings with capitals before the others. */
  function Rank(m: ModelInfo): nat {
    (if m.contextWindow > 0 then 0 else 2) + if m.id != Lower(m.id) then 0 else 1
  }

  /** `entries[w]` is the first contributor to this key of the best rank. */
  predicate IsWinner(entries: seq<ModelInfo>, key: string, w: nat) {
    && w < |entries| && Contributes(entries[w], key)
    && forall i | 0 <= i < |entries| && Contributes(entries[i], key) ::
         if i < w then Rank(entries[w]) < Rank(entries[i]) else Rank(entries[w]) <= Rank(entries[i])
  }

  /** The entry is spelled like the winner, and has every parameter that the winner fills in. */
  predicate Favours(m: ModelInfo, winner: ModelInfo) {
    && m.id == winner.id && Rank(m) == Rank(winner)
    && (winner.name != "" ==> m.name == winner.name) && (winner.desc != "" ==> m.desc == winner.desc)
    && (winner.contextWindow != 0 ==> m.contextWindow == winner.contextWindow)
    && (winner.maxTokens != 0 ==> m.maxTokens == winner.maxTokens)
    && (winner.sortOrder != 0 ==> m.sortOrder == winner.sortOrder)
  }

  lemma BetterIsRank(a: ModelInfo, b: ModelInfo)
    ensures BetterModel(a, b) <==> Rank(a) < Rank(b)
  {
    hide Lower;
  }

  lemma RicherFavours(cur: ModelInfo, next: ModelInfo, winner: ModelInfo)
    requires Key(cur) == Key(next) && Favours(cur, winner)
    ensures Favours(RicherModel(cur, next), if Rank(next) < Rank(winner) then next else winner)
  {
    BetterIsRank(next, cur);
    hide Lower, BetterModel;
  }

  /** One entry more: it wins if it is the first contributor or of better rank, else the winner stays. */
  lemma WinnerSnoc(entries: seq<ModelInfo>, last: ModelInfo, key: string, w: nat)
    requires IsWinner(entries, key, w)
    ensures IsWinner(entries + [last], key,
              if Contributes(last, key) && Rank(last) < Rank(entries[w]) then |entries| else w)
  {
    hide Rank, Contributes;
  }

  lemma FirstWinner(entries: seq<ModelInfo>, last: ModelInfo, key: string)
    requires (forall i | 0 <= i < |entries| :: !Contributes(entries[i], key)) && Contributes(last, key)
    ensures IsWinner(entries + [last], key, |entries|)
  {
    hide Rank, Contributes;
  }

  lemma {:induction false} SomeWinner(entries: seq<ModelInfo>, key: string) returns (w: nat)
    requires key in Merged(entries)
    ensures IsWinner(entries, key, w) && Favours(Merged(entries)[key], entries[w])
    decreases |entries|
  {
    var init, n := entries[..|entries| - 1], |entries| - 1;
    var last := entries[n];
    assert entries == init + [last];
    MergedClosedForm(init, key);
    hide Lower, Rank, IsWinner, Favours;
    if key in Merged(init) {
      w := SomeWinner(init, key);
      WinnerSnoc(init, last, key, w);
      if Contributes(last, key) {
        RicherFavours(Merged(init)[key], last, init[w]);
        hide RicherModel;
        w := if Rank(last) < Rank(init[w]) then n else w;
      }
    } else {
      NoContributor(init, key);
      FirstWinner(init, last, key);
      w := n;
      FavoursSelf(last);
    }
  }

  lemma FavoursSelf(m: ModelInfo)
    ensures Favours(m, m)
  {
  }

  lemma NoContributor(entries: seq<ModelInfo>, key: string)
    requires !AnyOf(entries, key, Anything)
    ensures forall i | 0 <= i < |entries| :: !Contributes(entries[i], key)
  {
    assert forall i | 0 <= i < |entries| :: Anything(entries[i]);
  }

  /** The merged entry is spelled like its winner and has all that the winner fills in. */
  lemma MergedFavoursWinner(entries: seq<ModelInfo>, key: string, w: nat)
    requires IsWinner(entries, key, w)
    ensures key in Merged(entries) && Favours(Merged(entries)[key], entries[w])
  {
    MergedClosedForm(entries, key);
    assert AnyOf(entries, key, Anything) by {
      assert Anything(entries[w]);
    }
    hide Merged, Favours, Rank;
    var v := SomeWinner(entries, key);
    assert v == w;
  }

  /** Some contributor has this value. */
  predicate GivenBy<T(==)>(entries: seq<ModelInfo>, key: string, field: ModelInfo -> T, value: T) {
    exists i | 0 <= i < |entries| :: Contributes(entries[i], key) && field(entries[i]) == value
  }

  lemma GivenBySnoc<T>(entries: seq<ModelInfo>, key: string, field: ModelInfo -> T, value: T)
    requires entries != []
    ensures var init, last := entries[..|entries| - 1], entries[|entries| - 1];
      GivenBy(entries, key, field, value) <==>
        GivenBy(init, key, field, value) || (Contributes(last, key) && field(last) == value)
  {
    var init, last := entries[..|entries| - 1], entries[|entries| - 1];
    if GivenBy(init, key, field, value) {
      var i :| 0 <= i < |init| && Contributes(init[i], key) && field(init[i]) == value;
      assert entries[i] == init[i];
    }
    if GivenBy(entries, key, field, value) {
      var i :| 0 <= i < |entries| && Contributes(entries[i], key) && field(entries[i]) == value;
      assert i < |init| ==> init[i] == entries[i];
    }
  }

  /** A parameter that merging takes from one of two entries comes from a contributor in the end. */
  lemma {:induction false} MergedFromSome<T>(entries: seq<ModelInfo>, key: string, field: ModelInfo -> T)
    requires key in Merged(entries)
    requires forall a, b :: field(RicherModel(a, b)) == field(a) || field(RicherModel(a, b)) == field(b)
    ensures GivenBy(entries, key, field, field(Merged(entries)[key]))
    decreases |entries|
  {
    var init, last := entries[..|entries| - 1], entries[|entries| - 1];
    GivenBySnoc(entries, key, field, field(Merged(entries)[key]));
    hide GivenBy, RicherModel;
    if key in Merged(init) {
      MergedFromSome(init, key, field);
    }
  }

  /** Every parameter of a merged entry is the one some contributor gives. */
  lemma ParametersFromContributors(entries: seq<ModelInfo>, key: string)
    requires key in Merged(entries)
    ensures var m := Merged(entries)[key];
      && GivenBy(entries, key, (x: ModelInfo) => x.id, m.id)
      && GivenBy(entries, key, (x: ModelInfo) => x.name, m.name)
      && GivenBy(entries, key, (x: ModelInfo) => x.desc, m.desc)
      && GivenBy(entries, key, (x: ModelInfo) => x.contextWindow, m.contextWindow)
      && GivenBy(entries, key, (x: ModelInfo) => x.maxTokens, m.maxTokens)
      && GivenBy(entries, key, (x: ModelInfo) => x.sortOrder, m.sortOrder)
  {
    hide Merged, GivenBy, BetterModel;
    MergedFromSome(entries, key, (x: ModelInfo) => x.id);
    MergedFromSome(entries, key, (x: ModelInfo) => x.name);
    MergedFromSome(entries, key, (x: ModelInfo) => x.desc);
    MergedFromSome(entries, key, (x: ModelInfo) => x.contextWindow);
    MergedFromSome(entries, key, (x: ModelInfo) => x.maxTokens);
    MergedFromSome(entries, key, (x: ModelInfo) => x.sortOrder);
  }

  /** `out` lists the values of a map in which every entry sits under its own key. */
  ghost predicate Lists(out: seq<ModelInfo>, merged: map<string, ModelInfo>) {
    && KeysDistinct(out)
    && (forall i | 0 <= i < |out| :: Key(out[i]) in merged && merged[Key(out[i])] == out[i])
    && (forall k | k in merged :: exists i :: 0 <= i < |out| && Key(out[i]) == k)
  }

  method MergeModels(sets: seq<seq<ModelInfo>>) returns (out: seq<ModelInfo>)
    ensures Sorted(out) && Lists(out, Merged(Flatten(sets)))
    ensures InDisplayOrder(out)
  {
    var merged: map<string, ModelInfo> := map[];
    var i := 0;
    while i < |sets|
      invariant 0 <= i <= |sets|
      invariant merged == Merged(Flatten(sets[..i]))
    {
      merged := MergeSet(merged, sets[i], Flatten(sets[..i]));
      assert sets[..i + 1][..i] == sets[..i];
      i := i + 1;
    }
    assert sets[..i] == sets;
    var unsorted := Values(merged, Flatten(sets));
    out := Sort(unsorted);
    PermutedLists(unsorted, out, merged);
    SortedIsDisplayOrder(out);
  }

  /** The inner loop over one list. */
  method MergeSet(merged0: map<string, ModelInfo>, entries: seq<ModelInfo>, ghost before: seq<ModelInfo>)
    returns (merged: map<string, ModelInfo>)
    requires merged0 == Merged(before)
    ensures merged == Merged(before + entries)
  {
    merged := merged0;
    assert before + entries[..0] == before;
    var j := 0;
    while j < |entries|
      invariant 0 <= j <= |entries|
      invariant merged == Merged(before + entries[..j])
    {
      var m := entries[j];
      assert (before + entries[..j + 1])[..|before| + j] == before + entries[..j];
      if m.id != "" {
        var key := Lower(m.id);
        merged := merged[key := if key in merged then RicherModel(merged[key], m) else m];
      }
      j := j + 1;
    }
    assert entries[..j] == entries;
  }

  /** Collects the values in whatever order the map iterates. */
  method Values(merged: map<string, ModelInfo>, ghost entries: seq<ModelInfo>) returns (out: seq<ModelInfo>)
    requires merged == Merged(entries)
    ensures Lists(out, merged)
  {
    out := [];
    var todo := merged.Keys;
    while exists k :: k in todo
      invariant todo <= merged.Keys
      invariant forall i | 0 <= i < |out| ::
        Key(out[i]) in merged && Key(out[i]) !in todo && merged[Key(out[i])] == out[i]
      invariant KeysDistinct(out)
      invariant forall k | k in merged && k !in todo :: exists i :: 0 <= i < |out| && Key(out[i]) == k
      decreases todo
    {
      var k: string :| k in todo;
      MergedClosedForm(entries, k);
      ghost var before := out;
      out := out + [merged[k]];
      todo := todo - {k};
      assert forall i | 0 <= i < |before| :: out[i] == before[i];
      assert Key(out[|before|]) == k;
    }
  }

  lemma PermutedLists(xs: seq<ModelInfo>, ys: seq<ModelInfo>, merged: map<string, ModelInfo>)
    requires Lists(xs, merged) && multiset(xs) == multiset(ys)
    ensures Lists(ys, merged)
  {
    hide Key;
    forall i | 0 <= i < |ys| ensures Key(ys[i]) in merged && merged[Key(ys[i])] == ys[i] {
      assert ys[i] in multiset(xs);
    }
    forall k | k in merged ensures exists i :: 0 <= i < |ys| && Key(ys[i]) == k {
      var i :| 0 <= i < |xs| && Key(xs[i]) == k;
      assert xs[i] in multiset(ys);
    }
    forall i, j | 0 <= i < j < |ys| ensures Key(ys[i]) != Key(ys[j]) {
      NotTwice(xs, ys, i, j);
    }
  }

  lemma NotTwice(xs: seq<ModelInfo>, ys: seq<ModelInfo>, i: nat, j: nat)
    requires KeysDistinct(xs) && multiset(xs) == multiset(ys) && i < j < |ys|
    ensures ys[i] != ys[j]
  {
    hide Key;
    AtMostOnce(xs, ys[i]);
    assert ys == ys[..i] + [ys[i]] + ys[i + 1..j] + [ys[j]] + ys[j + 1..];
    assert multiset(ys) >= multiset{ys[i]} + multiset{ys[j]};
  }

  lemma {:induction false} AtMostOnce(xs: seq<ModelInfo>, m: ModelInfo)
    requires KeysDistinct(xs)
    ensures multiset(xs)[m] <= 1
    decreases |xs|
  {
    hide Key;
    if xs != [] {
      assert xs == [xs[0]] + xs[1..];
      AtMostOnce(xs[1..], m);
      forall i | 0 <= i < |xs| - 1 ensures Key(xs[1..][i]) != Key(xs[0]) {
        assert xs[1..][i] == xs[i + 1];
      }
      assert xs[0] !in xs[1..];
    }
  }

  /** Any two lists that a merge could return are the same, whatever order the map and the sort took. */
  lemma MergeDeterministic(merged: map<string, ModelInfo>, xs: seq<ModelInfo>, ys: seq<ModelInfo>)
    requires Sorted(xs) && Lists(xs, merged) && Sorted(ys) && Lists(ys, merged)
    ensures xs == ys
  {
    hide Key, ModelLess;
    forall m: ModelInfo ensures multiset(xs)[m] == multiset(ys)[m] {
      AtMostOnce(xs, m);
      AtMostOnce(ys, m);
      ListedInBoth(merged, xs, ys, m);
      ListedInBoth(merged, ys, xs, m);
    }
    assert multiset(xs) == multiset(ys);
    SortUnique(xs, ys);
  }

  lemma ListedInBoth(merged: map<string, ModelInfo>, xs: seq<ModelInfo>, ys: seq<ModelInfo>, m: ModelInfo)
    requires Lists(xs, merged) && Lists(ys, merged)
    ensures m in multiset(xs) ==> m in multiset(ys)
  {
    hide Key;
    if m in multiset(xs) {
      var i :| 0 <= i < |xs| && xs[i] == m;
      var j :| 0 <= j < |ys| && Key(ys[j]) == Key(m);
      assert ys[j] in multiset(ys);
    }
  }
}
