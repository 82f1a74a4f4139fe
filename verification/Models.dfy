/** Model entries: their lower-case keys, the display order, and sorting by it. */
module Models {
  import opened Text

  datatype ModelInfo = ModelInfo(
    id: string, name: string, contextWindow: int, maxTokens: int, sortOrder: int, benefit: bool, desc: string,
      supportsImages: bool)

  function Key(m: ModelInfo): string {
    Lower(m.id)
  }

  // ----- display order -----

  /** Upstream order first, unranked entries last, then by lower-case and exact ID. */
  predicate ModelLess(a: ModelInfo, b: ModelInfo) {
    if a.sortOrder != b.sortOrder then
      if a.sortOrder == 0 then false else if b.sortOrder == 0 then true else a.sortOrder < b.sortOrder
    else if Key(a) != Key(b) then Before(Key(a), Key(b))
    else Before(a.id, b.id)
  }

  /** On entries with different keys this is a strict total order. */
  lemma ModelLessTotal(a: ModelInfo, b: ModelInfo)
    ensures !(ModelLess(a, b) && ModelLess(b, a))
    ensures Key(a) != Key(b) ==> ModelLess(a, b) || ModelLess(b, a)
  {
    BeforeTrichotomy(Key(a), Key(b));
    BeforeTrichotomy(a.id, b.id);
  }

  lemma ModelLessTransitive(a: ModelInfo, b: ModelInfo, c: ModelInfo)
    requires ModelLess(a, b) && ModelLess(b, c)
    ensures ModelLess(a, c)
  {
    if Key(a) == Key(b) && Key(b) == Key(c) {
      if Before(a.id, b.id) && Before(b.id, c.id) { BeforeTransitive(a.id, b.id, c.id); }
    } else if Key(a) != Key(b) && Key(b) != Key(c) && Before(Key(a), Key(b)) && Before(Key(b), Key(c)) {
      BeforeTransitive(Key(a), Key(b), Key(c));
      BeforeTrichotomy(Key(a), Key(c));
    }
  }

  /** No later entry belongs before an earlier one: what a sort by `ModelLess` promises of the order. */
  ghost predicate Sorted(s: seq<ModelInfo>) {
    forall i, j | 0 <= i < j < |s| :: !ModelLess(s[j], s[i])
  }

  ghost predicate KeysDistinct(s: seq<ModelInfo>) {
    forall i, j | 0 <= i < j < |s| :: Key(s[i]) != Key(s[j])
  }

  /**
   * The order in which models are shown: by ascending rank, the unranked (rank 0) behind all others; within a rank by
   * lower-case ID, and models of one lower-case ID by their spelling.
   */
  ghost predicate InDisplayOrder(s: seq<ModelInfo>) {
    forall i, j | 0 <= i < j < |s| ::
      && (s[i].sortOrder == 0 ==> s[j].sortOrder == 0)
      && (s[i].sortOrder != 0 && s[j].sortOrder != 0 ==> s[i].sortOrder <= s[j].sortOrder)
      && (s[i].sortOrder == s[j].sortOrder ==>
            if Lower(s[i].id) != Lower(s[j].id) then Before(Lower(s[i].id), Lower(s[j].id))
            else s[i].id == s[j].id || Before(s[i].id, s[j].id))
  }

  /** Sorting by `ModelLess` gives the display order. */
  lemma SortedIsDisplayOrder(s: seq<ModelInfo>)
    requires Sorted(s)
    ensures InDisplayOrder(s)
  {
    forall i, j | 0 <= i < j < |s|
      ensures !ModelLess(s[j], s[i])
      ensures Before(Lower(s[i].id), Lower(s[j].id)) || Before(Lower(s[j].id), Lower(s[i].id))
        || Lower(s[i].id) == Lower(s[j].id)
      ensures Before(s[i].id, s[j].id) || Before(s[j].id, s[i].id) || s[i].id == s[j].id
    {
      BeforeTrichotomy(Lower(s[i].id), Lower(s[j].id));
      BeforeTrichotomy(s[i].id, s[j].id);
    }
    hide Before, Lower, Sorted;
  }

  lemma SortedHead(xs: seq<ModelInfo>, ys: seq<ModelInfo>)
    requires Sorted(xs) && Sorted(ys) && KeysDistinct(xs) && multiset(xs) == multiset(ys) && xs != [] && ys != []
    ensures xs[0] == ys[0]
  {
    var x, y := xs[0], ys[0];
    assert x in multiset(ys) && y in multiset(xs);
    var i :| 0 <= i < |xs| && xs[i] == y;
    var j :| 0 <= j < |ys| && ys[j] == x;
    ModelLessTotal(x, y);
    hide ModelLess, Key;
  }

  /** On distinct keys the sorted list is unique, so neither map order nor an unstable sort can show. */
  lemma {:induction false} SortUnique(xs: seq<ModelInfo>, ys: seq<ModelInfo>)
    requires Sorted(xs) && Sorted(ys) && KeysDistinct(xs) && multiset(xs) == multiset(ys)
    ensures xs == ys
    decreases |xs|
  {
    hide ModelLess, Key;
    assert |xs| == |multiset(xs)| == |multiset(ys)| == |ys|;
    if xs != [] {
      SortedHead(xs, ys);
      assert xs == [xs[0]] + xs[1..] && ys == [ys[0]] + ys[1..];
      assert multiset(xs[1..]) == multiset(xs) - multiset{xs[0]};
      assert multiset(ys[1..]) == multiset(ys) - multiset{ys[0]};
      SortUnique(xs[1..], ys[1..]);
    }
  }

  // ----- sorting (the library call), as ordered insertion -----

  method Sort(input: seq<ModelInfo>) returns (out: seq<ModelInfo>)
    ensures Sorted(out) && multiset(out) == multiset(input)
  {
    out := [];
    var i := 0;
    while i < |input|
      invariant 0 <= i <= |input|
      invariant Sorted(out) && multiset(out) == multiset(input[..i])
    {
      assert input[..i + 1] == input[..i] + [input[i]];
      out := InsertSorted(input[i], out);
      i := i + 1;
    }
    assert input[..i] == input;
  }

  method InsertSorted(m: ModelInfo, s: seq<ModelInfo>) returns (out: seq<ModelInfo>)
    requires Sorted(s)
    ensures Sorted(out) && multiset(out) == multiset(s) + multiset{m}
  {
    var i := |s|;
    while i > 0 && ModelLess(m, s[i - 1])
      invariant 0 <= i <= |s|
      invariant forall j | i <= j < |s| :: ModelLess(m, s[j])
    {
      i := i - 1;
    }
    out := s[..i] + [m] + s[i..];
    assert s == s[..i] + s[i..];
    forall j | 0 <= j < i ensures !ModelLess(m, s[j]) {
      NotLessTransitive(s, i, j, m);
    }
    forall j | i <= j < |s| ensures !ModelLess(s[j], m) {
      ModelLessTotal(m, s[j]);
    }
    hide ModelLess;
    InsertedSorted(m, s, i);
  }

  lemma InsertedSorted(m: ModelInfo, s: seq<ModelInfo>, i: nat)
    requires Sorted(s) && i <= |s|
    requires forall j | 0 <= j < i :: !ModelLess(m, s[j])
    requires forall j | i <= j < |s| :: !ModelLess(s[j], m)
    ensures Sorted(s[..i] + [m] + s[i..])
  {
    hide ModelLess;
    var out := s[..i] + [m] + s[i..];
    assert forall k | 0 <= k < |out| :: out[k] == if k < i then s[k] else if k == i then m else s[k - 1];
  }

  lemma NotLessTransitive(s: seq<ModelInfo>, i: nat, j: nat, m: ModelInfo)
    requires Sorted(s) && j < i <= |s| && !ModelLess(m, s[i - 1])
    ensures !ModelLess(m, s[j])
  {
    if ModelLess(m, s[j]) {
      NegativelyTransitive(m, s[j], s[i - 1]);
    }
  }

  /** `ModelLess` is a weak order: if `a` is before `b`, any `c` is after `a` or before `b`. */
  lemma NegativelyTransitive(a: ModelInfo, b: ModelInfo, c: ModelInfo)
    requires ModelLess(a, b)
    ensures ModelLess(a, c) || ModelLess(c, b)
  {
    BeforeTrichotomy(Key(a), Key(c));
    BeforeTrichotomy(a.id, c.id);
    BeforeTrichotomy(Key(a), Key(b));
    if Before(Key(c), Key(a)) && Before(Key(a), Key(b)) { BeforeTransitive(Key(c), Key(a), Key(b)); }
    if Before(c.id, a.id) && Before(a.id, b.id) { BeforeTransitive(c.id, a.id, b.id); }
    BeforeTrichotomy(Key(c), Key(b));
  }

  // ----- contributors to one key -----

  predicate Contributes(m: ModelInfo, key: string) {
    m.id != "" && Key(m) == key
  }

  /** Some contributor to this key has the property. */
  predicate AnyOf(entries: seq<ModelInfo>, key: string, p: ModelInfo -> bool) {
    exists i | 0 <= i < |entries| :: Contributes(entries[i], key) && p(entries[i])
  }

  predicate Anything(m: ModelInfo) { true }
  predicate Benefits(m: ModelInfo) { m.benefit }

  lemma AnyOfSnoc(entries: seq<ModelInfo>, key: string, p: ModelInfo -> bool)
    requires entries != []
    ensures var init, last := entries[..|entries| - 1], entries[|entries| - 1];
      AnyOf(entries, key, p) <==> AnyOf(init, key, p) || (Contributes(last, key) && p(last))
  {
    var init, last := entries[..|entries| - 1], entries[|entries| - 1];
    if AnyOf(init, key, p) {
      var i :| 0 <= i < |init| && Contributes(init[i], key) && p(init[i]);
      assert entries[i] == init[i];
    }
    if AnyOf(entries, key, p) {
      var i :| 0 <= i < |entries| && Contributes(entries[i], key) && p(entries[i]);
      assert i < |init| ==> init[i] == entries[i];
    }
  }
}
