/**
 * Per-account model catalogues: what an account can serve, which of its models travel the
 * limited-time benefit route, and the memory that keeps a benefit alive through outages.
 */
module Catalog {
  import opened Text
  import opened Models

  const SEED_BENEFIT_MODELS: seq<string> := ["deepseek-v4-flash-0731", "deepseek-v4-pro-0813", "glm-5.3-flash"]

  const SEED_KNOWN_MODELS: seq<string> := [
    "GLM-5.2", "GLM-5.2-ArkTS-SPARK", "GLM-5.1", "GLM-4.7", "OpenPangu-2.0-Pro", "OpenPangu-2.0-Flash",
    "Qwen3-VL-235B", "Qwen3.5-397B-A17B-VL", "Qwen3.6-27B-VL"]

  predicate IsSeed(key: string) {
    exists i | 0 <= i < |SEED_BENEFIT_MODELS| :: Lower(SEED_BENEFIT_MODELS[i]) == key
  }

  // ----- the catalogue of one account -----

  /** `known` and `benefit` are indexes over `infos`; `lastBenefit` is the memory of confirmed benefits. */
  datatype AccountCatalog = AccountCatalog(infos: seq<ModelInfo>, benefit: set<string>, knows: set<string>,
      lastBenefit: map<string, ModelInfo>)

  predicate Mentions(infos: seq<ModelInfo>, key: string) {
    AnyOf(infos, key, Anything)
  }

  predicate Flags(infos: seq<ModelInfo>, key: string) {
    AnyOf(infos, key, Benefits)
  }

  function KeysOf(infos: seq<ModelInfo>): set<string> {
    set m | m in infos && m.id != "" :: Key(m)
  }

  function FlaggedOf(infos: seq<ModelInfo>): set<string> {
    set m | m in infos && m.id != "" && m.benefit :: Key(m)
  }

  /** The memory after a round: every benefit ever confirmed, under its latest entry. */
  function Remember(memory: map<string, ModelInfo>, infos: seq<ModelInfo>): map<string, ModelInfo> {
    if infos == [] then memory
    else
      var m := infos[|infos| - 1];
      var before := Remember(memory, infos[..|infos| - 1]);
      if m.id != "" && m.benefit then before[Key(m) := m] else before
  }

  function LearnId(known: map<string, string>, m: ModelInfo): map<string, string> {
    if m.id != "" && (Key(m) !in known || m.id != Key(m)) then known[Key(m) := m.id] else known
  }

  function Learn(known: map<string, string>, infos: seq<ModelInfo>): map<string, string> {
    if infos == [] then known else LearnId(Learn(known, infos[..|infos| - 1]), infos[|infos| - 1])
  }

  /** Remembered benefits that this round's list does not mention. */
  function Missing(memory: map<string, ModelInfo>, infos: seq<ModelInfo>): set<string> {
    memory.Keys - KeysOf(infos)
  }

  /** What `setAccountModels` stores, up to the order an unstable sort may choose between entries of one ID. */
  ghost predicate IsUpdate(memory: map<string, ModelInfo>, infos: seq<ModelInfo>, keep: bool, ac: AccountCatalog) {
    var latest := Remember(memory, infos);
    var kept := if keep then Missing(latest, infos) else {};
    && ac.lastBenefit == latest
    && ac.knows == KeysOf(infos) + kept
    && ac.benefit == FlaggedOf(infos) + kept
    && (forall m :: m in ac.infos <==> m in infos || (Key(m) in kept && latest[Key(m)] == m))
    && |ac.infos| == |infos| + |kept|
    && (if keep then Sorted(ac.infos) else ac.infos == infos)
  }

  /** Every remembered entry is flagged and stored under its own key. */
  ghost predicate MemoryRight(memory: map<string, ModelInfo>) {
    forall k | k in memory :: Contributes(memory[k], k) && memory[k].benefit
  }

  /** The indexes say exactly what the list says. */
  ghost predicate IndexesRight(ac: AccountCatalog) {
    ac.knows == KeysOf(ac.infos) && ac.benefit == FlaggedOf(ac.infos) && MemoryRight(ac.lastBenefit)
  }

  /** Every exact spelling belongs to its lower-case key. */
  ghost predicate SpellingsRight(known: map<string, string>) {
    forall k | k in known :: Lower(known[k]) == k
  }

  lemma LearnKeepsSpellings(known: map<string, string>, m: ModelInfo)
    requires SpellingsRight(known)
    ensures SpellingsRight(LearnId(known, m))
  {
    hide Lower;
  }

  lemma {:induction false} RememberRight(memory: map<string, ModelInfo>, infos: seq<ModelInfo>)
    requires MemoryRight(memory)
    ensures MemoryRight(Remember(memory, infos))
    ensures Remember(memory, infos).Keys == memory.Keys + FlaggedOf(infos)
    decreases |infos|
  {
    if infos != [] {
      var init, m := infos[..|infos| - 1], infos[|infos| - 1];
      RememberRight(memory, init);
      assert infos == init + [m];
      SnocKeys(init, m);
    }
  }

  /** The entry flags this key. */
  predicate FlagsKey(m: ModelInfo, key: string) {
    m.id != "" && Lower(m.id) == key && m.benefit
  }

  /** `infos[i]` is the last entry of the list that flags this key. */
  predicate IsLastFlag(infos: seq<ModelInfo>, key: string, i: nat) {
    i < |infos| && FlagsKey(infos[i], key) && forall j | i < j < |infos| :: !FlagsKey(infos[j], key)
  }

  lemma LastFlagSnoc(infos: seq<ModelInfo>, m: ModelInfo, key: string, i: nat)
    ensures IsLastFlag(infos + [m], key, i) <==>
      if FlagsKey(m, key) then i == |infos| else IsLastFlag(infos, key, i)
  {
    hide FlagsKey;
    var all := infos + [m];
    assert all[|infos|] == m && forall j | 0 <= j < |infos| :: all[j] == infos[j];
  }

  /** Which entry the memory holds for a key: the last one that flags it, else the one it held before. */
  ghost predicate Remembered(memory: map<string, ModelInfo>, infos: seq<ModelInfo>, key: string,
                             after: map<string, ModelInfo>)
  {
    && (forall i: nat :: IsLastFlag(infos, key, i) ==> key in after && after[key] == infos[i])
    && ((forall i: nat :: !IsLastFlag(infos, key, i)) ==>
          (key in after <==> key in memory) && (key in memory ==> after[key] == memory[key]))
  }

  /** The memory holds each benefit under the last entry that flags it, and what the list does not flag as it was. */
  lemma {:induction false} RememberLatest(memory: map<string, ModelInfo>, infos: seq<ModelInfo>, key: string)
    ensures Remembered(memory, infos, key, Remember(memory, infos))
    decreases |infos|
  {
    if infos != [] {
      var init, m := infos[..|infos| - 1], infos[|infos| - 1];
      assert infos == init + [m];
      RememberLatest(memory, init, key);
      RememberStep(memory, init, m);
      hide Remember;
      RememberedSnoc(memory, init, m, key, Remember(memory, init), Remember(memory, infos));
    }
  }

  lemma RememberStep(memory: map<string, ModelInfo>, infos: seq<ModelInfo>, m: ModelInfo)
    ensures Remember(memory, infos + [m]) ==
      if m.id != "" && m.benefit then Remember(memory, infos)[Lower(m.id) := m] else Remember(memory, infos)
  {
    hide Lower;
    assert (infos + [m])[..|infos|] == infos;
  }

  lemma RememberedSnoc(memory: map<string, ModelInfo>, infos: seq<ModelInfo>, m: ModelInfo, key: string,
      before: map<string, ModelInfo>, after: map<string, ModelInfo>)
    requires Remembered(memory, infos, key, before)
    requires after == if m.id != "" && m.benefit then before[Lower(m.id) := m] else before
    ensures Remembered(memory, infos + [m], key, after)
  {
    forall i: nat ensures IsLastFlag(infos + [m], key, i) <==>
        if FlagsKey(m, key) then i == |infos| else IsLastFlag(infos, key, i) {
      LastFlagSnoc(infos, m, key, i);
    }
    assert forall i | 0 <= i < |infos| :: (infos + [m])[i] == infos[i];
    hide Lower, IsLastFlag;
    if FlagsKey(m, key) {
      assert IsLastFlag(infos + [m], key, |infos|);
    } else {
      InRange(infos, key);
    }
  }

  lemma InRange(infos: seq<ModelInfo>, key: string)
    ensures forall i: nat :: IsLastFlag(infos, key, i) ==> i < |infos|
  {
  }

  /** The entry spells this key with capitals. */
  predicate Spells(m: ModelInfo, key: string) {
    m.id != "" && Lower(m.id) == key && m.id != key
  }

  predicate IsLastSpelling(infos: seq<ModelInfo>, key: string, i: nat) {
    i < |infos| && Spells(infos[i], key) && forall j | i < j < |infos| :: !Spells(infos[j], key)
  }

  /** The spelling learned for a key: the last with capitals, else the one known before, else the key itself. */
  ghost predicate Spelled(known: map<string, string>, infos: seq<ModelInfo>, key: string, after: map<string, string>) {
    && (key in after <==> key in known || Mentions(infos, key))
    && (forall i: nat :: IsLastSpelling(infos, key, i) ==> key in after && after[key] == infos[i].id)
    && ((forall i: nat :: !IsLastSpelling(infos, key, i)) && key in after ==>
          after[key] == if key in known then known[key] else key)
  }

  lemma {:induction false} SpellingsExactly(known: map<string, string>, infos: seq<ModelInfo>, key: string)
    ensures Spelled(known, infos, key, Learn(known, infos))
    decreases |infos|
  {
    if infos != [] {
      var init, m := infos[..|infos| - 1], infos[|infos| - 1];
      assert infos == init + [m];
      SpellingsExactly(known, init, key);
      SpelledSnoc(known, init, m, key, Learn(known, init));
      hide LearnId, Spelled;
    }
  }

  lemma SpelledSnoc(known: map<string, string>, infos: seq<ModelInfo>, m: ModelInfo, key: string,
      before: map<string, string>)
    requires Spelled(known, infos, key, before)
    ensures Spelled(known, infos + [m], key, LearnId(before, m))
  {
    var all := infos + [m];
    forall i: nat ensures IsLastSpelling(all, key, i) <==>
        if Spells(m, key) then i == |infos| else IsLastSpelling(infos, key, i) {
      LastSpellingSnoc(infos, m, key, i);
    }
    MentionsSnoc(infos, m, key);
    SpellingInRange(infos, key);
    hide Lower, IsLastSpelling, Mentions;
    if Spells(m, key) {
      assert IsLastSpelling(all, key, |infos|);
    } else {
      assert forall i: nat :: IsLastSpelling(infos, key, i) ==> all[i] == infos[i];
    }
  }

  lemma LastSpellingSnoc(infos: seq<ModelInfo>, m: ModelInfo, key: string, i: nat)
    ensures IsLastSpelling(infos + [m], key, i) <==>
      if Spells(m, key) then i == |infos| else IsLastSpelling(infos, key, i)
  {
    hide Spells;
    var all := infos + [m];
    assert all[|infos|] == m && forall j | 0 <= j < |infos| :: all[j] == infos[j];
  }

  lemma LearnOne(known: map<string, string>, infos: seq<ModelInfo>, m: ModelInfo)
    ensures Learn(known, infos + [m]) == LearnId(Learn(known, infos), m)
  {
    hide LearnId;
    assert (infos + [m])[..|infos|] == infos;
  }

  lemma SpellingInRange(infos: seq<ModelInfo>, key: string)
    ensures forall i: nat :: IsLastSpelling(infos, key, i) ==> i < |infos|
  {
  }

  lemma MentionsSnoc(infos: seq<ModelInfo>, m: ModelInfo, key: string)
    ensures Mentions(infos + [m], key) <==> Mentions(infos, key) || (m.id != "" && Lower(m.id) == key)
  {
    InKeysOf(infos, key);
    InKeysOf(infos + [m], key);
    SnocKeys(infos, m);
    hide Mentions, Lower, KeysOf, FlaggedOf;
  }

  /** The spellings are learned from this round's entries in order, then from the remembered ones listed with them. */
  ghost predicate Learned(known0: map<string, string>, infos: seq<ModelInfo>, listed: seq<ModelInfo>,
                          known: map<string, string>)
  {
    exists all :: infos <= all && multiset(all) == multiset(listed) && known == Learn(known0, all)
  }

  lemma InKeysOf(infos: seq<ModelInfo>, key: string)
    ensures key in KeysOf(infos) <==> Mentions(infos, key)
    ensures key in FlaggedOf(infos) <==> Flags(infos, key)
  {
    hide Key;
    if Mentions(infos, key) {
      var i :| 0 <= i < |infos| && Contributes(infos[i], key) && Anything(infos[i]);
      assert infos[i] in infos;
    }
    if Flags(infos, key) {
      var i :| 0 <= i < |infos| && Contributes(infos[i], key) && Benefits(infos[i]);
      assert infos[i] in infos;
    }
  }

  /** Listing remembered benefits adds exactly their keys to both indexes of a list. */
  lemma ListedKeys(infos: seq<ModelInfo>, all: seq<ModelInfo>, memory: map<string, ModelInfo>, kept: set<string>)
    requires MemoryRight(memory) && kept <= memory.Keys
    requires forall m :: m in all <==> m in infos || (Key(m) in kept && memory[Key(m)] == m)
    ensures KeysOf(all) == KeysOf(infos) + kept && FlaggedOf(all) == FlaggedOf(infos) + kept
  {
    hide Key;
    forall k | k in kept ensures k in KeysOf(all) && k in FlaggedOf(all) {
      assert memory[k] in all;
    }
    forall k ensures k in KeysOf(all) <==> k in KeysOf(infos) + kept {
    }
    forall k ensures k in FlaggedOf(all) <==> k in FlaggedOf(infos) + kept {
    }
  }

  /** Storing a round keeps the indexes in agreement with the list. */
  lemma UpdateKeepsIndexes(memory: map<string, ModelInfo>, infos: seq<ModelInfo>, keep: bool, ac: AccountCatalog)
    requires MemoryRight(memory) && IsUpdate(memory, infos, keep, ac)
    ensures IndexesRight(ac)
  {
    RememberRight(memory, infos);
    var latest := Remember(memory, infos);
    hide Remember, Key, Sorted, KeysOf, FlaggedOf, MemoryRight;
    ListedKeys(infos, ac.infos, latest, if keep then Missing(latest, infos) else {});
  }

  // ----- storing one round -----

  /** The state of the loop over this round's list once the entries `seen` are done. */
  ghost predicate HasNoted(infos: seq<ModelInfo>, memory: map<string, ModelInfo>, known0: map<string, string>,
                           seen: seq<ModelInfo>,
                           ac: AccountCatalog, known: map<string, string>)
  {
    ac == AccountCatalog(infos, FlaggedOf(seen), KeysOf(seen), Remember(memory, seen)) && known == Learn(known0, seen)
  }

  method NoteEntry(ac0: AccountCatalog, known0: map<string, string>, m: ModelInfo)
    returns (ac: AccountCatalog, known: map<string, string>)
    requires SpellingsRight(known0)
    ensures SpellingsRight(known)
    ensures forall infos, memory, known1, seen ::
      HasNoted(infos, memory, known1, seen, ac0, known0) ==> HasNoted(infos, memory, known1, seen + [m], ac, known)
  {
    ac, known := ac0, known0;
    if m.id != "" {
      var key := Lower(m.id);
      ac := ac.(knows := ac.knows + {key});
      if m.benefit {
        ac := ac.(benefit := ac.benefit + {key}, lastBenefit := ac.lastBenefit[key := m]);
      }
      LearnKeepsSpellings(known, m);
      known := LearnId(known, m);
    }
    forall infos, memory, known1, seen | HasNoted(infos, memory, known1, seen, ac0, known0)
      ensures HasNoted(infos, memory, known1, seen + [m], ac, known)
    {
      SnocKeys(seen, m);
      assert (seen + [m])[..|seen|] == seen;
      hide KeysOf, FlaggedOf, SpellingsRight;
    }
  }

  /** The loop over this round's list. */
  method NoteEntries(ac0: AccountCatalog, known0: map<string, string>)
    returns (ac: AccountCatalog, known: map<string, string>)
    requires ac0.knows == {} && ac0.benefit == {} && SpellingsRight(known0)
    ensures HasNoted(ac0.infos, ac0.lastBenefit, known0, ac0.infos, ac, known) && SpellingsRight(known)
  {
    ac, known := ac0, known0;
    var infos := ac0.infos;
    assert HasNoted(infos, ac0.lastBenefit, known0, infos[..0], ac, known);
    hide HasNoted, SpellingsRight;
    var i := 0;
    while i < |infos|
      invariant 0 <= i <= |infos|
      invariant HasNoted(infos, ac0.lastBenefit, known0, infos[..i], ac, known) && SpellingsRight(known)
    {
      ac, known := NoteEntry(ac, known, infos[i]);
      assert infos[..i] + [infos[i]] == infos[..i + 1];
      i := i + 1;
    }
    assert infos[..i] == infos;
  }

  lemma SnocKeys(infos: seq<ModelInfo>, m: ModelInfo)
    ensures KeysOf(infos + [m]) == KeysOf(infos) + if m.id != "" then {Key(m)} else {}
    ensures FlaggedOf(infos + [m]) == FlaggedOf(infos) + if m.id != "" && m.benefit then {Key(m)} else {}
  {
    var all := infos + [m];
    assert forall i | 0 <= i < |infos| :: all[i] == infos[i];
    assert all[|infos|] == m;
  }

  /** `ac` is `ac0` with the remembered benefits `kept` listed, flagged and known. */
  ghost predicate Keeping(ac0: AccountCatalog, kept: set<string>, ac: AccountCatalog) {
    && kept <= ac0.lastBenefit.Keys && kept !! ac0.knows
    && ac.knows == ac0.knows + kept && ac.benefit == ac0.benefit + kept && ac.lastBenefit == ac0.lastBenefit
    && (forall m :: m in ac.infos <==> m in ac0.infos || (Key(m) in kept && ac0.lastBenefit[Key(m)] == m))
    && |ac.infos| == |ac0.infos| + |kept|
  }

  ghost predicate KeepsAll(ac0: AccountCatalog, ac: AccountCatalog) {
    Keeping(ac0, ac0.lastBenefit.Keys - ac0.knows, ac)
  }

  function KeepOne(ac: AccountCatalog, key: string): AccountCatalog
    requires key in ac.lastBenefit
  {
    ac.(benefit := ac.benefit + {key}, knows := ac.knows + {key}, infos := ac.infos + [ac.lastBenefit[key]])
  }

  lemma KeepOneMore(ac0: AccountCatalog, kept: set<string>, ac: AccountCatalog, key: string)
    requires Keeping(ac0, kept, ac) && key in ac0.lastBenefit && key !in ac.knows && Key(ac0.lastBenefit[key]) == key
    ensures Keeping(ac0, kept + {key}, KeepOne(ac, key))
    ensures KeepOne(ac, key).knows == ac0.knows + (kept + {key}) && KeepOne(ac, key).lastBenefit == ac0.lastBenefit
  {
    hide Key;
  }

  lemma KeepsAllIsUpdate(memory: map<string, ModelInfo>, infos: seq<ModelInfo>, ac0: AccountCatalog,
      ac: AccountCatalog, sorted: seq<ModelInfo>)
    requires ac0 == AccountCatalog(infos, FlaggedOf(infos), KeysOf(infos), Remember(memory, infos)) && KeepsAll(ac0, ac)
    requires Sorted(sorted) && multiset(sorted) == multiset(ac.infos)
    ensures IsUpdate(memory, infos, true, ac.(infos := sorted))
  {
    SameElements(sorted, ac.infos);
    hide Key, Sorted, Remember, KeysOf, FlaggedOf;
  }

  /** What is listed beyond the entries of `ac0` has its spellings learned. */
  ghost predicate Listing(ac0: AccountCatalog, known0: map<string, string>, ac: AccountCatalog,
                          known: map<string, string>)
  {
    ac0.infos <= ac.infos && known == Learn(known0, ac.infos[|ac0.infos|..])
  }

  lemma ListOneMore(ac0: AccountCatalog, known0: map<string, string>, ac: AccountCatalog, known: map<string, string>,
      key: string)
    requires Listing(ac0, known0, ac, known) && key in ac.lastBenefit
    ensures Listing(ac0, known0, KeepOne(ac, key), LearnId(known, ac.lastBenefit[key]))
  {
    var listed, m := ac.infos[|ac0.infos|..], ac.lastBenefit[key];
    LearnOne(known0, listed, m);
    hide Learn, LearnId;
    assert (ac.infos + [m])[|ac0.infos|..] == listed + [m];
  }

  lemma LearnedAll(known: map<string, string>, infos: seq<ModelInfo>)
    ensures Learned(known, infos, infos, Learn(known, infos))
  {
  }

  lemma KeptIsLearned(known0: map<string, string>, noted: AccountCatalog, ac: AccountCatalog,
      known: map<string, string>, sorted: seq<ModelInfo>)
    requires Listing(noted, Learn(known0, noted.infos), ac, known) && multiset(sorted) == multiset(ac.infos)
    ensures Learned(known0, noted.infos, sorted, known)
  {
    LearnConcat(known0, noted.infos, ac.infos[|noted.infos|..]);
    assert ac.infos == noted.infos + ac.infos[|noted.infos|..];
  }

  /** The loop over the memory: benefits this round did not mention stay listed and flagged. */
  method KeepBenefits(ac0: AccountCatalog, known0: map<string, string>)
    returns (ac: AccountCatalog, known: map<string, string>)
    requires MemoryRight(ac0.lastBenefit) && SpellingsRight(known0)
    ensures KeepsAll(ac0, ac) && SpellingsRight(known)
    ensures Listing(ac0, known0, ac, known)
  {
    assert forall k | k in ac0.lastBenefit :: Key(ac0.lastBenefit[k]) == k;
    ac, known := ac0, known0;
    assert Keeping(ac0, {}, ac);
    assert Listing(ac0, known0, ac, known) by {
      assert ac.infos[|ac0.infos|..] == [];
    }
    var todo := ac0.lastBenefit.Keys;
    ghost var kept: set<string> := {};
    hide Key, SpellingsRight, LearnId, Learn, Listing, MemoryRight, Keeping, KeepOne;
    while exists key :: key in todo
      invariant todo <= ac0.lastBenefit.Keys && ac.lastBenefit == ac0.lastBenefit
      invariant forall k | k in ac0.lastBenefit :: k in todo || k in ac0.knows || k in kept
      invariant ac.knows == ac0.knows + kept && kept <= ac0.lastBenefit.Keys && kept !! ac0.knows
      invariant Keeping(ac0, kept, ac) && SpellingsRight(known) && Listing(ac0, known0, ac, known)
      decreases todo
    {
      var key: string :| key in todo;
      todo := todo - {key};
      if key !in ac.knows {
        KeepOneMore(ac0, kept, ac, key);
        LearnKeepsSpellings(known, ac.lastBenefit[key]);
        ListOneMore(ac0, known0, ac, known, key);
        known := LearnId(known, ac.lastBenefit[key]);
        ac := KeepOne(ac, key);
        kept := kept + {key};
      }
    }
    assert kept == ac0.lastBenefit.Keys - ac0.knows;
  }

  /** The catalogue for one round of discovery. */
  method BuildCatalog(memory: map<string, ModelInfo>, infos: seq<ModelInfo>, keepBenefit: bool,
      known0: map<string, string>)
    returns (ac: AccountCatalog, known: map<string, string>)
    requires MemoryRight(memory) && SpellingsRight(known0)
    ensures IsUpdate(memory, infos, keepBenefit, ac) && IndexesRight(ac) && SpellingsRight(known)
    ensures Learned(known0, infos, ac.infos, known)
  {
    ac, known := NoteEntries(AccountCatalog(infos, {}, {}, memory), known0);
    RememberRight(memory, infos);
    LearnedAll(known0, infos);
    hide Lower, Key, Sorted, Remember, KeysOf, FlaggedOf, SpellingsRight, MemoryRight, IndexesRight, KeepsAll, Learn,
      Learned, Listing;
    if keepBenefit {
      ghost var noted := ac;
      ac, known := KeepBenefits(ac, known);
      var sorted := Sort(ac.infos);
      KeptIsLearned(known0, noted, ac, known, sorted);
      KeepsAllIsUpdate(memory, infos, noted, ac, sorted);
      ac := ac.(infos := sorted);
    }
    UpdateKeepsIndexes(memory, infos, keepBenefit, ac);
  }

  lemma {:induction false} LearnConcat(known: map<string, string>, xs: seq<ModelInfo>, ys: seq<ModelInfo>)
    ensures Learn(known, xs + ys) == Learn(Learn(known, xs), ys)
    decreases |ys|
  {
    if ys == [] {
      assert xs + ys == xs;
    } else {
      var init := ys[..|ys| - 1];
      assert (xs + ys)[..|xs + ys| - 1] == xs + init;
      LearnConcat(known, xs, init);
    }
  }

  lemma SameElements(xs: seq<ModelInfo>, ys: seq<ModelInfo>)
    requires multiset(xs) == multiset(ys)
    ensures |xs| == |ys| && forall m :: m in xs <==> m in ys
  {
    assert |multiset(xs)| == |xs| && |multiset(ys)| == |ys|;
    forall m ensures m in xs <==> m in ys {
      assert m in xs <==> m in multiset(xs);
      assert m in ys <==> m in multiset(ys);
    }
  }

  // ----- benefit routing -----

  /** What routing reads: the two indexes, and the memory that the next round starts from. */
  datatype Index = Index(benefit: set<string>, knows: set<string>, memory: map<string, ModelInfo>)

  function IndexOf(ac: AccountCatalog): Index {
    Index(ac.benefit, ac.knows, ac.lastBenefit)
  }

  function RouteKey(model: string): string {
    Lower(Trim(model))
  }

  /** `IsBenefitModel`: flagged, else known and therefore regular, else the cold-start seeds. */
  predicate IsBenefit(index: Option<Index>, model: string) {
    var key := RouteKey(model);
    key != "" &&
    ((index.Some? && key in index.value.benefit)
     || (!(index.Some? && key in index.value.knows) && IsSeed(key)))
  }

  /** The same decision made by looking through the account's list. */
  predicate IsBenefitByScan(infos: Option<seq<ModelInfo>>, model: string) {
    var key := RouteKey(model);
    key != "" &&
    ((infos.Some? && Flags(infos.value, key))
     || (!(infos.Some? && Mentions(infos.value, key)) && IsSeed(key)))
  }

  /** With the indexes right, routing by index and routing by scanning the list agree on every model. */
  lemma IndexAgreesWithScan(ac: AccountCatalog, model: string)
    requires IndexesRight(ac)
    ensures IsBenefit(Some(IndexOf(ac)), model) <==> IsBenefitByScan(Some(ac.infos), model)
  {
    InKeysOf(ac.infos, RouteKey(model));
    hide Mentions, Flags, IsSeed, KeysOf, FlaggedOf;
  }

  /** Routing asks for a model by its ID, whatever the case and whatever spaces stand around it. */
  lemma RouteIgnoresCaseAndSpace(index: Option<Index>, before: string, id: string, after: string, spelled: string)
    requires AllSpace(before) && AllSpace(after) && SameButCase(id, spelled)
    ensures IsBenefit(index, before + id + after) <==> IsBenefit(index, spelled)
  {
    TrimAround(before, id, after);
    LowerExactly(id, spelled);
    SpacesInAnyCase(id, spelled);
    var i, j := TrimExactly(id);
    LowerExactly(Trim(id), Trim(spelled));
    hide Lower, Trim, IsSeed;
  }

  /** Case does not move where the spaces are. */
  lemma {:induction false} SpacesInAnyCase(a: string, b: string)
    requires SameButCase(a, b)
    ensures SameButCase(Trim(a), Trim(b))
  {
    LeftInAnyCase(a, b);
    RightInAnyCase(TrimLeft(a), TrimLeft(b));
  }

  lemma {:induction false} LeftInAnyCase(a: string, b: string)
    requires SameButCase(a, b)
    ensures SameButCase(TrimLeft(a), TrimLeft(b))
  {
    if a != "" && IsSpace(a[0]) {
      LeftInAnyCase(a[1..], b[1..]);
    }
  }

  lemma {:induction false} RightInAnyCase(a: string, b: string)
    requires SameButCase(a, b)
    ensures SameButCase(TrimRight(a), TrimRight(b))
  {
    if a != "" && IsSpace(a[|a| - 1]) {
      RightInAnyCase(a[..|a| - 1], b[..|b| - 1]);
    }
  }

  /** An entry that an account's list flags is routed under its own ID, and one it only mentions is not. */
  lemma OwnIdRoutes(ac: AccountCatalog, m: ModelInfo)
    requires IndexesRight(ac) && m in ac.infos && m.id != "" && Trim(m.id) == m.id
    ensures m.benefit ==> IsBenefit(Some(IndexOf(ac)), m.id)
    ensures (forall o :: o in ac.infos && o.id != "" && SameButCase(o.id, m.id) ==> !o.benefit) ==>
      !IsBenefit(Some(IndexOf(ac)), m.id)
  {
    assert Key(m) in KeysOf(ac.infos);
    forall o | o in ac.infos ensures Key(o) == Key(m) <==> SameButCase(o.id, m.id) {
      LowerExactly(o.id, m.id);
    }
    hide Lower, Trim, IsSeed, SameButCase;
  }

  // ----- whole histories -----

  datatype Round = Round(account: string, infos: seq<ModelInfo>, keep: bool)

  /** The indexes after a round. */
  function Updated(memory: map<string, ModelInfo>, infos: seq<ModelInfo>, keep: bool): Index {
    var latest := Remember(memory, infos);
    var kept := if keep then Missing(latest, infos) else {};
    Index(FlaggedOf(infos) + kept, KeysOf(infos) + kept, latest)
  }

  lemma UpdateDeterminesIndex(memory: map<string, ModelInfo>, infos: seq<ModelInfo>, keep: bool, ac: AccountCatalog)
    requires IsUpdate(memory, infos, keep, ac)
    ensures IndexOf(ac) == Updated(memory, infos, keep)
  {
    hide KeysOf, FlaggedOf, Remember, Missing, Sorted;
  }

  function MemoryIn(indexes: map<string, Index>, account: string): map<string, ModelInfo> {
    if account in indexes then indexes[account].memory else map[]
  }

  /** One round replaces the indexes of its account; a round without an account does nothing. */
  function Play(before: map<string, Index>, r: Round): map<string, Index> {
    if r.account == "" then before else before[r.account := Updated(MemoryIn(before, r.account), r.infos, r.keep)]
  }

  /** The indexes of all accounts after a history of rounds. */
  function Replay(history: seq<Round>): map<string, Index> {
    if history == [] then map[] else Play(Replay(history[..|history| - 1]), history[|history| - 1])
  }

  /** Some round of this account among the first `n` flagged the key. */
  predicate EverFlagged(history: seq<Round>, account: string, key: string) {
    exists i | 0 <= i < |history| :: history[i].account == account && Flags(history[i].infos, key)
  }

  lemma EverFlaggedSnoc(history: seq<Round>, account: string, key: string)
    requires history != []
    ensures var init, r := history[..|history| - 1], history[|history| - 1];
      EverFlagged(history, account, key) <==>
        EverFlagged(init, account, key) || (r.account == account && Flags(r.infos, key))
  {
    hide Flags;
    var init, r := history[..|history| - 1], history[|history| - 1];
    if EverFlagged(init, account, key) {
      var i :| 0 <= i < |init| && init[i].account == account && Flags(init[i].infos, key);
      assert history[i] == init[i];
    }
    if EverFlagged(history, account, key) {
      var i :| 0 <= i < |history| && history[i].account == account && Flags(history[i].infos, key);
      assert i < |init| ==> init[i] == history[i];
    }
  }

  /** The memory holds exactly the keys ever flagged, whatever rounds came since and whether or not they succeeded. */
  lemma {:induction false} MemoryIsEverFlagged(history: seq<Round>, account: string, key: string)
    requires account != ""
    ensures key in MemoryIn(Replay(history), account) <==> EverFlagged(history, account, key)
    ensures MemoryRight(MemoryIn(Replay(history), account))
    decreases |history|
  {
    if history != [] {
      var init, r := history[..|history| - 1], history[|history| - 1];
      MemoryIsEverFlagged(init, account, key);
      EverFlaggedSnoc(history, account, key);
      hide EverFlagged, Flags;
      if r.account == account {
        var memory := MemoryIn(Replay(init), account);
        RememberRight(memory, r.infos);
        InKeysOf(r.infos, key);
        hide Remember, FlaggedOf, MemoryRight;
      }
    }
  }

  /** The last round of an account, or none. */
  function LastRound(history: seq<Round>, account: string): (n: nat)
    ensures n <= |history|
    ensures n > 0 ==> history[n - 1].account == account
    ensures forall i | n <= i < |history| :: history[i].account != account
  {
    if history == [] then 0
    else if history[|history| - 1].account == account then |history|
    else LastRound(history[..|history| - 1], account)
  }

  function AfterRound(history: seq<Round>, i: nat): Index
    requires i < |history|
  {
    Updated(MemoryIn(Replay(history[..i]), history[i].account), history[i].infos, history[i].keep)
  }

  /** An account's indexes are those its own last round left. */
  lemma {:induction false} OnlyOwnRounds(history: seq<Round>, account: string)
    requires account != ""
    ensures var n := LastRound(history, account);
      && (account in Replay(history) <==> n > 0)
      && (n > 0 ==> Replay(history)[account] == AfterRound(history, n - 1))
    decreases |history|
  {
    hide Updated, MemoryIn;
    if history != [] && history[|history| - 1].account != account {
      var init := history[..|history| - 1];
      OnlyOwnRounds(init, account);
      var n := LastRound(init, account);
      assert n > 0 ==> init[..n - 1] == history[..n - 1];
    }
  }

  /** The routing rule in closed form over one account's history. */
  predicate RoutedByHistory(history: seq<Round>, account: string, key: string) {
    var n := LastRound(history, account);
    if n == 0 then IsSeed(key)
    else
      var r := history[n - 1];
      Flags(r.infos, key)
      || (!Mentions(r.infos, key) && ((r.keep && EverFlagged(history[..n - 1], account, key)) || IsSeed(key)))
  }

  /**
   * Benefit routing over every history: a model is routed exactly if the account's last round flags it, or that round
   * does not mention it and either the round was one that keeps benefits and some earlier round of the same account
   * flagged it, or it is a seed. Rounds of other accounts never matter.
   */
  lemma BenefitClosedForm(history: seq<Round>, account: string, model: string)
    requires account != ""
    ensures var indexes := Replay(history);
      IsBenefit(if account in indexes then Some(indexes[account]) else None, model)
      <==> RouteKey(model) != "" && RoutedByHistory(history, account, RouteKey(model))
  {
    var key, n := RouteKey(model), LastRound(history, account);
    OnlyOwnRounds(history, account);
    if n > 0 {
      var r, earlier := history[n - 1], history[..n - 1];
      var memory := MemoryIn(Replay(earlier), account);
      MemoryIsEverFlagged(earlier, account, key);
      RememberRight(memory, r.infos);
      InKeysOf(r.infos, key);
      FlaggedIsMentioned(r.infos, key);
      hide Replay, Remember, KeysOf, FlaggedOf, Flags, Mentions, EverFlagged, IsSeed, MemoryRight, RouteKey;
    }
  }

  lemma FlaggedIsMentioned(infos: seq<ModelInfo>, key: string)
    ensures Flags(infos, key) ==> Mentions(infos, key)
  {
    if Flags(infos, key) {
      var i :| 0 <= i < |infos| && Contributes(infos[i], key) && Benefits(infos[i]);
      assert Anything(infos[i]);
    }
  }

  // ----- the mutable catalogue -----

  class ModelCatalog {
    var accounts: map<string, AccountCatalog>
    var known: map<string, string>

    ghost predicate Valid()
      reads this
    {
      SpellingsRight(known) && forall a | a in accounts :: IndexesRight(accounts[a])
    }

    constructor ()
      ensures Valid() && accounts == map[]
    {
      accounts := map[];
      known := map[];
      new;
      var seeds := SEED_KNOWN_MODELS + SEED_BENEFIT_MODELS;
      var i := 0;
      while i < |seeds|
        invariant 0 <= i <= |seeds| && accounts == map[] && SpellingsRight(known)
      {
        if Lower(seeds[i]) !in known {
          known := known[Lower(seeds[i]) := seeds[i]];
        }
        i := i + 1;
      }
    }

    function Memory(account: string): map<string, ModelInfo>
      reads this
    {
      if account in accounts then accounts[account].lastBenefit else map[]
    }

    /** What routing reads, for every account. */
    function Indexes(): map<string, Index>
      reads this
    {
      map a | a in accounts :: IndexOf(accounts[a])
    }

    lemma IndexesHoldMemory(account: string)
      requires Valid()
      ensures account in accounts ==> MemoryRight(accounts[account].lastBenefit)
      ensures MemoryRight(map[])
    {
      if account in accounts {
        assert IndexesRight(accounts[account]);
      }
    }

    method SetAccountModels(account: string, infos: seq<ModelInfo>, keepBenefit: bool)
      requires Valid()
      modifies this
      ensures Valid()
      ensures account == "" ==> accounts == old(accounts) && known == old(known)
      ensures account != "" ==>
        && account in accounts && IsUpdate(old(Memory(account)), infos, keepBenefit, accounts[account])
        && accounts == old(accounts)[account := accounts[account]]
        && Learned(old(known), infos, accounts[account].infos, known)
      ensures Indexes() == Play(old(Indexes()), Round(account, infos, keepBenefit))
    {
      hide IsUpdate, Updated, IndexesRight, SpellingsRight, Learned;
      if account == "" {
        return;
      }
      IndexesHoldMemory(account);
      var memory := if account in accounts then accounts[account].lastBenefit else map[];
      var ac;
      ac, known := BuildCatalog(memory, infos, keepBenefit, known);
      accounts := accounts[account := ac];
      UpdateDeterminesIndex(memory, infos, keepBenefit, ac);
      assert Indexes() == old(Indexes())[account := IndexOf(ac)];
    }

    method IsBenefitModel(account: string, model: string) returns (benefit: bool)
      requires Valid()
      ensures benefit == IsBenefit(if account in Indexes() then Some(Indexes()[account]) else None, model)
      ensures benefit == IsBenefitByScan(if account in accounts then Some(accounts[account].infos) else None, model)
    {
      if account in accounts {
        IndexAgreesWithScan(accounts[account], model);
      }
      hide Mentions, Flags;
      var key := RouteKey(model);
      if key == "" {
        return false;
      }
      if account in accounts {
        if key in accounts[account].benefit {
          return true;
        }
        if key in accounts[account].knows {
          return false;
        }
      }
      return IsSeed(key);
    }
  }
}
