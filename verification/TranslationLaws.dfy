/** How the translation tools fit together. */
module TranslationLaws {
  import opened Wrappers
  import opened Translations

  lemma {:induction false} LookupAbsent(entries: Entries, key: string)
    ensures Lookup(entries, key).Some? <==> HasKey(entries, key)
  {
    if entries != [] {
      LookupAbsent(entries[1..], key);
      if HasKey(entries, key) && entries[0].key != key {
        var i :| 0 <= i < |entries| && entries[i].key == key;
        assert entries[1..][i - 1].key == key;
      }
      if HasKey(entries[1..], key) {
        var i :| 0 <= i < |entries| - 1 && entries[1..][i].key == key;
        assert entries[i + 1].key == key;
      }
    }
  }

  lemma UniqueTail(entries: Entries)
    requires Unique(entries) && entries != []
    ensures Unique(entries[1..]) && !HasKey(entries[1..], entries[0].key)
  {
  }

  // --------------------------------------------------- extract, then merge untouched

  /** What is missing is keyed by reference keys. */
  lemma {:induction false} MissingKeys(en: Entries, lang: Tree, key: string)
    requires Missing(en, lang).Some? && HasKey(Missing(en, lang).value, key)
    ensures HasKey(en, key)
  {
    var missing := Missing(en, lang).value;
    var i :| 0 <= i < |missing| && missing[i].key == key;
    var rest := Missing(en[1..], lang).value;
    if missing[i].key == en[0].key {
    } else {
      var j := if missing == rest then i else i - 1;
      assert missing == rest || missing[1..] == rest;
      assert rest[j].key == key;
      MissingKeys(en[1..], lang, key);
      var k :| 0 <= k < |en| - 1 && en[1..][k].key == key;
      assert en[k + 1].key == key;
    }
  }

  /** `wip` says about the keys of `en` exactly what was extracted for them. */
  ghost predicate AgreesWith(wip: Tree, extracted: Entries, en: Entries) {
    wip.Obj? && forall i | 0 <= i < |en| :: Lookup(wip.entries, en[i].key) == Lookup(extracted, en[i].key)
  }

  /**
   Extracting and merging the untouched extract is the legacy merge, for every reference
   without nulls and every language file -- including that both throw on the same files.
   */
  lemma {:induction false} ExtractThenMergeIsLegacy(en: Entries, lang: Tree, wip: Tree)
    requires Unique(en) && NoNull(en)
    ensures Missing(en, lang).None? ==> LegacyMerge(en, lang).None?
    ensures Missing(en, lang).Some? && AgreesWith(wip, Missing(en, lang).value, en) ==>
              WipMerge(en, lang, wip) == LegacyMerge(en, lang)
    decreases en
  {
    if en != [] {
      var key, value := en[0].key, en[0].value;
      UniqueTail(en);
      if value.Obj? {
        var child := OrEmpty(Child(lang, key));
        ExtractThenMergeIsLegacy(value.entries, child, OrEmpty(Child(wip, key)));
      }
      ExtractThenMergeIsLegacy(en[1..], lang, wip);
      if Missing(en, lang).Some? && AgreesWith(wip, Missing(en, lang).value, en) {
        HeadAgrees(en, lang, wip);
      }
    }
  }

  /** Agreement on all keys, taken apart: at the head key and on the remaining keys. */
  lemma HeadAgrees(en: Entries, lang: Tree, wip: Tree)
    requires Unique(en) && NoNull(en) && en != []
    requires Missing(en, lang).Some? && AgreesWith(wip, Missing(en, lang).value, en)
    ensures Missing(en[1..], lang).Some? && AgreesWith(wip, Missing(en[1..], lang).value, en[1..])
    ensures en[0].value.Obj? ==>
              var child := OrEmpty(Child(lang, en[0].key));
              && Missing(en[0].value.entries, child).Some?
              && OrEmpty(Child(wip, en[0].key)) == Obj(Missing(en[0].value.entries, child).value)
    ensures !en[0].value.Obj? ==>
              && Has(lang, en[0].key).Some?
              && Lookup(wip.entries, en[0].key) == if Has(lang, en[0].key).value then None else Some(en[0].value)
  {
    var key := en[0].key;
    var all, rest := Missing(en, lang).value, Missing(en[1..], lang).value;
    UniqueTail(en);
    if HasKey(rest, key) {
      MissingKeys(en[1..], lang, key);
    }
    LookupAbsent(rest, key);
    assert Lookup(wip.entries, en[0].key) == Lookup(all, en[0].key);
    assert all == rest || (|all| == |rest| + 1 && all[0].key == key && all[1..] == rest);
    forall i | 0 <= i < |en[1..]|
      ensures Lookup(wip.entries, en[1..][i].key) == Lookup(rest, en[1..][i].key)
    {
      assert en[1..][i] == en[i + 1] && en[i + 1].key != key;
    }
  }

  /** The incremental workflow with an untranslated extract gives the legacy result. */
  lemma {:induction false} WorkflowMatchesLegacy(en: Entries, lang: Tree)
    requires Unique(en) && NoNull(en)
    ensures (match Missing(en, lang)
             case Some(wip) => WipMerge(en, lang, Obj(wip))
             case None => None)
            == LegacyMerge(en, lang)
  {
    if Missing(en, lang).Some? {
      ExtractThenMergeIsLegacy(en, lang, Obj(Missing(en, lang).value));
    } else {
      ExtractThenMergeIsLegacy(en, lang, Null);
    }
  }

  // ------------------------------------------------------------- shape of a merge

  /** Same keys in the same order at every level of the reference. */
  predicate FollowsKeys(en: Entries, out: Entries) {
    |out| == |en| && forall i | 0 <= i < |en| ::
      && out[i].key == en[i].key
      && (en[i].value.Obj? ==> out[i].value.Obj? && FollowsKeys(en[i].value.entries, out[i].value.entries))
  }

  lemma FollowsCons(head: Entry, en: Entries, outHead: Entry, out: Entries)
    requires FollowsKeys(en, out) && outHead.key == head.key
    requires head.value.Obj? ==> outHead.value.Obj? && FollowsKeys(head.value.entries, outHead.value.entries)
    ensures FollowsKeys([head] + en, [outHead] + out)
  {
    assert forall i | 1 <= i < |en| + 1 :: ([head] + en)[i] == en[i - 1] && ([outHead] + out)[i] == out[i - 1];
  }

  lemma {:induction false} MergeFollowsReference(en: Entries, lang: Tree, wip: Tree)
    requires WipMerge(en, lang, wip).Some?
    ensures FollowsKeys(en, WipMerge(en, lang, wip).value)
    decreases en
  {
    if en != [] {
      MergeFollowsReference(en[1..], lang, wip);
      if en[0].value.Obj? {
        MergeFollowsReference(en[0].value.entries, OrEmpty(Child(lang, en[0].key)), OrEmpty(Child(wip, en[0].key)));
      }
      FollowsCons(en[0], en[1..], WipMerge(en, lang, wip).value[0], WipMerge(en[1..], lang, wip).value);
      assert [en[0]] + en[1..] == en;
    }
  }

  /** A language object that follows the reference on the keys of `en` (it may hold more). */
  ghost predicate Covers(en: Entries, lang: Tree) {
    lang.Obj? && forall i | 0 <= i < |en| ::
      && Lookup(lang.entries, en[i].key).Some?
      && (en[i].value.Obj? ==> Covers(en[i].value.entries, Lookup(lang.entries, en[i].key).value))
  }

  lemma {:induction false} FollowsMeansCovers(en: Entries, out: Entries)
    requires FollowsKeys(en, out) && Unique(en)
    ensures Covers(en, Obj(out))
    decreases en
  {
    forall i | 0 <= i < |en|
      ensures Lookup(out, en[i].key) == Some(out[i].value)
      ensures en[i].value.Obj? ==> Covers(en[i].value.entries, out[i].value)
    {
      LookupByPosition(en, out, i);
      if en[i].value.Obj? {
        FollowsMeansCovers(en[i].value.entries, out[i].value.entries);
      }
    }
  }

  lemma {:induction false} LookupByPosition(en: Entries, out: Entries, i: nat)
    requires |out| == |en| && i < |en|
    requires forall j | 0 <= j < |en| :: out[j].key == en[j].key
    requires forall j, k | 0 <= j < k < |en| :: en[j].key != en[k].key
    ensures Lookup(out, en[i].key) == Some(out[i].value)
  {
    if i > 0 {
      LookupByPosition(en[1..], out[1..], i - 1);
    }
  }

  /** Where every reference key is present, validation and extraction find nothing. */
  lemma {:induction false} NothingMissingWhenCovered(en: Entries, lang: Tree, prefix: string)
    requires NoNull(en) && Covers(en, lang)
    ensures MissingPaths(en, Some(lang), prefix) == Some([]) && Missing(en, lang) == Some([])
    decreases en
  {
    if en != [] {
      assert Covers(en[1..], lang) by {
        assert forall i | 0 <= i < |en[1..]| :: en[1..][i] == en[i + 1];
      }
      NothingMissingWhenCovered(en[1..], lang, prefix);
      var child := Lookup(lang.entries, en[0].key).value;
      assert OrEmpty(Some(lang)) == lang && Has(lang, en[0].key) == Some(true) && Child(lang, en[0].key) == Some(child);
      if en[0].value.Obj? {
        NothingMissingWhenCovered(en[0].value.entries, child, FullKey(prefix, en[0].key));
        ConcatAssociative([], [], MissingPaths(en[1..], Some(lang), prefix));
        assert OrEmpty(Child(lang, en[0].key)) == child;
      }
    }
  }

  /** After any merge: the reference's key order everywhere, validation empty, nothing left to extract. */
  lemma {:induction false} MergeIsComplete(en: Entries, lang: Tree, wip: Tree, prefix: string)
    requires Unique(en) && NoNull(en) && WipMerge(en, lang, wip).Some?
    ensures var out := WipMerge(en, lang, wip).value;
            && FollowsKeys(en, out)
            && MissingPaths(en, Some(Obj(out)), prefix) == Some([])
            && Missing(en, Obj(out)) == Some([])
  {
    MergeFollowsReference(en, lang, wip);
    FollowsMeansCovers(en, WipMerge(en, lang, wip).value);
    NothingMissingWhenCovered(en, Obj(WipMerge(en, lang, wip).value), prefix);
  }

  // ------------------------------------------------- what a merge holds, leaf by leaf

  /** The value at a path of keys. */
  function ValueAt(t: Tree, path: seq<string>): Option<Tree>
    decreases |path|
  {
    if path == [] then Some(t)
    else
      match Child(t, path[0])
      case None => None
      case Some(child) => ValueAt(child, path[1..])
  }

  /** A path to a leaf of the reference. */
  predicate IsLeafPath(en: Entries, path: seq<string>) {
    path != [] && ValueAt(Obj(en), path).Some? && !ValueAt(Obj(en), path).value.Obj?
  }

  /** Above a leaf path of two or more keys stands an object. */
  lemma LeafPathBelow(en: Entries, path: seq<string>)
    requires IsLeafPath(en, path) && |path| >= 2
    ensures Lookup(en, path[0]).Some? && Lookup(en, path[0]).value.Obj?
    ensures IsLeafPath(Lookup(en, path[0]).value.entries, path[1..])
  {
    var value := Lookup(en, path[0]).value;
    assert ValueAt(value, path[1..]) == ValueAt(Obj(en), path);
    assert Child(value, path[1]).Some?;
  }

  function FirstOf(a: Option<Tree>, b: Option<Tree>): Option<Tree> {
    if a.Some? then a else b
  }

  lemma ChildOfOrEmpty(value: Option<Tree>, key: string)
    ensures Child(OrEmpty(value), key) == if value.Some? then Child(value.value, key) else None
  {
  }

  lemma ValueAtOrEmpty(value: Option<Tree>, path: seq<string>)
    requires path != []
    ensures ValueAt(OrEmpty(value), path) == if value.Some? then ValueAt(value.value, path) else None
  {
    ChildOfOrEmpty(value, path[0]);
  }

  /** One level down from a tree that may lack the key. */
  lemma ValueBelow(t: Tree, path: seq<string>)
    requires |path| >= 2
    ensures ValueAt(t, path) == ValueAt(OrEmpty(Child(t, path[0])), path[1..])
  {
    ValueAtOrEmpty(Child(t, path[0]), path[1..]);
  }

  /** What the merge is to put under one key whose reference value is `value`. */
  predicate MergedFrom(value: Tree, lang: Option<Tree>, wip: Option<Tree>, merged: Tree) {
    if value.Obj? then
      var nested := WipMerge(value.entries, OrEmpty(lang), OrEmpty(wip));
      nested.Some? && merged == Obj(nested.value)
    else
      Some(merged) == FirstOf(wip, FirstOf(lang, Some(value)))
  }

  lemma MergedHead(en: Entries, lang: Tree, wip: Tree)
    requires en != [] && WipMerge(en, lang, wip).Some?
    ensures WipMerge(en[1..], lang, wip).Some?
    ensures var out := WipMerge(en, lang, wip).value;
            && out != [] && out[0].key == en[0].key && out[1..] == WipMerge(en[1..], lang, wip).value
            && MergedFrom(en[0].value, Child(lang, en[0].key), Child(wip, en[0].key), out[0].value)
  {
  }

  lemma {:induction false} MergedChild(en: Entries, lang: Tree, wip: Tree, key: string)
    requires WipMerge(en, lang, wip).Some? && Lookup(en, key).Some?
    ensures var merged := Lookup(WipMerge(en, lang, wip).value, key);
            merged.Some? && MergedFrom(Lookup(en, key).value, Child(lang, key), Child(wip, key), merged.value)
  {
    MergedHead(en, lang, wip);
    if en[0].key != key {
      MergedChild(en[1..], lang, wip, key);
    }
  }

  /** At every leaf of the reference the merge holds the work in progress, else the translation, else English. */
  lemma {:induction false} MergeTakesWipThenLangThenEnglish(en: Entries, lang: Tree, wip: Tree, path: seq<string>)
    requires WipMerge(en, lang, wip).Some? && IsLeafPath(en, path)
    ensures ValueAt(Obj(WipMerge(en, lang, wip).value), path) ==
            FirstOf(ValueAt(wip, path), FirstOf(ValueAt(lang, path), ValueAt(Obj(en), path)))
    decreases |path|
  {
    var key := path[0];
    MergedChild(en, lang, wip, key);
    var value := Lookup(en, key).value;
    if |path| == 1 {
      assert path[1..] == [];
      assert forall t: Tree :: ValueAt(t, path[1..]) == Some(t);
    } else {
      LeafPathBelow(en, path);
      ValueBelow(lang, path);
      ValueBelow(wip, path);
      MergeTakesWipThenLangThenEnglish(value.entries, OrEmpty(Child(lang, key)), OrEmpty(Child(wip, key)), path[1..]);
    }
  }

  /** What the extract holds under one key of the reference; an empty object is left out. */
  lemma {:induction false} ExtractedChild(en: Entries, lang: Tree, key: string)
    requires Unique(en) && NoNull(en) && Missing(en, lang).Some? && Lookup(en, key).Some?
    ensures var missing, value := Missing(en, lang).value, Lookup(en, key).value;
            if value.Obj? then
              var nested := Missing(value.entries, OrEmpty(Child(lang, key)));
              && Unique(value.entries) && NoNull(value.entries) && nested.Some?
              && OrEmpty(Lookup(missing, key)) == Obj(nested.value)
            else
              Lookup(missing, key) == if Child(lang, key).Some? then None else Some(value)
  {
    var missing, rest := Missing(en, lang).value, Missing(en[1..], lang).value;
    UniqueTail(en);
    if en[0].key == key {
      LookupAbsent(rest, key);
      if HasKey(rest, key) {
        MissingKeys(en[1..], lang, key);
      }
      assert missing == rest || missing[1..] == rest;
    } else {
      ExtractedChild(en[1..], lang, key);
      assert missing == rest || missing[1..] == rest;
    }
  }

  /** At every leaf of the reference the extract holds the English value exactly if the language has none. */
  lemma {:induction false} ExtractHoldsTheAbsentLeaves(en: Entries, lang: Tree, path: seq<string>)
    requires Unique(en) && NoNull(en) && Missing(en, lang).Some? && IsLeafPath(en, path)
    ensures ValueAt(Obj(Missing(en, lang).value), path) ==
            if ValueAt(lang, path).Some? then None else ValueAt(Obj(en), path)
    decreases |path|
  {
    var key := path[0];
    ExtractedChild(en, lang, key);
    var value := Lookup(en, key).value;
    if |path| == 1 {
      assert path[1..] == [];
      assert forall t: Tree :: ValueAt(t, path[1..]) == Some(t);
    } else {
      LeafPathBelow(en, path);
      ValueBelow(lang, path);
      ValueBelow(Obj(Missing(en, lang).value), path);
      ExtractHoldsTheAbsentLeaves(value.entries, OrEmpty(Child(lang, key)), path[1..]);
    }
  }

  // ------------------------------------------------------------ when a tool throws

  /** JavaScript's `in` throws on these; the falsy primitives are taken for no file at all. */
  predicate IsTruthyPrimitive(t: Tree) {
    t == Bool(true) || (t.Num? && t.n != 0) || (t.Str? && t.s != "")
  }

  /** Somewhere the reference has a leaf where the language file has a truthy primitive for the object around it. */
  predicate Blocked(en: Entries, lang: Tree) {
    exists i :: 0 <= i < |en| &&
      if en[i].value.Obj? then Child(lang, en[i].key).Some? && Blocked(en[i].value.entries, Child(lang, en[i].key).value)
      else IsTruthyPrimitive(lang)
  }

  lemma BlockedCons(en: Entries, lang: Tree)
    requires en != []
    ensures Blocked(en, lang) <==> Blocked([en[0]], lang) || Blocked(en[1..], lang)
  {
    var first, tail := en[..1], en[1..];
    assert first == [en[0]];
    assert forall i | 1 <= i < |en| :: en[i] == tail[i - 1];
    assert forall i | 0 <= i < |tail| :: tail[i] == en[i + 1];
    assert Blocked(first, lang) ==> Blocked(en, lang);
  }

  /** A value that is not truthy blocks nothing, like an object without keys. */
  lemma {:induction false} FalsyBlocksNothing(en: Entries, lang: Tree)
    requires !Truthy(lang) || lang == Obj([])
    ensures !Blocked(en, lang)
  {
  }

  lemma BlockedBelow(nested: Entries, value: Option<Tree>)
    ensures Blocked(nested, OrEmpty(value)) <==> value.Some? && Blocked(nested, value.value)
  {
    if value.None? || !Truthy(value.value) {
      FalsyBlocksNothing(nested, Obj([]));
      if value.Some? {
        FalsyBlocksNothing(nested, value.value);
      }
    }
  }

  /** The legacy mode throws if and only if the language file is blocked somewhere; arrays and falsy values never block. */
  lemma {:induction false} LegacyThrowsIff(en: Entries, lang: Tree)
    ensures LegacyMerge(en, lang).None? <==> Blocked(en, lang)
    decreases en
  {
    if en != [] {
      var key, value := en[0].key, en[0].value;
      LegacyThrowsIff(en[1..], lang);
      BlockedCons(en, lang);
      assert [en[0]][0] == en[0];
      if value.Obj? {
        LegacyThrowsIff(value.entries, OrEmpty(Child(lang, key)));
        BlockedBelow(value.entries, Child(lang, key));
      }
    }
  }

  lemma NoNullCons(en: Entries)
    requires en != []
    ensures NoNull(en) <==>
            !en[0].value.Null? && (en[0].value.Obj? ==> NoNull(en[0].value.entries)) && NoNull(en[1..])
  {
    var tail := en[1..];
    assert forall i | 1 <= i < |en| :: en[i] == tail[i - 1];
    assert forall i | 0 <= i < |tail| :: tail[i] == en[i + 1];
  }

  /** So does the extract, and also if and only if the reference holds a `null` anywhere. */
  lemma {:induction false} ExtractThrowsIff(en: Entries, lang: Tree)
    ensures Missing(en, lang).None? <==> !NoNull(en) || Blocked(en, lang)
    decreases en
  {
    if en != [] {
      var key, value := en[0].key, en[0].value;
      ExtractThrowsIff(en[1..], lang);
      BlockedCons(en, lang);
      NoNullCons(en);
      assert [en[0]][0] == en[0];
      if value.Obj? {
        ExtractThrowsIff(value.entries, OrEmpty(Child(lang, key)));
        BlockedBelow(value.entries, Child(lang, key));
      }
    }
  }

  /** Blocked by the work in progress, or where that lacks a leaf, by the language file. */
  predicate BlockedByEither(en: Entries, lang: Tree, wip: Tree) {
    en != [] &&
    var key, value := en[0].key, en[0].value;
    || (if value.Obj? then BlockedByEither(value.entries, OrEmpty(Child(lang, key)), OrEmpty(Child(wip, key)))
        else IsTruthyPrimitive(wip) || (Child(wip, key).None? && IsTruthyPrimitive(lang)))
    || BlockedByEither(en[1..], lang, wip)
  }

  /** The merge throws if and only if the reference holds a `null`, or a leaf is blocked by the file asked for it. */
  lemma {:induction false} MergeThrowsIff(en: Entries, lang: Tree, wip: Tree)
    ensures WipMerge(en, lang, wip).None? <==> !NoNull(en) || BlockedByEither(en, lang, wip)
    decreases en
  {
    if en != [] {
      var key, value := en[0].key, en[0].value;
      MergeThrowsIff(en[1..], lang, wip);
      NoNullCons(en);
      if value.Obj? {
        MergeThrowsIff(value.entries, OrEmpty(Child(lang, key)), OrEmpty(Child(wip, key)));
      }
    }
  }

  // -------------------------------------------- extract, validate and count agree

  /** An extract and a validation report about the same reference entries. */
  predicate Agree(missing: Option<Entries>, paths: Option<seq<string>>, prefix: string) {
    && (missing.Some? <==> paths.Some?)
    && (missing.Some? ==>
          LeafKeys(missing.value, prefix) == paths.value && LeafCount(missing.value) == Some(|paths.value|))
  }

  lemma AgreeNode(key: string, nested: Entries, nestedPaths: seq<string>, rest: Option<Entries>, paths: Option<seq<string>>, prefix: string)
    requires Agree(Some(nested), Some(nestedPaths), FullKey(prefix, key)) && Agree(rest, paths, prefix)
    ensures Agree(if nested != [] then Prepend(Entry(key, Obj(nested)), rest) else rest, Concat(Some(nestedPaths), paths), prefix)
  {
    if rest.Some? {
      if nested == [] {
        assert nestedPaths + paths.value == paths.value;
      } else {
        assert ([Entry(key, Obj(nested))] + rest.value)[1..] == rest.value;
      }
    }
  }

  lemma AgreeLeaf(entry: Entry, rest: Option<Entries>, paths: Option<seq<string>>, prefix: string)
    requires !entry.value.Obj? && !entry.value.Null? && Agree(rest, paths, prefix)
    ensures Agree(Prepend(entry, rest), Concat(Some([FullKey(prefix, entry.key)]), paths), prefix)
  {
    if rest.Some? {
      assert ([entry] + rest.value)[1..] == rest.value;
    }
  }

  /**
   The leaves of the extract are exactly what validation reports, in order, and the key
   count is their number; validation throws exactly when extraction does.
   */
  lemma {:induction false} ExtractValidateCountAgree(en: Entries, lang: Option<Tree>, prefix: string)
    ensures Agree(Missing(en, OrEmpty(lang)), MissingPaths(en, lang, prefix), prefix)
    decreases en
  {
    if en != [] {
      var key, value := en[0].key, en[0].value;
      ExtractValidateCountAgree(en[1..], lang, prefix);
      var rest, paths := Missing(en[1..], OrEmpty(lang)), MissingPaths(en[1..], lang, prefix);
      var child := if lang.Some? then Child(lang.value, key) else None;
      assert Child(OrEmpty(lang), key) == child;
      if value.Obj? {
        ExtractValidateCountAgree(value.entries, child, FullKey(prefix, key));
        var nested := Missing(value.entries, OrEmpty(child));
        if nested.Some? {
          AgreeNode(key, nested.value, MissingPaths(value.entries, child, FullKey(prefix, key)).value, rest, paths, prefix);
        }
      } else if !value.Null? {
        AgreeLeaf(en[0], rest, paths, prefix);
      }
    }
  }

  /** Counting throws if and only if there is a `null` anywhere. */
  lemma {:induction false} CountThrowsIff(entries: Entries)
    ensures LeafCount(entries).None? <==> !NoNull(entries)
    decreases entries
  {
    if entries != [] {
      NoNullCons(entries);
      CountThrowsIff(entries[1..]);
      if entries[0].value.Obj? {
        CountThrowsIff(entries[0].value.entries);
      }
    }
  }

  // ----------------------------------------------------------------- cleaning

  function Filtered(keys: seq<string>, validKeys: seq<string>): seq<string> {
    if keys == [] then []
    else if keys[0] in validKeys then [keys[0]] + Filtered(keys[1..], validKeys)
    else Filtered(keys[1..], validKeys)
  }

  lemma {:induction false} FilteredConcat(a: seq<string>, b: seq<string>, validKeys: seq<string>)
    ensures Filtered(a + b, validKeys) == Filtered(a, validKeys) + Filtered(b, validKeys)
  {
    if a == [] {
      assert a + b == b;
    } else {
      FilteredConcat(a[1..], b, validKeys);
      assert (a + b)[1..] == a[1..] + b;
    }
  }

  lemma {:induction false} FilteredNone(keys: seq<string>, validKeys: seq<string>)
    requires forall i | 0 <= i < |keys| :: keys[i] !in validKeys
    ensures Filtered(keys, validKeys) == []
  {
    if keys != [] {
      FilteredNone(keys[1..], validKeys);
    }
  }

  lemma {:induction false} LeafKeysExtendPrefix(entries: Entries, prefix: string)
    requires prefix != ""
    ensures forall i | 0 <= i < |LeafKeys(entries, prefix)| :: prefix + "." <= LeafKeys(entries, prefix)[i]
    decreases entries
  {
    if entries != [] {
      var path := FullKey(prefix, entries[0].key);
      LeafKeysExtendPrefix(entries[1..], prefix);
      if entries[0].value.Obj? {
        LeafKeysExtendPrefix(entries[0].value.entries, path);
        var nested := LeafKeys(entries[0].value.entries, path);
        forall i | 0 <= i < |nested|
          ensures prefix + "." <= nested[i]
        {
          assert prefix + "." <= path <= path + "." <= nested[i];
        }
      }
    }
  }

  /** A subtree that string-prefix pruning removes has no valid leaf. */
  lemma PrunedHasNoValidLeaf(entries: Entries, validKeys: seq<string>, path: string)
    requires path != "" && !HasValidChild(validKeys, path)
    ensures Filtered(LeafKeys(entries, path), validKeys) == []
  {
    LeafKeysExtendPrefix(entries, path);
    var keys := LeafKeys(entries, path);
    forall i | 0 <= i < |keys|
      ensures keys[i] !in validKeys
    {
    }
    FilteredNone(keys, validKeys);
  }

  /**
   Under the empty path, which only empty names lead to, pruning asks for a valid key that
   starts with a dot.  Nothing is lost there if some valid key does, or no leaf is valid.
   */
  predicate NothingLost(entries: Entries, validKeys: seq<string>, prefix: string) {
    forall i | 0 <= i < |entries| && entries[i].value.Obj? ::
      var nested, path := entries[i].value.entries, FullKey(prefix, entries[i].key);
      if path == "" && !HasValidChild(validKeys, path) then Filtered(LeafKeys(nested, path), validKeys) == []
      else NothingLost(nested, validKeys, path)
  }

  lemma NothingLostCons(entries: Entries, validKeys: seq<string>, prefix: string)
    requires entries != []
    ensures NothingLost(entries, validKeys, prefix) <==>
            NothingLost([entries[0]], validKeys, prefix) && NothingLost(entries[1..], validKeys, prefix)
  {
    var first, tail := entries[..1], entries[1..];
    assert first == [entries[0]];
    assert forall i | 1 <= i < |entries| :: entries[i] == tail[i - 1];
    assert forall i | 0 <= i < |tail| :: tail[i] == entries[i + 1];
    assert NothingLost(entries, validKeys, prefix) ==> NothingLost(first, validKeys, prefix);
  }

  lemma SameParts(a: seq<string>, b: seq<string>, c: seq<string>, d: seq<string>)
    requires |a| <= |c| && |b| <= |d|
    ensures a + b == c + d <==> a == c && b == d
  {
    if a + b == c + d {
      assert a == (a + b)[..|a|] && c == (c + d)[..|a|];
      assert b == (a + b)[|a|..] && d == (c + d)[|a|..];
    }
  }

  function LeavesOf(entry: Entry, prefix: string): seq<string> {
    var path := FullKey(prefix, entry.key);
    if entry.value.Obj? then LeafKeys(entry.value.entries, path) else [path]
  }

  /** The leaf paths that cleaning leaves of one entry. */
  function KeptOf(entry: Entry, validKeys: seq<string>, prefix: string): seq<string> {
    var path := FullKey(prefix, entry.key);
    if !entry.value.Obj? then Filtered([path], validKeys)
    else if HasValidChild(validKeys, path) then LeafKeys(Cleaned(entry.value.entries, validKeys, path), path)
    else []
  }

  lemma CleanedCons(entries: Entries, validKeys: seq<string>, prefix: string)
    requires entries != []
    ensures LeafKeys(Cleaned(entries, validKeys, prefix), prefix) ==
            KeptOf(entries[0], validKeys, prefix) + LeafKeys(Cleaned(entries[1..], validKeys, prefix), prefix)
  {
    var path := FullKey(prefix, entries[0].key);
    var rest := Cleaned(entries[1..], validKeys, prefix);
    if entries[0].value.Obj? {
      var kept := Cleaned(entries[0].value.entries, validKeys, path);
      assert ([Entry(entries[0].key, Obj(kept))] + rest)[1..] == rest;
    } else {
      assert ([entries[0]] + rest)[1..] == rest;
      assert Filtered([path], validKeys) == if path in validKeys then [path] else [] by { assert [path][1..] == []; }
      assert [] + LeafKeys(rest, prefix) == LeafKeys(rest, prefix);
    }
  }

  lemma ValidCons(entries: Entries, validKeys: seq<string>, prefix: string)
    requires entries != []
    ensures Filtered(LeafKeys(entries, prefix), validKeys) ==
            Filtered(LeavesOf(entries[0], prefix), validKeys) + Filtered(LeafKeys(entries[1..], prefix), validKeys)
  {
    FilteredConcat(LeavesOf(entries[0], prefix), LeafKeys(entries[1..], prefix), validKeys);
  }

  /**
   Cleaning keeps exactly the leaves whose path is a valid key, in order -- although whole
   subtrees are pruned by a string prefix alone, and keys may contain dots -- if and only if
   nothing is lost under the empty path.
   */
  lemma {:induction false} CleanKeepsValidLeavesIff(entries: Entries, validKeys: seq<string>, prefix: string)
    ensures LeafKeys(Cleaned(entries, validKeys, prefix), prefix) == Filtered(LeafKeys(entries, prefix), validKeys) <==>
            NothingLost(entries, validKeys, prefix)
    ensures |LeafKeys(Cleaned(entries, validKeys, prefix), prefix)| <= |Filtered(LeafKeys(entries, prefix), validKeys)|
    decreases entries
  {
    if entries != [] {
      CleanKeepsValidLeavesIff(entries[1..], validKeys, prefix);
      if entries[0].value.Obj? {
        CleanKeepsValidLeavesIff(entries[0].value.entries, validKeys, FullKey(prefix, entries[0].key));
      }
      KeptOfHead(entries[0], validKeys, prefix);
      NothingLostCons(entries, validKeys, prefix);
      CleanedCons(entries, validKeys, prefix);
      ValidCons(entries, validKeys, prefix);
      SameParts(KeptOf(entries[0], validKeys, prefix), LeafKeys(Cleaned(entries[1..], validKeys, prefix), prefix),
                Filtered(LeavesOf(entries[0], prefix), validKeys), Filtered(LeafKeys(entries[1..], prefix), validKeys));
    }
  }

  lemma KeptOfHead(entry: Entry, validKeys: seq<string>, prefix: string)
    requires entry.value.Obj? ==>
               var nested, path := entry.value.entries, FullKey(prefix, entry.key);
               && (LeafKeys(Cleaned(nested, validKeys, path), path) == Filtered(LeafKeys(nested, path), validKeys) <==>
                   NothingLost(nested, validKeys, path))
               && |LeafKeys(Cleaned(nested, validKeys, path), path)| <= |Filtered(LeafKeys(nested, path), validKeys)|
    ensures KeptOf(entry, validKeys, prefix) == Filtered(LeavesOf(entry, prefix), validKeys) <==>
            NothingLost([entry], validKeys, prefix)
    ensures |KeptOf(entry, validKeys, prefix)| <= |Filtered(LeavesOf(entry, prefix), validKeys)|
  {
    var path := FullKey(prefix, entry.key);
    assert [entry][0] == entry;
    if entry.value.Obj? && path != "" && !HasValidChild(validKeys, path) {
      PrunedHasNoValidLeaf(entry.value.entries, validKeys, path);
    }
  }

  /** No path is empty: at top level no object sits under the empty name (deeper down it may). */
  predicate Addressable(entries: Entries, prefix: string) {
    prefix != "" || forall i | 0 <= i < |entries| && entries[i].value.Obj? :: entries[i].key != ""
  }

  lemma {:induction false} AddressableLosesNothing(entries: Entries, validKeys: seq<string>, prefix: string)
    requires Addressable(entries, prefix)
    ensures NothingLost(entries, validKeys, prefix)
  {
    forall i | 0 <= i < |entries| && entries[i].value.Obj?
      ensures NothingLost(entries[i].value.entries, validKeys, FullKey(prefix, entries[i].key))
    {
      AddressableLosesNothing(entries[i].value.entries, validKeys, FullKey(prefix, entries[i].key));
    }
  }

  /** With non-empty names the law holds whatever the valid keys are. */
  lemma CleanKeepsValidLeaves(entries: Entries, validKeys: seq<string>, prefix: string)
    requires Addressable(entries, prefix)
    ensures LeafKeys(Cleaned(entries, validKeys, prefix), prefix) == Filtered(LeafKeys(entries, prefix), validKeys)
  {
    CleanKeepsValidLeavesIff(entries, validKeys, prefix);
    AddressableLosesNothing(entries, validKeys, prefix);
  }

  /** Under an empty top-level name every valid leaf is lost, unless some valid key starts with a dot. */
  lemma EmptyNameLosesValidLeaves(nested: Entries, validKeys: seq<string>)
    requires !HasValidChild(validKeys, "") && Filtered(LeafKeys(nested, ""), validKeys) != []
    ensures Cleaned([Entry("", Obj(nested))], validKeys, "") == []
    ensures !NothingLost([Entry("", Obj(nested))], validKeys, "")
  {
    var entries := [Entry("", Obj(nested))];
    assert entries[1..] == [] && entries[0].value.entries == nested;
  }

  predicate AllValid(keys: seq<string>, validKeys: seq<string>) {
    forall i | 0 <= i < |keys| :: keys[i] in validKeys
  }

  lemma AllValidConcat(a: seq<string>, b: seq<string>, validKeys: seq<string>)
    ensures AllValid(a + b, validKeys) <==> AllValid(a, validKeys) && AllValid(b, validKeys)
  {
    assert forall i | 0 <= i < |a| :: (a + b)[i] == a[i];
    assert forall i | 0 <= i < |b| :: (a + b)[|a| + i] == b[i];
  }

  lemma {:induction false} SomeLeaf(entries: Entries, prefix: string)
    requires NoEmpty(entries) && entries != []
    ensures LeafKeys(entries, prefix) != []
    decreases entries
  {
    if entries[0].value.Obj? {
      SomeLeaf(entries[0].value.entries, FullKey(prefix, entries[0].key));
    }
  }

  /** No object is pruned for sitting under the empty path. */
  predicate Rooted(entries: Entries, validKeys: seq<string>, prefix: string) {
    forall i | 0 <= i < |entries| && entries[i].value.Obj? ::
      var path := FullKey(prefix, entries[i].key);
      (path == "" ==> HasValidChild(validKeys, path)) && Rooted(entries[i].value.entries, validKeys, path)
  }

  lemma ConsCases(entries: Entries, validKeys: seq<string>, prefix: string)
    requires entries != []
    ensures NoEmpty(entries) <==> NoEmpty([entries[0]]) && NoEmpty(entries[1..])
    ensures Rooted(entries, validKeys, prefix) <==> Rooted([entries[0]], validKeys, prefix) && Rooted(entries[1..], validKeys, prefix)
  {
    var first, tail := entries[..1], entries[1..];
    assert first == [entries[0]];
    assert forall i | 1 <= i < |entries| :: entries[i] == tail[i - 1];
    assert forall i | 0 <= i < |tail| :: tail[i] == entries[i + 1];
    assert NoEmpty(entries) ==> NoEmpty(first);
    assert Rooted(entries, validKeys, prefix) ==> Rooted(first, validKeys, prefix);
  }

  /** Cleaning changes nothing if and only if every leaf is valid, no object is empty, and none is lost under the empty path. */
  lemma {:induction false} CleanIsIdentityIff(entries: Entries, validKeys: seq<string>, prefix: string)
    ensures Cleaned(entries, validKeys, prefix) == entries <==>
            NoEmpty(entries) && AllValid(LeafKeys(entries, prefix), validKeys) && Rooted(entries, validKeys, prefix)
    ensures |Cleaned(entries, validKeys, prefix)| <= |entries|
    decreases entries
  {
    if entries != [] {
      var path := FullKey(prefix, entries[0].key);
      var cleaned, rest := Cleaned(entries, validKeys, prefix), Cleaned(entries[1..], validKeys, prefix);
      CleanIsIdentityIff(entries[1..], validKeys, prefix);
      assert cleaned == entries <==> |cleaned| == |rest| + 1 && cleaned[0] == entries[0] && rest == entries[1..] by {
        assert entries == [entries[0]] + entries[1..];
        assert |cleaned| == |rest| + 1 ==> cleaned[1..] == rest;
      }
      ConsCases(entries, validKeys, prefix);
      if entries[0].value.Obj? {
        var nested := entries[0].value.entries;
        CleanIsIdentityIff(nested, validKeys, path);
        AllValidConcat(LeafKeys(nested, path), LeafKeys(entries[1..], prefix), validKeys);
        if path != "" && nested != [] && NoEmpty(nested) && AllValid(LeafKeys(nested, path), validKeys) {
          SomeLeaf(nested, path);
          LeafKeysExtendPrefix(nested, path);
          assert LeafKeys(nested, path)[0] in validKeys;
          assert HasValidChild(validKeys, path);
        }
      } else {
        AllValidConcat([path], LeafKeys(entries[1..], prefix), validKeys);
        assert [path][0] == path;
      }
    }
  }

  /** What is left is left for good: valid leaves, no empty object, nothing under a lost empty path. */
  lemma {:induction false} CleanedIsClean(entries: Entries, validKeys: seq<string>, prefix: string)
    ensures var out := Cleaned(entries, validKeys, prefix);
            NoEmpty(out) && AllValid(LeafKeys(out, prefix), validKeys) && Rooted(out, validKeys, prefix)
    decreases entries
  {
    if entries != [] {
      var path := FullKey(prefix, entries[0].key);
      var rest := Cleaned(entries[1..], validKeys, prefix);
      CleanedIsClean(entries[1..], validKeys, prefix);
      var head := entries[0];
      if entries[0].value.Obj? {
        CleanedIsClean(entries[0].value.entries, validKeys, path);
        head := Entry(entries[0].key, Obj(Cleaned(entries[0].value.entries, validKeys, path)));
      }
      var longer := [head] + rest;
      assert longer[1..] == rest;
      ConsCases(longer, validKeys, prefix);
      AllValidConcat(if head.value.Obj? then LeafKeys(head.value.entries, path) else [path], LeafKeys(rest, prefix), validKeys);
    }
  }

  lemma {:induction false} CleanIsIdempotent(entries: Entries, validKeys: seq<string>, prefix: string)
    ensures Cleaned(Cleaned(entries, validKeys, prefix), validKeys, prefix) == Cleaned(entries, validKeys, prefix)
  {
    CleanedIsClean(entries, validKeys, prefix);
    CleanIsIdentityIff(Cleaned(entries, validKeys, prefix), validKeys, prefix);
  }

  // ------------------------------------------------------ cleaning after merging

  /** The file has no object where the reference has a leaf. */
  ghost predicate LeavesFit(en: Entries, lang: Tree) {
    forall i | 0 <= i < |en| ::
      if en[i].value.Obj? then LeavesFit(en[i].value.entries, OrEmpty(Child(lang, en[i].key)))
      else !OrElse(Child(lang, en[i].key), Null).Obj?
  }

  /** What the merge does at the head of the reference, leaves fitting. */
  lemma MergeHead(en: Entries, lang: Tree, wip: Tree)
    requires en != [] && LeavesFit(en, lang) && LeavesFit(en, wip) && WipMerge(en, lang, wip).Some?
    ensures LeavesFit(en[1..], lang) && LeavesFit(en[1..], wip) && WipMerge(en[1..], lang, wip).Some?
    ensures var key, value := en[0].key, en[0].value;
            var out, rest := WipMerge(en, lang, wip).value, WipMerge(en[1..], lang, wip).value;
            && out == [out[0]] + rest && out[0].key == key && (out[0].value.Obj? <==> value.Obj?)
            && (value.Obj? ==>
                  && LeavesFit(value.entries, OrEmpty(Child(lang, key))) && LeavesFit(value.entries, OrEmpty(Child(wip, key)))
                  && WipMerge(value.entries, OrEmpty(Child(lang, key)), OrEmpty(Child(wip, key))) == Some(out[0].value.entries))
  {
    assert forall i | 0 <= i < |en[1..]| :: en[1..][i] == en[i + 1];
    assert LeavesFit(en[1..], lang) && LeavesFit(en[1..], wip);
  }

  /** Same leaf paths, same empty objects, same objects under the empty path. */
  ghost predicate SameLeafPaths(en: Entries, out: Entries, validKeys: seq<string>, prefix: string) {
    && LeafKeys(out, prefix) == LeafKeys(en, prefix)
    && |out| == |en|
    && (NoEmpty(en) <==> NoEmpty(out))
    && (Rooted(en, validKeys, prefix) <==> Rooted(out, validKeys, prefix))
  }

  lemma SameLeafPathsCons(head: Entry, en: Entries, outHead: Entry, out: Entries, validKeys: seq<string>, prefix: string)
    requires SameLeafPaths(en, out, validKeys, prefix)
    requires outHead.key == head.key && (outHead.value.Obj? <==> head.value.Obj?)
    requires head.value.Obj? ==>
               SameLeafPaths(head.value.entries, outHead.value.entries, validKeys, FullKey(prefix, head.key))
    ensures SameLeafPaths([head] + en, [outHead] + out, validKeys, prefix)
  {
    var longEn, longOut := [head] + en, [outHead] + out;
    assert longEn[1..] == en && longOut[1..] == out;
    ConsCases(longEn, validKeys, prefix);
    ConsCases(longOut, validKeys, prefix);
  }

  lemma {:induction false} MergeKeepsLeafPaths(en: Entries, lang: Tree, wip: Tree, validKeys: seq<string>, prefix: string)
    requires LeavesFit(en, lang) && LeavesFit(en, wip) && WipMerge(en, lang, wip).Some?
    ensures SameLeafPaths(en, WipMerge(en, lang, wip).value, validKeys, prefix)
    decreases en
  {
    if en != [] {
      var key, value := en[0].key, en[0].value;
      MergeHead(en, lang, wip);
      MergeKeepsLeafPaths(en[1..], lang, wip, validKeys, prefix);
      if value.Obj? {
        MergeKeepsLeafPaths(value.entries, OrEmpty(Child(lang, key)), OrEmpty(Child(wip, key)), validKeys, FullKey(prefix, key));
      }
      SameLeafPathsCons(en[0], en[1..], WipMerge(en, lang, wip).value[0], WipMerge(en[1..], lang, wip).value, validKeys, prefix);
      assert [en[0]] + en[1..] == en;
    }
  }

  /**
   The merged file is already clean -- cleaning it with the reference's keys changes
   nothing -- if and only if the reference has no empty object and none lost under the
   empty path.
   */
  lemma MergedFileIsCleanIff(en: Entries, lang: Tree, wip: Tree)
    requires LeavesFit(en, lang) && LeavesFit(en, wip) && WipMerge(en, lang, wip).Some?
    ensures var out := WipMerge(en, lang, wip).value;
            Cleaned(out, LeafKeys(en, ""), "") == out <==> NoEmpty(en) && Rooted(en, LeafKeys(en, ""), "")
  {
    var out := WipMerge(en, lang, wip).value;
    MergeKeepsLeafPaths(en, lang, wip, LeafKeys(en, ""), "");
    CleanIsIdentityIff(out, LeafKeys(en, ""), "");
  }
}
