/**
 The translation-file tools: tools/add-missing-i18n-variables.js (legacy merge, extract,
 merge, validate, count) and tools/clean-translations.js (list and prune keys).

 An object is its entries in enumeration order.  `None` as a result means that the
 script throws a TypeError: `in` on a truthy primitive, or `Object.keys(null)`.
 Each script function is a method with the loop it has, proved equal to a recursive
 function; the laws between the tools are proved about those functions.
 */
module Translations {
  import opened Wrappers

  datatype Tree =
    | Null
    | Bool(b: bool)
    | Num(n: int)
    | Str(s: string)
    | Arr(items: seq<Tree>)
    | Obj(entries: Entries)

  datatype Entry = Entry(key: string, value: Tree)
  type Entries = seq<Entry>

  predicate Truthy(t: Tree) {
    match t
    case Null => false
    case Bool(b) => b
    case Num(n) => n != 0
    case Str(s) => s != ""
    case _ => true
  }

  /** The value under `key`, or `None` for undefined. */
  function Lookup(entries: Entries, key: string): Option<Tree> {
    if entries == [] then None
    else if entries[0].key == key then Some(entries[0].value)
    else Lookup(entries[1..], key)
  }

  /** `obj?.[key]`. */
  function Child(t: Tree, key: string): Option<Tree> {
    if t.Obj? then Lookup(t.entries, key) else None
  }

  /** `value || {}`. */
  function OrEmpty(value: Option<Tree>): Tree {
    if value.Some? && Truthy(value.value) then value.value else Obj([])
  }

  /** `obj && key in obj`; `None` if `in` throws. */
  function Has(t: Tree, key: string): Option<bool> {
    if !Truthy(t) then Some(false)
    else if t.Obj? then Some(Lookup(t.entries, key).Some?)
    else if t.Arr? then Some(false)
    else None
  }

  predicate HasKey(entries: Entries, key: string) {
    exists i :: 0 <= i < |entries| && entries[i].key == key
  }

  /** No object holds a key twice -- true of every JavaScript object. */
  predicate Unique(entries: Entries) {
    && (forall i, j | 0 <= i < j < |entries| :: entries[i].key != entries[j].key)
    && forall i | 0 <= i < |entries| && entries[i].value.Obj? :: Unique(entries[i].value.entries)
  }

  /** No `null` among the values of the reference file. */
  predicate NoNull(entries: Entries) {
    forall i | 0 <= i < |entries| ::
      !entries[i].value.Null? && (entries[i].value.Obj? ==> NoNull(entries[i].value.entries))
  }

  /** Every nested object holds something. */
  predicate NoEmpty(entries: Entries) {
    forall i | 0 <= i < |entries| && entries[i].value.Obj? ::
      entries[i].value.entries != [] && NoEmpty(entries[i].value.entries)
  }

  // --------------------------------------------------------- what the tools compute

  /** Puts an entry in front of a result, unless the result is a throw. */
  function Prepend(entry: Entry, rest: Option<Entries>): Option<Entries> {
    if rest.Some? then Some([entry] + rest.value) else None
  }

  /** Puts finished entries in front of what the remaining ones give. */
  function Onto(finished: Entries, rest: Option<Entries>): Option<Entries> {
    if rest.Some? then Some(finished + rest.value) else None
  }

  lemma OntoNothing(rest: Option<Entries>)
    ensures Onto([], rest) == rest
  {
    assert rest.Some? ==> [] + rest.value == rest.value;
  }

  lemma OntoPrepend(finished: Entries, entry: Entry, rest: Option<Entries>)
    ensures Onto(finished, Prepend(entry, rest)) == Onto(finished + [entry], rest)
  {
    assert rest.Some? ==> finished + ([entry] + rest.value) == finished + [entry] + rest.value;
  }

  /** The legacy mode: existing translation, else the English text. */
  function LegacyMerge(en: Entries, lang: Tree): Option<Entries> {
    if en == [] then Some([])
    else
      var key, value := en[0].key, en[0].value;
      var rest := LegacyMerge(en[1..], lang);
      if value.Obj? then
        var nested := LegacyMerge(value.entries, OrEmpty(Child(lang, key)));
        if nested.None? then None else Prepend(Entry(key, Obj(nested.value)), rest)
      else
        match Has(lang, key)
        case None => None
        case Some(true) => Prepend(Entry(key, OrElse(Child(lang, key), value)), rest)
        case Some(false) => Prepend(en[0], rest)
  }

  function OrElse(value: Option<Tree>, default: Tree): Tree {
    if value.Some? then value.value else default
  }

  /** The extract mode: reference entries that the language lacks, without empty objects. */
  function Missing(en: Entries, lang: Tree): Option<Entries> {
    if en == [] then Some([])
    else
      var key, value := en[0].key, en[0].value;
      var rest := Missing(en[1..], lang);
      if value.Null? then None
      else if value.Obj? then
        var nested := Missing(value.entries, OrEmpty(Child(lang, key)));
        if nested.None? then None
        else if nested.value != [] then Prepend(Entry(key, Obj(nested.value)), rest)
        else rest
      else
        match Has(lang, key)
        case None => None
        case Some(true) => rest
        case Some(false) => Prepend(en[0], rest)
  }

  /** The merge mode: work in progress before existing translation before English. */
  function WipMerge(en: Entries, lang: Tree, wip: Tree): Option<Entries> {
    if en == [] then Some([])
    else
      var key, value := en[0].key, en[0].value;
      var rest := WipMerge(en[1..], lang, wip);
      if value.Null? then None
      else if value.Obj? then
        var nested := WipMerge(value.entries, OrEmpty(Child(lang, key)), OrEmpty(Child(wip, key)));
        if nested.None? then None else Prepend(Entry(key, Obj(nested.value)), rest)
      else if Has(wip, key).None? then None
      else if Has(wip, key).value then Prepend(Entry(key, OrElse(Child(wip, key), value)), rest)
      else if Has(lang, key).None? then None
      else if Has(lang, key).value then Prepend(Entry(key, OrElse(Child(lang, key), value)), rest)
      else Prepend(en[0], rest)
  }

  function FullKey(prefix: string, key: string): string {
    if prefix != "" then prefix + "." + key else key
  }

  function Concat(a: Option<seq<string>>, b: Option<seq<string>>): Option<seq<string>> {
    if a.Some? && b.Some? then Some(a.value + b.value) else None
  }

  lemma ConcatAssociative(a: seq<string>, b: seq<string>, c: Option<seq<string>>)
    ensures Concat(Some(a), Concat(Some(b), c)) == Concat(Some(a + b), c)
    ensures Concat(Some([]), c) == c
  {
    assert c.Some? ==> a + (b + c.value) == a + b + c.value && [] + c.value == c.value;
  }

  /** The validation after a merge: dotted paths of reference leaves that the language lacks. */
  function MissingPaths(en: Entries, lang: Option<Tree>, prefix: string): Option<seq<string>> {
    if en == [] then Some([])
    else
      var key, value := en[0].key, en[0].value;
      var path := FullKey(prefix, key);
      var rest := MissingPaths(en[1..], lang, prefix);
      if value.Null? then None
      else if value.Obj? then
        var child := if lang.Some? then Child(lang.value, key) else None;
        Concat(MissingPaths(value.entries, child, path), rest)
      else
        match Has(OrEmpty(lang), key)
        case None => None
        case Some(true) => rest
        case Some(false) => Concat(Some([path]), rest)
  }

  function LeafCount(entries: Entries): Option<nat> {
    if entries == [] then Some(0)
    else
      var rest := LeafCount(entries[1..]);
      if entries[0].value.Null? then None
      else if entries[0].value.Obj? then
        var nested := LeafCount(entries[0].value.entries);
        if nested.Some? && rest.Some? then Some(nested.value + rest.value) else None
      else if rest.Some? then Some(1 + rest.value) else None
  }

  /** `getAllKeys`: dotted paths of all leaves, in order. */
  function LeafKeys(entries: Entries, prefix: string): seq<string> {
    if entries == [] then []
    else
      var path := FullKey(prefix, entries[0].key);
      (if entries[0].value.Obj? then LeafKeys(entries[0].value.entries, path) else [path]) + LeafKeys(entries[1..], prefix)
  }

  predicate HasValidChild(validKeys: seq<string>, path: string) {
    exists i :: 0 <= i < |validKeys| && path + "." <= validKeys[i]
  }

  /** `cleanObject`: drops leaves that are not valid keys, and subtrees by string prefix. */
  function Cleaned(entries: Entries, validKeys: seq<string>, prefix: string): Entries {
    if entries == [] then []
    else
      var path := FullKey(prefix, entries[0].key);
      var rest := Cleaned(entries[1..], validKeys, prefix);
      if entries[0].value.Obj? then
        var nested := Cleaned(entries[0].value.entries, validKeys, path);
        if HasValidChild(validKeys, path) && nested != [] then [Entry(entries[0].key, Obj(nested))] + rest else rest
      else if path in validKeys then [entries[0]] + rest
      else rest
  }

  // ------------------------------------------------------------ the script functions

  method MergeInOrder(en: Entries, lang: Tree) returns (result: Option<Entries>)
    ensures result == LegacyMerge(en, lang)
    decreases en
  {
    var merged: Entries := [];
    OntoNothing(LegacyMerge(en, lang));
    assert en[0..] == en;
    for i := 0 to |en|
      invariant LegacyMerge(en, lang) == Onto(merged, LegacyMerge(en[i..], lang))
    {
      var key, value := en[i].key, en[i].value;
      assert en[i..][1..] == en[i + 1..];
      if value.Obj? {
        var nested := MergeInOrder(value.entries, OrEmpty(Child(lang, key)));
        if nested.None? {
          return None;
        }
        var entry := Entry(key, Obj(nested.value));
        OntoPrepend(merged, entry, LegacyMerge(en[i + 1..], lang));
        merged := merged + [entry];
      } else {
        var has := Has(lang, key);
        if has.None? {
          return None;
        }
        var entry := if has.value then Entry(key, OrElse(Child(lang, key), value)) else en[i];
        OntoPrepend(merged, entry, LegacyMerge(en[i + 1..], lang));
        merged := merged + [entry];
      }
    }
    assert en[|en|..] == [] && merged + [] == merged;
    result := Some(merged);
  }

  method ExtractMissingKeys(en: Entries, lang: Tree) returns (result: Option<Entries>)
    ensures result == Missing(en, lang)
    decreases en
  {
    var missing: Entries := [];
    OntoNothing(Missing(en, lang));
    assert en[0..] == en;
    for i := 0 to |en|
      invariant Missing(en, lang) == Onto(missing, Missing(en[i..], lang))
    {
      var key, value := en[i].key, en[i].value;
      assert en[i..][1..] == en[i + 1..];
      if value.Null? {
        return None;
      } else if value.Obj? {
        var nested := ExtractMissingKeys(value.entries, OrEmpty(Child(lang, key)));
        if nested.None? {
          return None;
        }
        if nested.value != [] {
          var entry := Entry(key, Obj(nested.value));
          OntoPrepend(missing, entry, Missing(en[i + 1..], lang));
          missing := missing + [entry];
        }
      } else {
        var has := Has(lang, key);
        if has.None? {
          return None;
        }
        if !has.value {
          var entry := en[i];
          OntoPrepend(missing, entry, Missing(en[i + 1..], lang));
          missing := missing + [entry];
        }
      }
    }
    assert en[|en|..] == [] && missing + [] == missing;
    result := Some(missing);
  }

  method MergeWipToMain(en: Entries, lang: Tree, wip: Tree) returns (result: Option<Entries>)
    ensures result == WipMerge(en, lang, wip)
    decreases en
  {
    var merged: Entries := [];
    OntoNothing(WipMerge(en, lang, wip));
    assert en[0..] == en;
    for i := 0 to |en|
      invariant WipMerge(en, lang, wip) == Onto(merged, WipMerge(en[i..], lang, wip))
    {
      var key, value := en[i].key, en[i].value;
      assert en[i..][1..] == en[i + 1..];
      if value.Null? {
        return None;
      } else if value.Obj? {
        var nested := MergeWipToMain(value.entries, OrEmpty(Child(lang, key)), OrEmpty(Child(wip, key)));
        if nested.None? {
          return None;
        }
        var entry := Entry(key, Obj(nested.value));
        OntoPrepend(merged, entry, WipMerge(en[i + 1..], lang, wip));
        merged := merged + [entry];
      } else {
        var inWip := Has(wip, key);
        if inWip.None? {
          return None;
        }
        if inWip.value {
          var entry := Entry(key, OrElse(Child(wip, key), value));
          OntoPrepend(merged, entry, WipMerge(en[i + 1..], lang, wip));
          merged := merged + [entry];
        } else {
          var inLang := Has(lang, key);
          if inLang.None? {
            return None;
          }
          var entry := if inLang.value then Entry(key, OrElse(Child(lang, key), value)) else en[i];
          OntoPrepend(merged, entry, WipMerge(en[i + 1..], lang, wip));
          merged := merged + [entry];
        }
      }
    }
    assert en[|en|..] == [] && merged + [] == merged;
    result := Some(merged);
  }

  method ValidateComplete(en: Entries, lang: Option<Tree>, prefix: string) returns (result: Option<seq<string>>)
    ensures result == MissingPaths(en, lang, prefix)
    decreases en
  {
    var missing: seq<string> := [];
    ConcatAssociative([], [], MissingPaths(en, lang, prefix));
    assert en[0..] == en;
    for i := 0 to |en|
      invariant MissingPaths(en, lang, prefix) == Concat(Some(missing), MissingPaths(en[i..], lang, prefix))
    {
      var key, value := en[i].key, en[i].value;
      assert en[i..][1..] == en[i + 1..];
      var path := FullKey(prefix, key);
      if value.Null? {
        return None;
      } else if value.Obj? {
        var nested := ValidateComplete(value.entries, if lang.Some? then Child(lang.value, key) else None, path);
        if nested.None? {
          return None;
        }
        ConcatAssociative(missing, nested.value, MissingPaths(en[i + 1..], lang, prefix));
        missing := missing + nested.value;
      } else {
        var has := Has(OrEmpty(lang), key);
        if has.None? {
          return None;
        }
        if !has.value {
          ConcatAssociative(missing, [path], MissingPaths(en[i + 1..], lang, prefix));
          missing := missing + [path];
        }
      }
    }
    assert en[|en|..] == [] && missing + [] == missing;
    result := Some(missing);
  }

  method CountKeys(entries: Entries) returns (result: Option<nat>)
    ensures result == LeafCount(entries)
    decreases entries
  {
    var count := 0;
    for i := 0 to |entries|
      invariant LeafCount(entries) ==
                match LeafCount(entries[i..]) case Some(rest) => Some(count + rest) case None => None
    {
      assert entries[i..][1..] == entries[i + 1..];
      if entries[i].value.Null? {
        return None;
      } else if entries[i].value.Obj? {
        var nested := CountKeys(entries[i].value.entries);
        if nested.None? {
          return None;
        }
        count := count + nested.value;
      } else {
        count := count + 1;
      }
    }
    assert entries[|entries|..] == [];
    result := Some(count);
  }

  method GetAllKeys(entries: Entries, prefix: string) returns (keys: seq<string>)
    ensures keys == LeafKeys(entries, prefix)
    decreases entries
  {
    keys := [];
    assert entries[0..] == entries;
    for i := 0 to |entries|
      invariant LeafKeys(entries, prefix) == keys + LeafKeys(entries[i..], prefix)
    {
      assert entries[i..][1..] == entries[i + 1..];
      var fullKey := FullKey(prefix, entries[i].key);
      var rest := LeafKeys(entries[i + 1..], prefix);
      if entries[i].value.Obj? {
        var nested := GetAllKeys(entries[i].value.entries, fullKey);
        assert keys + (nested + rest) == keys + nested + rest;
        keys := keys + nested;
      } else {
        assert keys + ([fullKey] + rest) == keys + [fullKey] + rest;
        keys := keys + [fullKey];
      }
    }
    assert entries[|entries|..] == [];
  }

  method CleanObject(entries: Entries, validKeys: seq<string>, prefix: string) returns (cleaned: Entries)
    ensures cleaned == Cleaned(entries, validKeys, prefix)
    decreases entries
  {
    cleaned := [];
    for i := 0 to |entries|
      invariant Cleaned(entries, validKeys, prefix) == cleaned + Cleaned(entries[i..], validKeys, prefix)
    {
      assert entries[i..][1..] == entries[i + 1..];
      var fullKey := FullKey(prefix, entries[i].key);
      if entries[i].value.Obj? {
        if HasValidChild(validKeys, fullKey) {
          var nested := CleanObject(entries[i].value.entries, validKeys, fullKey);
          if nested != [] {
            cleaned := cleaned + [Entry(entries[i].key, Obj(nested))];
          }
        }
      } else if fullKey in validKeys {
        cleaned := cleaned + [entries[i]];
      }
    }
    assert entries[|entries|..] == [];
  }
}
