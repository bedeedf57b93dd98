/**
 The contents of the `simpleSettings` file (electron/simple-store.ts) and the consent
 map that electron/plugin-node-consent-store.ts keeps under one of its keys.
 Values are parsed JSON; the text itself is not modelled.
 */
module StoreFormat {
  import opened Wrappers
  import opened Decimals

  datatype Json =
    | Null
    | Bool(b: bool)
    | Num(n: int)
    | Str(s: string)
    | Arr(items: seq<Json>)
    | Obj(fields: map<string, Json>)

  /** What is on disk: no file at all, or one JSON value of any kind. */
  type File = Option<Json>

  datatype Consent = Consent(name: string, version: string, grantedAt: int)
  type Consents = map<string, Consent>

  const CONSENT_KEY := "pluginNodeExecutionConsent"
  const SYNC_FOLDER_KEY := "syncFolderPath"
  const NODE_EXECUTION_CONSENT_STORE_VERSION := 1

  /** The own properties of an array: its elements under their indices. */
  function Indexed(items: seq<Json>): (m: map<string, Json>)
    ensures forall key | key in m :: |key| > 0 && IsDigit(key[0])
  {
    if items == [] then map[]
    else Indexed(items[..|items| - 1])[ToDecimal(|items| - 1) := items[|items| - 1]]
  }

  /** What `{...prevData}` copies. */
  function Spread(file: File): map<string, Json> {
    match file
    case None => map[]
    case Some(Obj(fields)) => fields
    case Some(Arr(items)) => Indexed(items)
    case Some(Str(s)) => Indexed(seq(|s|, i requires 0 <= i < |s| => Str([s[i]])))
    case _ => map[]
  }

  /** The file a save leaves; a save whose own read failed starts from `{}`. */
  function AfterSave(file: File, key: string, data: Json, readOk: bool): Json {
    Obj((if readOk then Spread(file) else map[])[key := data])
  }

  /** `all[key]` for the two keys above; on a file holding `null` the access throws (see callers). */
  function Field(file: File, key: string): Option<Json> {
    if file.Some? && file.value.Obj? && key in file.value.fields then Some(file.value.fields[key]) else None
  }

  function ParseEntry(entry: Json): Option<Consent> {
    match entry
    case Obj(f) =>
      if && "name" in f && f["name"].Str? && "version" in f && f["version"].Str?
         && "grantedAt" in f && f["grantedAt"].Num?
      then Some(Consent(f["name"].s, f["version"].s, f["grantedAt"].n))
      else None
    case _ => None
  }

  function ParseEntries(entries: map<string, Json>): Consents {
    map id | id in entries && ParseEntry(entries[id]).Some? :: ParseEntry(entries[id]).value
  }

  /** The consent map in the raw value under the consent key; anything not understood is empty. */
  function ParseBlob(raw: Option<Json>): Consents {
    match raw
    case Some(Obj(f)) =>
      if "version" in f && f["version"] == Num(NODE_EXECUTION_CONSENT_STORE_VERSION) && "consents" in f then
        match f["consents"]
        case Obj(entries) => ParseEntries(entries)
        case Arr(items) => ParseEntries(Indexed(items))
        case _ => map[]
      else map[]
    case _ => map[]
  }

  function EntryJson(c: Consent): Json {
    Obj(map["name" := Str(c.name), "version" := Str(c.version), "grantedAt" := Num(c.grantedAt)])
  }

  /** What `mutate` hands to `saveSimpleStore`. */
  function BlobJson(consents: Consents): Json {
    Obj(map["version" := Num(NODE_EXECUTION_CONSENT_STORE_VERSION),
            "consents" := Obj(map id | id in consents :: EntryJson(consents[id]))])
  }

  function ConsentsIn(file: File): Consents {
    ParseBlob(Field(file, CONSENT_KEY))
  }

  /** A configured folder is a non-empty string. */
  function FolderOf(value: Option<Json>): Option<string> {
    match value
    case Some(Str(s)) => if |s| > 0 then Some(s) else None
    case _ => None
  }

  /** The folder that `_loadSyncFolderFromDisk` finds. */
  function FolderIn(file: File): Option<string> {
    FolderOf(Field(file, SYNC_FOLDER_KEY))
  }

  /** The stored value is an object with exactly these: a string `name`, a string `version`, a number `grantedAt`. */
  predicate IsEntryOf(entry: Json, c: Consent) {
    && entry.Obj? && {"name", "version", "grantedAt"} <= entry.fields.Keys
    && entry.fields["name"] == Str(c.name)
    && entry.fields["version"] == Str(c.version)
    && entry.fields["grantedAt"] == Num(c.grantedAt)
  }

  lemma ParseEntryIff(entry: Json, c: Consent)
    ensures ParseEntry(entry) == Some(c) <==> IsEntryOf(entry, c)
  {
  }

  /**
   `loadBlob`'s loop over the persisted entries: an id is in the result with a consent if and
   only if its entry has that consent's name, version and time, each of the right type;
   anything else is dropped.
   */
  method ReadEntries(entries: map<string, Json>) returns (consents: Consents)
    ensures forall id, c :: (id in consents && consents[id] == c) <==> (id in entries && IsEntryOf(entries[id], c))
    ensures consents == ParseEntries(entries)
  {
    consents := map[];
    var todo := entries.Keys;
    while todo != {}
      invariant todo <= entries.Keys
      invariant forall id :: id in consents <==> id in entries && id !in todo && ParseEntry(entries[id]).Some?
      invariant forall id | id in consents :: consents[id] == ParseEntry(entries[id]).value
      decreases |todo|
    {
      var id :| id in todo;
      todo := todo - {id};
      var entry := ParseEntry(entries[id]);
      if entry.None? {
        continue;
      }
      consents := consents[id := entry.value];
    }
    forall id, c
      ensures (id in consents && consents[id] == c) <==> (id in entries && IsEntryOf(entries[id], c))
    {
      if id in entries {
        ParseEntryIff(entries[id], c);
      }
    }
  }

  /** The entries of a blob of the format this version understands; arrays count, under their indices. */
  function BlobEntries(blob: Json): Option<map<string, Json>> {
    if blob.Obj? && {"version", "consents"} <= blob.fields.Keys && blob.fields["version"] == Num(1) then
      match blob.fields["consents"]
      case Obj(entries) => Some(entries)
      case Arr(items) => Some(Indexed(items))
      case _ => None
    else None
  }

  /**
   What the store says about an id, from the JSON alone: the file is an object, the blob
   under the consent key has version 1, and in its entries the id has a well-formed one.
   Any other version, and anything else that is not understood, is no consent.
   */
  lemma ConsentsInIff(file: File, id: string, c: Consent)
    ensures (id in ConsentsIn(file) && ConsentsIn(file)[id] == c) <==>
            && file.Some? && file.value.Obj? && "pluginNodeExecutionConsent" in file.value.fields
            && var entries := BlobEntries(file.value.fields["pluginNodeExecutionConsent"]);
               entries.Some? && id in entries.value && IsEntryOf(entries.value[id], c)
  {
    if file.Some? && file.value.Obj? && CONSENT_KEY in file.value.fields {
      var entries := BlobEntries(file.value.fields[CONSENT_KEY]);
      if entries.Some? && id in entries.value {
        ParseEntryIff(entries.value[id], c);
      }
    }
  }

  lemma {:induction false} IndexedAt(items: seq<Json>, i: nat)
    requires i < |items|
    ensures ToDecimal(i) in Indexed(items) && Indexed(items)[ToDecimal(i)] == items[i]
  {
    var n := |items| - 1;
    if i < n {
      IndexedAt(items[..n], i);
      if ToDecimal(i) == ToDecimal(n) {
        ToDecimalInjective(i, n);
      }
    }
  }

  lemma {:induction false} IndexOf(items: seq<Json>, key: string) returns (i: nat)
    requires key in Indexed(items)
    ensures i < |items| && key == ToDecimal(i)
  {
    i := |items| - 1;
    if key != ToDecimal(i) {
      i := IndexOf(items[..i], key);
    }
  }

  /** The own properties of an array are its elements, each under its decimal index. */
  lemma IndexedIff(items: seq<Json>, key: string, value: Json)
    ensures (key in Indexed(items) && Indexed(items)[key] == value) <==>
            exists i :: 0 <= i < |items| && key == ToDecimal(i) && items[i] == value
  {
    if key in Indexed(items) {
      var i := IndexOf(items, key);
      IndexedAt(items, i);
    }
    if i :| 0 <= i < |items| && key == ToDecimal(i) && items[i] == value {
      IndexedAt(items, i);
    }
  }

  /** What a save copies of the file: an object's fields, an array's elements, a string's characters, and nothing of the rest. */
  lemma SpreadIff(file: File, key: string, value: Json)
    ensures (key in Spread(file) && Spread(file)[key] == value) <==>
            match file
            case Some(Obj(fields)) => key in fields && fields[key] == value
            case Some(Arr(items)) => exists i :: 0 <= i < |items| && key == ToDecimal(i) && items[i] == value
            case Some(Str(s)) => exists i :: 0 <= i < |s| && key == ToDecimal(i) && value == Str([s[i]])
            case _ => false
  {
    match file
    case Some(Arr(items)) => IndexedIff(items, key, value);
    case Some(Str(s)) =>
      var chars := seq(|s|, i requires 0 <= i < |s| => Str([s[i]]));
      IndexedIff(chars, key, value);
      assert forall i | 0 <= i < |s| :: chars[i] == Str([s[i]]);
      assert Spread(file) == Indexed(chars);
    case _ =>
  }

  /** The configured folder is the string under its key, if the file is an object and the string not empty. */
  lemma FolderInIff(file: File, folder: string)
    ensures FolderIn(file) == Some(folder) <==>
            folder != "" && file.Some? && file.value.Obj? && "syncFolderPath" in file.value.fields
            && file.value.fields["syncFolderPath"] == Str(folder)
  {
  }

  /** `loadBlob` reads back exactly the map that `mutate` wrote, whatever the ids and texts. */
  lemma BlobRoundTrip(consents: Consents)
    ensures ParseBlob(Some(BlobJson(consents))) == consents
  {
    var entries := map id | id in consents :: EntryJson(consents[id]);
    forall id | id in consents
      ensures id in entries && ParseEntry(entries[id]) == Some(consents[id])
    {
      assert entries[id] == EntryJson(consents[id]);
    }
    assert ParseEntries(entries) == consents;
    var f := BlobJson(consents).fields;
    assert f["version"] == Num(1) && f["consents"] == Obj(entries);
  }

  /** After a save that could read, its own key holds its data and every other key what it held. */
  lemma SaveChangesOneKey(file: File, key: string, data: Json, other: string)
    requires other in {CONSENT_KEY, SYNC_FOLDER_KEY}
    ensures var after := Some(AfterSave(file, key, data, true));
            Field(after, other) == if other == key then Some(data) else Field(file, other)
  {
    assert !IsDigit(CONSENT_KEY[0]) && !IsDigit(SYNC_FOLDER_KEY[0]);
  }

  /**
   A save leaves every other stored key alone if and only if it could read the file, or
   there was nothing else to lose: a read error other than "no such file" is taken for an
   empty store, and the save then writes its own key alone.
   */
  lemma SaveKeepsOtherKeysIff(file: File, key: string, data: Json, readOk: bool)
    ensures (forall other | other in Spread(file) && other != key ::
               var after := AfterSave(file, key, data, readOk).fields;
               other in after && after[other] == Spread(file)[other])
            <==> readOk || Spread(file).Keys <= {key}
  {
    if !readOk && !(Spread(file).Keys <= {key}) {
      var other :| other in Spread(file).Keys && other !in {key};
      assert other !in AfterSave(file, key, data, readOk).fields;
    }
  }
}
