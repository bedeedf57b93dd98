/** `buildIcns` of tools/generate-mac-icon.js: an icon container written through a moving offset. */
module IcnsWriter {
  import opened Wrappers

  type Byte = b: int | 0 <= b < 256

  datatype IconEntry = IconEntry(osType: seq<Byte>, data: seq<Byte>)

  const HEADER_SIZE := 8
  const ENTRY_HEADER_SIZE := 8
  const UINT32_LIMIT := 0x1_0000_0000

  /** The characters `icns`. */
  const MAGIC: seq<Byte> := [0x69, 0x63, 0x6E, 0x73]

  function BigEndian(n: nat): (bytes: seq<Byte>)
    requires n < UINT32_LIMIT
    ensures |bytes| == 4
  {
    [n / 0x100_0000, n / 0x1_0000 % 0x100, n / 0x100 % 0x100, n % 0x100]
  }

  function FromBigEndian(bytes: seq<Byte>): nat
    requires |bytes| == 4
  {
    (bytes[0] as int) * 0x100_0000 + (bytes[1] as int) * 0x1_0000 + (bytes[2] as int) * 0x100 + (bytes[3] as int)
  }

  lemma BigEndianRoundTrip(n: nat)
    requires n < UINT32_LIMIT
    ensures FromBigEndian(BigEndian(n)) == n
  {
    var high, middle := n / 0x1_0000, n / 0x100;
    assert n == middle * 0x100 + n % 0x100;
    assert middle / 0x100 == high && middle == high * 0x100 + middle % 0x100;
    assert high / 0x100 == n / 0x100_0000 && high == high / 0x100 * 0x100 + high % 0x100;
  }

  /** Four bytes of an OS type: `buffer.write(type, offset, 4)` cuts longer ones, zeros follow shorter ones. */
  function TypeField(osType: seq<Byte>): (field: seq<Byte>)
    ensures |field| == 4
    ensures forall i | 0 <= i < 4 :: field[i] == if i < |osType| then osType[i] else 0
  {
    if |osType| >= 4 then osType[..4] else osType + seq(4 - |osType|, _ => 0)
  }

  function TotalSize(entries: seq<IconEntry>): nat {
    if entries == [] then HEADER_SIZE
    else TotalSize(entries[..|entries| - 1]) + ENTRY_HEADER_SIZE + |entries[|entries| - 1].data|
  }

  function EntryBytes(entry: IconEntry): seq<Byte>
    requires ENTRY_HEADER_SIZE + |entry.data| < UINT32_LIMIT
  {
    TypeField(entry.osType) + BigEndian(ENTRY_HEADER_SIZE + |entry.data|) + entry.data
  }

  /** The entries one after the other, without gaps. */
  function Body(entries: seq<IconEntry>): (bytes: seq<Byte>)
    requires TotalSize(entries) < UINT32_LIMIT
    ensures |bytes| == TotalSize(entries) - HEADER_SIZE
  {
    if entries == [] then []
    else Body(entries[..|entries| - 1]) + EntryBytes(entries[|entries| - 1])
  }

  /** The whole container. */
  function Icns(entries: seq<IconEntry>): (bytes: seq<Byte>)
    requires TotalSize(entries) < UINT32_LIMIT
    ensures |bytes| == TotalSize(entries)
  {
    MAGIC + BigEndian(TotalSize(entries)) + Body(entries)
  }

  // ------------------------------------------------------------- buffer writes

  /** Writes `bytes` at `offset`; everything else stays. */
  method WriteAt(buffer: array<Byte>, bytes: seq<Byte>, offset: nat)
    requires offset + |bytes| <= buffer.Length
    modifies buffer
    ensures buffer[..] == old(buffer[..offset]) + bytes + old(buffer[offset + |bytes|..])
  {
    for i := 0 to |bytes|
      invariant buffer[offset..offset + i] == bytes[..i]
      invariant buffer[..offset] == old(buffer[..offset])
      invariant buffer[offset + i..] == old(buffer[offset + i..])
    {
      buffer[offset + i] := bytes[i];
      assert buffer[offset..offset + i + 1] == buffer[offset..offset + i] + [bytes[i]];
      assert buffer[offset + i + 1..] == buffer[offset + i..][1..];
    }
    assert buffer[..] == buffer[..offset] + buffer[offset..offset + |bytes|] + buffer[offset + |bytes|..];
  }

  /** Up to `offset` the buffer holds `done`, from there on it is still zero. */
  ghost predicate Written(buffer: array<Byte>, done: seq<Byte>, offset: nat)
    reads buffer
  {
    && offset == |done| <= buffer.Length
    && buffer[..offset] == done
    && forall i | offset <= i < buffer.Length :: buffer[i] == 0
  }

  /** Appends a full field. */
  method Append(buffer: array<Byte>, ghost done: seq<Byte>, bytes: seq<Byte>, offset: nat) returns (next: nat)
    requires Written(buffer, done, offset) && offset + |bytes| <= buffer.Length
    modifies buffer
    ensures next == offset + |bytes| && Written(buffer, done + bytes, next)
  {
    ghost var rest := buffer[offset + |bytes|..];
    WriteAt(buffer, bytes, offset);
    next := offset + |bytes|;
    assert buffer[..next] == done + bytes;
    forall i | next <= i < buffer.Length
      ensures buffer[i] == 0
    {
      assert buffer[..][i] == rest[i - next];
    }
  }

  /** `buffer.write(osType, offset, 4, 'ascii')` followed by `offset += 4`. */
  method AppendType(buffer: array<Byte>, ghost done: seq<Byte>, osType: seq<Byte>, offset: nat) returns (next: nat)
    requires Written(buffer, done, offset) && offset + 4 <= buffer.Length
    modifies buffer
    ensures next == offset + 4 && Written(buffer, done + TypeField(osType), next)
  {
    var cut := if |osType| > 4 then osType[..4] else osType;
    var end := Append(buffer, done, cut, offset);
    next := offset + 4;
    assert buffer[..next] == buffer[..end] + buffer[end..next];
    assert buffer[end..next] == seq(4 - |cut|, _ => 0);
    assert done + TypeField(osType) == done + cut + seq(4 - |cut|, _ => 0);
  }

  lemma {:induction false} PrefixSize(entries: seq<IconEntry>, i: nat)
    requires i <= |entries|
    ensures TotalSize(entries[..i]) <= TotalSize(entries)
    ensures i < |entries| ==> TotalSize(entries[..i + 1]) == TotalSize(entries[..i]) + ENTRY_HEADER_SIZE + |entries[i].data|
    ensures i < |entries| ==> TotalSize(entries[..i + 1]) <= TotalSize(entries)
    decreases |entries| - i
  {
    if i < |entries| {
      assert entries[..i + 1][..i] == entries[..i];
      PrefixSize(entries, i + 1);
    } else {
      assert entries[..i] == entries;
    }
  }

  /**
   `buildIcns`.  Not `ok` is the RangeError of `writeUInt32BE` for a size that does not fit
   32 bits; otherwise the buffer is exactly the container, filled to its last byte.
   */
  method BuildIcns(entries: seq<IconEntry>) returns (ok: bool, buffer: array<Byte>)
    ensures ok <==> TotalSize(entries) < UINT32_LIMIT
    ensures ok ==> fresh(buffer) && buffer[..] == Icns(entries)
  {
    var totalSize := HEADER_SIZE;
    for i := 0 to |entries|
      invariant totalSize == TotalSize(entries[..i])
    {
      PrefixSize(entries, i);
      totalSize := totalSize + ENTRY_HEADER_SIZE + |entries[i].data|;
    }
    assert entries[..|entries|] == entries;
    buffer := new Byte[totalSize](_ => 0);
    if totalSize >= UINT32_LIMIT {
      return false, buffer;
    }
    ok := true;
    var offset: nat := 0;
    offset := Append(buffer, [], MAGIC, offset);
    offset := Append(buffer, [] + MAGIC, BigEndian(totalSize), offset);
    ghost var header := MAGIC + BigEndian(totalSize);
    assert [] + MAGIC + BigEndian(totalSize) == header == header + Body([]);
    for i := 0 to |entries|
      invariant TotalSize(entries[..i]) <= totalSize == buffer.Length
      invariant Written(buffer, header + Body(entries[..i]), offset)
    {
      PrefixSize(entries, i);
      BodyStep(entries, i, header);
      offset := AppendEntry(buffer, header + Body(entries[..i]), entries[i], offset);
    }
    assert entries[..|entries|] == entries;
    assert buffer[..] == buffer[..offset];
  }

  lemma BodyStep(entries: seq<IconEntry>, i: nat, header: seq<Byte>)
    requires i < |entries| && TotalSize(entries[..i + 1]) < UINT32_LIMIT
    ensures TotalSize(entries[..i]) < UINT32_LIMIT && ENTRY_HEADER_SIZE + |entries[i].data| < UINT32_LIMIT
    ensures header + Body(entries[..i + 1]) == header + Body(entries[..i]) + EntryBytes(entries[i])
  {
    assert entries[..i + 1][..i] == entries[..i];
  }

  /** One round of the writing loop. */
  method AppendEntry(buffer: array<Byte>, ghost done: seq<Byte>, entry: IconEntry, offset: nat) returns (next: nat)
    requires ENTRY_HEADER_SIZE + |entry.data| < UINT32_LIMIT
    requires Written(buffer, done, offset) && offset + ENTRY_HEADER_SIZE + |entry.data| <= buffer.Length
    modifies buffer
    ensures Written(buffer, done + EntryBytes(entry), next)
  {
    var size := BigEndian(ENTRY_HEADER_SIZE + |entry.data|);
    next := AppendType(buffer, done, entry.osType, offset);
    next := Append(buffer, done + TypeField(entry.osType), size, next);
    next := Append(buffer, done + TypeField(entry.osType) + size, entry.data, next);
    assert done + TypeField(entry.osType) + size + entry.data == done + EntryBytes(entry);
  }

  // -------------------------------------------------------------------- reading

  /** A reader that follows the entry lengths. */
  function ReadEntries(bytes: seq<Byte>): Option<seq<IconEntry>>
    decreases |bytes|
  {
    if bytes == [] then Some([])
    else if |bytes| < ENTRY_HEADER_SIZE then None
    else
      var size := FromBigEndian(bytes[4..8]);
      if size < ENTRY_HEADER_SIZE || size > |bytes| then None
      else
        match ReadEntries(bytes[size..])
        case None => None
        case Some(rest) => Some([IconEntry(bytes[..4], bytes[8..size])] + rest)
  }

  function ReadIcns(bytes: seq<Byte>): Option<seq<IconEntry>> {
    if |bytes| >= HEADER_SIZE && bytes[..4] == MAGIC && FromBigEndian(bytes[4..8]) == |bytes|
    then ReadEntries(bytes[8..]) else None
  }

  /** What a reader sees of an entry. */
  function AsStored(entries: seq<IconEntry>): seq<IconEntry> {
    seq(|entries|, i requires 0 <= i < |entries| => IconEntry(TypeField(entries[i].osType), entries[i].data))
  }

  lemma ReadOneEntry(entry: IconEntry, rest: seq<Byte>)
    requires ENTRY_HEADER_SIZE + |entry.data| < UINT32_LIMIT
    ensures ReadEntries(EntryBytes(entry) + rest) ==
            match ReadEntries(rest)
            case None => None
            case Some(entries) => Some([IconEntry(TypeField(entry.osType), entry.data)] + entries)
  {
    var size := ENTRY_HEADER_SIZE + |entry.data|;
    var bytes := EntryBytes(entry) + rest;
    assert bytes[..4] == TypeField(entry.osType);
    assert bytes[4..8] == BigEndian(size);
    assert bytes[8..size] == entry.data;
    assert bytes[size..] == rest;
    BigEndianRoundTrip(size);
  }

  lemma AsStoredFront(entries: seq<IconEntry>, more: seq<IconEntry>)
    requires entries != []
    ensures var last := entries[|entries| - 1];
            AsStored(entries) + more ==
            AsStored(entries[..|entries| - 1]) + ([IconEntry(TypeField(last.osType), last.data)] + more)
  {
  }

  lemma {:induction false} ReadBody(entries: seq<IconEntry>, more: seq<IconEntry>, tail: seq<Byte>)
    requires TotalSize(entries) < UINT32_LIMIT && ReadEntries(tail) == Some(more)
    ensures ReadEntries(Body(entries) + tail) == Some(AsStored(entries) + more)
    decreases |entries|
  {
    if entries == [] {
      assert Body(entries) + tail == tail && AsStored(entries) + more == more;
    } else {
      var front, last := entries[..|entries| - 1], entries[|entries| - 1];
      ReadOneEntry(last, tail);
      ReadBody(front, [IconEntry(TypeField(last.osType), last.data)] + more, EntryBytes(last) + tail);
      SeqAssociates(Body(front), EntryBytes(last), tail);
      AsStoredFront(entries, more);
    }
  }

  lemma SeqAssociates(a: seq<Byte>, b: seq<Byte>, c: seq<Byte>)
    ensures a + b + c == a + (b + c)
  {
  }

  /** The reader recovers every entry with its type as stored and its data intact. */
  lemma {:induction false} ReadBack(entries: seq<IconEntry>)
    requires TotalSize(entries) < UINT32_LIMIT
    ensures ReadIcns(Icns(entries)) == Some(AsStored(entries))
  {
    var bytes := Icns(entries);
    assert bytes[..4] == MAGIC && bytes[4..8] == BigEndian(TotalSize(entries)) && bytes[8..] == Body(entries);
    BigEndianRoundTrip(TotalSize(entries));
    ReadBody(entries, [], []);
    assert Body(entries) + [] == Body(entries) && AsStored(entries) + [] == AsStored(entries);
  }

  /** The written list itself comes back if and only if every type has exactly four bytes. */
  lemma {:induction false} RoundTripIff(entries: seq<IconEntry>)
    requires TotalSize(entries) < UINT32_LIMIT
    ensures ReadIcns(Icns(entries)) == Some(entries) <==> forall i | 0 <= i < |entries| :: |entries[i].osType| == 4
  {
    ReadBack(entries);
    forall i | 0 <= i < |entries|
      ensures AsStored(entries)[i] == entries[i] <==> |entries[i].osType| == 4
    {
      TypeFieldKeeps(entries[i].osType);
    }
    if forall i | 0 <= i < |entries| :: |entries[i].osType| == 4 {
      assert AsStored(entries) == entries;
    }
  }

  lemma TypeFieldKeeps(osType: seq<Byte>)
    ensures TypeField(osType) == osType <==> |osType| == 4
  {
  }

  // ------------------------------------------------------------------ the layout

  /** Most significant byte first. */
  lemma BigEndianDigits(a: Byte, b: Byte, c: Byte, d: Byte)
    ensures BigEndian((((a as nat) * 0x100 + b as nat) * 0x100 + c as nat) * 0x100 + d as nat) == [a, b, c, d]
  {
    var high: nat := (a as nat) * 0x100 + b as nat;
    var middle: nat := high * 0x100 + c as nat;
    var n: nat := middle * 0x100 + d as nat;
    assert n / 0x100 == middle && n % 0x100 == d;
    assert middle / 0x100 == high && middle % 0x100 == c;
    assert n / 0x1_0000 == high && high / 0x100 == a && high % 0x100 == b;
    assert n / 0x100_0000 == a;
  }

  /** The container starts with the four characters `icns` and its own length. */
  lemma HeaderLayout(entries: seq<IconEntry>)
    requires TotalSize(entries) < UINT32_LIMIT
    ensures Icns(entries)[..4] == ['i' as Byte, 'c' as Byte, 'n' as Byte, 's' as Byte]
    ensures Icns(entries)[4..8] == BigEndian(|Icns(entries)|)
  {
  }

  /** At `start` stands this entry: its type, its own length with the header, its data. */
  predicate EntryAt(bytes: seq<Byte>, start: nat, entry: IconEntry) {
    var size := 8 + |entry.data|;
    && start + size <= |bytes| && size < UINT32_LIMIT
    && bytes[start..start + 4] == TypeField(entry.osType)
    && bytes[start + 4..start + 8] == BigEndian(size)
    && bytes[start + 8..start + size] == entry.data
  }

  lemma EntryAtEnd(before: seq<Byte>, entry: IconEntry)
    requires ENTRY_HEADER_SIZE + |entry.data| < UINT32_LIMIT
    ensures EntryAt(before + EntryBytes(entry), |before|, entry)
  {
    var start, size := |before|, 8 + |entry.data|;
    var bytes := before + EntryBytes(entry);
    assert bytes[start..start + 4] == TypeField(entry.osType);
    assert bytes[start + 4..start + 8] == BigEndian(size);
    assert bytes[start + 8..start + size] == entry.data;
  }

  /** Entry `k` stands right behind the header and the entries before it. */
  lemma {:induction false} EntryLayout(entries: seq<IconEntry>, k: nat)
    requires TotalSize(entries) < UINT32_LIMIT && k < |entries|
    ensures EntryAt(Icns(entries), TotalSize(entries[..k]), entries[k])
  {
    var front, last := entries[..|entries| - 1], entries[|entries| - 1];
    if k < |front| {
      EntryLayout(front, k);
      assert front[..k] == entries[..k];
      TotalSizeAtLeast(entries[..k]);
      SameBehindHeader(Icns(front), Icns(entries), EntryBytes(last), TotalSize(entries[..k]), entries[k]);
    } else {
      assert entries[..k] == front;
      var before := MAGIC + BigEndian(TotalSize(entries)) + Body(front);
      assert Icns(entries) == before + EntryBytes(last);
      EntryAtEnd(before, last);
    }
  }

  lemma {:induction false} TotalSizeAtLeast(entries: seq<IconEntry>)
    ensures TotalSize(entries) >= 8
  {
    if entries != [] {
      TotalSizeAtLeast(entries[..|entries| - 1]);
    }
  }

  lemma SameBehindHeader(shorter: seq<Byte>, longer: seq<Byte>, more: seq<Byte>, start: nat, entry: IconEntry)
    requires 8 <= |shorter| && 8 <= |longer| && longer[8..] == shorter[8..] + more
    requires 8 <= start && EntryAt(shorter, start, entry)
    ensures EntryAt(longer, start, entry)
  {
    var size := 8 + |entry.data|;
    SliceOfLonger(shorter, longer, more, start, start + 4);
    SliceOfLonger(shorter, longer, more, start + 4, start + 8);
    SliceOfLonger(shorter, longer, more, start + 8, start + size);
  }

  lemma SliceOfLonger(shorter: seq<Byte>, longer: seq<Byte>, more: seq<Byte>, i: nat, j: nat)
    requires 8 <= |shorter| && 8 <= |longer| && longer[8..] == shorter[8..] + more
    requires 8 <= i <= j <= |shorter|
    ensures j <= |longer| && longer[i..j] == shorter[i..j]
  {
    assert |longer[8..]| == |shorter[8..]| + |more|;
    forall k | i <= k < j
      ensures longer[k] == shorter[k]
    {
      assert longer[k] == longer[8..][k - 8] == shorter[8..][k - 8];
    }
  }

  // ---------------------------------------------------- only containers are read

  lemma FromBigEndianBounds(bytes: seq<Byte>)
    requires |bytes| == 4
    ensures FromBigEndian(bytes) < UINT32_LIMIT && BigEndian(FromBigEndian(bytes)) == bytes
  {
    BigEndianDigits(bytes[0], bytes[1], bytes[2], bytes[3]);
    assert bytes == [bytes[0], bytes[1], bytes[2], bytes[3]];
    assert FromBigEndian(bytes) ==
           (((bytes[0] as nat) * 0x100 + bytes[1] as nat) * 0x100 + bytes[2] as nat) * 0x100 + bytes[3] as nat;
  }

  lemma {:induction false} TotalSizeCons(entry: IconEntry, rest: seq<IconEntry>)
    ensures TotalSize([entry] + rest) == TotalSize(rest) + 8 + |entry.data|
  {
    if rest == [] {
      assert ([entry] + rest)[..0] == [];
    } else {
      TotalSizeCons(entry, rest[..|rest| - 1]);
      assert ([entry] + rest)[..|rest|] == [entry] + rest[..|rest| - 1];
    }
  }

  lemma {:induction false} BodyCons(entry: IconEntry, rest: seq<IconEntry>)
    requires TotalSize([entry] + rest) < UINT32_LIMIT && TotalSize(rest) < UINT32_LIMIT
    requires ENTRY_HEADER_SIZE + |entry.data| < UINT32_LIMIT
    ensures Body([entry] + rest) == EntryBytes(entry) + Body(rest)
  {
    var all := [entry] + rest;
    if rest == [] {
      assert all[..0] == [];
      assert Body(all) == [] + EntryBytes(entry);
    } else {
      var front, last := rest[..|rest| - 1], rest[|rest| - 1];
      assert all[..|rest|] == [entry] + front && all[|rest|] == last;
      BodyCons(entry, front);
      SeqAssociates(EntryBytes(entry), Body(front), EntryBytes(last));
    }
  }

  lemma OneEntryBack(bytes: seq<Byte>, size: nat)
    requires 8 <= size <= |bytes| && size < UINT32_LIMIT && FromBigEndian(bytes[4..8]) == size
    ensures EntryBytes(IconEntry(bytes[..4], bytes[8..size])) == bytes[..size]
  {
    FromBigEndianBounds(bytes[4..8]);
    assert TypeField(bytes[..4]) == bytes[..4];
    assert bytes[..size] == bytes[..4] + bytes[4..8] + bytes[8..size];
  }

  /** The bytes are those of the entries, and as many as they need. */
  ghost predicate WritesBack(entries: seq<IconEntry>, bytes: seq<Byte>) {
    TotalSize(entries) == |bytes| + 8 < UINT32_LIMIT && Body(entries) == bytes
  }

  lemma WritesBackCons(entry: IconEntry, rest: seq<IconEntry>, head: seq<Byte>, tail: seq<Byte>)
    requires WritesBack(rest, tail) && |head| + |tail| + 8 < UINT32_LIMIT
    requires |head| == 8 + |entry.data| && EntryBytes(entry) == head
    ensures WritesBack([entry] + rest, head + tail)
  {
    TotalSizeCons(entry, rest);
    BodyCons(entry, rest);
  }

  lemma {:induction false} ReadEntriesWritesBack(bytes: seq<Byte>)
    requires |bytes| + 8 < UINT32_LIMIT && ReadEntries(bytes).Some?
    ensures WritesBack(ReadEntries(bytes).value, bytes)
    decreases |bytes|
  {
    if bytes != [] {
      var size := FromBigEndian(bytes[4..8]);
      var head, tail := bytes[..size], bytes[size..];
      ReadEntriesWritesBack(tail);
      OneEntryBack(bytes, size);
      WritesBackCons(IconEntry(bytes[..4], bytes[8..size]), ReadEntries(tail).value, head, tail);
      assert head + tail == bytes;
    }
  }

  /** Whatever the reader accepts is the container of what it read: header, lengths and all. */
  lemma ReadMeansWritten(bytes: seq<Byte>)
    requires ReadIcns(bytes).Some?
    ensures TotalSize(ReadIcns(bytes).value) == |bytes| < UINT32_LIMIT && Icns(ReadIcns(bytes).value) == bytes
  {
    FromBigEndianBounds(bytes[4..8]);
    ReadEntriesWritesBack(bytes[8..]);
    assert bytes == bytes[..4] + bytes[4..8] + bytes[8..];
  }
}
