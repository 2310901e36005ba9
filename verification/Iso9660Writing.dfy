/** Directories as ECMA-119 lays them out (section 9.1), and the reader of `Iso9660` against them. */
module Iso9660Writing {
  import opened Outcomes
  import opened Words
  import opened DiscMedia
  import opened Iso9660

  /** A name that fits into a record. */
  type Identifier = n: seq<u8> | 1 <= |n| <= 221 witness [0]

  /** What a directory is to hold. */
  datatype Item = Item(name: Identifier, isDirectory: bool, lba: u32, size: u32)

  function LittleEndian(x: u32): (b: seq<u8>)
    ensures |b| == 4
  {
    [x % 0x100, x / 0x100 % 0x100, x / 0x1_0000 % 0x100, x / 0x100_0000]
  }

  function BigEndian(x: u32): (b: seq<u8>)
    ensures |b| == 4
  {
    [x / 0x100_0000, x / 0x1_0000 % 0x100, x / 0x100 % 0x100, x % 0x100]
  }

  function Zeros(n: nat): (b: seq<u8>)
    ensures |b| == n
  {
    seq(n, _ => 0)
  }

  /** Identifiers of the directory itself and of its parent. */
  predicate IsSpecial(item: Item) {
    |item.name| == 1 && item.name[0] <= 1
  }

  function RecordLength(item: Item): nat {
    33 + |item.name| + if |item.name| % 2 == 0 then 1 else 0
  }

  function BothEndian(x: u32): (b: seq<u8>)
    ensures |b| == 8
  {
    LittleEndian(x) + BigEndian(x)
  }

  /** A date, the flags, and what else stands before the identifier. */
  function Tail(item: Item): (b: seq<u8>)
    ensures |b| == 15 && b[7] == (if item.isDirectory then 2 else 0) && b[14] == |item.name|
  {
    Zeros(7) + [if item.isDirectory then 2 else 0, 0, 0, 1, 0, 0, 1, |item.name|]
  }

  /** Location and size in both byte orders, the tail, the identifier, and a byte to make the length even. */
  function Encoded(item: Item): (b: seq<u8>)
    ensures |b| == RecordLength(item) <= 254
  {
    [RecordLength(item), 0] + BothEndian(item.lba) + BothEndian(item.size) + Tail(item) + item.name
    + Zeros(if |item.name| % 2 == 0 then 1 else 0)
  }

  /** The directory from offset `used` on: no record crosses a sector, and the last sector is filled up. */
  function Directory(items: seq<Item>, used: nat): seq<u8>
    decreases |items|, if used % SECTOR == 0 then 0 else 1
  {
    if items == [] then Zeros(if used % SECTOR == 0 then 0 else SECTOR - used % SECTOR)
    else if used % SECTOR + RecordLength(items[0]) > SECTOR then
      Zeros(SECTOR - used % SECTOR) + Directory(items, NextSector(used))
    else Encoded(items[0]) + Directory(items[1..], used + RecordLength(items[0]))
  }

  /** An item as a reader is to see it: its name without version and trailing dot. */
  function EntryOf(item: Item, parent: seq<u8>): FileEntry {
    var name := NormalizeName(item.name);
    FileEntry(name, FullPath(parent, name), item.isDirectory, item.lba, item.size)
  }

  /** What a reader is to see: every item but the special ones, in order. */
  function Visible(items: seq<Item>, parent: seq<u8>): seq<FileEntry> {
    if items == [] then []
    else (if IsSpecial(items[0]) then [] else [EntryOf(items[0], parent)]) + Visible(items[1..], parent)
  }

  /** Items a volume may hold: with a name that is more than a version, and within the track. */
  predicate Proper(s: Source, item: Item) {
    IsSpecial(item) || (NormalizeName(item.name) != [] && BoundedExtent(s, item.lba, item.size))
  }

  lemma {:induction false} UntilStops(before: seq<u8>, c: u8, after: seq<u8>)
    requires c !in before
    ensures Until(before + [c] + after, c) == |before|
    decreases |before|
  {
    if before != [] {
      assert (before + [c] + after)[1..] == before[1..] + [c] + after;
      UntilStops(before[1..], c, after);
    }
  }

  /** A version, and a dot before it, are no part of the name: "BOOT.BIN;1" is read as "BOOT.BIN", "README.;1" as "README". */
  lemma VersionIsDropped(name: seq<u8>, version: seq<u8>)
    requires SEMICOLON !in name
    ensures NormalizeName(name + [SEMICOLON] + version) == if name != [] && name[|name| - 1] == DOT then name[..|name| - 1] else name
  {
    UntilStops(name, SEMICOLON, version);
    assert (name + [SEMICOLON] + version)[..|name|] == name;
  }

  lemma BytesOfWord(x: u32)
    ensures x == x % 0x100 + x / 0x100 % 0x100 * 0x100 + x / 0x1_0000 % 0x100 * 0x1_0000 + x / 0x100_0000 * 0x100_0000
  {
    var y := x / 0x100;
    var z := y / 0x100;
    assert x / 0x1_0000 == z && x / 0x100_0000 == z / 0x100;
  }

  lemma WordsSurvive(x: u32, b: seq<u8>, at: nat)
    requires at + 4 <= |b| && b[at..at + 4] == LittleEndian(x)
    ensures Le32(b, at) == x
  {
    BytesOfWord(x);
    var w := LittleEndian(x);
    assert b[at] == w[0] && b[at + 1] == w[1] && b[at + 2] == w[2] && b[at + 3] == w[3];
  }

  /** Where the fields of a record stand. */
  lemma FieldsOf(item: Item)
    ensures var b := Encoded(item);
      && b[0] == RecordLength(item) && b[2..6] == LittleEndian(item.lba) && b[10..14] == LittleEndian(item.size)
      && b[25] == (if item.isDirectory then 2 else 0) && b[32] == |item.name| && b[33..33 + |item.name|] == item.name
  {
    BothOrders(item.lba);
    BothOrders(item.size);
    hide BothEndian, Tail, Zeros, LittleEndian, BigEndian;
    var start, lba, size, tail := [RecordLength(item), 0], BothEndian(item.lba), BothEndian(item.size), Tail(item);
    PartsStand(start, lba, size, tail, item.name, Zeros(if |item.name| % 2 == 0 then 1 else 0));
    var b := Encoded(item);
    assert b[2..6] == b[2..10][..4] && b[10..14] == b[10..18][..4];
    assert b[25] == b[18..33][7] && b[32] == b[18..33][14];
  }

  lemma BothOrders(x: u32)
    ensures BothEndian(x)[..4] == LittleEndian(x)
  {
    hide LittleEndian, BigEndian;
  }

  lemma PartsStand(start: seq<u8>, lba: seq<u8>, size: seq<u8>, tail: seq<u8>, name: seq<u8>, pad: seq<u8>)
    requires |start| == 2 && |lba| == |size| == 8 && |tail| == 15
    ensures var b := start + lba + size + tail + name + pad;
      b[0] == start[0] && b[2..10] == lba && b[10..18] == size && b[18..33] == tail && b[33..33 + |name|] == name
  {
    var b := start + lba + size + tail + name + pad;
    assert b[33..33 + |name|] == name;
    assert b == start + lba + size + tail + (name + pad);
    assert b == start + lba + size + (tail + (name + pad));
    assert b == start + lba + (size + (tail + (name + pad)));
    assert b == start + (lba + (size + (tail + (name + pad))));
  }

  lemma SliceOfSlice(b: seq<u8>, at: nat, n: nat, from: nat, to: nat)
    requires at + n <= |b| && from <= to <= n
    ensures b[at..at + n][from..to] == b[at + from..at + to]
  {
    var inner, outer := b[at..at + n][from..to], b[at + from..at + to];
    assert |inner| == |outer| && forall i :: 0 <= i < |inner| ==> inner[i] == outer[i];
  }

  /** The fields of a record, wherever it stands. */
  ghost predicate RecordStands(item: Item, bytes: seq<u8>, at: nat) {
    && at + RecordLength(item) <= |bytes| && at % SECTOR + RecordLength(item) <= SECTOR
    && bytes[at] == RecordLength(item) && Le32(bytes, at + 2) == item.lba && Le32(bytes, at + 10) == item.size
    && bytes[at + 25] == (if item.isDirectory then 2 else 0)
    && bytes[at + 32] == |item.name| && bytes[at + 33..at + 33 + |item.name|] == item.name
  }

  lemma EncodedStands(item: Item, bytes: seq<u8>, at: nat)
    requires at + RecordLength(item) <= |bytes| && at % SECTOR + RecordLength(item) <= SECTOR
    requires bytes[at..at + RecordLength(item)] == Encoded(item)
    ensures RecordStands(item, bytes, at)
  {
    var b, n := Encoded(item), RecordLength(item);
    FieldsOf(item);
    assert bytes[at] == b[0] && bytes[at + 25] == b[25] && bytes[at + 32] == b[32];
    SliceOfSlice(bytes, at, n, 2, 6);
    SliceOfSlice(bytes, at, n, 10, 14);
    SliceOfSlice(bytes, at, n, 33, 33 + |item.name|);
    hide Encoded, LittleEndian, Le32;
    WordsSurvive(item.lba, bytes, at + 2);
    WordsSurvive(item.size, bytes, at + 10);
  }

  /** What the reader makes of one record, wherever it stands within a sector. */
  lemma RecordIsRead(s: Source, item: Item, bytes: seq<u8>, at: nat, parent: seq<u8>)
    requires RecordStands(item, bytes, at)
    ensures RecordAt(s, bytes, at, parent) ==
      if !Proper(s, item) then Malformed
      else if IsSpecial(item) then Special(RecordLength(item))
      else Named(RecordLength(item), EntryOf(item, parent))
  {
    hide NormalizeName, BoundedExtent, FullPath, Le32;
    assert bytes[at + 33] == bytes[at + 33..at + 33 + |item.name|][0];
  }

  lemma NextSectorFrom(used: nat)
    ensures NextSector(used) == used + (SECTOR - used % SECTOR)
  {
  }

  ghost predicate AllProper(s: Source, items: seq<Item>) {
    forall i :: 0 <= i < |items| ==> Proper(s, items[i])
  }

  /** What reading a directory is to give: all of its items, or nothing when one of them is not proper. */
  ghost function Expected(s: Source, items: seq<Item>, parent: seq<u8>): Option<seq<FileEntry>> {
    if AllProper(s, items) then Some(Visible(items, parent)) else None
  }

  /** A directory is read exactly when every item is proper, and then gives exactly the items written, in order, under
      their names, without the special ones. */
  lemma {:induction false} DirectoryIsRead(s: Source, items: seq<Item>, before: seq<u8>, parent: seq<u8>)
    ensures Entries(s, before + Directory(items, |before|), |before|, parent) == Expected(s, items, parent)
    decreases |items|, if |before| % SECTOR == 0 then 1 else 2
  {
    hide RecordAt, Proper, NextSector, IsSpecial, EntryOf, Encoded, RecordLength;
    var used := |before|;
    var bytes := before + Directory(items, used);
    NextSectorFrom(used);
    if items == [] {
      if used % SECTOR != 0 {
        PaddingIsSkipped(s, bytes, used, parent, SECTOR - used % SECTOR);
      }
    } else if used % SECTOR + RecordLength(items[0]) > SECTOR {
      RecordIsShort(items[0]);
      var gap := Zeros(SECTOR - used % SECTOR);
      assert bytes == (before + gap) + Directory(items, |before + gap|);
      DirectoryIsRead(s, items, before + gap, parent);
      PaddingIsSkipped(s, bytes, used, parent, |gap|);
    } else {
      OneMoreRecord(s, items, before, parent);
    }
  }

  lemma RecordIsShort(item: Item)
    ensures 0 < RecordLength(item) <= SECTOR
  {
  }

  lemma PaddingIsSkipped(s: Source, bytes: seq<u8>, used: nat, parent: seq<u8>, gap: nat)
    requires used < |bytes| && bytes[used] == 0 && gap == SECTOR - used % SECTOR && used + gap <= |bytes|
    ensures Entries(s, bytes, used, parent) == Entries(s, bytes, used + gap, parent)
  {
    NextSectorFrom(used);
    assert RecordAt(s, bytes, used, parent) == Padding;
  }

  lemma FirstRecordStands(items: seq<Item>, before: seq<u8>)
    requires items != [] && |before| % SECTOR + RecordLength(items[0]) <= SECTOR
    ensures var next := before + Encoded(items[0]);
      var bytes := before + Directory(items, |before|);
      && bytes == next + Directory(items[1..], |next|) && |next| == |before| + RecordLength(items[0]) <= |bytes|
      && bytes[|before|..|next|] == Encoded(items[0])
  {
    hide *;
    DirectoryBegins(items, |before|);
    Regroup(before, Encoded(items[0]), Directory(items[1..], |before| + RecordLength(items[0])));
  }

  lemma DirectoryBegins(items: seq<Item>, used: nat)
    requires items != [] && used % SECTOR + RecordLength(items[0]) <= SECTOR
    ensures Directory(items, used) == Encoded(items[0]) + Directory(items[1..], used + RecordLength(items[0]))
    ensures |Encoded(items[0])| == RecordLength(items[0])
  {
    hide Encoded, RecordLength;
  }

  lemma Regroup(a: seq<u8>, b: seq<u8>, c: seq<u8>)
    ensures a + (b + c) == (a + b) + c && (a + (b + c))[|a|..|a + b|] == b
  {
  }

  /** The reader at a record. */
  lemma EntriesAtRecord(s: Source, items: seq<Item>, bytes: seq<u8>, at: nat, parent: seq<u8>)
    requires items != [] && at < |bytes|
    requires var item := items[0];
      RecordAt(s, bytes, at, parent) ==
        if !Proper(s, item) then Malformed
        else if IsSpecial(item) then Special(RecordLength(item))
        else Named(RecordLength(item), EntryOf(item, parent))
    requires Entries(s, bytes, at + RecordLength(items[0]), parent) == Expected(s, items[1..], parent)
    ensures Entries(s, bytes, at, parent) == Expected(s, items, parent)
  {
    hide RecordAt, EntryOf, IsSpecial, RecordLength, Proper;
    ProperFromFirst(s, items);
    hide AllProper;
    assert [] + Visible(items[1..], parent) == Visible(items[1..], parent);
  }

  lemma ProperFromFirst(s: Source, items: seq<Item>)
    requires items != []
    ensures AllProper(s, items) <==> Proper(s, items[0]) && AllProper(s, items[1..])
  {
    hide Proper;
    var rest := items[1..];
    forall i | 0 < i < |items| ensures items[i] == rest[i - 1] {
    }
    if Proper(s, items[0]) && AllProper(s, rest) {
      forall i | 0 <= i < |items| ensures Proper(s, items[i]) {
        if i > 0 {
          assert items[i] == rest[i - 1];
        }
      }
    }
  }

  lemma OneMoreRecord(s: Source, items: seq<Item>, before: seq<u8>, parent: seq<u8>)
    requires items != [] && |before| % SECTOR + RecordLength(items[0]) <= SECTOR
    ensures Entries(s, before + Directory(items, |before|), |before|, parent) == Expected(s, items, parent)
    decreases |items|, 0
  {
    hide *;
    RecordIsShort(items[0]);
    var bytes, next := before + Directory(items, |before|), before + Encoded(items[0]);
    FirstRecordStands(items, before);
    EncodedStands(items[0], bytes, |before|);
    RecordIsRead(s, items[0], bytes, |before|, parent);
    DirectoryIsRead(s, items[1..], next, parent);
    EntriesAtRecord(s, items, bytes, |before|, parent);
  }
}
