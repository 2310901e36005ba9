/** Directories of an ISO 9660 volume (core/iso9660.cpp; directory records of section 9.1 of ECMA-119).

    The reader walks untrusted bytes: it always ends, and whatever it returns lies inside the data track. On a
    well-formed directory it returns exactly the entries that were written. */
module Iso9660 {
  import opened Outcomes
  import opened Words
  import opened DiscMedia

  datatype FileEntry = FileEntry(name: seq<u8>, path: seq<u8>, isDirectory: bool, lba: u32, size: u32)

  const SLASH: u8 := 0x2F
  const SEMICOLON: u8 := 0x3B
  const DOT: u8 := 0x2E

  function Le32(b: seq<u8>, at: nat): u32
    requires at + 4 <= |b|
  {
    b[at] as int + b[at + 1] as int * 0x100 + b[at + 2] as int * 0x1_0000 + b[at + 3] as int * 0x100_0000
  }

  // ----- Extents -----

  function SectorsOf(bytes: u32): nat {
    (bytes + SECTOR - 1) / SECTOR
  }

  predicate BoundedExtent(s: Source, lba: u32, bytes: u32) {
    if bytes == 0 then lba <= s.count else lba < s.count && SectorsOf(bytes) <= s.count - lba
  }

  /** An extent is bounded exactly when its sectors, as many as its bytes need, end within the track. */
  lemma BoundedExtentIsExact(s: Source, lba: u32, bytes: u32, sectors: nat)
    requires (sectors == 0 || (sectors - 1) * SECTOR < bytes) && bytes <= sectors * SECTOR
    ensures BoundedExtent(s, lba, bytes) <==> lba + sectors <= s.count
  {
    if bytes > 0 {
      RemainderIs(bytes + SECTOR - 1, SECTOR, sectors, bytes + SECTOR - 1 - sectors * SECTOR);
    }
  }

  /** The bytes of an extent, if all of it can be read. */
  ghost function ExtentBytes(file: seq<u8>, s: Source, lba: u32, bytes: u32): (r: Option<seq<u8>>)
    ensures r.Some? ==> |r.value| == bytes
  {
    if !BoundedExtent(s, lba, bytes) then None
    else if bytes == 0 then Some([])
    else if !Within(file, s, lba, SectorsOf(bytes)) then None
    else
      EnoughSectors(bytes);
      Some(Sectors(file, s, lba, SectorsOf(bytes))[..bytes])
  }

  lemma EnoughSectors(bytes: u32)
    ensures bytes <= SectorsOf(bytes) * SECTOR && SectorsOf(bytes) <= bytes
  {
  }

  lemma BoundedExtentIsReadable(file: seq<u8>, s: Source, lba: u32, bytes: u32)
    requires Sound(file, s)
    ensures ExtentBytes(file, s, lba, bytes).Some? <==> BoundedExtent(s, lba, bytes)
  {
    hide Sound, Within, SectorsOf;
    if BoundedExtent(s, lba, bytes) && bytes > 0 {
      SoundIsWithin(file, s, lba, SectorsOf(bytes));
    }
  }

  /** Exactly the bytes of a bounded extent; on a sound source that the system delivers nothing else can go wrong. */
  method ReadExtent(file: seq<u8>, readable: bool, s: Source, lba: u32, bytes: u32) returns (r: Result<seq<u8>>)
    ensures r.Success? ==> Some(r.value) == ExtentBytes(file, s, lba, bytes)
    ensures !BoundedExtent(s, lba, bytes) ==> r == Failure(InvalidInstallation)
    ensures readable && Sound(file, s) && BoundedExtent(s, lba, bytes) ==> r.Success?
  {
    hide Sound, Within, Sectors, LayoutOk, MakeCandidate;
    if !BoundedExtent(s, lba, bytes) {
      return Failure(InvalidInstallation);
    }
    if bytes == 0 {
      return Success([]);
    }
    EnoughSectors(bytes);
    var sectors := SectorsOf(bytes);
    hide SectorsOf;
    var data := ReadLogicalSectors(file, readable, s, lba, sectors);
    if data.Failure? {
      return Failure(data.error);
    }
    r := Success(data.value[..bytes]);
  }

  // ----- Names -----

  function Until(name: seq<u8>, c: u8): (i: nat)
    ensures i <= |name| && c !in name[..i] && (i < |name| ==> name[i] == c)
  {
    if name == [] || name[0] == c then 0 else
      var i := Until(name[1..], c) + 1;
      assert name[..i] == [name[0]] + name[1..][..i - 1];
      i
  }

  /** The version after ";" and a trailing dot are dropped. */
  function NormalizeName(name: seq<u8>): (r: seq<u8>)
    ensures SEMICOLON !in r && r <= name
  {
    var n := name[..Until(name, SEMICOLON)];
    if n != [] && n[|n| - 1] == DOT then n[..|n| - 1] else n
  }

  function FullPath(parent: seq<u8>, name: seq<u8>): seq<u8> {
    if parent == [] || parent == [SLASH] then [SLASH] + name else parent + [SLASH] + name
  }

  // ----- Directory records -----

  /** What stands at the cursor. */
  datatype Record = Padding | Malformed | Special(length: u8) | Named(length: u8, entry: FileEntry)

  predicate RecordFits(bytes: seq<u8>, cursor: nat)
    requires cursor < |bytes|
  {
    var n: int := bytes[cursor];
    n >= 34 && cursor + n <= |bytes| && cursor % SECTOR + n <= SECTOR
  }

  function RecordAt(s: Source, bytes: seq<u8>, cursor: nat, parent: seq<u8>): (r: Record)
    requires cursor < |bytes|
    ensures r.Named? ==> r.entry.name != [] && r.entry.path == FullPath(parent, r.entry.name) && BoundedExtent(s, r.entry.lba, r.entry.size)
    ensures r.Special? || r.Named? ==> r.length >= 34 && cursor + r.length <= |bytes|
  {
    var length := bytes[cursor];
    if length == 0 then Padding
    else if !RecordFits(bytes, cursor) then Malformed
    else
      var nameLength: int := bytes[cursor + 32];
      if nameLength == 0 || 33 + nameLength > length then Malformed
      else if nameLength == 1 && bytes[cursor + 33] <= 1 then Special(length)
      else
        var name := NormalizeName(bytes[cursor + 33..cursor + 33 + nameLength]);
        var lba, size := Le32(bytes, cursor + 2), Le32(bytes, cursor + 10);
        if name == [] || !BoundedExtent(s, lba, size) then Malformed
        else Named(length, FileEntry(name, FullPath(parent, name), bytes[cursor + 25] / 2 % 2 == 1, lba, size))
  }

  function NextSector(cursor: nat): (next: nat)
    ensures next > cursor && next % SECTOR == 0
  {
    (cursor / SECTOR + 1) * SECTOR
  }

  /** The entries from the cursor on. */
  function Entries(s: Source, bytes: seq<u8>, cursor: nat, parent: seq<u8>): (r: Option<seq<FileEntry>>)
    decreases |bytes| - cursor
  {
    if cursor >= |bytes| then Some([])
    else
      match RecordAt(s, bytes, cursor, parent)
      case Padding => Entries(s, bytes, if NextSector(cursor) <= |bytes| then NextSector(cursor) else |bytes|, parent)
      case Malformed => None
      case Special(length) => Entries(s, bytes, cursor + length, parent)
      case Named(length, entry) =>
        (match Entries(s, bytes, cursor + length, parent)
         case Some(rest) => Some([entry] + rest)
         case None => None)
  }

  function Prepended(before: seq<FileEntry>, rest: Option<seq<FileEntry>>): Option<seq<FileEntry>> {
    if rest.Some? then Some(before + rest.value) else None
  }

  /** Whatever the bytes are: every entry has a name and lies within the data track. */
  lemma {:induction false} EntriesAreInBounds(s: Source, bytes: seq<u8>, cursor: nat, parent: seq<u8>, i: nat)
    requires Entries(s, bytes, cursor, parent).Some? && i < |Entries(s, bytes, cursor, parent).value|
    ensures var e := Entries(s, bytes, cursor, parent).value[i];
      e.name != [] && e.path == FullPath(parent, e.name) && BoundedExtent(s, e.lba, e.size)
    decreases |bytes| - cursor
  {
    hide BoundedExtent, RecordAt, NextSector, FullPath;
    match RecordAt(s, bytes, cursor, parent) {
      case Padding => EntriesAreInBounds(s, bytes, if NextSector(cursor) <= |bytes| then NextSector(cursor) else |bytes|, parent, i);
      case Malformed =>
      case Special(length) => EntriesAreInBounds(s, bytes, cursor + length, parent, i);
      case Named(length, entry) =>
        if i > 0 {
          EntriesAreInBounds(s, bytes, cursor + length, parent, i - 1);
        }
    }
  }

  /** What a directory holds, if its extent can be read and is well formed. */
  ghost function DirectoryAt(file: seq<u8>, s: Source, lba: u32, size: u32, parent: seq<u8>): Option<seq<FileEntry>> {
    match ExtentBytes(file, s, lba, size)
    case Some(bytes) => Entries(s, bytes, 0, parent)
    case None => None
  }

  /** A directory read is the directory on the disc; on a sound source that the system delivers it is read whenever there
      is one. */
  method ParseDirectory(file: seq<u8>, readable: bool, s: Source, lba: u32, size: u32, parent: seq<u8>) returns (r: Result<seq<FileEntry>>)
    ensures r.Success? ==> DirectoryAt(file, s, lba, size, parent) == Some(r.value) && AllBounded(s, r.value)
    ensures readable && Sound(file, s) ==>
      r == match DirectoryAt(file, s, lba, size, parent) case Some(entries) => Success(entries) case None => Failure(InvalidInstallation)
  {
    hide Sound, ExtentBytes, BoundedExtent, Entries;
    if readable && Sound(file, s) {
      BoundedExtentIsReadable(file, s, lba, size);
    }
    var data := ReadExtent(file, readable, s, lba, size);
    if data.Failure? {
      return Failure(data.error);
    }
    r := ParseRecords(s, data.value, parent);
  }

  /** The record at the cursor, checked in the order the reader checks it. */
  method ReadRecord(s: Source, bytes: seq<u8>, cursor: nat, parent: seq<u8>) returns (record: Record)
    requires cursor < |bytes|
    ensures record == RecordAt(s, bytes, cursor, parent)
  {
    hide BoundedExtent, NormalizeName, Le32, FullPath;
    var length: int := bytes[cursor];
    if length == 0 {
      return Padding;
    }
    if length < 34 || cursor + length > |bytes| || cursor % SECTOR + length > SECTOR {
      return Malformed;
    }
    var nameLength: int := bytes[cursor + 32];
    if nameLength == 0 || 33 + nameLength > length {
      return Malformed;
    }
    if nameLength == 1 && (bytes[cursor + 33] == 0 || bytes[cursor + 33] == 1) {
      return Special(length);
    }
    var name := NormalizeName(bytes[cursor + 33..cursor + 33 + nameLength]);
    if name == [] {
      return Malformed;
    }
    var extent, size := Le32(bytes, cursor + 2), Le32(bytes, cursor + 10);
    if !BoundedExtent(s, extent, size) {
      return Malformed;
    }
    return Named(length, FileEntry(name, FullPath(parent, name), bytes[cursor + 25] / 2 % 2 == 1, extent, size));
  }

  lemma NothingBefore(rest: Option<seq<FileEntry>>)
    ensures Prepended([], rest) == rest
  {
    if rest.Some? {
      assert [] + rest.value == rest.value;
    }
  }

  lemma EntriesStep(s: Source, bytes: seq<u8>, cursor: nat, parent: seq<u8>, before: seq<FileEntry>)
    ensures cursor >= |bytes| ==> Prepended(before, Entries(s, bytes, cursor, parent)) == Some(before)
    ensures cursor < |bytes| ==>
      Prepended(before, Entries(s, bytes, cursor, parent)) ==
        match RecordAt(s, bytes, cursor, parent)
        case Padding => Prepended(before, Entries(s, bytes, if NextSector(cursor) <= |bytes| then NextSector(cursor) else |bytes|, parent))
        case Malformed => None
        case Special(length) => Prepended(before, Entries(s, bytes, cursor + length, parent))
        case Named(length, entry) => Prepended(before + [entry], Entries(s, bytes, cursor + length, parent))
  {
    hide RecordAt, NextSector;
    assert before + [] == before;
    if cursor < |bytes| && RecordAt(s, bytes, cursor, parent).Named? {
      var (length, entry) := (RecordAt(s, bytes, cursor, parent).length, RecordAt(s, bytes, cursor, parent).entry);
      var rest := Entries(s, bytes, cursor + length, parent);
      if rest.Some? {
        assert before + ([entry] + rest.value) == before + [entry] + rest.value;
      }
    }
  }

  ghost predicate AllBounded(s: Source, entries: seq<FileEntry>) {
    forall i {:trigger entries[i]} :: 0 <= i < |entries| ==> BoundedExtent(s, entries[i].lba, entries[i].size)
  }

  /** The cursor loop. */
  method ParseRecords(s: Source, bytes: seq<u8>, parent: seq<u8>) returns (r: Result<seq<FileEntry>>)
    ensures r == match Entries(s, bytes, 0, parent) case Some(entries) => Success(entries) case None => Failure(InvalidInstallation)
    ensures r.Success? ==> AllBounded(s, r.value)
  {
    hide BoundedExtent, RecordAt, Prepended, Entries;
    var entries: seq<FileEntry> := [];
    var cursor := 0;
    NothingBefore(Entries(s, bytes, 0, parent));
    while cursor < |bytes|
      invariant cursor <= |bytes| && AllBounded(s, entries)
      invariant Entries(s, bytes, 0, parent) == Prepended(entries, Entries(s, bytes, cursor, parent))
      decreases |bytes| - cursor
    {
      EntriesStep(s, bytes, cursor, parent, entries);
      var record := ReadRecord(s, bytes, cursor, parent);
      if record.Padding? {
        cursor := if NextSector(cursor) <= |bytes| then NextSector(cursor) else |bytes|;
        continue;
      }
      if record.Malformed? {
        return Failure(InvalidInstallation);
      }
      if record.Named? {
        entries := entries + [record.entry];
      }
      cursor := cursor + record.length;
    }
    EntriesStep(s, bytes, cursor, parent, entries);
    r := Success(entries);
  }

  // ----- Paths -----

  const DOTS: seq<u8> := [DOT, DOT]

  /** The components of a virtual path, without empty ones and "."; none at all when one of them is "..". */
  function Parts(path: seq<u8>): Option<seq<seq<u8>>> {
    if path == [] then Some([])
    else
      var end := Until(path, SLASH);
      var part := path[..end];
      var rest := if end == |path| then Some([]) else Parts(path[end + 1..]);
      if part == DOTS || rest.None? then None
      else if part == [] || part == [DOT] then rest
      else Some([part] + rest.value)
  }

  predicate IsPlain(part: seq<u8>) {
    part != [] && SLASH !in part && part != [DOT] && part != DOTS
  }

  lemma {:induction false} PartsArePlain(path: seq<u8>, i: nat)
    requires Parts(path).Some? && i < |Parts(path).value|
    ensures IsPlain(Parts(path).value[i])
    decreases |path|
  {
    var end := Until(path, SLASH);
    var part := path[..end];
    if part == [] || part == [DOT] {
      PartsArePlain(path[end + 1..], i);
    } else if i > 0 {
      PartsArePlain(path[end + 1..], i - 1);
    }
  }

  function Joined(before: seq<seq<u8>>, rest: Option<seq<seq<u8>>>): Option<seq<seq<u8>>> {
    if rest.Some? then Some(before + rest.value) else None
  }

  lemma NoMoreParts(before: seq<seq<u8>>)
    ensures Joined(before, Parts([])) == Some(before)
  {
    assert before + [] == before;
  }

  lemma SlashIsSkipped(path: seq<u8>)
    requires path != [] && path[0] == SLASH
    ensures Parts(path) == Parts(path[1..])
  {
    assert Until(path, SLASH) == 0 && path[..0] == [];
  }

  /** What follows the first component. */
  function Tail(path: seq<u8>): seq<u8> {
    var end := Until(path, SLASH);
    if end == |path| then [] else path[end + 1..]
  }

  lemma OneMorePart(path: seq<u8>, before: seq<seq<u8>>)
    requires path != [] && path[0] != SLASH
    ensures var part := path[..Until(path, SLASH)];
      Joined(before, Parts(path)) ==
        if part == DOTS then None
        else if part == [DOT] then Joined(before, Parts(Tail(path)))
        else Joined(before + [part], Parts(Tail(path)))
  {
    var part, rest := path[..Until(path, SLASH)], Parts(Tail(path));
    assert Parts([]) == Some([]);
    assert Parts(path) == if part == DOTS || rest.None? then None else if part == [DOT] then rest else Some([part] + rest.value);
    hide Parts, Tail, Until;
    if rest.Some? {
      assert before + ([part] + rest.value) == before + [part] + rest.value;
    }
  }

  /** The scanning loop: `rest` is what lies from the start of the next component on. */
  method SplitVirtualPath(path: seq<u8>) returns (r: Result<seq<seq<u8>>>)
    ensures r == match Parts(path) case Some(parts) => Success(parts) case None => Failure(InvalidArgument)
  {
    hide Parts, Joined, Until;
    var parts, rest := [], path;
    NothingJoined(Parts(path));
    while rest != []
      invariant Parts(path) == Joined(parts, Parts(rest))
      decreases |rest|
    {
      if rest[0] == SLASH {
        SlashIsSkipped(rest);
        rest := rest[1..];
        continue;
      }
      OneMorePart(rest, parts);
      var part := rest[..Until(rest, SLASH)];
      if part == DOTS {
        return Failure(InvalidArgument);
      }
      if part != [DOT] {
        parts := parts + [part];
      }
      rest := Tail(rest);
    }
    NoMoreParts(parts);
    r := Success(parts);
  }

  lemma NothingJoined(rest: Option<seq<seq<u8>>>)
    ensures Joined([], rest) == rest
  {
    if rest.Some? {
      assert [] + rest.value == rest.value;
    }
  }

  function UpperByte(b: u8): u8 {
    if 0x61 <= b <= 0x7A then b - 0x20 else b
  }

  function Upper(name: seq<u8>): seq<u8> {
    seq(|name|, i requires 0 <= i < |name| => UpperByte(name[i]))
  }

  /** The first entry of a name, in any case. */
  function FirstNamed(entries: seq<FileEntry>, part: seq<u8>): (r: Option<FileEntry>)
    ensures r.Some? ==> r.value in entries && Upper(r.value.name) == Upper(part)
    ensures r.None? ==> forall e :: e in entries ==> Upper(e.name) != Upper(part)
  {
    if entries == [] then None
    else if Upper(entries[0].name) == Upper(part) then Some(entries[0])
    else FirstNamed(entries[1..], part)
  }

  method FindInDirectory(entries: seq<FileEntry>, part: seq<u8>) returns (found: Option<FileEntry>)
    ensures found == FirstNamed(entries, part)
  {
    hide Upper;
    var wanted := Upper(part);
    for i := 0 to |entries|
      invariant FirstNamed(entries, part) == FirstNamed(entries[i..], part)
    {
      assert entries[i..][1..] == entries[i + 1..];
      if Upper(entries[i].name) == wanted {
        return Some(entries[i]);
      }
    }
    return None;
  }

  /** Where a path leads from a directory: name by name, each the first of its name in the directory that the one before
      names on the disc. */
  ghost function Lookup(file: seq<u8>, s: Source, lba: u32, size: u32, parent: seq<u8>, parts: seq<seq<u8>>): Result<FileEntry>
    requires parts != []
    decreases |parts|
  {
    match DirectoryAt(file, s, lba, size, parent)
    case None => Failure(InvalidInstallation)
    case Some(entries) =>
      match FirstNamed(entries, parts[0])
      case None => Failure(FileNotFound)
      case Some(e) =>
        if |parts| == 1 then Success(e)
        else if !e.isDirectory then Failure(InvalidArgument)
        else Lookup(file, s, e.lba, e.size, e.path, parts[1..])
  }

  /** What a path leads to has the name asked for, and lies in the data track. */
  lemma {:induction false} LookupIsInBounds(file: seq<u8>, s: Source, lba: u32, size: u32, parent: seq<u8>, parts: seq<seq<u8>>)
    requires parts != [] && Lookup(file, s, lba, size, parent, parts).Success?
    ensures var e := Lookup(file, s, lba, size, parent, parts).value;
      BoundedExtent(s, e.lba, e.size) && e.name != [] && Upper(e.name) == Upper(parts[|parts| - 1])
    decreases |parts|
  {
    hide BoundedExtent, Upper, ExtentBytes, FullPath, FirstNamed;
    var entries := DirectoryAt(file, s, lba, size, parent).value;
    var e := FirstNamed(entries, parts[0]).value;
    if |parts| == 1 {
      var i :| 0 <= i < |entries| && entries[i] == e;
      EntriesAreInBounds(s, ExtentBytes(file, s, lba, size).value, 0, parent, i);
    } else {
      LookupIsInBounds(file, s, e.lba, e.size, e.path, parts[1..]);
    }
  }

  /** What is found is what the path leads to on the disc, and on a sound source that the system delivers so is every
      failure. */
  method FindEntry(file: seq<u8>, readable: bool, s: Source, rootLba: u32, rootSize: u32, path: seq<u8>) returns (r: Result<FileEntry>)
    ensures Parts(path).None? || Parts(path) == Some([]) ==> r == Failure(InvalidArgument)
    ensures r.Success? ==>
      && Parts(path).Some? && Parts(path).value != []
      && r == Lookup(file, s, rootLba, rootSize, [SLASH], Parts(path).value)
      && BoundedExtent(s, r.value.lba, r.value.size)
    ensures readable && Sound(file, s) && Parts(path).Some? && Parts(path).value != [] ==>
      r == Lookup(file, s, rootLba, rootSize, [SLASH], Parts(path).value)
  {
    hide Parts, BoundedExtent, Upper, DirectoryAt, Sound, FirstNamed;
    var parts := SplitVirtualPath(path);
    if parts.Failure? {
      return Failure(parts.error);
    }
    if parts.value == [] {
      return Failure(InvalidArgument);
    }
    var lba, size, parent := rootLba, rootSize, [SLASH];
    ghost var target := Lookup(file, s, rootLba, rootSize, [SLASH], parts.value);
    r := Failure(FileNotFound);
    assert parts.value[0..] == parts.value;
    for i := 0 to |parts.value|
      invariant if i < |parts.value| then target == Lookup(file, s, lba, size, parent, parts.value[i..]) else r == target
    {
      var entries := ParseDirectory(file, readable, s, lba, size, parent);
      if entries.Failure? {
        return Failure(entries.error);
      }
      var hit := FindInDirectory(entries.value, parts.value[i]);
      if hit.None? {
        return Failure(FileNotFound);
      }
      r := Success(hit.value);
      assert parts.value[i..][1..] == parts.value[i + 1..];
      if i + 1 < |parts.value| {
        if !hit.value.isDirectory {
          return Failure(InvalidArgument);
        }
        lba, size, parent := hit.value.lba, hit.value.size, hit.value.path;
      }
    }
    if r.Success? {
      LookupIsInBounds(file, s, rootLba, rootSize, [SLASH], parts.value);
    }
  }
}
