/** Logical sectors of a media track (core/disc_media.cpp): cooked images hold 2048-byte sectors, raw ones wrap them
    in 2352 bytes. The guards are exact, and every sector a candidate promises lies inside its file. */
module DiscMedia {
  import opened Outcomes
  import opened Words

  type u64 = x: int | 0 <= x < 0x1_0000_0000_0000_0000

  const U64_MAX: u64 := 0xFFFF_FFFF_FFFF_FFFF
  const SECTOR := 2048
  const PVD_LBA := 16

  datatype Source = Source(fileOffset: u64, fileSize: u64, physicalSize: u32, userOffset: u32, count: u64)

  // ----- The overflow guard -----

  /** 64-bit arithmetic throughout: the product wraps, unless the first test has excluded it. */
  function AddMulFits(base: u64, a: u64, b: u64, extra: u64, limit: u64): bool {
    if a != 0 && b > (U64_MAX - base) / a then false
    else
      var product := a * b % (U64_MAX + 1);
      if base > U64_MAX - product then false
      else
        var offset := base + product;
        extra <= limit && offset <= limit - extra
  }

  lemma DivisionBounds(a: nat, b: nat, c: nat)
    requires a > 0
    ensures b <= c / a <==> a * b <= c
  {
    var q, r := c / a, c % a;
    assert c == a * q + r;
    if b <= q {
      MultipleOf(q - b, a);
      assert a * q == a * b + (q - b) * a;
    } else {
      MultipleOf(b - q, a);
      assert a * b == a * q + (b - q) * a;
    }
  }

  /** The guard says what the unbounded integers say. */
  lemma AddMulFitsIsExact(base: u64, a: u64, b: u64, extra: u64, limit: u64)
    ensures AddMulFits(base, a, b, extra, limit) <==> base + a * b + extra <= limit
  {
    if a == 0 {
      assert a * b == 0;
    } else {
      DivisionBounds(a, b, U64_MAX - base);
      MultipleOf(b, a);
      if a * b <= U64_MAX - base {
        WrapsNot(a * b);
      }
    }
  }

  lemma WrapsNot(x: nat)
    requires x <= U64_MAX
    ensures x % (U64_MAX + 1) == x
  {
  }

  // ----- Candidates -----

  function MakeCandidate(fileSize: Option<u64>, fileOffset: u64, physicalSize: u32, userOffset: u32): Result<Source> {
    if fileSize.None? then Failure(FileNotFound)
    else if physicalSize < SECTOR || userOffset > physicalSize - SECTOR || fileOffset > fileSize.value then Failure(UnsupportedFormat)
    else
      DivideShrinks(fileSize.value - fileOffset, physicalSize);
      var count := (fileSize.value - fileOffset) / physicalSize;
      if count <= PVD_LBA then Failure(UnsupportedFormat)
      else Success(Source(fileOffset, fileSize.value, physicalSize, userOffset, count))
  }

  /** The layout a candidate has been checked for. */
  predicate LayoutOk(s: Source) {
    s.physicalSize >= SECTOR && s.userOffset <= s.physicalSize - SECTOR
  }

  function SectorStart(s: Source, lba: nat): nat {
    s.fileOffset + lba * s.physicalSize + s.userOffset
  }

  predicate SectorFits(s: Source, lba: u64) {
    AddMulFits(s.fileOffset, lba, s.physicalSize, s.userOffset + SECTOR, s.fileSize)
  }

  /** Every sector that a candidate counts lies inside the file, and the guard lets it pass. */
  lemma CandidateSectorsFit(fileSize: Option<u64>, fileOffset: u64, physicalSize: u32, userOffset: u32, lba: u64)
    requires MakeCandidate(fileSize, fileOffset, physicalSize, userOffset).Success?
    requires lba < MakeCandidate(fileSize, fileOffset, physicalSize, userOffset).value.count
    ensures var s := MakeCandidate(fileSize, fileOffset, physicalSize, userOffset).value;
      LayoutOk(s) && SectorFits(s, lba) && SectorStart(s, lba) + SECTOR <= s.fileSize
  {
    var s := MakeCandidate(fileSize, fileOffset, physicalSize, userOffset).value;
    DivisionBounds(s.physicalSize, lba + 1, s.fileSize - s.fileOffset);
    assert s.physicalSize * (lba + 1) == lba * s.physicalSize + s.physicalSize;
    AddMulFitsIsExact(s.fileOffset, lba, s.physicalSize, s.userOffset + SECTOR, s.fileSize);
  }

  /** A candidate counts as many sectors as fit: one more would reach past the file. */
  lemma CandidateCountsAll(fileSize: u64, fileOffset: u64, physicalSize: u32, userOffset: u32)
    requires MakeCandidate(Some(fileSize), fileOffset, physicalSize, userOffset).Success?
    ensures var s := MakeCandidate(Some(fileSize), fileOffset, physicalSize, userOffset).value;
      s.fileOffset + (s.count + 1) * s.physicalSize > s.fileSize
  {
    var s := MakeCandidate(Some(fileSize), fileOffset, physicalSize, userOffset).value;
    DivisionBounds(s.physicalSize, s.count + 1, s.fileSize - s.fileOffset);
  }

  // ----- Reading -----

  function Sector(file: seq<u8>, s: Source, lba: nat): (bytes: seq<u8>)
    requires SectorStart(s, lba) + SECTOR <= |file|
    ensures |bytes| == SECTOR
  {
    file[SectorStart(s, lba)..SectorStart(s, lba) + SECTOR]
  }

  /** The sectors from `first` on are all within the file. */
  ghost predicate Within(file: seq<u8>, s: Source, first: nat, count: nat) {
    forall lba :: first <= lba < first + count ==> SectorFits64(s, lba) && SectorStart(s, lba) + SECTOR <= |file|
  }

  ghost predicate SectorFits64(s: Source, lba: nat) {
    lba <= U64_MAX && SectorFits(s, lba)
  }

  function Sectors(file: seq<u8>, s: Source, first: nat, count: nat): (bytes: seq<u8>)
    requires Within(file, s, first, count)
    ensures |bytes| == count * SECTOR
  {
    if count == 0 then [] else Sectors(file, s, first, count - 1) + Sector(file, s, first + count - 1)
  }

  /** Every sector the source counts can be read. */
  ghost predicate Sound(file: seq<u8>, s: Source) {
    LayoutOk(s) && Within(file, s, 0, s.count)
  }

  /** MakeCandidate built this source for this file. */
  predicate IsCandidateFor(file: seq<u8>, s: Source) {
    |file| <= U64_MAX && MakeCandidate(Some(|file|), s.fileOffset, s.physicalSize, s.userOffset) == Success(s)
  }

  /** What MakeCandidate builds for a file is sound for it: the failure for a sector outside the file is unreachable. */
  lemma CandidateIsSound(file: seq<u8>, fileOffset: u64, physicalSize: u32, userOffset: u32)
    requires |file| <= U64_MAX && MakeCandidate(Some(|file|), fileOffset, physicalSize, userOffset).Success?
    ensures Sound(file, MakeCandidate(Some(|file|), fileOffset, physicalSize, userOffset).value)
  {
    var s := MakeCandidate(Some(|file|), fileOffset, physicalSize, userOffset).value;
    hide SectorFits, SectorStart;
    forall lba | 0 <= lba < s.count ensures SectorFits64(s, lba) && SectorStart(s, lba) + SECTOR <= |file| {
      CandidateSectorsFit(Some(|file|), fileOffset, physicalSize, userOffset, lba);
    }
  }

  lemma SoundIsWithin(file: seq<u8>, s: Source, first: nat, count: nat)
    requires Sound(file, s) && first + count <= s.count
    ensures Within(file, s, first, count)
  {
    hide SectorFits64, SectorStart;
  }

  method ReadSector(file: seq<u8>, s: Source, lba: u64) returns (r: Result<seq<u8>>)
    ensures r == if !SectorFits(s, lba) then Failure(InvalidArgument)
                 else if SectorStart(s, lba) + SECTOR > |file| then Failure(IoError)
                 else Success(Sector(file, s, lba))
  {
    if !AddMulFits(s.fileOffset, lba, s.physicalSize, s.userOffset + SECTOR, s.fileSize) {
      return Failure(InvalidArgument);
    }
    hide AddMulFits;
    var physical := s.fileOffset + lba * s.physicalSize + s.userOffset;
    if physical + SECTOR > |file| {
      return Failure(IoError);
    }
    r := Success(file[physical..physical + SECTOR]);
  }

  lemma WithinStep(file: seq<u8>, s: Source, first: nat, i: nat, count: nat)
    requires Within(file, s, first, i) && i < count
    ensures Within(file, s, first, i + 1) <==> SectorFits64(s, first + i) && SectorStart(s, first + i) + SECTOR <= |file|
    ensures Within(file, s, first, count) ==> Within(file, s, first, i + 1)
    ensures Within(file, s, first, i + 1) ==> Sectors(file, s, first, i + 1) == Sectors(file, s, first, i) + Sector(file, s, first + i)
  {
    hide SectorStart, SectorFits64;
  }

  /** The sectors asked for, in order. For a sound source, so for every one that MakeCandidate built for this file, the
      request is refused only when it leaves the track, or when the system does not deliver the file. */
  method ReadLogicalSectors(file: seq<u8>, readable: bool, s: Source, first: u64, count: u32) returns (r: Result<seq<u8>>)
    ensures count == 0 ==> r == Success([])
    ensures count > 0 && (first >= s.count || count > s.count - first) ==> r == Failure(InvalidArgument)
    ensures count > 0 && count <= s.count - first && LayoutOk(s) && Within(file, s, first, count) ==>
      r == if readable then Success(Sectors(file, s, first, count)) else Failure(IoError)
    ensures Sound(file, s) && first + count <= s.count && count > 0 ==>
      Within(file, s, first, count) && r == if readable then Success(Sectors(file, s, first, count)) else Failure(IoError)
    ensures IsCandidateFor(file, s) && first + count <= s.count && count > 0 ==>
      Within(file, s, first, count) && r == if readable then Success(Sectors(file, s, first, count)) else Failure(IoError)
    ensures r.Success? ==> Within(file, s, first, count) && r.value == Sectors(file, s, first, count)
  {
    ReadableWhenSound(file, s, first, count);
    if count == 0 {
      return Success([]);
    }
    if first >= s.count || count > s.count - first {
      return Failure(InvalidArgument);
    }
    if s.physicalSize < SECTOR || s.userOffset > s.physicalSize - SECTOR {
      return Failure(InvalidArgument);
    }
    if count > U64_MAX / SECTOR {
      assert false;
    }
    if !readable {
      return Failure(IoError);
    }
    hide *;
    var result := [];
    NothingRead(file, s, first);
    for i := 0 to count
      invariant Within(file, s, first, i) && result == Sectors(file, s, first, i)
    {
      WithinStep(file, s, first, i, count);
      FitsMeans(s, first + i);
      var sector := ReadSector(file, s, first + i);
      if sector.Failure? {
        return Failure(sector.error);
      }
      result := result + sector.value;
    }
    r := Success(result);
  }

  lemma ReadableWhenSound(file: seq<u8>, s: Source, first: nat, count: nat)
    ensures IsCandidateFor(file, s) ==> Sound(file, s)
    ensures Sound(file, s) && first + count <= s.count ==> LayoutOk(s) && Within(file, s, first, count)
  {
    hide Within, MakeCandidate;
    if IsCandidateFor(file, s) {
      CandidateIsSound(file, s.fileOffset, s.physicalSize, s.userOffset);
    }
    if Sound(file, s) && first + count <= s.count {
      SoundIsWithin(file, s, first, count);
    }
  }

  lemma NothingRead(file: seq<u8>, s: Source, first: nat)
    ensures Within(file, s, first, 0) && Sectors(file, s, first, 0) == []
  {
  }

  lemma FitsMeans(s: Source, lba: u64)
    ensures SectorFits64(s, lba) == SectorFits(s, lba)
  {
  }

  // ----- Cooked and raw images -----

  const RAW_SECTOR := 2352

  /** A raw image: every cooked sector between a header of `user` bytes and a trailer, both arbitrary. */
  function RawImage(cooked: seq<u8>, n: nat, user: nat, headers: nat -> seq<u8>, trailers: nat -> seq<u8>): seq<u8>
    requires |cooked| >= n * SECTOR
  {
    if n == 0 then []
    else RawImage(cooked, n - 1, user, headers, trailers) + (headers(n - 1) + cooked[(n - 1) * SECTOR..n * SECTOR] + trailers(n - 1))
  }

  ghost predicate Wraps(user: nat, headers: nat -> seq<u8>, trailers: nat -> seq<u8>) {
    forall i: nat :: |headers(i)| == user && |headers(i)| + SECTOR + |trailers(i)| == RAW_SECTOR
  }

  lemma {:induction false} RawSectorIsCooked(cooked: seq<u8>, n: nat, user: nat, headers: nat -> seq<u8>, trailers: nat -> seq<u8>, lba: nat)
    requires |cooked| >= n * SECTOR && Wraps(user, headers, trailers)
    ensures var raw := RawImage(cooked, n, user, headers, trailers);
      && |raw| == n * RAW_SECTOR
      && (lba < n ==>
            && lba * RAW_SECTOR + user + SECTOR <= |raw|
            && raw[lba * RAW_SECTOR + user..lba * RAW_SECTOR + user + SECTOR] == cooked[lba * SECTOR..(lba + 1) * SECTOR])
    decreases n
  {
    if n > 0 {
      var m := n - 1;
      var before := RawImage(cooked, m, user, headers, trailers);
      RawSectorIsCooked(cooked, m, user, headers, trailers, lba);
      assert |headers(m)| == user && |headers(m)| + SECTOR + |trailers(m)| == RAW_SECTOR;
      var start := lba * RAW_SECTOR + user;
      var raw := RawImage(cooked, n, user, headers, trailers);
      if lba < m {
        assert raw[start..start + SECTOR] == before[start..start + SECTOR];
      } else if lba == m {
        assert start == |before| + user;
        assert raw[start..start + SECTOR] == cooked[m * SECTOR..n * SECTOR];
      }
    }
  }

  function CookedCandidate(file: seq<u8>): Result<Source>
    requires |file| <= U64_MAX
  {
    MakeCandidate(Some(|file|), 0, SECTOR, 0)
  }

  function RawCandidate(file: seq<u8>, user: u32): Result<Source>
    requires |file| <= U64_MAX
  {
    MakeCandidate(Some(|file|), 0, RAW_SECTOR, user)
  }

  /** A raw image built from a cooked one is a candidate with the same number of sectors, each of them the same. */
  lemma RawReadsLikeCooked(cooked: seq<u8>, n: nat, user: u32, headers: nat -> seq<u8>, trailers: nat -> seq<u8>, lba: nat)
    requires |cooked| == n * SECTOR && n > PVD_LBA && n * RAW_SECTOR <= U64_MAX && Wraps(user, headers, trailers)
    ensures var raw := RawImage(cooked, n, user, headers, trailers);
      && |raw| == n * RAW_SECTOR
      && var (c, r) := (CookedCandidate(cooked), RawCandidate(raw, user));
      && c == Success(Source(0, |cooked|, SECTOR, 0, n)) && r == Success(Source(0, |raw|, RAW_SECTOR, user, n))
      && (lba < n ==>
            && SectorStart(c.value, lba) + SECTOR <= |cooked| && SectorStart(r.value, lba) + SECTOR <= |raw|
            && Sector(raw, r.value, lba) == Sector(cooked, c.value, lba))
  {
    RawSectorIsCooked(cooked, n, user, headers, trailers, lba);
    RemainderIs(|cooked|, SECTOR, n, 0);
    RemainderIs(n * RAW_SECTOR, RAW_SECTOR, n, 0);
    assert |headers(0)| + SECTOR + |trailers(0)| == RAW_SECTOR;
    hide RawImage;
  }

  // ----- Recognising a volume -----

  predicate IsPvd(sector: seq<u8>) {
    |sector| >= 7 && sector[0] == 1 && sector[1..6] == [0x43, 0x44, 0x30, 0x30, 0x31] && sector[6] == 1
  }

  predicate HasPvd(file: seq<u8>, s: Source) {
    SectorStart(s, PVD_LBA) + SECTOR <= |file| && IsPvd(Sector(file, s, PVD_LBA))
  }

  /** The layout was possible, and shows a volume. */
  predicate Shows(file: seq<u8>, candidate: Result<Source>) {
    candidate.Success? && HasPvd(file, candidate.value)
  }

  lemma LayoutsAreSound(file: seq<u8>)
    requires |file| <= U64_MAX
    ensures CookedCandidate(file).Success? ==> Sound(file, CookedCandidate(file).value)
    ensures RawCandidate(file, 16).Success? ==> Sound(file, RawCandidate(file, 16).value)
    ensures RawCandidate(file, 24).Success? ==> Sound(file, RawCandidate(file, 24).value)
  {
    hide Sound, MakeCandidate;
    if CookedCandidate(file).Success? {
      CandidateIsSound(file, 0, SECTOR, 0);
    }
    if RawCandidate(file, 16).Success? {
      CandidateIsSound(file, 0, RAW_SECTOR, 16);
    }
    if RawCandidate(file, 24).Success? {
      CandidateIsSound(file, 0, RAW_SECTOR, 24);
    }
  }

  /** A .bin file is tried as cooked, then as MODE1, then as MODE2; the first layout that shows a volume is taken. */
  method OpenBin(file: seq<u8>) returns (r: Result<Source>)
    requires |file| <= U64_MAX
    ensures Shows(file, CookedCandidate(file)) ==> r == CookedCandidate(file)
    ensures !Shows(file, CookedCandidate(file)) && Shows(file, RawCandidate(file, 16)) ==> r == RawCandidate(file, 16)
    ensures !Shows(file, CookedCandidate(file)) && !Shows(file, RawCandidate(file, 16)) && Shows(file, RawCandidate(file, 24)) ==>
      r == RawCandidate(file, 24)
    ensures !Shows(file, CookedCandidate(file)) && !Shows(file, RawCandidate(file, 16)) && !Shows(file, RawCandidate(file, 24)) ==>
      r == Failure(UnsupportedFormat)
    ensures r.Success? ==> Sound(file, r.value) && HasPvd(file, r.value)
  {
    hide IsPvd, HasPvd, Sound, MakeCandidate;
    var cooked := CookedCandidate(file);
    LayoutsAreSound(file);
    if cooked.Success? && HasPvd(file, cooked.value) {
      return cooked;
    }
    var mode1 := RawCandidate(file, 16);
    if mode1.Success? && HasPvd(file, mode1.value) {
      return mode1;
    }
    var mode2 := RawCandidate(file, 24);
    if mode2.Success? && HasPvd(file, mode2.value) {
      return mode2;
    }
    r := Failure(UnsupportedFormat);
  }

  /** The volume is recognised in the raw image exactly when it is in the cooked one. */
  lemma RawShowsSameVolume(cooked: seq<u8>, n: nat, user: u32, headers: nat -> seq<u8>, trailers: nat -> seq<u8>)
    requires |cooked| == n * SECTOR && n > PVD_LBA && n * RAW_SECTOR <= U64_MAX && Wraps(user, headers, trailers)
    ensures var raw := RawImage(cooked, n, user, headers, trailers);
      && |raw| <= U64_MAX && RawCandidate(raw, user).Success? && CookedCandidate(cooked).Success?
      && HasPvd(raw, RawCandidate(raw, user).value) == HasPvd(cooked, CookedCandidate(cooked).value)
  {
    RawReadsLikeCooked(cooked, n, user, headers, trailers, PVD_LBA);
    hide RawImage, IsPvd;
  }
}
