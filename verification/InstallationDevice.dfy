/** The installation operations as they change the disk, any of which may fail at any point. `history` keeps every
    state the disk went through: a crash leaves one of them. */
module InstallationDevice {
  import opened Outcomes
  import opened Installation

  /** A generation being prepared, with its two directories relative to the install root. */
  datatype Pending = Pending(id: string, stagingDir: string, finalDir: string)

  function StagingPath(id: string): string {
    ".staging/" + id
  }

  function FinalPath(id: string): string {
    "generations/" + id
  }

  /** If the disk resolves at `from`, every state from there on resolves to the same generation. */
  ghost predicate StillResolves(history: seq<Disk>, from: int)
    requires 0 <= from < |history|
  {
    Resolved(history[from]).Success? ==> forall k {:trigger history[k]} :: from <= k < |history| ==> Resolved(history[k]) == Resolved(history[from])
  }

  /** If the disk resolves at `from`, every state from there on resolves to the same generation or to `id`. */
  ghost predicate OldOrNew(history: seq<Disk>, from: int, id: string)
    requires 0 <= from < |history|
  {
    Resolved(history[from]).Success? ==>
      forall k {:trigger history[k]} :: from <= k < |history| ==> Resolved(history[k]) == Resolved(history[from]) || Resolved(history[k]) == Success(id)
  }

  lemma ResolvesOn(first: seq<Disk>, second: seq<Disk>, from: int)
    requires first <= second && 0 <= from < |first| && StillResolves(first, from)
    ensures StillResolves(second, |first| - 1) ==> StillResolves(second, from)
    ensures forall id {:trigger OldOrNew(second, from, id)} :: OldOrNew(second, |first| - 1, id) ==> OldOrNew(second, from, id)
  {
    hide Resolved;
  }

  lemma HighestBoundsUsed(before: Disk, d: Disk, highest: nat)
    requires IsHighest(d, highest) && Entries(before.staging) == Entries(d.staging) && Entries(before.generations) == Entries(d.generations)
    ensures forall n: nat :: Used(before, n) ==> n <= highest
  {
    hide ParseId, Entries;
  }

  lemma NumbersBegin()
    ensures MAX_NUMBER > 0
  {
  }

  class InstallRoot {
    var disk: Disk
    ghost var history: seq<Disk>

    ghost predicate Valid()
      reads this
    {
      IsHistory(history) && disk == history[|history| - 1]
    }

    constructor (disk: Disk)
      ensures Valid() && this.disk == disk && history == [disk]
    {
      this.disk, history := disk, [disk];
    }

    /** One change of the disk. */
    method Change(next: Disk, ghost step: Step)
      requires Valid() && Moves(disk, step, next)
      modifies this
      ensures Valid() && disk == next && history == old(history) + [next]
      ensures Resolved(old(disk)).Success? ==> Resolved(disk) == if step.Activate? then Success(step.id) else Resolved(old(disk))
    {
      hide Resolved, Moves;
      assert Next(disk, next);
      if Resolved(disk).Success? {
        StepKeepsResolving(disk, step, next);
      }
      disk, history := next, history + [next];
    }

    /** The files of a generation, written into its staging directory. */
    method StageFiles(id: string, files: map<string, File>)
      requires Valid() && id in Entries(disk.staging) && disk.staging.entries[id].Directory?
      modifies this
      ensures Valid() && disk == old(disk).(staging := Present(old(disk).staging.entries[id := Directory(files)]))
      ensures history == old(history) + [disk] && StillResolves(history, |old(history)| - 1)
    {
      hide Resolved;
      Change(disk.(staging := Present(disk.staging.entries[id := Directory(files)])), Stage(id, files));
    }

    /** Any system call may fail. */
    method SystemFails() returns (fails: bool)
    {
      fails := *;
    }

    // ----- Beginning -----

    method CreateRoots() returns (r: Result<()>)
      requires Valid()
      modifies this
      ensures Valid() && old(history) <= history && disk.pointer == old(disk).pointer
      ensures Entries(disk.staging) == Entries(old(disk).staging) && Entries(disk.generations) == Entries(old(disk).generations)
      ensures r.Success? ==> disk.staging.Present? && disk.generations.Present?
      ensures StillResolves(history, |old(history)| - 1)
    {
      hide Resolved;
      var fails := SystemFails();
      if disk.staging.Obstructed? || fails {
        return Failure(IoError);
      }
      if disk.staging.Missing? {
        Change(disk.(staging := Present(map[])), CreateStagingRoot);
      }
      fails := SystemFails();
      if disk.generations.Obstructed? || fails {
        return Failure(IoError);
      }
      if disk.generations.Missing? {
        Change(disk.(generations := Present(map[])), CreateGenerationsRoot);
      }
      r := Success(());
    }

    /** The names in a directory, in whatever order the system lists them. */
    method ListNames(entries: map<string, Entry>) returns (names: seq<string>)
      ensures forall id :: id in names <==> id in entries
    {
      names := [];
      var todo := entries.Keys;
      while todo != {}
        invariant todo <= entries.Keys && forall id :: id in names <==> id in entries && id !in todo
        decreases |todo|
      {
        var id :| id in todo;
        names, todo := names + [id], todo - {id};
      }
    }

    method HighestIn(entries: map<string, Entry>, sofar: nat) returns (highest: nat)
      ensures highest >= sofar && (highest == sofar || exists id :: id in entries && ParseId(id) == Some(highest))
      ensures forall id :: id in entries && ParseId(id).Some? ==> ParseId(id).value <= highest
    {
      hide ParseId;
      highest := sofar;
      var names := ListNames(entries);
      for i := 0 to |names|
        invariant highest >= sofar && (highest == sofar || exists id :: id in entries && ParseId(id) == Some(highest))
        invariant forall k :: 0 <= k < i && ParseId(names[k]).Some? ==> ParseId(names[k]).value <= highest
      {
        assert names[i] in names;
        var parsed := ParseId(names[i]);
        if parsed.Some? && parsed.value > highest {
          highest := parsed.value;
        }
      }
      forall id | id in entries && ParseId(id).Some? ensures ParseId(id).value <= highest {
        assert id in names;
        var k :| 0 <= k < |names| && names[k] == id;
        assert ParseId(names[k]).value <= highest;
      }
    }

    method HighestGenerationNumber() returns (r: Result<nat>)
      ensures r.Success? ==> IsHighest(disk, r.value)
    {
      hide ParseId;
      var fails := SystemFails();
      if fails {
        return Failure(IoError);
      }
      if disk.generations.Obstructed? || disk.staging.Obstructed? {
        return Failure(InvalidInstallation);
      }
      var highest := HighestIn(Entries(disk.generations), 0);
      highest := HighestIn(Entries(disk.staging), highest);
      r := Success(highest);
    }

    /** A new generation gets a number above every one on the disk; the check that its directories do not exist yet
        can only fail when the system cannot tell. */
    method BeginInstallGeneration() returns (r: Result<Pending>)
      requires Valid()
      modifies this
      ensures Valid() && old(history) <= history && disk.pointer == old(disk).pointer
      ensures StillResolves(history, |old(history)| - 1)
      ensures r.Success? ==>
        var id := r.value.id;
        && ParseId(id).Some? && (forall n: nat :: Used(old(disk), n) ==> n < ParseId(id).value)
        && r.value == Pending(id, StagingPath(id), FinalPath(id))
        && Entries(disk.staging) == Entries(old(disk).staging)[id := Directory(map[])]
        && Entries(disk.generations) == Entries(old(disk).generations)
    {
      hide ParseId, FormatId, Resolved, Moves, Used, Entries, IsHighest, StillResolves, StagingPath, FinalPath;
      ghost var before := disk;
      var roots := CreateRoots();
      if roots.Failure? {
        return Failure(roots.error);
      }
      ghost var created := history;
      var highest := HighestGenerationNumber();
      if highest.Failure? {
        return Failure(highest.error);
      }
      HighestBoundsUsed(before, disk, highest.value);
      NumbersBegin();
      if highest.value >= MAX_NUMBER {
        return Failure(InvalidInstallation);
      }
      r := CreateStaging(highest.value + 1);
      ResolvesOn(created, history, |old(history)| - 1);
    }

    method CreateStaging(number: nat) returns (r: Result<Pending>)
      requires Valid() && 1 <= number <= MAX_NUMBER && disk.staging.Present? && disk.generations.Present? && IsHighest(disk, number - 1)
      modifies this
      ensures Valid() && old(history) <= history && disk.pointer == old(disk).pointer
      ensures StillResolves(history, |old(history)| - 1)
      ensures r.Success? ==>
        var id := r.value.id;
        && ParseId(id) == Some(number)
        && r.value == Pending(id, StagingPath(id), FinalPath(id))
        && Entries(disk.staging) == Entries(old(disk).staging)[id := Directory(map[])]
        && disk.generations == old(disk).generations
    {
      hide ParseId, FormatId, Resolved, StagingPath, FinalPath;
      var id := FormatId(number);
      IdRoundTrip(id, number);
      var fails := SystemFails();
      if fails {
        return Failure(InvalidInstallation);
      }
      if id in disk.staging.entries || id in disk.generations.entries {
        assert false;
      }
      fails := SystemFails();
      if fails {
        return Failure(IoError);
      }
      Change(disk.(staging := Present(disk.staging.entries[id := Directory(map[])])), NewStaging(number));
      r := Success(Pending(id, StagingPath(id), FinalPath(id)));
    }

    // ----- Committing -----

    /** Moves the staged generation among the committed ones, then writes the new pointer beside the old one, then
        replaces the old one by it. At every point in between the pointer resolves as before or to the new one. */
    method CommitInstallGeneration(generation: Pending) returns (r: Result<()>)
      requires Valid()
      modifies this
      ensures Valid() && old(history) <= history
      ensures OldOrNew(history, |old(history)| - 1, generation.id)
      ensures r.Failure? ==> StillResolves(history, |old(history)| - 1)
      ensures r.Success? ==>
        && Resolved(disk) == Success(generation.id)
        && generation.id in Entries(old(disk).staging) && generation.id in Entries(disk.generations)
        && disk.generations.entries[generation.id] == old(disk).staging.entries[generation.id]
      ensures r == Failure(InvalidArgument) || r == Failure(InvalidInstallation) ==> disk == old(disk)
    {
      hide ParseId, Resolved, SamePath, PointerText;
      var id := generation.id;
      if ParseId(id).None? {
        return Failure(InvalidArgument);
      }
      if !SamePath(generation.stagingDir, StagingPath(id)) || !SamePath(generation.finalDir, FinalPath(id)) {
        return Failure(InvalidInstallation);
      }
      var fails := SystemFails();
      if fails || id !in Entries(disk.staging) || !disk.staging.entries[id].Directory? {
        return Failure(InvalidInstallation);
      }
      fails := SystemFails();
      if fails || !HasManifest(disk.staging.entries[id]) {
        return Failure(InvalidInstallation);
      }
      fails := SystemFails();
      if fails || id in Entries(disk.generations) {
        return Failure(InvalidInstallation);
      }
      fails := SystemFails();
      if fails || !disk.generations.Present? {
        return Failure(IoError);
      }
      Change(disk.(staging := Present(disk.staging.entries - {id}), generations := Present(disk.generations.entries[id := disk.staging.entries[id]])),
             Publish(id));
      ghost var published := history;
      r := ActivateGeneration(id);
      assert history[|old(history)|] == published[|old(history)|];
    }

    /** The new pointer is written beside the old one, as far as it goes. */
    method WritePointer(id: string) returns (r: Result<()>)
      requires Valid() && ParseId(id).Some? && Complete(disk, id)
      modifies this
      ensures Valid() && old(history) <= history && disk == old(disk).(temp := disk.temp)
      ensures r == Failure(IoError) || (r == Success(()) && disk.temp == Some(PointerText(id)))
      ensures StillResolves(history, |old(history)| - 1)
    {
      hide ParseId, Resolved, PointerText;
      var text := PointerText(id);
      var fails := SystemFails();
      if fails {
        return Failure(IoError);
      }
      Change(disk.(temp := Some(text[..0])), WriteTemp(id, 0));
      var written: nat :| written <= |text|;
      Change(disk.(temp := Some(text[..written])), WriteTemp(id, written));
      assert text[..|text|] == text;
      r := if written < |text| then Failure(IoError) else Success(());
    }

    /** The pointer file is renamed only when it is whole. */
    method ActivateGeneration(id: string) returns (r: Result<()>)
      requires Valid() && ParseId(id).Some? && Complete(disk, id)
      modifies this
      ensures Valid() && old(history) <= history && disk.generations == old(disk).generations
      ensures OldOrNew(history, |old(history)| - 1, id)
      ensures r.Failure? ==> StillResolves(history, |old(history)| - 1)
      ensures r == Failure(IoError) || (r == Success(()) && Resolved(disk) == Success(id))
    {
      hide ParseId, Resolved, PointerText;
      r := WritePointer(id);
      if r.Failure? {
        return;
      }
      var fails := SystemFails();
      if fails {
        return Failure(IoError);
      }
      Change(disk.(pointer := disk.temp, temp := None), Activate(id));
      WrittenPointerResolves(disk, id);
    }

    // ----- Installing -----

    /** The end of a conversion: a generation is begun, filled and committed. Whatever fails and wherever it stops,
        what resolved before goes on resolving until the new generation, whole, takes its place. */
    method Install(files: map<string, File>) returns (r: Result<string>)
      requires Valid()
      modifies this
      ensures Valid() && old(history) <= history
      ensures r.Success? ==>
        && Resolved(disk) == Success(r.value) && ParseId(r.value).Some?
        && (forall n: nat :: Used(old(disk), n) ==> n < ParseId(r.value).value)
        && r.value in Entries(disk.generations) && disk.generations.entries[r.value] == Directory(files)
      ensures r.Success? ==> OldOrNew(history, |old(history)| - 1, r.value)
      ensures r.Failure? ==> StillResolves(history, |old(history)| - 1)
    {
      hide Resolved, ParseId, Moves, Used, StillResolves, OldOrNew;
      ghost var h0 := history;
      var begun := BeginInstallGeneration();
      if begun.Failure? {
        return Failure(begun.error);
      }
      ghost var h1 := history;
      var fails := SystemFails();
      if fails {
        return Failure(IoError);
      }
      StageFiles(begun.value.id, files);
      ghost var h2 := history;
      ResolvesOn(h1, h2, |h0| - 1);
      fails := SystemFails();
      if fails {
        return Failure(IoError);
      }
      var committed := CommitInstallGeneration(begun.value);
      ResolvesOn(h2, history, |h0| - 1);
      if committed.Failure? {
        return Failure(committed.error);
      }
      r := Success(begun.value.id);
    }

    // ----- Resolving -----

    method ReadActivePointer(text: string) returns (r: Option<Pointer>)
      ensures r == PointerOf(text)
    {
      var lines := Lines(text);
      var p := NO_POINTER;
      for i := 0 to |lines|
        invariant ReadLines(lines[..i]) == Some(p)
      {
        assert lines[..i + 1][..i] == lines[..i];
        var line := WithoutReturn(lines[i]);
        if line == "" {
          continue;
        }
        var eq := Until(line, '=');
        if eq == |line| || eq == 0 {
          BadLineSpoilsAll(lines, i + 1);
          return None;
        }
        var key, value := line[..eq], line[eq + 1..];
        if key in p.seen {
          BadLineSpoilsAll(lines, i + 1);
          return None;
        }
        p := p.(seen := p.seen + {key});
        if key == "format" {
          p := p.(format := value);
        } else if key == "generation_id" {
          p := p.(generationId := value);
        } else if key == "manifest" {
          p := p.(manifest := value);
        } else {
          BadLineSpoilsAll(lines, i + 1);
          return None;
        }
      }
      assert lines[..|lines|] == lines;
      if |p.seen| != 3 || p.format != "1" || ParseId(p.generationId).None? || p.manifest == "" {
        return None;
      }
      r := Some(p);
    }

    method ResolveActiveInstallGeneration() returns (r: Result<string>)
      ensures r == Resolved(disk)
    {
      hide PointerOf, Escapes, SamePath;
      if disk.pointer.None? {
        return Failure(FileNotFound);
      }
      var pointer := ReadActivePointer(disk.pointer.value);
      if pointer.None? {
        return Failure(InvalidInstallation);
      }
      if Escapes(pointer.value.manifest) {
        return Failure(InvalidInstallation);
      }
      if !SamePath(pointer.value.manifest, ManifestPath(pointer.value.generationId)) {
        return Failure(InvalidInstallation);
      }
      if !Complete(disk, pointer.value.generationId) {
        return Failure(InvalidInstallation);
      }
      r := Success(pointer.value.generationId);
    }
  }

  lemma {:induction false} BadLineSpoilsAll(lines: seq<string>, n: nat)
    requires n <= |lines| && ReadLines(lines[..n]) == None
    ensures ReadLines(lines) == None
    decreases |lines|
  {
    hide ReadLine;
    if n == |lines| {
      assert lines[..n] == lines;
    } else {
      assert lines[..|lines| - 1][..n] == lines[..n];
      BadLineSpoilsAll(lines[..|lines| - 1], n);
    }
  }
}
