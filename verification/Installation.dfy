/** Transactional installation (core/ps1_installation.cpp) over an abstract install root.

    `Step` lists every change a begin, a staging or a commit makes to the disk, one at a time; a crash leaves the
    disk between two of them. `IsHistory` strings them together, over any number of calls and crashes. */
module Installation {
  import opened Outcomes

  const PREFIX := "generation-"
  const MANIFEST := "game_manifest.ini"
  const MAX_NUMBER := 999999

  // ----- Generation identities -----

  function Digit(n: nat): char
    requires n < 10
  {
    '0' + n as char
  }

  predicate AllDigits(s: string) {
    forall i :: 0 <= i < |s| ==> '0' <= s[i] <= '9'
  }

  function Digits(n: nat, width: nat): (s: string)
    ensures |s| == width && AllDigits(s)
    decreases width
  {
    if width == 0 then "" else Digits(n / 10, width - 1) + [Digit(n % 10)]
  }

  function Number(s: string): nat
    requires AllDigits(s)
  {
    if s == "" then 0 else Number(s[..|s| - 1]) * 10 + (s[|s| - 1] - '0') as nat
  }

  function Pow10(n: nat): nat {
    if n == 0 then 1 else 10 * Pow10(n - 1)
  }

  function FormatId(number: nat): string
    requires number <= MAX_NUMBER
  {
    PREFIX + Digits(number, 6)
  }

  function ParseId(id: string): Option<nat> {
    if |id| != |PREFIX| + 6 || id[..|PREFIX|] != PREFIX then None
    else if !AllDigits(id[|PREFIX|..]) then None
    else
      var number := Number(id[|PREFIX|..]);
      if number == 0 || number > MAX_NUMBER then None else Some(number)
  }

  lemma {:induction false} NumberOfDigits(n: nat, width: nat)
    requires n < Pow10(width)
    ensures Number(Digits(n, width)) == n
    decreases width
  {
    if width > 0 {
      NumberOfDigits(n / 10, width - 1);
      var s := Digits(n, width);
      assert s[..|s| - 1] == Digits(n / 10, width - 1);
    }
  }

  lemma {:induction false} DigitsOfNumber(s: string)
    requires AllDigits(s)
    ensures Digits(Number(s), |s|) == s
    decreases |s|
  {
    if s != "" {
      var last := s[|s| - 1];
      DigitsOfNumber(s[..|s| - 1]);
      var n, d := Number(s[..|s| - 1]), (last - '0') as nat;
      assert (n * 10 + d) / 10 == n && (n * 10 + d) % 10 == d;
      assert s == s[..|s| - 1] + [last];
    }
  }

  /** Identities and their numbers correspond one to one. */
  lemma IdRoundTrip(id: string, number: nat)
    ensures 1 <= number <= MAX_NUMBER ==> ParseId(FormatId(number)) == Some(number)
    ensures ParseId(id) == Some(number) ==> 1 <= number <= MAX_NUMBER && FormatId(number) == id
  {
    assert Pow10(6) == 1000000 by { assert Pow10(3) == 1000; }
    if 1 <= number <= MAX_NUMBER {
      NumberOfDigits(number, 6);
      assert FormatId(number)[|PREFIX|..] == Digits(number, 6) && FormatId(number)[..|PREFIX|] == PREFIX;
    }
    if ParseId(id) == Some(number) {
      DigitsOfNumber(id[|PREFIX|..]);
      assert id == PREFIX + id[|PREFIX|..];
    }
  }

  // ----- The active pointer -----

  function ManifestPath(id: string): string {
    "generations" + "/" + (id + "/" + MANIFEST)
  }

  function Field(key: string, value: string): string {
    key + "=" + value
  }

  /** What a commit writes: the format, the identity and the manifest, a line each. */
  function PointerText(id: string): string {
    Field("format", "1") + "\n" + (Field("generation_id", id) + "\n" + (Field("manifest", ManifestPath(id)) + "\n" + ""))
  }

  /** Lines as std::getline delivers them. */
  function Lines(text: string): seq<string> {
    if text == "" then []
    else
      var end := Until(text, '\n');
      if end == |text| then [text] else [text[..end]] + Lines(text[end + 1..])
  }

  /** The first position of a character, or the length. */
  function Until(s: string, c: char): (i: nat)
    ensures i <= |s| && (i < |s| ==> s[i] == c) && c !in s[..i]
  {
    if s == "" || s[0] == c then 0 else
      var i := Until(s[1..], c) + 1;
      assert s[..i] == [s[0]] + s[1..][..i - 1];
      i
  }

  lemma {:induction false} UntilIs(before: string, c: char, after: string)
    requires c !in before
    ensures Until(before + [c] + after, c) == |before|
    decreases |before|
  {
    if before != "" {
      assert (before + [c] + after)[1..] == before[1..] + [c] + after;
      UntilIs(before[1..], c, after);
    }
  }

  lemma OneLine(line: string, rest: string)
    requires '\n' !in line
    ensures Lines(line + "\n" + rest) == [line] + Lines(rest)
  {
    UntilIs(line, '\n', rest);
    var text := line + "\n" + rest;
    assert text[..|line|] == line && text[|line| + 1..] == rest;
  }

  datatype Pointer = Pointer(seen: set<string>, format: string, generationId: string, manifest: string)

  const NO_POINTER := Pointer({}, "", "", "")

  function WithoutReturn(line: string): string {
    if line != "" && line[|line| - 1] == '\r' then line[..|line| - 1] else line
  }

  /** One line of the pointer file, on top of those before it. */
  function ReadLine(p: Pointer, raw: string): Option<Pointer> {
    var line := WithoutReturn(raw);
    var eq := Until(line, '=');
    if line == "" then Some(p)
    else if eq == |line| || eq == 0 then None
    else
      var key, value := line[..eq], line[eq + 1..];
      var next := p.(seen := p.seen + {key});
      if key in p.seen then None
      else if key == "format" then Some(next.(format := value))
      else if key == "generation_id" then Some(next.(generationId := value))
      else if key == "manifest" then Some(next.(manifest := value))
      else None
  }

  function ReadLines(lines: seq<string>): Option<Pointer> {
    if lines == [] then Some(NO_POINTER)
    else
      match ReadLines(lines[..|lines| - 1])
      case Some(p) => ReadLine(p, lines[|lines| - 1])
      case None => None
  }

  predicate PointerComplete(p: Pointer) {
    |p.seen| == 3 && p.format == "1" && ParseId(p.generationId).Some? && p.manifest != ""
  }

  function PointerOf(text: string): Option<Pointer> {
    match ReadLines(Lines(text))
    case Some(p) => if PointerComplete(p) then Some(p) else None
    case None => None
  }

  // ----- Paths -----

  /** The components of a relative path, without empty ones and "." */
  function Components(path: string): seq<string> {
    if path == "" then []
    else
      var end := Until(path, '/');
      var rest := if end == |path| then [] else Components(path[end + 1..]);
      if end == 0 || path[..end] == "." then rest else [path[..end]] + rest
  }

  /** A trailing separator, which normalising keeps. */
  predicate EndsOpen(path: string) {
    path != "" && (path[|path| - 1] == '/' || (|path| >= 2 && path[|path| - 2..] == "/."))
  }

  predicate SamePath(a: string, b: string) {
    Components(a) == Components(b) && EndsOpen(a) == EndsOpen(b)
  }

  predicate Escapes(path: string) {
    (path != "" && path[0] == '/') || ".." in Components(path)
  }

  // ----- The disk -----

  datatype File = RegularFile(content: string) | SpecialFile

  datatype Entry = Directory(files: map<string, File>) | NotADirectory

  datatype Container = Missing | Present(entries: map<string, Entry>) | Obstructed

  datatype Disk = Disk(staging: Container, generations: Container, pointer: Option<string>, temp: Option<string>)

  function Entries(c: Container): map<string, Entry> {
    if c.Present? then c.entries else map[]
  }

  predicate HasManifest(e: Entry) {
    e.Directory? && MANIFEST in e.files && e.files[MANIFEST].RegularFile?
  }

  /** The generation is committed, with its manifest. */
  predicate Complete(d: Disk, id: string) {
    id in Entries(d.generations) && HasManifest(d.generations.entries[id])
  }

  /** The generation that the active pointer names, if it can be used. */
  function Resolved(d: Disk): Result<string> {
    if d.pointer.None? then Failure(FileNotFound)
    else
      match PointerOf(d.pointer.value)
      case None => Failure(InvalidInstallation)
      case Some(p) =>
        if Escapes(p.manifest) || !SamePath(p.manifest, ManifestPath(p.generationId)) || !Complete(d, p.generationId)
        then Failure(InvalidInstallation) else Success(p.generationId)
  }

  // ----- Steps -----

  datatype Step =
    | CreateStagingRoot
    | CreateGenerationsRoot
    | NewStaging(number: nat)
    | Stage(id: string, files: map<string, File>)
    | Publish(id: string)
    | WriteTemp(id: string, length: nat)
    | Activate(id: string)

  predicate Uses(c: Container, number: nat) {
    exists id :: id in Entries(c) && ParseId(id) == Some(number)
  }

  /** No directory, committed or staged, has a higher number. */
  ghost predicate IsHighest(d: Disk, highest: nat) {
    && (highest == 0 || Uses(d.staging, highest) || Uses(d.generations, highest))
    && (forall id :: id in Entries(d.staging) && ParseId(id).Some? ==> ParseId(id).value <= highest)
    && (forall id :: id in Entries(d.generations) && ParseId(id).Some? ==> ParseId(id).value <= highest)
  }

  ghost predicate Allowed(d: Disk, step: Step) {
    match step
    case CreateStagingRoot => d.staging.Missing?
    case CreateGenerationsRoot => d.generations.Missing?
    case NewStaging(number) => d.staging.Present? && d.generations.Present? && 1 <= number <= MAX_NUMBER && IsHighest(d, number - 1)
    case Stage(id, files) => id in Entries(d.staging) && d.staging.entries[id].Directory?
    case Publish(id) =>
      && ParseId(id).Some? && d.generations.Present? && id !in d.generations.entries
      && id in Entries(d.staging) && HasManifest(d.staging.entries[id])
    case WriteTemp(id, length) => ParseId(id).Some? && Complete(d, id) && length <= |PointerText(id)|
    case Activate(id) => ParseId(id).Some? && Complete(d, id) && d.temp == Some(PointerText(id))
  }

  function After(d: Disk, step: Step): Disk
    requires Allowed(d, step)
  {
    match step
    case CreateStagingRoot => d.(staging := Present(map[]))
    case CreateGenerationsRoot => d.(generations := Present(map[]))
    case NewStaging(number) => d.(staging := Present(d.staging.entries[FormatId(number) := Directory(map[])]))
    case Stage(id, files) => d.(staging := Present(d.staging.entries[id := Directory(files)]))
    case Publish(id) =>
      d.(staging := Present(d.staging.entries - {id}), generations := Present(d.generations.entries[id := d.staging.entries[id]]))
    case WriteTemp(id, length) => d.(temp := Some(PointerText(id)[..length]))
    case Activate(id) => d.(pointer := d.temp, temp := None)
  }

  ghost predicate Moves(d: Disk, step: Step, d': Disk) {
    Allowed(d, step) && d' == After(d, step)
  }

  ghost predicate Next(d: Disk, d': Disk) {
    exists step :: Moves(d, step, d')
  }

  ghost predicate IsHistory(history: seq<Disk>) {
    history != [] && forall i {:trigger history[i]} :: 0 < i < |history| ==> Next(history[i - 1], history[i])
  }

  // ----- What a written pointer resolves to -----

  lemma IdHasPlainCharacters(id: string)
    requires ParseId(id).Some?
    ensures forall c :: c in id ==> c in PREFIX || '0' <= c <= '9'
    ensures '\n' !in id && '=' !in id && '/' !in id && '\r' !in id && id != "." && id != ".." && id != ""
  {
    forall c | c in id ensures c in PREFIX || '0' <= c <= '9' {
      var i :| 0 <= i < |id| && id[i] == c;
      if i < |PREFIX| {
        assert c == PREFIX[i];
      } else {
        assert c == id[|PREFIX|..][i - |PREFIX|];
      }
    }
  }

  lemma KeyLine(p: Pointer, key: string, value: string)
    requires key != "" && '=' !in key && key !in p.seen && value != "" && value[|value| - 1] != '\r'
    ensures ReadLine(p, Field(key, value)) ==
      var next := p.(seen := p.seen + {key});
      if key == "format" then Some(next.(format := value))
      else if key == "generation_id" then Some(next.(generationId := value))
      else if key == "manifest" then Some(next.(manifest := value))
      else None
  {
    UntilIs(key, '=', value);
    var line := Field(key, value);
    assert line[..|key|] == key && line[|key| + 1..] == value;
  }

  lemma PlainNames()
    ensures '\n' !in "format" && '\n' !in "1" && '\n' !in "generation_id" && '\n' !in "manifest" && '\n' !in "generations" && '\n' !in MANIFEST
    ensures '=' !in "format" && '=' !in "generation_id" && '=' !in "manifest"
    ensures '/' !in "generations" && '/' !in MANIFEST
    ensures |MANIFEST| > 0 && MANIFEST[|MANIFEST| - 1] == 'i' && MANIFEST != "." && MANIFEST != ".."
  {
  }

  lemma LinesOfPointer(id: string)
    requires ParseId(id).Some?
    ensures Lines(PointerText(id)) == [Field("format", "1"), Field("generation_id", id), Field("manifest", ManifestPath(id))]
  {
    IdHasPlainCharacters(id);
    PlainNames();
    var one, two, three := Field("format", "1"), Field("generation_id", id), Field("manifest", ManifestPath(id));
    assert '\n' !in one && '\n' !in two && '\n' !in three;
    hide ParseId, Field, ManifestPath;
    OneLine(one, two + "\n" + (three + "\n" + ""));
    OneLine(two, three + "\n" + "");
    OneLine(three, "");
  }

  lemma ThreeLines(one: string, two: string, three: string, p1: Pointer, p2: Pointer, p3: Pointer)
    requires ReadLine(NO_POINTER, one) == Some(p1) && ReadLine(p1, two) == Some(p2) && ReadLine(p2, three) == Some(p3)
    ensures ReadLines([one, two, three]) == Some(p3)
  {
    hide ReadLine;
    assert [one, two, three][..2] == [one, two] && [one, two][..1] == [one] && [one][..0] == [];
    assert ReadLines([one]) == Some(p1);
    assert ReadLines([one, two]) == Some(p2);
  }

  lemma KeysRead(id: string)
    requires ParseId(id).Some? && ManifestPath(id) != "" && ManifestPath(id)[|ManifestPath(id)| - 1] != '\r'
    ensures ReadLine(NO_POINTER, Field("format", "1")) == Some(Pointer({"format"}, "1", "", ""))
    ensures ReadLine(Pointer({"format"}, "1", "", ""), Field("generation_id", id)) == Some(Pointer({"format", "generation_id"}, "1", id, ""))
    ensures ReadLine(Pointer({"format", "generation_id"}, "1", id, ""), Field("manifest", ManifestPath(id)))
         == Some(Pointer({"format", "generation_id", "manifest"}, "1", id, ManifestPath(id)))
  {
    IdHasPlainCharacters(id);
    PlainNames();
    hide ParseId, ReadLine, Field, ManifestPath;
    KeyLine(NO_POINTER, "format", "1");
    assert {} + {"format"} == {"format"};
    KeyLine(Pointer({"format"}, "1", "", ""), "generation_id", id);
    assert {"format"} + {"generation_id"} == {"format", "generation_id"};
    assert id[|id| - 1] in id;
    KeyLine(Pointer({"format", "generation_id"}, "1", id, ""), "manifest", ManifestPath(id));
    assert {"format", "generation_id"} + {"manifest"} == {"format", "generation_id", "manifest"};
  }

  lemma PointerIs(text: string, p: Pointer, id: string)
    requires ReadLines(Lines(text)) == Some(p) && ParseId(id).Some? && p.manifest != ""
    requires p == Pointer({"format", "generation_id", "manifest"}, "1", id, p.manifest)
    ensures PointerOf(text) == Some(p)
  {
    hide ParseId, ReadLines, Lines;
    assert |{"format", "generation_id", "manifest"}| == 3;
  }

  /** Reading back what a commit writes. */
  lemma WrittenPointerReads(id: string)
    requires ParseId(id).Some?
    ensures PointerOf(PointerText(id)) == Some(Pointer({"format", "generation_id", "manifest"}, "1", id, ManifestPath(id)))
  {
    LinesOfPointer(id);
    IdHasPlainCharacters(id);
    PlainNames();
    assert ManifestPath(id)[|ManifestPath(id)| - 1] == 'i';
    hide *;
    var text := PointerText(id);
    var p1 := Pointer({"format"}, "1", "", "");
    var p2 := Pointer({"format", "generation_id"}, "1", id, "");
    var p3 := Pointer({"format", "generation_id", "manifest"}, "1", id, ManifestPath(id));
    KeysRead(id);
    ThreeLines(Field("format", "1"), Field("generation_id", id), Field("manifest", ManifestPath(id)), p1, p2, p3);
    PointerIs(text, p3, id);
  }

  lemma ThreeComponents(a: string, b: string, c: string)
    requires '/' !in a && a != "" && a != "." && '/' !in b && b != "" && b != "." && '/' !in c && c != "" && c != "."
    ensures Components(a + "/" + (b + "/" + c)) == [a, b, c]
  {
    hide Components;
    FirstComponent(a, b + "/" + c);
    FirstComponent(b, c);
    LastComponent(c);
  }

  lemma PlainPath(path: string, a: string, b: string, c: string)
    requires path != "" && path[0] != '/' && Components(path) == [a, b, c] && a != ".." && b != ".." && c != ".."
    ensures !Escapes(path)
  {
    hide Components;
  }

  lemma ManifestStart(id: string)
    ensures ManifestPath(id) == "generations" + "/" + (id + "/" + MANIFEST) && ManifestPath(id)[0] == 'g'
    ensures "generations" != "." && "generations" != ".."
  {
  }

  lemma ManifestComponents(id: string)
    requires ParseId(id).Some?
    ensures Components(ManifestPath(id)) == ["generations", id, MANIFEST] && !Escapes(ManifestPath(id))
  {
    hide *;
    IdHasPlainCharacters(id);
    PlainNames();
    ManifestStart(id);
    ThreeComponents("generations", id, MANIFEST);
    PlainPath(ManifestPath(id), "generations", id, MANIFEST);
  }

  lemma FirstComponent(name: string, rest: string)
    requires '/' !in name && name != "" && name != "."
    ensures Components(name + "/" + rest) == [name] + Components(rest)
  {
    UntilIs(name, '/', rest);
    var path := name + "/" + rest;
    assert path[..|name|] == name && path[|name| + 1..] == rest;
  }

  lemma LastComponent(name: string)
    requires '/' !in name && name != "" && name != "."
    ensures Components(name) == [name]
  {
    assert Until(name, '/') == |name| && name[..|name|] == name;
  }

  lemma WrittenPointerResolves(d: Disk, id: string)
    requires ParseId(id).Some? && d.pointer == Some(PointerText(id)) && Complete(d, id)
    ensures Resolved(d) == Success(id)
  {
    WrittenPointerReads(id);
    ManifestComponents(id);
    hide PointerOf, ParseId, Components, EndsOpen;
  }

  // ----- Single steps -----

  /** No step touches a committed generation. */
  lemma StepKeepsCommitted(d: Disk, step: Step, d': Disk, id: string)
    requires Moves(d, step, d') && id in Entries(d.generations)
    ensures id in Entries(d'.generations) && d'.generations.entries[id] == d.generations.entries[id]
  {
    hide ParseId, IsHighest;
  }

  /** A pointer that resolves goes on resolving to the same generation, until an activation that makes it resolve to
      the one activated. */
  lemma StepKeepsResolving(d: Disk, step: Step, d': Disk)
    requires Moves(d, step, d') && Resolved(d).Success?
    ensures Resolved(d') == if step.Activate? then Success(step.id) else Resolved(d)
  {
    hide ParseId, IsHighest, PointerOf, Escapes, SamePath;
    StepKeepsCommitted(d, step, d', Resolved(d).value);
    if step.Activate? {
      WrittenPointerResolves(d', step.id);
    }
  }

  ghost predicate Used(d: Disk, number: nat) {
    Uses(d.staging, number) || Uses(d.generations, number)
  }

  /** Numbers once given out stay on the disk, in staging or committed. */
  lemma StepKeepsNumbers(d: Disk, step: Step, d': Disk, number: nat)
    requires Moves(d, step, d') && Used(d, number)
    ensures Used(d', number)
  {
    hide ParseId, IsHighest, FormatId;
    if Uses(d.staging, number) {
      var id :| id in Entries(d.staging) && ParseId(id) == Some(number);
      assert id in Entries(d'.staging) || id in Entries(d'.generations);
    } else {
      var id :| id in Entries(d.generations) && ParseId(id) == Some(number);
      StepKeepsCommitted(d, step, d', id);
    }
  }

  lemma NewNumberIsFresh(d: Disk, number: nat, d': Disk)
    requires Moves(d, NewStaging(number), d')
    ensures Used(d', number) && forall n: nat :: Used(d, n) ==> n < number
  {
    IdRoundTrip("", number);
    hide ParseId, FormatId;
    assert FormatId(number) in Entries(d'.staging);
  }

  // ----- Whole histories -----

  lemma {:induction false} CommittedNeverChanges(history: seq<Disk>, i: nat, j: nat, id: string)
    requires IsHistory(history) && i <= j < |history| && id in Entries(history[i].generations)
    ensures id in Entries(history[j].generations) && history[j].generations.entries[id] == history[i].generations.entries[id]
    decreases j
  {
    hide Moves, ParseId;
    if i < j {
      CommittedNeverChanges(history, i, j - 1, id);
      assert Next(history[j - 1], history[j]);
      var step :| Moves(history[j - 1], step, history[j]);
      StepKeepsCommitted(history[j - 1], step, history[j], id);
    }
  }

  /** However often the program was stopped in between: once the pointer resolves it always will, to the generation
      it resolved to, or to one activated since; and that one is complete. */
  lemma {:induction false} AlwaysResolves(history: seq<Disk>, i: nat, j: nat)
    requires IsHistory(history) && i <= j < |history| && Resolved(history[i]).Success?
    ensures Resolved(history[j]).Success? && Complete(history[j], Resolved(history[j]).value)
    ensures Resolved(history[j]) == Resolved(history[i])
         || exists k :: i < k <= j && Moves(history[k - 1], Activate(Resolved(history[j]).value), history[k])
    decreases j
  {
    hide Moves, ParseId, PointerOf, Escapes, SamePath;
    if i < j {
      AlwaysResolves(history, i, j - 1);
      assert Next(history[j - 1], history[j]);
      var step :| Moves(history[j - 1], step, history[j]);
      StepKeepsResolving(history[j - 1], step, history[j]);
    }
  }

  lemma {:induction false} NumbersStayUsed(history: seq<Disk>, i: nat, j: nat, number: nat)
    requires IsHistory(history) && i <= j < |history| && Used(history[i], number)
    ensures Used(history[j], number)
    decreases j
  {
    hide Moves, Used;
    if i < j {
      NumbersStayUsed(history, i, j - 1, number);
      assert Next(history[j - 1], history[j]);
      var step :| Moves(history[j - 1], step, history[j]);
      StepKeepsNumbers(history[j - 1], step, history[j], number);
    }
  }

  /** Identities are never reused: a later generation has a larger number. */
  lemma LaterNumbersAreLarger(history: seq<Disk>, i: nat, j: nat, m: nat, n: nat)
    requires IsHistory(history) && 0 < i < j < |history|
    requires Moves(history[i - 1], NewStaging(m), history[i]) && Moves(history[j - 1], NewStaging(n), history[j])
    ensures m < n
  {
    hide Moves, Used, IsHistory;
    NewNumberIsFresh(history[i - 1], m, history[i]);
    NumbersStayUsed(history, i, j - 1, m);
    NewNumberIsFresh(history[j - 1], n, history[j]);
  }
}
