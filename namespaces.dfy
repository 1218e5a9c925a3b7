/**
 * The namespace configuration of the current layout: each namespace names
 * its directory, its upload key, its listing settings and the generator of
 * its file names, and allocates fresh file names in its directory.
 */
module Namespaces {
  import opened Wrappers
  import opened Paths
  import opened FileSystem
  import opened NameGenerator
  import opened Registry
  import opened Allocator
  import Emoji
  import opened Settings

  datatype StorageConfig = StorageConfig(defaultNamespaceFsPath: string, maxFileSizeBytes: nat, uploadsDirectory: string)

  datatype NamespaceDefinition = NamespaceDefinition(
    fileSystemPath: string,
    key: string,
    fileListing: FileListingConfig,
    fileNameGenerator: StringGenerator)

  datatype Config = Config(
    webServer: WebServerConfig,
    fileListingRender: Emoji.FancyRendererEmojis,
    storage: StorageConfig,
    namespaces: map<string, NamespaceDefinition>)

  /** `NamespaceDefinition::auth`: the definition, when the name is known and the key is exactly its key. */
  function Auth(namespaces: map<string, NamespaceDefinition>, name: string, key: string): (r: Option<NamespaceDefinition>)
    ensures name !in namespaces ==> r == None
    ensures name in namespaces && namespaces[name].key != key ==> r == None
    ensures name in namespaces && namespaces[name].key == key ==> r == Some(namespaces[name])
  {
    Authenticate(namespaces, name, key, (d: NamespaceDefinition) => d.key)
  }

  /** `NamespaceDefinition::get_path`. */
  function GetPath(ns: NamespaceDefinition, c: Config): string {
    NamespacePath(c.storage.uploadsDirectory, ns.fileSystemPath)
  }

  /** How a random generator's loop proposes names in the namespace directory. */
  function Policy(ns: NamespaceDefinition, c: Config, extension: string): RetryPolicy
    requires ns.fileNameGenerator.Random?
  {
    RetryPolicy(GetPath(ns, c), extension, ns.fileNameGenerator.length, MaxAttemptsBeforeGrow(ns.fileNameGenerator))
  }

  /** The path the UUID branch returns for one draw. */
  function UuidPath(ns: NamespaceDefinition, c: Config, extension: string, draw: Sampler): string {
    Join(GetPath(ns, c), Generate(Uuid, draw) + "." + extension)
  }

  /**
   * What `create_random_file_name` returns, given the error creating the
   * namespace directory reports (`dirFailure`), the paths occupied and the
   * faults on the disk before the call, and the generator's draws.
   */
  function Allocate(ns: NamespaceDefinition, c: Config, extension: string, dirFailure: Option<IoError>,
                    occupied: set<string>, faults: map<string, FaultKind>, draws: seq<Sampler>)
    : Result<string, AllocError>
  {
    if dirFailure.Some? then Failure(Io(dirFailure.value))
    else match ns.fileNameGenerator
      case Random(_, _) => AllocFrom(Candidates(Policy(ns, c, extension), draws), occupied + {GetPath(ns, c)}, faults, 0)
      case Uuid => if draws == [] then Failure(Exhausted) else Success(UuidPath(ns, c, extension, draws[0]))
  }

  /**
   * `NamespaceDefinition::create_random_file_name`. The namespace directory is
   * created first and a failure there ends the call. A random generator then
   * runs the retry loop, which reserves the name it returns; a UUID generator
   * takes one draw and returns its name without looking at the directory or
   * creating anything.
   */
  method CreateRandomFileName(ns: NamespaceDefinition, c: Config, extension: string, disk: Disk, draws: seq<Sampler>)
    returns (r: Result<string, AllocError>)
    modifies disk
    ensures r == Allocate(ns, c, extension, old(disk.DirAllFailure(GetPath(ns, c))), old(disk.Occupied()),
                          old(disk.faults), draws)
    ensures disk.dirs == if old(disk.DirAllFailure(GetPath(ns, c))).Some? then old(disk.dirs)
                         else old(disk.dirs) + {GetPath(ns, c)}
    ensures disk.files == if r.Success? && ns.fileNameGenerator.Random? then old(disk.files) + {r.value}
                          else old(disk.files)
    ensures disk.faults == old(disk.faults)
  {
    var base := GetPath(ns, c);
    ghost var occupied := disk.Occupied();
    var made := disk.CreateDirAll(base);
    if made.Failure? {
      return Failure(Io(made.error));
    }
    assert disk.Occupied() == occupied + {base};
    match ns.fileNameGenerator {
      case Random(_, _) =>
        r := RetryAllocate(disk, Policy(ns, c, extension), draws);
      case Uuid =>
        if draws == [] {
          return Failure(Exhausted);
        }
        var fileName := Generate(ns.fileNameGenerator, draws[0]);
        r := Success(Join(base, fileName + "." + extension));
    }
  }

  /**
   * How the allocation can end. Failing to create the namespace directory
   * ends it with that error. Otherwise a random generator's name is one that
   * was free (neither an existing file or directory nor the namespace
   * directory itself) and creatable, and its only I/O error is a fault on a
   * free candidate, never `AlreadyExists`; a UUID generator never fails once
   * the directory exists.
   */
  lemma {:induction false} AllocateOutcome(ns: NamespaceDefinition, c: Config, extension: string, dirFailure: Option<IoError>,
                        occupied: set<string>, faults: map<string, FaultKind>, draws: seq<Sampler>)
    ensures var r := Allocate(ns, c, extension, dirFailure, occupied, faults, draws);
      dirFailure.Some? ==> r == Failure(Io(dirFailure.value))
    ensures var r := Allocate(ns, c, extension, dirFailure, occupied, faults, draws);
      dirFailure.None? && ns.fileNameGenerator.Random? && r.Success? ==>
        r.value !in occupied && r.value != GetPath(ns, c) && r.value !in faults
    ensures var r := Allocate(ns, c, extension, dirFailure, occupied, faults, draws);
      dirFailure.None? && ns.fileNameGenerator.Random? && r.Failure? && r.error.Io? ==>
        r.error.error.Fault? && exists path :: path in faults && path !in occupied && r.error.error == Fault(faults[path])
    ensures var r := Allocate(ns, c, extension, dirFailure, occupied, faults, draws);
      dirFailure.None? && ns.fileNameGenerator.Uuid? ==> (r.Success? <==> draws != [])
  {
    var r := Allocate(ns, c, extension, dirFailure, occupied, faults, draws);
    if dirFailure.None? && ns.fileNameGenerator.Random? {
      var cands := Candidates(Policy(ns, c, extension), draws);
      var occ := occupied + {GetPath(ns, c)};
      if r.Success? {
        SuccessIsFreshCandidate(cands, occ, faults, r.value);
      } else if r.error.Io? {
        FailureIsFault(cands, occ, faults, r.error.error);
      }
    }
  }

  /**
   * `path` is the file `<stem>.<extension>` in `base`: a single normal
   * component whose stem is a non-empty run of letters, digits and hyphens.
   */
  predicate StoredAs(path: string, base: string, stem: string, extension: string) {
    && stem != [] && (forall k :: 0 <= k < |stem| ==> IsNameChar(stem[k]))
    && path == Join(base, stem + "." + extension)
    && IsPlainName(stem + "." + extension)
    && NameExtension(stem + "." + extension) == Some(extension)
  }

  /**
   * A name the allocation returns is `<stem>.<extension>` inside the namespace
   * directory, with a stem of at least one character, so its file name is that
   * name and its extension is the requested one.
   */
  lemma {:induction false} AllocatedNameShape(ns: NamespaceDefinition, c: Config, extension: string, dirFailure: Option<IoError>,
                           occupied: set<string>, faults: map<string, FaultKind>, draws: seq<Sampler>, path: string)
    requires Allocate(ns, c, extension, dirFailure, occupied, faults, draws) == Success(path)
    requires '.' !in extension && '/' !in extension
    requires ns.fileNameGenerator.Random? ==> ns.fileNameGenerator.length >= 1
    ensures exists stem :: StoredAs(path, GetPath(ns, c), stem, extension)
    ensures FileName(path).Some? && Extension(path) == Some(extension)
  {
    if ns.fileNameGenerator.Uuid? {
      UuidNameShape(ns, c, extension, draws[0]);
    } else {
      var p := Policy(ns, c, extension);
      var cands := Candidates(p, draws);
      SuccessIsFreshCandidate(cands, occupied + {GetPath(ns, c)}, faults, path);
      var k :| 0 <= k < |cands| && path == cands[k];
      RandomNameShape(p, draws, k);
    }
  }

  lemma {:induction false} UuidNameShape(ns: NamespaceDefinition, c: Config, extension: string, draw: Sampler)
    requires '.' !in extension && '/' !in extension
    ensures StoredAs(UuidPath(ns, c, extension, draw), GetPath(ns, c), Generate(Uuid, draw), extension)
    ensures FileName(UuidPath(ns, c, extension, draw)).Some?
    ensures Extension(UuidPath(ns, c, extension, draw)) == Some(extension)
  {
    var u := Generate(Uuid, draw);
    var name := u + "." + extension;
    GeneratedNameChars(Uuid, draw);
    assert u[0] != '.';
    assert '/' !in u by {
      forall k | 0 <= k < |u| ensures u[k] != '/' {
        assert IsNameChar(u[k]);
      }
    }
    PlainStemName(u, extension);
    FileNameOfJoin(GetPath(ns, c), name);
    ExtensionOfStem(u, extension);
  }

  lemma {:induction false} RandomNameShape(p: RetryPolicy, draws: seq<Sampler>, k: nat)
    requires k < |draws| && p.initialLength >= 1
    requires '.' !in p.extension && '/' !in p.extension
    ensures StoredAs(CandidatePath(p, draws, k), p.baseDir, RandomString(LengthAfter(p, k), draws[k]), p.extension)
    ensures FileName(CandidatePath(p, draws, k)).Some?
    ensures Extension(CandidatePath(p, draws, k)) == Some(p.extension)
  {
    CandidateFileName(p, draws, k);
    LengthMonotone(p, 0, k);
  }

  /** A name the UUID branch returns is `<uuid>.<extension>` inside the namespace directory. */
  lemma {:induction false} UuidPathShape(ns: NamespaceDefinition, c: Config, extension: string, draw: Sampler)
    requires '.' !in extension && '/' !in extension
    ensures var u := Generate(Uuid, draw);
      && IsUuidV4(u) && UuidPath(ns, c, extension, draw) == Join(GetPath(ns, c), u + "." + extension)
      && FileName(UuidPath(ns, c, extension, draw)) == Some(u + "." + extension)
      && Extension(UuidPath(ns, c, extension, draw)) == Some(extension)
  {
    UuidNameShape(ns, c, extension, draw);
    FileNameOfJoin(GetPath(ns, c), Generate(Uuid, draw) + "." + extension);
  }

  /**
   * `NamespaceDefinition::default()`: the namespace "ferris" with listings
   * hidden, a 128-character random key drawn from `keyDraw`, and 12-character
   * random file names that grow on every collision.
   */
  function DefaultNamespace(keyDraw: Sampler): NamespaceDefinition {
    NamespaceDefinition("ferris", Generate(Random(128, 0), keyDraw), DefaultFileListing(), Random(12, 0))
  }

  /**
   * The default namespace's key is 128 alphanumeric characters, its listing is
   * off, and its names start at 12 characters and are one character longer
   * after each collision.
   */
  lemma {:induction false} DefaultNamespaceBehaviour(keyDraw: Sampler, c: Config, extension: string, collisions: nat)
    ensures var ns := DefaultNamespace(keyDraw);
      && |ns.key| == 128 && (forall k :: 0 <= k < |ns.key| ==> IsAlphanumeric(ns.key[k]))
      && ListingModeOf(ns.fileListing) == NoListing
      && LengthAfter(Policy(ns, c, extension), collisions) == 12 + collisions
      && AttemptsAfter(Policy(ns, c, extension), collisions) == 0
  {
    EveryCollisionGrows(Policy(DefaultNamespace(keyDraw), c, extension), collisions);
  }

  /** `StorageConfig::default()`. */
  function DefaultStorage(): StorageConfig {
    StorageConfig("ferris", 1024 * 1024 * 100, "uploads")
  }

  /** `Config::default()`: one namespace, "ferris", with a key drawn from `keyDraw`. */
  function DefaultConfig(keyDraw: Sampler): Config {
    Config(DefaultWebServer(), Emoji.Default(), DefaultStorage(), map["ferris" := DefaultNamespace(keyDraw)])
  }

  /**
   * Under the default configuration, uploading to "ferris" authenticates
   * exactly with the generated key, and its files go to `uploads/ferris`, the
   * directory the server's root also serves.
   */
  lemma {:induction false} DefaultConfigBehaviour(keyDraw: Sampler, key: string)
    ensures var c := DefaultConfig(keyDraw);
      && (Auth(c.namespaces, "ferris", key).Some? <==> key == DefaultNamespace(keyDraw).key)
      && GetPath(c.namespaces["ferris"], c) == "uploads/ferris"
      && GetPath(c.namespaces["ferris"], c) == NamespacePath(c.storage.uploadsDirectory, c.storage.defaultNamespaceFsPath)
      && TempPath(c.storage.uploadsDirectory) == "uploads/.temp"
  {
    var c := DefaultConfig(keyDraw);
    assert c.namespaces["ferris"] == DefaultNamespace(keyDraw);
    assert "uploads" + "/" + "ferris" == "uploads/ferris";
    assert "uploads" + "/" + ".temp" == "uploads/.temp";
  }
}
