/**
 * The older, single-file configuration layout (`src/config.rs`): the name
 * length and its growth limit are storage-wide settings, and every namespace
 * draws random alphanumeric names.
 */
module LegacyConfig {
  import opened Wrappers
  import opened FileSystem
  import opened NameGenerator
  import opened Registry
  import opened Allocator
  import Emoji
  import opened Settings

  /** `target_file_name_length` is a `u32` in the source, `max_attempts_before_grow` a `usize`. */
  datatype StorageConfig = StorageConfig(
    defaultNamespaceFsPath: string,
    targetFileNameLength: nat,
    maxFileSizeBytes: nat,
    uploadsDirectory: string,
    maxAttemptsBeforeGrow: nat)

  datatype NamespaceDefinition = NamespaceDefinition(fileSystemPath: string, key: string, fileListing: FileListingConfig)

  datatype Config = Config(
    webServer: WebServerConfig,
    fileListingRender: Emoji.FancyRendererEmojis,
    storage: StorageConfig,
    namespaces: map<string, NamespaceDefinition>)

  /** `create_random_string`: `length` characters sampled from `Alphanumeric`. */
  function CreateRandomString(length: nat, draw: Sampler): (s: string)
    ensures |s| == length && forall k :: 0 <= k < |s| ==> IsAlphanumeric(s[k])
  {
    RandomString(length, draw)
  }

  /** `NamespaceDefinition::auth`: the definition, when the name is known and the key is exactly its key. */
  function Auth(namespaces: map<string, NamespaceDefinition>, name: string, key: string): (r: Option<NamespaceDefinition>)
    ensures name !in namespaces ==> r == None
    ensures name in namespaces && namespaces[name].key != key ==> r == None
    ensures name in namespaces && namespaces[name].key == key ==> r == Some(namespaces[name])
  {
    Authenticate(namespaces, name, key, (d: NamespaceDefinition) => d.key)
  }

  /** `NamespaceDefinition::get_path`. */
  function GetPath(ns: NamespaceDefinition, c: Config): string {
    NamespacePath(c.storage.uploadsDirectory, ns.fileSystemPath)
  }

  /** How the loop proposes names: the storage-wide starting length and growth limit. */
  function Policy(ns: NamespaceDefinition, c: Config, extension: string): RetryPolicy {
    RetryPolicy(GetPath(ns, c), extension, c.storage.targetFileNameLength, c.storage.maxAttemptsBeforeGrow)
  }

  /**
   * `NamespaceDefinition::create_random_file_name`: create the namespace
   * directory, aborting on failure, then run the retry loop.
   */
  method CreateRandomFileName(ns: NamespaceDefinition, c: Config, extension: string, disk: Disk, draws: seq<Sampler>)
    returns (r: Result<string, AllocError>)
    modifies disk
    ensures var base := GetPath(ns, c);
      old(disk.DirAllFailure(base)).Some? ==>
        && r == Failure(Io(old(disk.DirAllFailure(base)).value))
        && disk.files == old(disk.files) && disk.dirs == old(disk.dirs)
    ensures var base := GetPath(ns, c);
      old(disk.DirAllFailure(base)).None? ==>
        && disk.dirs == old(disk.dirs) + {base}
        && r == AllocFrom(Candidates(Policy(ns, c, extension), draws), old(disk.Occupied()) + {base}, old(disk.faults), 0)
        && disk.files == (if r.Success? then old(disk.files) + {r.value} else old(disk.files))
        && (r.Success? ==> r.value !in old(disk.Occupied()) && r.value in disk.files)
    ensures disk.faults == old(disk.faults)
  {
    var base := GetPath(ns, c);
    ghost var occupied := disk.Occupied();
    var made := disk.CreateDirAll(base);
    if made.Failure? {
      return Failure(Io(made.error));
    }
    assert disk.Occupied() == occupied + {base};
    r := RetryAllocate(disk, Policy(ns, c, extension), draws);
  }

  /** `StorageConfig::default()`: names start at one character and grow after 32 straight collisions. */
  function DefaultStorage(): StorageConfig {
    StorageConfig("ferris", 1, 1024 * 1024 * 100, "uploads", 32)
  }

  /** `NamespaceDefinition::default()`, with a key drawn from `keyDraw`. */
  function DefaultNamespace(keyDraw: Sampler): NamespaceDefinition {
    NamespaceDefinition("ferris", CreateRandomString(128, keyDraw), DefaultFileListing())
  }

  /** `Config::default()`. */
  function DefaultConfig(keyDraw: Sampler): Config {
    Config(DefaultWebServer(), Emoji.Default(), DefaultStorage(), map["ferris" := DefaultNamespace(keyDraw)])
  }

  /**
   * Under the default storage settings, a name is one character long until
   * the 33rd collision, and after `n` collisions it is `1 + n / 33` long.
   */
  lemma {:induction false} DefaultGrowth(ns: NamespaceDefinition, keyDraw: Sampler, extension: string, n: nat)
    ensures var p := Policy(ns, DefaultConfig(keyDraw), extension);
      && LengthAfter(p, n) == 1 + n / 33
      && (LengthAfter(p, n) == 1 <==> n <= 32)
      && LengthAfter(p, 33) == 2
  {
    GrowthBoundary(Policy(ns, DefaultConfig(keyDraw), extension), n);
  }
}
