# mediaserver, modelled in Dafny

mediaserver is a small file host. A client sends a `PUT /upload` with a
file, a namespace name and that namespace's key. The server stores the file
under a fresh random name in the namespace's directory, inside the uploads
directory. It answers with a JSON payload holding the public link to the
file, or an error message. Each namespace's directory is served back as
static files. A namespace can also be browsed as an HTML listing
(`src/main.rs:99-104`): `show` alone gives the web framework's built-in
listing, and `show` with `use_fancy_renderer` installs the "fancy renderer",
`directory_listing` of `src/directory.rs`. `src/render/mod.rs` holds a
template-based version of the same page, which `src/main.rs` does not
install. Both pages are modelled. The
repository carries two configuration layouts, the older single-file
`src/config.rs` and the current `src/config/` module. Both are modelled.

This project models:

- **Namespace authentication.** `Registry.Authenticate` looks the name up
  and compares the key exactly. Both layouts use it.
- **`create_random_file_name` in both layouts.** Each layout's
  `CreateRandomFileName` first creates the namespace directory with
  `FileSystem.Disk.CreateDirAll`, and a failure there is returned as is.
  Then it runs the retry loop both layouts share,
  `Allocator.RetryAllocate`, which creates no directory. The loop:
  - proposes `<name>.<ext>`;
  - reserves it with an exclusive create;
  - counts collisions;
  - grows the name by one character once the count passes the
    `max_attempts_before_grow` limit.

  Any other I/O error ends the loop. The current layout's UUID generator
  takes one draw and returns its path without creating anything.
- **The `StringGenerator`.** It produces alphanumeric strings or
  version-4 UUIDs.
- **The directory listing.** This covers `sorted_entries` (a stable sort
  that puts directories first and newer entries first), the
  parent-directory link, the rows with their emoji, and both pages.
  `resolve_emoji` and its default table are the same in both layouts.
- **The upload endpoint.** This covers `ResponsePayload`,
  `get_file_extension` and the public link.

The filesystem is one mutable object, `FileSystem.Disk`. It holds the
files, the directories, and the paths where creating something fails with
a fault of its own (permissions, a full disk). The operations that change
it are methods proved against specification functions:
`Allocator.AllocFrom` for the retry loop and `Namespaces.Allocate` for
`create_random_file_name`. The sort of the listing works in place on an
array, and `Listing.SortInPlace` is proved against `Listing.SortByKey`.
The properties the server relies on are lemmas about those functions.

The random number generator is an input. A `Sampler` is one draw from it,
and the allocator takes a sequence of draws, one per attempt. The server's
loop has no bound. When the draws run out the model answers
`Exhausted`, which stands for "still looping". The upload handler maps it to
`StillAllocating`.

## Model

| member | source | states |
|---|---|---|
| Registry.Authenticate | src/config/namespace_def.rs:22-34 | authentication succeeds exactly when the name is known and the key equals the stored key, and then yields that namespace's definition |
| Registry.FailuresIndistinguishable | src/config/namespace_def.rs:27-31 | an unknown namespace and a known namespace with a wrong key give the same answer, `None` |
| Namespaces.Auth | src/config/namespace_def.rs:22-34 | `auth` of the current layout: `None` for an unknown name or a wrong key, the definition otherwise |
| LegacyConfig.Auth | src/config.rs:269-287 | `auth` of the older layout, with the same three cases |
| NameGenerator.RandomString | src/config/random_string_generator.rs:29-36 | a random string has exactly the requested length and only characters from `A-Z a-z 0-9` |
| NameGenerator.RandomStringCovers | src/config/random_string_generator.rs:29-36 | every alphanumeric string of a length is a possible output for that length, so no string is excluded |
| NameGenerator.UuidString | src/config/random_string_generator.rs:37 | `Uuid::new_v4().to_string()` is 36 characters in 8-4-4-4-12 form with lower-case hex digits, version digit 4 and variant digit in `89ab` |
| NameGenerator.Generate | src/config/random_string_generator.rs:27-39 | a random generator yields an alphanumeric string of its length and ignores its grow limit; a UUID generator yields a canonical v4 UUID |
| NameGenerator.GeneratedNameChars | src/config/random_string_generator.rs:27-39 | both generators only produce letters, digits and hyphens, so a generated name never holds a '/' or a '.' |
| NameGenerator.MaxAttemptsBeforeGrow | src/config/random_string_generator.rs:42-50 | the grow limit of a random generator is its field, and a UUID generator's is 0 |
| NameGenerator.Default | src/config/random_string_generator.rs:53-61 | the default generator is random, 12 characters long, with the serde default limit of 32 |
| FileSystem.Disk.CreateDirAll | src/config/namespace_def.rs:45-46 | `create_dir_all` succeeds on an existing directory and adds a missing one; it fails with `AlreadyExists` on a file and with the fault at a faulty path; files and faults do not change |
| FileSystem.Disk.CreateNew | src/config/namespace_def.rs:67-71 | an exclusive create adds the file exactly when nothing exists at the path and no fault is there; otherwise it reports `AlreadyExists` or the fault and changes nothing |
| FileSystem.Disk.Persist | src/routes/upload.rs:81 | moving the temporary file onto the path adds it, replacing what is there, unless the operating system reports a fault |
| Allocator.RetryAllocate | src/config/namespace_def.rs:54-85 | the loop's result is `AllocFrom` over the candidate paths and the disk as it was; only the returned path is added to the files; it was free before the call |
| Allocator.EscalationStep | src/config/namespace_def.rs:73-79 | a collision raises the counter by one, and when the counter passes the limit (strictly) the length grows by one and the counter restarts at 0 |
| Allocator.GrowthBoundary | src/config/namespace_def.rs:73-79 | the first `max_attempts_before_grow + 1` attempts use the configured length, and the next attempt is one character longer |
| Allocator.LengthMonotone | src/config/namespace_def.rs:54-79 | the name length never shrinks and never drops below the configured length |
| Allocator.EveryCollisionGrows | src/config/namespace_def.rs:73-79 | with a grow limit of 0, every collision makes the name one character longer |
| Allocator.AllocOutcome | src/config/namespace_def.rs:67-84 | the first candidate that does not collide decides the outcome: success, or the fault at that path; with no such candidate the loop is still running |
| Allocator.SuccessIsFreshCandidate | src/config/namespace_def.rs:67-72 | a reserved path was neither occupied nor faulty, and every earlier candidate collided |
| Allocator.FailureIsFault | src/config/namespace_def.rs:73-83 | the loop never fails with `AlreadyExists`; its only I/O error is the fault at a free candidate |
| Allocator.CandidateShape | src/config/namespace_def.rs:59-65 | each candidate is `<stem>.<ext>` under the base directory, with an alphanumeric stem of the current length, at least the configured length |
| Allocator.CandidateFileName | src/config/namespace_def.rs:63-65 | with a starting length of at least one, a candidate's file name is `<stem>.<ext>` and its extension is the requested one |
| Allocator.EmptyDirectoryFirstAttempt | src/config/namespace_def.rs:63-72 | in an empty directory without faults, the first candidate is reserved |
| Namespaces.CreateRandomFileName | src/config/namespace_def.rs:40-94 | the result is `Allocate` of the disk before the call; the namespace directory is added unless creating it failed; only a random generator's result is added to the files; faults are unchanged |
| Namespaces.AllocateOutcome | src/config/namespace_def.rs:45-92 | a directory failure is returned as is; a random name is fresh (not an existing path, not the namespace directory, not faulty); a random I/O error is a fault at a free path; the UUID branch succeeds exactly when it gets a draw |
| Namespaces.AllocatedNameShape | src/config/namespace_def.rs:59-92 | a returned path is `<stem>.<ext>` inside the namespace directory, with a non-empty stem of letters, digits and hyphens, whose extension is the requested one |
| Namespaces.UuidPathShape | src/config/namespace_def.rs:89-92 | the UUID branch returns `<uuid>.<ext>` in the namespace directory; its file name is that name and its extension is `ext` |
| Namespaces.DefaultNamespaceBehaviour | src/config/namespace_def.rs:97-112 | the default namespace has a 128-character alphanumeric key and its listing hidden; its names start at 12 characters and grow by one on every collision |
| Namespaces.DefaultConfigBehaviour | src/config/mod.rs:32-44 | the default configuration accepts "ferris" exactly with its generated key, and stores it in `uploads/ferris`, the directory the root route also serves, with uploads in flight in `uploads/.temp` |
| LegacyConfig.CreateRandomString | src/config.rs:261-267 | the older `create_random_string` has the requested length and only alphanumeric characters |
| LegacyConfig.CreateRandomFileName | src/config.rs:293-334 | the older allocator fails with the directory error, or runs the shared loop with the storage-wide length and limit; the path it returns was free and is now a file |
| LegacyConfig.DefaultGrowth | src/config.rs:225-235 | under the older defaults a name is one character long up to the 33rd collision, and after `n` collisions it is `1 + n / 33` long |
| Settings.ListingModeOf | src/main.rs:99-104 | a namespace is not browsable when `show` is false, and gets the fancy renderer exactly when `show` and `use_fancy_renderer` both hold |
| Settings.StorageLayout | src/config/mod.rs:113-119 | the temp directory and every plain-named namespace directory sit directly inside the uploads directory; a namespace directory is the temp directory only when the namespace is named `.temp` |
| Emoji.ResolveEmoji | src/config/fancy_rendering_emoji.rs:17-38 | a directory gets the directory glyph; a file gets the glyph mapped to its extension ("" when it has none), or the fallback glyph |
| Emoji.ResolveDependsOnlyOnExtension | src/config/fancy_rendering_emoji.rs:22-37 | two entries of the same kind and extension get the same glyph |
| Emoji.FileGlyphFollowsExtension | src/config/fancy_rendering_emoji.rs:23-36 | a file `stem.ext` in any directory gets exactly the glyph mapped to `ext`, or the fallback |
| Emoji.DotlessFileLooksUpEmptyKey | src/config/fancy_rendering_emoji.rs:23-28 | a name without a dot, and a hidden name such as `.bashrc`, is looked up under "" |
| Emoji.DefaultPictureGlyph | src/config/fancy_rendering_emoji.rs:43-44 | with the default table, `cat.png` shows the picture glyph |
| Emoji.DefaultLookupIsCaseSensitive | src/config/fancy_rendering_emoji.rs:33-36 | with the default table, `CAT.PNG` is not matched and shows the fallback glyph |
| Emoji.DefaultArchiveGlyph | src/config/fancy_rendering_emoji.rs:54 | only the last extension counts: `backup.tar.zip` shows the archive glyph |
| Emoji.DefaultDirectoryGlyph | src/config/fancy_rendering_emoji.rs:79 | a directory shows the folder glyph whatever its name says |
| Listing.Visible | src/render/mod.rs:19-22 | the listed entries are exactly the items that were read without error and that the visibility filter keeps |
| Listing.VisibleInOrder | src/render/mod.rs:19-22 | the two filters keep enumeration order: the entries are the kept items, in the order they were read, each once |
| Listing.VisibleAppend | src/render/mod.rs:19-22 | each item is kept or dropped on its own, so filtering two runs of items gives their filtered runs one after the other |
| Listing.KeyOf | src/render/mod.rs:24-37 | unreadable metadata sorts as a file at the epoch; otherwise the key is exactly (not a directory, the modification time), with an unreadable time counting as the epoch |
| Listing.SortPermutes | src/render/mod.rs:24-38 | the sort only reorders: the result is a permutation of its input |
| Listing.SortSorts | src/render/mod.rs:24-38 | the result is in key order |
| Listing.SortStable | src/render/mod.rs:24-38 | the sort is stable: the entries sharing a key keep their enumeration order |
| Listing.SortOrder | src/render/mod.rs:29-37 | in the sorted entries every directory comes before every file, and within each group the modification times do not increase |
| Listing.UnreadableTimeSortsLast | src/render/mod.rs:32-35 | an entry whose time cannot be read is only followed, within its group, by entries from no later than the epoch |
| Listing.SortIdempotent | src/render/mod.rs:24-38 | sorting entries already in order leaves them unchanged |
| Listing.InsertPosition | src/render/mod.rs:24 | inserting an entry places it right after the last entry it may follow |
| Listing.ShiftGreater | src/render/mod.rs:24 | the inner loop of the insertion sort moves every entry that must follow `x` one place right and leaves the gap where `x` belongs |
| Listing.InsertAt | src/render/mod.rs:24 | one pass of the sort turns the array's first `i + 1` entries into the sorted insertion of entry `i` and leaves the rest alone |
| Listing.SortInPlace | src/render/mod.rs:24-38 | sorting the array in place leaves exactly `SortByKey` of its old contents |
| Listing.SortedEntries | src/render/mod.rs:18-41 | `sorted_entries` returns the read error, or the visible readable entries in key order |
| Listing.ExampleOrder | src/render/mod.rs:24-38 | directories at times 10 and 20 and files at times 30 and 5 list as the newer directory, the older directory, the newer file, the older file |
| Listing.BackLink | src/render/mod.rs:51-62 | there is no back link at depth one or less; otherwise it starts and ends with '/' |
| Listing.BackLinkIsParent | src/render/mod.rs:52-60 | the back link holds exactly the request path's segments but the last, with trailing slashes ignored |
| Listing.BackLinkOfDirectoryPath | src/render/mod.rs:51-62 | the parent of `/a/.../y/z/` is `/a/.../y/`, and `/a/` has none |
| Listing.BackLinkExamples | src/render/mod.rs:51-62 | the parent of `/pics/sub/` is `/pics/`, and `/pics/` has none |
| Listing.Survive | src/render/mod.rs:70-79 | an entry becomes a row exactly when its path lies under the directory and its metadata can be read; its link is the request path joined with the relative path |
| Listing.SurvivorsAppend | src/render/mod.rs:69-101 | each entry decides its own row, so the rows of two runs of entries are concatenated |
| Listing.AllSurvive | src/render/mod.rs:69-101 | when no entry is skipped, row `i` comes from entry `i` |
| Listing.SurvivorsInOrder | src/render/mod.rs:69-101 | the rows are exactly the surviving entries' rows, in order, none missing and none repeated |
| Listing.SurvivorsFollowSortOrder | src/render/mod.rs:69-101 | the rows of sorted entries put directories first and newer entries first within each group |
| Listing.ChildHref | src/render/mod.rs:70-72 | an entry directly inside the directory links to its own name under the request path |
| RenderListing.Rows | src/render/mod.rs:66-101 | there is one row per surviving entry, in order; row `k` is a directory exactly when entry `k`'s metadata says so, and shows that entry's name, link, emoji, time (the clock reading when unreadable) and size |
| RenderListing.Respond | src/render/mod.rs:110-124 | a template failure answers 500 with the fixed message; otherwise the answer is 200 with the rendered page |
| RenderListing.BuildRows | src/render/mod.rs:66-101 | the row loop builds exactly the rows of the surviving entries |
| RenderListing.DirectoryListing | src/render/mod.rs:45-125 | a missing configuration is an error, checked first; then the read error; otherwise the response for the view of the sorted entries |
| RenderListing.RowsDirectoriesFirst | src/render/mod.rs:85-99 | among the rendered rows, directories come first, and within a group newer entries come first |
| RenderListing.NothingSkipped | src/render/mod.rs:64-101 | when no entry is skipped, the page has one row per entry and shows that count |
| LegacyListing.BuildItems | src/directory.rs:73-115 | the item loop appends exactly the items of the surviving entries, in order |
| LegacyListing.DirectoryListing | src/directory.rs:48-124 | a missing configuration is an error, checked first; then the read error; otherwise the page (title, back block, items) of the sorted entries |
| LegacyListing.NameEnding | src/directory.rs:96-109 | a directory's link text ends in its name and '/', and a file's row ends with its size |
| LegacyListing.ListItemsAppend | src/directory.rs:73-115 | the items of two runs of entries are the items of each, one after the other |
| LegacyListing.BackHtmlIffBackLink | src/directory.rs:117-124 | the parent-directory block is empty exactly when there is no back link, and otherwise opens the back `div` |
| Upload.OfLink | src/routes/upload.rs:27-32 | `of_link` carries the link and no error |
| Upload.OfError | src/routes/upload.rs:34-39 | `of_error` carries the message and no link |
| Upload.PayloadExclusive | src/routes/upload.rs:18-39 | each constructor fills exactly one of the two fields, so a link payload is never an error payload |
| Upload.GetFileExtension | src/routes/upload.rs:112-119 | the extension holds no dot and no '/'; a missing file name counts as "unnamed" and gives "" |
| Upload.UploadedExtension | src/routes/upload.rs:112-119 | a client name `dir/stem.ext` gives exactly `ext` |
| Upload.NoExtension | src/routes/upload.rs:112-119 | a name without a dot, or a hidden name such as `.bashrc`, gives "" |
| Upload.LinkOfStoredName | src/routes/upload.rs:95-108 | the link of a stored file is the listen URL's directory, then the namespace, '/', then the file's name |
| Upload.LinkExample | src/routes/upload.rs:95-108 | with the default listen URL, `abc123.png` in `pics` is linked at `http://localhost:3000/pics/abc123.png` |
| Upload.EncodedLinkOutsideModel | src/routes/upload.rs:95-99 | a namespace name whose link needs percent-encoding, such as `my pics`, is not resolved by the model |
| Upload.Upload | src/routes/upload.rs:43-109 | failed authentication answers 401 and touches nothing; an allocation error answers 500; a failed move answers 500; success answers 200 with the link; the namespace directory is added unless creating it failed, and the files gain exactly the reserved or moved path |
| Upload.AllocatedLink | src/routes/upload.rs:95-108 | a path the allocation returns is `<name>` in the namespace directory with the requested extension, and is linked under the namespace at that name |
| Upload.UploadLink | src/routes/upload.rs:64-108 | after authentication and allocation, the upload's link ends in the namespace name and the stored name, and that name carries the upload's extension |
| Paths.FileNameOfJoin | src/routes/upload.rs:101-103 | the file name of a directory joined with a plain name is that name |
| Paths.StripPrefixOfJoin | src/render/mod.rs:70 | `strip_prefix` undoes `join` with a plain name |
| Paths.ExtensionOfStem | src/routes/upload.rs:115-118 | `stem.ext` has the extension `ext` whenever `ext` has no dot |
| Paths.ExtensionShape | src/routes/upload.rs:115-118 | an extension is the dot-free text after a dot that is not the name's first character |
| Urls.JoinTwice | src/routes/upload.rs:95-107 | resolving `dir/` and then a plain name against a URL appends both to the URL's directory |
| Text.SegmentsIgnoreTrailingSlashes | src/render/mod.rs:52-53 | trimming trailing slashes never changes the non-empty segments |
| Text.SegmentsOfJoin | src/render/mod.rs:58 | splitting a '/'-joined list of segments gives the list back |

## Left out

- Reading and writing `mediaserver.toml`, serde defaults and `ConfigError`
  are not modelled. The `Default` values are modelled as constants.
  `create_uploads_directory` and the server wiring are not modelled either;
  `Settings.ListingModeOf` and `Namespaces.DefaultConfigBehaviour` state
  what main.rs derives from the configuration.
- The multipart parsing, its `max_file_size_bytes` limit, the `.temp`
  directory's use by `TempFile`, and the logging are left out. They belong
  to the web framework.
- The random number generator and `Uuid::new_v4` are inputs: one
  `Sampler` per attempt.
- Allocator.RetryAllocate: the server's loop is unbounded. The model
  stops with `Exhausted` when the draws run out, and `Exhausted` stands
  for a loop still running. The same holds for
  Namespaces.CreateRandomFileName and LegacyConfig.CreateRandomFileName.
- Allocator.RetryAllocate: a zero-length name with an empty extension is
  not modelled faithfully. The candidate is then `<dir>/.`, which on the
  server names the namespace directory itself. The server's exclusive
  create fails with AlreadyExists, so it counts a collision and later
  grows to a length of 1. The model compares paths as strings, so it
  finds `<dir>/.` free and reserves it as a new file. A zero length needs
  a namespace configured with `length: 0`, and an empty extension needs a
  dotless upload.
- Allocator.RetryAllocate: the length and the counter are unbounded
  integers. The source's `u32` counter (`usize` in the older layout) and
  `usize` length could overflow only after more than 2^32 collisions.
- Upload.Upload: a loop still running is reported as `StillAllocating`.
  So is a UUID namespace given no draw at all, although the UUID branch
  of the source never loops.
- Upload.Upload: a link that URL resolution would reject is
  `LinkOutsideModel`, and so is any link beyond a plain relative path
  (the server panics on the first kind). The second kind covers a
  namespace name or an extension with a character that resolution
  percent-encodes (controls, space, `"`, `<`, `>`, backquote, `{`, `}`,
  non-ASCII), or with ':', '?', '#', '\', '%' or a dot segment. The
  model does not state the encoded link for these.
- Urls.Join: only covers plain relative references, following section 5.2
  of RFC 3986 (merge with the base's directory), made of characters that
  are copied unchanged. Absolute references, queries, fragments,
  dot-segment removal and percent-encoding are not modelled. Such
  references give `None`, not a wrong URL.
- FileSystem.Disk.CreateDirAll: creates only the directory it is given,
  not its missing parents as `fs::create_dir_all` does. Directories are a
  set of path strings with no parent relation, so the model does not
  capture a parent appearing as a side effect.
- The chrono time format, bytesize sizes, num_format counts, HTML escaping,
  percent-encoding and the askama template are parameters (`Formatting`,
  `Renderer`). Only the fixed HTML the older renderer writes around them is
  modelled, not its surrounding document and style sheet.
- `Directory::is_visible` is a parameter. The directory's entries and each
  entry's metadata are read once, and a single clock reading `now` stands
  for `SystemTime::now()`.
- The Windows branch of the row link (replacing '\' by '/') is left out.
  Paths are Unix paths compared as strings, and the disk identifies files
  by their path string. Lossy conversion of non-UTF-8 names is not
  modelled, because strings are sequences of characters.
- Modification times are integers counted from the Unix epoch, and the
  port is an unbounded natural.
- Namespaces.DefaultNamespace: the current layout's default namespace uses
  a grow limit of 0, while the serde default of a bare `StringGenerator`
  is 32. Both values are modelled as written.
- `index_redirect` and the static file service are not modelled.
