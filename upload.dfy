/**
 * The upload endpoint (`src/routes/upload.rs`): authenticate the namespace,
 * reserve a fresh file name with the upload's extension, move the uploaded
 * temporary file onto it, and answer with the public link to the file.
 */
module Upload {
  import opened Wrappers
  import opened Text
  import opened Paths
  import opened FileSystem
  import opened NameGenerator
  import opened Allocator
  import Urls
  import opened Namespaces

  /** The JSON body of every answer: a link on success, an error message otherwise. */
  datatype ResponsePayload = ResponsePayload(link: Option<Urls.Url>, error: Option<string>)

  /**
   * What the handler hands back. `StillAllocating` stands for the allocation
   * loop that has not finished within the draws given; `LinkOutsideModel` for
   * a link whose URL resolution this model does not cover.
   */
  datatype Outcome =
    | Responded(status: nat, payload: ResponsePayload)
    | StillAllocating
    | LinkOutsideModel

  /** The multipart form: the uploaded file's client-side name, the namespace and its key. */
  datatype UploadForm = UploadForm(fileName: Option<string>, namespace: string, authKey: string)

  const AuthFailure := "Failed to authenticate"
  const PathFailure := "Failed to create path for uploaded file"
  const PersistFailure := "Failed to persist uploaded file"

  /** `ResponsePayload::of_link`: a link and no error. */
  function OfLink(url: Urls.Url): (r: ResponsePayload)
    ensures r.link == Some(url) && r.error.None?
  {
    ResponsePayload(Some(url), None)
  }

  /** `ResponsePayload::of_error`: an error and no link. */
  function OfError(message: string): (r: ResponsePayload)
    ensures r.error == Some(message) && r.link.None?
  {
    ResponsePayload(None, Some(message))
  }

  /** A payload built by either constructor carries exactly one of its two fields. */
  lemma {:induction false} PayloadExclusive(url: Urls.Url, message: string)
    ensures OfLink(url).link.Some? != OfLink(url).error.Some?
    ensures OfError(message).link.Some? != OfError(message).error.Some?
    ensures OfLink(url) != OfError(message)
  {
  }

  /** The extension of a path, when it has one, holds neither a dot nor a '/'. */
  lemma {:induction false} ExtensionIsClean(p: string)
    ensures Extension(p).Some? ==> '.' !in Extension(p).value && '/' !in Extension(p).value
  {
    if Extension(p).Some? {
      var name := FileName(p).value;
      var parts := Split(p);
      assert name in Normal(parts);
      assert name in parts;
      ExtensionShape(name, Extension(p).value);
    }
  }

  /** A name with neither a dot nor a '/' has no extension. */
  lemma {:induction false} DotlessNameHasNoExtension(name: string)
    requires '.' !in name && '/' !in name
    ensures Extension(name) == None
  {
    SplitOfSegment(name);
    assert Split(name) == [name];
    if name != [] {
      assert [name][1..] == [];
      assert Normal([name]) == [name];
    }
  }

  /**
   * `get_file_extension`: the extension of the client-side file name, a
   * missing name counting as "unnamed", and "" when there is no extension.
   */
  function GetFileExtension(fileName: Option<string>): (r: string)
    ensures '.' !in r && '/' !in r
    ensures fileName.None? ==> r == ""
  {
    var name := fileName.GetOr("unnamed");
    ExtensionIsClean(name);
    DotlessNameHasNoExtension("unnamed");
    Extension(name).GetOr("")
  }

  /** An uploaded `stem.ext` keeps the extension `ext`, whatever directories its client-side name carries. */
  lemma {:induction false} UploadedExtension(dir: string, stem: string, ext: string)
    requires stem != [] && stem != "." && '/' !in stem
    requires '.' !in ext && '/' !in ext
    ensures GetFileExtension(Some(Join(dir, stem + "." + ext))) == ext
  {
    PlainStemName(stem, ext);
    FileNameOfJoin(dir, stem + "." + ext);
    ExtensionOfStem(stem, ext);
  }

  /** A name with no dot, and a hidden name such as `.bashrc`, give the empty extension. */
  lemma {:induction false} NoExtension(name: string)
    requires '/' !in name
    requires '.' !in name || (name != [] && name[0] == '.' && '.' !in name[1..])
    ensures GetFileExtension(Some(name)) == ""
  {
    if '.' !in name {
      DotlessNameHasNoExtension(name);
    } else {
      SplitOfSegment(name);
      assert Split(name) == [name];
      if name != "." {
        assert [name][1..] == [];
        assert Normal([name]) == [name];
      }
    }
  }

  /**
   * The public link: the listen URL joined with `<namespace>/`, then with the
   * stored file's name. `None` when a join falls outside the plain relative
   * references modelled, or the path has no file name.
   */
  function Link(listenUrl: Urls.Url, namespace: string, path: string): Option<Urls.Url> {
    match Urls.Join(listenUrl, namespace + "/")
    case None => None
    case Some(dirUrl) =>
      match FileName(path)
      case None => None
      case Some(name) => Urls.Join(dirUrl, name)
  }

  /** A name the link holds as it is, with no character to percent-encode. */
  predicate IsLinkSafe(s: string) {
    forall k :: 0 <= k < |s| ==> Urls.IsVerbatimPathChar(s[k])
  }

  /**
   * The link to a file stored as `name` in any directory is the listen URL's
   * directory, then the namespace, then `name`.
   */
  lemma {:induction false} LinkOfStoredName(listenUrl: Urls.Url, namespace: string, dir: string, name: string)
    requires IsPlainName(namespace) && IsLinkSafe(namespace)
    requires IsPlainName(name) && IsLinkSafe(name)
    ensures Link(listenUrl, namespace, Join(dir, name))
         == Some(Urls.Url(listenUrl.origin, Urls.DirectoryPart(listenUrl.path) + namespace + "/" + name))
  {
    FileNameOfJoin(dir, name);
    SplitOfSegment(name);
    assert Split(name) == [name];
    assert Urls.IsPlainRelative(name);
    Urls.JoinTwice(listenUrl, namespace, name);
  }

  /** With the default listen URL, a file `abc123.png` uploaded to `pics` is linked at `http://localhost:3000/pics/abc123.png`. */
  lemma {:induction false} LinkExample(dir: string)
    ensures Link(Urls.Url("http://localhost:3000", "/"), "pics", Join(dir, "abc123.png"))
         == Some(Urls.Url("http://localhost:3000", "/pics/abc123.png"))
  {
    ExampleNamesAreSafe();
    LinkOfStoredName(Urls.Url("http://localhost:3000", "/"), "pics", dir, "abc123.png");
    ExampleLinkPath();
  }

  /**
   * A namespace whose link would need percent-encoding (here a space) is not
   * resolved by this model: its upload answers `LinkOutsideModel`.
   */
  lemma {:induction false} EncodedLinkOutsideModel(dir: string)
    ensures Link(Urls.Url("http://localhost:3000", "/"), "my pics", Join(dir, "abc123.png")) == None
  {
    assert !Urls.IsVerbatimPathChar(("my pics" + "/")[2]);
  }

  lemma {:induction false} ExampleLinkPath()
    ensures Urls.DirectoryPart("/") + "pics" + "/" + "abc123.png" == "/pics/abc123.png"
  {
    Urls.DirectoryPartOfDirectory("/");
  }

  lemma {:induction false} ExampleNamesAreSafe()
    ensures IsPlainName("pics") && IsLinkSafe("pics")
    ensures IsPlainName("abc123.png") && IsLinkSafe("abc123.png")
  {
    assert "abc123.png" == "abc123" + "." + "png";
    PlainStemName("abc123", "png");
  }

  /**
   * `upload`. An unknown namespace or a wrong key answers 401 and touches
   * nothing. Otherwise the file name is allocated with the upload's extension;
   * a failure there answers 500 without moving the upload. The temporary file
   * is then moved onto the allocated path, a failure answering 500, and
   * success answers 200 with the public link.
   */
  method Upload(c: Config, form: UploadForm, persistFault: Option<FaultKind>, disk: Disk, draws: seq<Sampler>)
    returns (o: Outcome)
    modifies disk
    ensures Auth(c.namespaces, form.namespace, form.authKey).None? ==>
      && o == Responded(401, OfError(AuthFailure))
      && disk.files == old(disk.files) && disk.dirs == old(disk.dirs)
    ensures Auth(c.namespaces, form.namespace, form.authKey).Some? ==>
      var ns := Auth(c.namespaces, form.namespace, form.authKey).value;
      var alloc := Allocate(ns, c, GetFileExtension(form.fileName), old(disk.DirAllFailure(GetPath(ns, c))),
                            old(disk.Occupied()), old(disk.faults), draws);
      && (alloc.Failure? && alloc.error.Exhausted? ==> o == StillAllocating)
      && (alloc.Failure? && alloc.error.Io? ==> o == Responded(500, OfError(PathFailure)))
      && (alloc.Success? && persistFault.Some? ==> o == Responded(500, OfError(PersistFailure)))
      && (alloc.Success? && persistFault.None? ==>
            o == match Link(c.webServer.listenUrl, form.namespace, alloc.value)
                 case None => LinkOutsideModel
                 case Some(url) => Responded(200, OfLink(url)))
      && disk.dirs == old(disk.dirs)
           + (if old(disk.DirAllFailure(GetPath(ns, c))).None? then {GetPath(ns, c)} else {})
      && disk.files == old(disk.files)
           + (if alloc.Success? && (ns.fileNameGenerator.Random? || persistFault.None?) then {alloc.value} else {})
    ensures disk.faults == old(disk.faults)
  {
    var auth := Auth(c.namespaces, form.namespace, form.authKey);
    if auth.None? {
      return Responded(401, OfError(AuthFailure));
    }
    var ns := auth.value;
    var filePath := CreateRandomFileName(ns, c, GetFileExtension(form.fileName), disk, draws);
    if filePath.Failure? {
      if filePath.error.Exhausted? {
        return StillAllocating;
      }
      return Responded(500, OfError(PathFailure));
    }
    var persisted := disk.Persist(filePath.value, persistFault);
    if persisted.Failure? {
      return Responded(500, OfError(PersistFailure));
    }
    match Link(c.webServer.listenUrl, form.namespace, filePath.value) {
      case None =>
        o := LinkOutsideModel;
      case Some(url) =>
        o := Responded(200, OfLink(url));
    }
  }

  /** A generated stem with a link-safe extension makes a link-safe name. */
  lemma {:induction false} StoredNameIsLinkSafe(stem: string, ext: string)
    requires forall k :: 0 <= k < |stem| ==> IsNameChar(stem[k])
    requires IsLinkSafe(ext)
    ensures IsLinkSafe(stem + "." + ext)
  {
    var name := stem + "." + ext;
    forall k | 0 <= k < |name| ensures Urls.IsVerbatimPathChar(name[k]) {
      if k < |stem| {
        assert name[k] == stem[k] && IsNameChar(stem[k]);
      } else if k > |stem| {
        assert name[k] == ext[k - |stem| - 1];
      }
    }
  }

  /**
   * A name the allocation returns, with a link-safe extension, is linked at
   * the listen URL's directory, then the namespace, then the stored name.
   */
  lemma {:induction false} AllocatedLink(ns: NamespaceDefinition, c: Config, ext: string, namespace: string,
                      dirFailure: Option<IoError>, occupied: set<string>, faults: map<string, FaultKind>,
                      draws: seq<Sampler>, path: string)
    returns (name: string)
    requires Allocate(ns, c, ext, dirFailure, occupied, faults, draws) == Success(path)
    requires ns.fileNameGenerator.Random? ==> ns.fileNameGenerator.length >= 1
    requires '.' !in ext && '/' !in ext && IsLinkSafe(ext)
    requires IsPlainName(namespace) && IsLinkSafe(namespace)
    ensures path == Join(GetPath(ns, c), name) && NameExtension(name) == Some(ext)
    ensures Link(c.webServer.listenUrl, namespace, path)
         == Some(Urls.Url(c.webServer.listenUrl.origin, Urls.DirectoryPart(c.webServer.listenUrl.path) + namespace + "/" + name))
  {
    AllocatedNameShape(ns, c, ext, dirFailure, occupied, faults, draws, path);
    var stem :| StoredAs(path, GetPath(ns, c), stem, ext);
    StoredNameIsLinkSafe(stem, ext);
    name := stem + "." + ext;
    LinkOfStoredName(c.webServer.listenUrl, namespace, GetPath(ns, c), name);
  }

  /**
   * A successful upload is linked at the listen URL's directory, then the
   * namespace name the client sent, then the stored file's name, and that
   * name carries the upload's extension. (The link uses the namespace's name,
   * the file its configured directory.)
   */
  lemma {:induction false} UploadLink(c: Config, form: UploadForm, ns: NamespaceDefinition, dirFailure: Option<IoError>,
                   occupied: set<string>, faults: map<string, FaultKind>, draws: seq<Sampler>, path: string)
    requires Auth(c.namespaces, form.namespace, form.authKey) == Some(ns)
    requires Allocate(ns, c, GetFileExtension(form.fileName), dirFailure, occupied, faults, draws) == Success(path)
    requires ns.fileNameGenerator.Random? ==> ns.fileNameGenerator.length >= 1
    requires IsPlainName(form.namespace) && IsLinkSafe(form.namespace) && IsLinkSafe(GetFileExtension(form.fileName))
    ensures exists name ::
      && path == Join(GetPath(ns, c), name)
      && NameExtension(name) == Some(GetFileExtension(form.fileName))
      && Link(c.webServer.listenUrl, form.namespace, path)
         == Some(Urls.Url(c.webServer.listenUrl.origin,
                          Urls.DirectoryPart(c.webServer.listenUrl.path) + form.namespace + "/" + name))
  {
    var name := AllocatedLink(ns, c, GetFileExtension(form.fileName), form.namespace,
                              dirFailure, occupied, faults, draws, path);
  }
}
