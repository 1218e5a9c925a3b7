/**
 * The part of the filesystem the server touches, as one mutable object: which
 * files and directories exist, and at which paths a creation fails for a
 * reason of its own (permissions, a full disk, ...).
 */
module FileSystem {
  import opened Wrappers

  /** Why a filesystem call failed, other than the target already existing. */
  datatype FaultKind = PermissionDenied | StorageFull | ReadOnlyFilesystem | OtherFault

  /** `io::Error` by kind: `AlreadyExists` is the only kind the allocator looks at. */
  datatype IoError = AlreadyExists | Fault(kind: FaultKind)

  class Disk {
    var files: set<string>
    var dirs: set<string>
    /** Creating something at one of these paths fails with the mapped fault. */
    var faults: map<string, FaultKind>

    constructor (files: set<string>, dirs: set<string>, faults: map<string, FaultKind>)
      ensures this.files == files && this.dirs == dirs && this.faults == faults
    {
      this.files := files;
      this.dirs := dirs;
      this.faults := faults;
    }

    /** Every path at which something exists. */
    function Occupied(): set<string>
      reads this
    {
      files + dirs
    }

    /** The error `fs::create_dir_all(path)` reports in this state, if any. */
    function DirAllFailure(path: string): Option<IoError>
      reads this
    {
      if path in dirs then None
      else if path in files then Some(AlreadyExists)
      else if path in faults then Some(Fault(faults[path]))
      else None
    }

    /** The error an exclusive create (`create_new(true)`) of `path` reports in this state, if any. */
    function CreateFailure(path: string): Option<IoError>
      reads this
    {
      if path in Occupied() then Some(AlreadyExists)
      else if path in faults then Some(Fault(faults[path]))
      else None
    }

    /** `fs::create_dir_all`: nothing to do for an existing directory. */
    method CreateDirAll(path: string) returns (r: Result<(), IoError>)
      modifies this
      ensures r.Failure? <==> old(DirAllFailure(path)).Some?
      ensures r.Failure? ==> r.error == old(DirAllFailure(path)).value
      ensures dirs == (if r.Success? then old(dirs) + {path} else old(dirs))
      ensures r.Success? ==> path in dirs
      ensures files == old(files) && faults == old(faults)
    {
      if path in dirs {
        r := Success(());
      } else if path in files {
        r := Failure(AlreadyExists);
      } else if path in faults {
        r := Failure(Fault(faults[path]));
      } else {
        dirs := dirs + {path};
        r := Success(());
      }
    }

    /** `OpenOptions::new().write(true).create_new(true).open(path)`: creates only when nothing is there. */
    method CreateNew(path: string) returns (r: Result<(), IoError>)
      modifies this
      ensures r.Failure? <==> old(CreateFailure(path)).Some?
      ensures r.Failure? ==> r.error == old(CreateFailure(path)).value
      ensures files == (if r.Success? then old(files) + {path} else old(files))
      ensures r.Success? ==> path !in old(Occupied()) && path in files
      ensures dirs == old(dirs) && faults == old(faults)
    {
      if path in files + dirs {
        r := Failure(AlreadyExists);
      } else if path in faults {
        r := Failure(Fault(faults[path]));
      } else {
        files := files + {path};
        r := Success(());
      }
    }

    /**
     * `TempFile::persist(path)`: moves the uploaded temporary file onto `path`,
     * replacing what is there; `fault` is the failure the operating system reports, if any.
     */
    method Persist(path: string, fault: Option<FaultKind>) returns (r: Result<(), IoError>)
      modifies this
      ensures r.Failure? <==> fault.Some?
      ensures r.Failure? ==> r.error == Fault(fault.value)
      ensures files == (if r.Success? then old(files) + {path} else old(files))
      ensures dirs == old(dirs) && faults == old(faults)
    {
      if fault.Some? {
        r := Failure(Fault(fault.value));
      } else {
        files := files + {path};
        r := Success(());
      }
    }
  }
}
