/**
 * The PID-file manager: a pre-check against a process-liveness oracle, the
 * creation of the file holding the current pid, read-only accessors and
 * removal. The filesystem is a map from path to file contents; the oracle is
 * the set of live pids; the current pid is a parameter.
 */
module PidFile {
  import opened Wrappers
  import opened GoStrings
  import opened GoStrconv

  /** The failures the manager reports; each names the path it concerns. */
  datatype Error =
    | Conflict(path: string)      // a live process already owns the PID file
    | WriteFailed(path: string)   // the file could not be written
    | RemoveFailed(path: string)  // the file could not be removed

  /** A created PID file. Its fields are never updated after construction. */
  datatype PIDFile = PIDFile(path: string, pid: Int) {

    /** The pid that was written. */
    function GetPID(): (p: Int)
      ensures p == pid
    {
      pid
    }

    /** The path that was written. */
    function GetPath(): (p: string)
      ensures p == path
    {
      path
    }

    /**
     * Deletes the file at the stored path. The value itself is unchanged,
     * so removing twice fails the second time.
     */
    method Remove(fs: FileSystem) returns (err: Option<Error>)
      modifies fs
      ensures old(path in fs.files) && path !in fs.undeletable ==>
        err == None && fs.files == old(fs.files) - {path}
      ensures !old(path in fs.files) || path in fs.undeletable ==>
        err == Some(RemoveFailed(path)) && fs.files == old(fs.files)
    {
      err := fs.RemoveFile(path);
    }
  }

  /**
   * The host filesystem: the contents of every file, and the paths on which
   * reading, writing or removing fails (permissions, directories in the way,
   * a full disk, ...). Only the contents change.
   */
  class FileSystem {
    var files: map<string, string>
    const unreadable: set<string>
    const unwritable: set<string>
    const undeletable: set<string>

    constructor (files: map<string, string>, unreadable: set<string>, unwritable: set<string>, undeletable: set<string>)
      ensures this.files == files && this.unreadable == unreadable
      ensures this.unwritable == unwritable && this.undeletable == undeletable
    {
      this.files := files;
      this.unreadable := unreadable;
      this.unwritable := unwritable;
      this.undeletable := undeletable;
    }

    /** `ioutil.WriteFile`: creates or truncates the file and writes `data`. */
    method WriteFile(path: string, data: string) returns (err: Option<Error>)
      modifies this
      ensures path !in unwritable ==> err == None && files == old(files)[path := data]
      ensures path in unwritable ==> err == Some(WriteFailed(path)) && files == old(files)
    {
      if path in unwritable {
        err := Some(WriteFailed(path));
      } else {
        files := files[path := data];
        err := None;
      }
    }

    /** `os.Remove` of a file. */
    method RemoveFile(path: string) returns (err: Option<Error>)
      modifies this
      ensures old(path in files) && path !in undeletable ==> err == None && files == old(files) - {path}
      ensures !old(path in files) || path in undeletable ==> err == Some(RemoveFailed(path)) && files == old(files)
    {
      if path in files && path !in undeletable {
        files := files - {path};
        err := None;
      } else {
        err := Some(RemoveFailed(path));
      }
    }
  }

  /** `ioutil.ReadFile`: the contents, or `None` when the file is absent or unreadable. */
  function ReadFile(files: map<string, string>, unreadable: set<string>, path: string): (r: Option<string>)
    ensures r.Some? <==> path in files && path !in unreadable
    ensures r.Some? ==> r.value == files[path]
  {
    if path in files && path !in unreadable then Some(files[path]) else None
  }

  /**
   * `checkPIDFileAlreadyExists`: a conflict exactly when the file can be read,
   * its trimmed contents parse as an integer, and that pid is alive. An
   * absent or unreadable file, garbage, empty text, an out-of-range number
   * and a stale pid are all "no conflict".
   */
  function CheckPIDFileAlreadyExists(files: map<string, string>, unreadable: set<string>, alive: set<int>, path: string): (err: Option<Error>)
    ensures err.Some? <==>
      && path in files && path !in unreadable
      && Atoi(TrimSpace(files[path])).Success?
      && Atoi(TrimSpace(files[path])).value in alive
    ensures err.Some? ==> err.value == Conflict(path)
  {
    match ReadFile(files, unreadable, path)
    case None => None
    case Some(content) =>
      match Atoi(TrimSpace(content))
      case Failure(_) => None
      case Success(pid) => if pid in alive then Some(Conflict(path)) else None
  }

  /** The file `New` writes reads back, through the pre-check's parse, as the pid written. */
  lemma ContentRoundTrip(pid: Int)
    ensures Atoi(TrimSpace(FormatInt(pid))) == Success(pid)
  {
    var s := FormatInt(pid);
    assert !IsSpace(s[0]) && !IsSpace(s[|s| - 1]);
    TrimSpaceUnpadded(s);
    AtoiFormat(pid);
  }

  /** A file without a single digit can never block creation. */
  lemma GarbageNoConflict(files: map<string, string>, unreadable: set<string>, alive: set<int>, path: string)
    requires path in files
    requires forall i | 0 <= i < |files[path]| :: !IsDigit(files[path][i])
    ensures CheckPIDFileAlreadyExists(files, unreadable, alive, path) == None
  {
    var t := TrimSpace(files[path]);
    var j := if t != [] && !IsDigit(t[0]) then 1 else 0;
    if j < |t| {
      TrimSpaceChars(files[path], j);
      assert !IsDigit(t[j]);
    }
  }

  /**
   * A stale pid or unparseable contents count as an absent file: the
   * pre-check passes as it would on an empty path, and writing the new pid
   * leaves the same map as writing it to an empty path would.
   */
  lemma StaleIsLikeAbsent(files: map<string, string>, unreadable: set<string>, alive: set<int>, path: string, pid: Int)
    requires path in files
    requires Atoi(TrimSpace(files[path])).Failure? || Atoi(TrimSpace(files[path])).value !in alive
    ensures CheckPIDFileAlreadyExists(files, unreadable, alive, path) == None
    ensures CheckPIDFileAlreadyExists(files - {path}, unreadable, alive, path) == None
    ensures files[path := FormatInt(pid)] == (files - {path})[path := FormatInt(pid)]
  {
    WriteReplaces(files, path, FormatInt(pid));
  }

  /** Writing a path gives the same map whether or not the path held a file before. */
  lemma WriteReplaces(files: map<string, string>, path: string, data: string)
    ensures (files - {path})[path := data] == files[path := data]
  {
  }

  /** Once `New` has written a pid that is alive, every later pre-check on that path conflicts. */
  lemma OwnFileConflicts(files: map<string, string>, unreadable: set<string>, alive: set<int>, path: string, pid: Int)
    requires pid in alive && path !in unreadable
    ensures CheckPIDFileAlreadyExists(files[path := FormatInt(pid)], unreadable, alive, path) == Some(Conflict(path))
  {
    ContentRoundTrip(pid);
  }

  /** The pre-check looks at no other path than its own. */
  lemma CheckIsLocal(files: map<string, string>, unreadable: set<string>, alive: set<int>, path: string, other: string, data: string)
    requires other != path
    ensures CheckPIDFileAlreadyExists(files[other := data], unreadable, alive, path)
         == CheckPIDFileAlreadyExists(files, unreadable, alive, path)
  {
  }

  /**
   * `New`: pre-check, then write the current pid in decimal, then return the
   * PIDFile. Creating the parent directories has no effect on the map and is
   * not modelled.
   */
  method New(fs: FileSystem, path: string, pid: Int, alive: set<int>) returns (r: Result<PIDFile, Error>)
    modifies fs
    // a live conflicting pid: fail and touch nothing
    ensures CheckPIDFileAlreadyExists(old(fs.files), fs.unreadable, alive, path) == Some(Conflict(path)) ==>
      r == Failure(Conflict(path)) && fs.files == old(fs.files)
    // no conflict but the write fails: return the write error and no PIDFile
    ensures CheckPIDFileAlreadyExists(old(fs.files), fs.unreadable, alive, path) == None && path in fs.unwritable ==>
      r == Failure(WriteFailed(path)) && fs.files == old(fs.files)
    // success: the file at `path` holds exactly the decimal pid, nothing else changed
    ensures CheckPIDFileAlreadyExists(old(fs.files), fs.unreadable, alive, path) == None && path !in fs.unwritable ==>
      r == Success(PIDFile(path, pid)) && fs.files == old(fs.files)[path := FormatInt(pid)]
    // round trip: what is on disk parses back to the returned pid
    ensures r.Success? ==>
      r.value.GetPath() in fs.files && Atoi(TrimSpace(fs.files[r.value.GetPath()])) == Success(r.value.GetPID())
  {
    var conflict := CheckPIDFileAlreadyExists(fs.files, fs.unreadable, alive, path);
    if conflict.Some? {
      return Failure(conflict.value);
    }
    var err := fs.WriteFile(path, FormatInt(pid));
    if err.Some? {
      return Failure(err.value);
    }
    ContentRoundTrip(pid);
    r := Success(PIDFile(path, pid));
  }

  /**
   * Creating twice: the first call writes the pid, and while that pid is
   * alive the second is refused and leaves the file as the first left it.
   */
  method CreateTwice(fs: FileSystem, path: string, pid: Int, alive: set<int>) returns (file: PIDFile)
    requires pid in alive
    requires path !in fs.unreadable && path !in fs.unwritable
    requires CheckPIDFileAlreadyExists(fs.files, fs.unreadable, alive, path) == None
    modifies fs
    ensures file == PIDFile(path, pid)
    ensures fs.files == old(fs.files)[path := FormatInt(pid)]
  {
    var first := New(fs, path, pid, alive);
    file := first.value;
    OwnFileConflicts(old(fs.files), fs.unreadable, alive, path, pid);
    var second := New(fs, path, pid, alive);
    assert second == Failure(Conflict(path));
  }

  /**
   * Removing twice, then creating again: the first removal deletes the file,
   * the second fails, and a new PIDFile is created as on an empty path.
   */
  method RemoveTwiceThenCreate(fs: FileSystem, file: PIDFile, alive: set<int>) returns (again: PIDFile)
    requires file.path in fs.files
    requires file.path !in fs.undeletable && file.path !in fs.unwritable
    modifies fs
    ensures again == file
    ensures fs.files == old(fs.files)[file.path := FormatInt(file.pid)]
  {
    var removed := file.Remove(fs);
    assert removed == None;
    var twice := file.Remove(fs);
    assert twice == Some(RemoveFailed(file.path));
    ghost var empty := fs.files;
    assert empty == old(fs.files) - {file.path};
    assert CheckPIDFileAlreadyExists(empty, fs.unreadable, alive, file.path) == None;
    var created := New(fs, file.path, file.pid, alive);
    again := created.value;
    assert fs.files == empty[file.path := FormatInt(file.pid)];
    WriteReplaces(old(fs.files), file.path, FormatInt(file.pid));
  }
}
