/** The File base class and its HDF5 subclasses: a state file on disk,
    reached through a handle that the _read and _write wrappers open before
    a getter runs and close after it, whether it returns or raises. */
module StateFile {
  import opened Base
  import opened Legacy
  import PosixPath

  /** The HDF5 files on disk, by path. */
  class Hdf5Store {
    var files: map<string, Record>

    constructor (files: map<string, Record>)
      ensures this.files == files
    {
      this.files := files;
    }
  }

  /** open_file(filename, 'r') and open_file(filename, 'a'). */
  datatype Mode = ReadOnly | Append

  /** The handle attribute: None until the first call, then the pytables
      file that call opened, identified by its serial. */
  datatype Handle = NoHandle | Handle(serial: nat, mode: Mode, isOpen: bool)

  /** The loop of get_member: every row whose uuid matches overwrites
      memberinfo, so the last one is returned; a table without a uuid
      column fails the where-condition. */
  method ScanMembers(t: Table, uuid: string) returns (r: Result<Option<map<string, string>>>)
    ensures r == MemberInTable(t, uuid)
  {
    if "uuid" !in t.columns {
      return Err(QueryError(UuidCondition(uuid)));
    }
    var k := ColumnIndex(t.columns, "uuid");
    var memberinfo: Option<nat> := None;
    var i := 0;
    while i < |t.rows|
      invariant 0 <= i <= |t.rows|
      invariant memberinfo == LastMatch(t.rows[..i], k, uuid)
    {
      assert t.rows[..i + 1][..i] == t.rows[..i];
      if t.rows[i][k] == uuid {
        memberinfo := Some(i);
      }
      i := i + 1;
    }
    assert t.rows[..i] == t.rows;
    if memberinfo.Some? {
      r := Ok(Some(RowMap(t.columns, t.rows[memberinfo.value])));
    } else {
      r := Ok(None);
    }
  }

  /** One state file (TreantFileHDF5, GroupFileHDF5 or SimFileHDF5; the
      getters of all three live here, as the model has no subclasses). */
  class LegacyStateFile {
    const filename: string
    const disk: Hdf5Store
    var handle: Handle
    /** Number of handles opened so far; the next handle's serial. */
    var openCount: nat

    constructor (filename: string, disk: Hdf5Store)
      ensures this.filename == filename && this.disk == disk
      ensures handle == NoHandle && openCount == 0
    {
      this.filename := filename;
      this.disk := disk;
      handle := NoHandle;
      openCount := 0;
    }

    /** get_location: the directory of the file. It is the filename up to
        the slashes before the basename; all of them are dropped, unless the
        directory is the root made of slashes alone. */
    function GetLocation(): (loc: string)
      ensures var base := PosixPath.Basename(filename);
        && |loc| + |base| <= |filename|
        && filename == loc + filename[|loc|..|filename| - |base|] + base
        && PosixPath.AllSlashes(filename[|loc|..|filename| - |base|])
        && ((|loc| + |base| == |filename| && PosixPath.AllSlashes(loc)) || (loc != "" && loc[|loc| - 1] != '/'))
    {
      PosixPath.DirnameShape(filename);
      PosixPath.Decompose(filename);
      PosixPath.Dirname(filename)
    }

    /** What opening the file for reading finds. */
    function Loaded(): Result<Record>
      reads disk
    {
      Open(disk.files, filename)
    }

    /** No handle is left open. */
    predicate Idle()
      reads this
    {
      !(handle.Handle? && handle.isOpen)
    }

    /** The handle after a wrapped call: the handle this call opened, whose
        serial is the count before the call, now closed; or, when opening
        raised, the handle from before the call, untouched. */
    predicate AfterCall(before: Handle, countBefore: nat, mode: Mode)
      reads this, disk
    {
      if mode == Append || filename in disk.files then
        handle == Handle(countBefore, mode, false) && openCount == countBefore + 1
      else
        handle == before && openCount == countBefore
    }

    /** self.handle = self._open_file_r(); nothing is assigned when opening raises. */
    method OpenFileR() returns (r: Result<Record>)
      modifies this
      ensures r == Loaded()
      ensures r.Ok? ==> handle == Handle(old(openCount), ReadOnly, true) && openCount == old(openCount) + 1
      ensures r.Err? ==> handle == old(handle) && openCount == old(openCount)
    {
      if filename !in disk.files {
        return Err(OpenError(filename));
      }
      handle := Handle(openCount, ReadOnly, true);
      openCount := openCount + 1;
      r := Ok(disk.files[filename]);
    }

    /** self.handle.close(). */
    method CloseHandle()
      requires handle.Handle?
      modifies this
      ensures handle == old(handle).(isOpen := false) && openCount == old(openCount)
    {
      handle := handle.(isOpen := false);
    }

    /** File._read: open for reading, run the getter body, close in finally,
        and return what the body returned or raised. */
    method Read<T>(body: Record -> Result<T>) returns (r: Result<T>)
      modifies this
      ensures r == Via(Loaded(), body)
      ensures AfterCall(old(handle), old(openCount), ReadOnly)
      ensures old(Idle()) ==> Idle()
    {
      var src := OpenFileR();
      if src.Err? {
        return Err(src.error);
      }
      r := body(src.value);
      CloseHandle();
    }

    /** File._write: open for appending (creating an empty file if there is
        none), run the body, close in finally. The body's changes to the file
        stay in place even when it raises: nothing is rolled back. */
    method Write<T>(body: Record -> (Record, Result<T>)) returns (r: Result<T>)
      modifies this, disk
      ensures var before := if filename in old(disk.files) then old(disk.files[filename]) else Empty;
        && disk.files == old(disk.files)[filename := body(before).0]
        && r == body(before).1
      ensures AfterCall(old(handle), old(openCount), Append)
    {
      var before := if filename in disk.files then disk.files[filename] else Empty;
      handle := Handle(openCount, Append, true);
      openCount := openCount + 1;
      var out := body(before);
      disk.files := disk.files[filename := out.0];
      r := out.1;
      CloseHandle();
    }

    method GetVersion() returns (r: Result<string>)
      modifies this
      ensures r == Via(Loaded(), Legacy.GetVersion)
      ensures AfterCall(old(handle), old(openCount), ReadOnly)
      ensures old(Idle()) ==> Idle()
    {
      r := Read(Legacy.GetVersion);
    }

    method GetTags() returns (r: Result<seq<string>>)
      modifies this
      ensures r == Via(Loaded(), Legacy.GetTags)
      ensures AfterCall(old(handle), old(openCount), ReadOnly)
      ensures old(Idle()) ==> Idle()
    {
      r := Read(Legacy.GetTags);
    }

    method GetCategories() returns (r: Result<map<string, string>>)
      modifies this
      ensures r == Via(Loaded(), Legacy.GetCategories)
      ensures AfterCall(old(handle), old(openCount), ReadOnly)
      ensures old(Idle()) ==> Idle()
    {
      r := Read(Legacy.GetCategories);
    }

    /** get_member, with its loop, inside the _read wrapper. */
    method GetMember(uuid: string) returns (r: Result<Option<map<string, string>>>)
      modifies this
      ensures r == Via(Loaded(), rec => Legacy.GetMember(rec, uuid))
      ensures AfterCall(old(handle), old(openCount), ReadOnly)
      ensures old(Idle()) ==> Idle()
    {
      var src := OpenFileR();
      if src.Err? {
        return Err(src.error);
      }
      if src.value.members.None? {
        r := Err(NoSuchNode("/", "members"));
      } else {
        r := ScanMembers(src.value.members.value, uuid);
      }
      CloseHandle();
    }

    method GetMembers() returns (r: Result<Table>)
      modifies this
      ensures r == Via(Loaded(), Legacy.GetMembers)
      ensures AfterCall(old(handle), old(openCount), ReadOnly)
      ensures old(Idle()) ==> Idle()
    {
      r := Read(Legacy.GetMembers);
    }

    method GetMembersUuid() returns (r: Result<seq<string>>)
      modifies this
      ensures r == Via(Loaded(), Legacy.GetMembersUuid)
      ensures AfterCall(old(handle), old(openCount), ReadOnly)
      ensures old(Idle()) ==> Idle()
    {
      r := Read(Legacy.GetMembersUuid);
    }

    method GetMembersTreanttype() returns (r: Result<seq<string>>)
      modifies this
      ensures r == Via(Loaded(), Legacy.GetMembersTreanttype)
      ensures AfterCall(old(handle), old(openCount), ReadOnly)
      ensures old(Idle()) ==> Idle()
    {
      r := Read(Legacy.GetMembersTreanttype);
    }

    method GetMembersBasedir() returns (r: Result<seq<PathRow>>)
      modifies this
      ensures r == Via(Loaded(), Legacy.GetMembersBasedir)
      ensures AfterCall(old(handle), old(openCount), ReadOnly)
      ensures old(Idle()) ==> Idle()
    {
      r := Read(Legacy.GetMembersBasedir);
    }

    method GetMdsVersion() returns (r: Result<string>)
      modifies this
      ensures r == Via(Loaded(), Legacy.GetMdsVersion)
      ensures AfterCall(old(handle), old(openCount), ReadOnly)
      ensures old(Idle()) ==> Idle()
    {
      r := Read(Legacy.GetMdsVersion);
    }

    method GetDefault() returns (r: Result<Option<string>>)
      modifies this
      ensures r == Via(Loaded(), Legacy.GetDefault)
      ensures AfterCall(old(handle), old(openCount), ReadOnly)
      ensures old(Idle()) ==> Idle()
    {
      r := Read(Legacy.GetDefault);
    }

    method ListUniverses() returns (r: Result<seq<string>>)
      modifies this
      ensures r == Via(Loaded(), Legacy.ListUniverses)
      ensures AfterCall(old(handle), old(openCount), ReadOnly)
      ensures old(Idle()) ==> Idle()
    {
      r := Read(Legacy.ListUniverses);
    }

    method GetUniverse(u: string) returns (r: Result<(seq<PathRow>, seq<PathRow>)>)
      modifies this
      ensures r == Via(Loaded(), rec => Legacy.GetUniverse(rec, u))
      ensures AfterCall(old(handle), old(openCount), ReadOnly)
      ensures old(Idle()) ==> Idle()
    {
      r := Read(rec => Legacy.GetUniverse(rec, u));
    }

    method GetResnums(u: string) returns (r: Result<Option<seq<uint32>>>)
      modifies this
      ensures r == Via(Loaded(), rec => Legacy.GetResnums(rec, u))
      ensures AfterCall(old(handle), old(openCount), ReadOnly)
      ensures old(Idle()) ==> Idle()
    {
      r := Read(rec => Legacy.GetResnums(rec, u));
    }

    method ListSelections(u: string) returns (r: Result<seq<string>>)
      modifies this
      ensures r == Via(Loaded(), rec => Legacy.ListSelections(rec, u))
      ensures AfterCall(old(handle), old(openCount), ReadOnly)
      ensures old(Idle()) ==> Idle()
    {
      r := Read(rec => Legacy.ListSelections(rec, u));
    }

    method GetSelection(u: string, h: string) returns (r: Result<SelectionArray>)
      modifies this
      ensures r == Via(Loaded(), rec => Legacy.GetSelection(rec, u, h))
      ensures AfterCall(old(handle), old(openCount), ReadOnly)
      ensures old(Idle()) ==> Idle()
    {
      r := Read(rec => Legacy.GetSelection(rec, u, h));
    }
  }
}
