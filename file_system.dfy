/** The part of the Win32 file system the engine touches, as a map from path
    to contents plus the set of held paths: those the engine may not open for
    exclusive read/write, whether another process holds them or the write
    permission is missing (such a path cannot be probed, deleted, renamed,
    opened or truncated). Directories, attributes and the file pointer are not modelled:
    every write appends to the end of the file it names. */
module FileSystem {
  import opened Text

  type Path = string
  type Files = map<Path, seq<byte>>

  /** What a path holds: nothing, or a file with these contents. */
  datatype Entry = Absent | Present(content: seq<byte>)

  function Lookup(fs: Files, p: Path): (e: Entry)
    ensures e.Present? <==> p in fs
    ensures e.Present? ==> e.content == fs[p]
  {
    if p in fs then Present(fs[p]) else Absent
  }

  /** Every path outside `ps` has the same entry in `a` and `b`. */
  ghost predicate SameOutside(a: Files, b: Files, ps: set<Path>) {
    forall q :: q !in ps ==> Lookup(a, q) == Lookup(b, q)
  }

  /** `_FileExists` (VSRL.cpp:220-225). */
  predicate FileExists(fs: Files, p: Path) {
    p in fs
  }

  /** `_HasExclusivePermissionsToFile` (VSRL.cpp:229-239): an exclusive
      read/write open of an existing file succeeds unless the path is held. */
  predicate HasExclusivePermissions(fs: Files, held: set<Path>, p: Path) {
    p in fs && p !in held
  }

  /** `DeleteFile`: removes an existing file nobody else holds. */
  function Deleted(fs: Files, held: set<Path>, p: Path): (r: Files)
    ensures p in fs && p !in held ==> Lookup(r, p) == Absent
    ensures !(p in fs && p !in held) ==> r == fs
    ensures SameOutside(r, fs, {p})
  {
    if p in fs && p !in held then fs - {p} else fs
  }

  /** `MoveFileW` without flags: renames an existing, unheld file onto a
      path that does not exist yet; otherwise nothing changes. */
  predicate CanMove(fs: Files, held: set<Path>, src: Path, dst: Path) {
    src in fs && src !in held && dst !in fs
  }

  function Moved(fs: Files, held: set<Path>, src: Path, dst: Path): (r: Files)
    ensures CanMove(fs, held, src, dst) ==>
              Lookup(r, dst) == Lookup(fs, src) && Lookup(r, src) == Absent
    ensures !CanMove(fs, held, src, dst) ==> r == fs
    ensures SameOutside(r, fs, {src, dst})
  {
    if CanMove(fs, held, src, dst) then (fs - {src})[dst := fs[src]] else fs
  }

  /** The outcome of one `WriteFile` call: failure, or the count of bytes reported written. */
  datatype WriteOutcome = WriteFailed | Wrote(count: nat)

  /** The bytes a successful write puts in the file: the first `count` bytes
      of the request (the system never reports more than it was given). */
  function Written(data: seq<byte>, count: nat): (b: seq<byte>)
    ensures b <= data
    ensures count <= |data| ==> |b| == count
    ensures count >= |data| ==> b == data
  {
    if count <= |data| then data[..count] else data
  }

  function Content(fs: Files, p: Path): seq<byte> {
    if p in fs then fs[p] else []
  }

  /** The file at `p` after `b` is appended to it. */
  function Appended(fs: Files, p: Path, b: seq<byte>): (r: Files)
    ensures Lookup(r, p) == Present(Content(fs, p) + b)
    ensures SameOutside(r, fs, {p})
  {
    fs[p := Content(fs, p) + b]
  }

  /** The `dwCreationDisposition` values the engine uses. */
  datatype Disposition = OpenExisting | CreateNew | CreateAlways

  /** Whether `CreateFileW` returns a valid handle. `envOk` stands for every
      cause of failure outside the model (access rights, the volume, ...). */
  predicate OpenSucceeds(fs: Files, held: set<Path>, p: Path, d: Disposition, envOk: bool) {
    envOk && p !in held &&
    match d
    case OpenExisting => p in fs
    case CreateNew => p !in fs
    case CreateAlways => true
  }

  /** The files after `CreateFileW`: creating or truncating leaves an empty file. */
  function Opened(fs: Files, held: set<Path>, p: Path, d: Disposition, envOk: bool): (r: Files)
    ensures OpenSucceeds(fs, held, p, d, envOk) && d != OpenExisting ==> Lookup(r, p) == Present([])
    ensures !OpenSucceeds(fs, held, p, d, envOk) || d == OpenExisting ==> r == fs
    ensures SameOutside(r, fs, {p})
  {
    if OpenSucceeds(fs, held, p, d, envOk) && d != OpenExisting then fs[p := []] else fs
  }

  /** The volume the engine writes to. Other processes are represented only
      by `held`, which the engine never changes. */
  class Disk {
    var files: Files
    var held: set<Path>

    constructor (files0: Files, held0: set<Path>)
      ensures files == files0 && held == held0
    {
      files := files0;
      held := held0;
    }

    predicate Exists(p: Path)
      reads this
    {
      FileExists(files, p)
    }

    predicate ProbeExclusive(p: Path)
      reads this
    {
      HasExclusivePermissions(files, held, p)
    }

    method DeleteFile(p: Path) returns (ok: bool)
      modifies this
      ensures ok <==> p in old(files) && p !in held
      ensures files == Deleted(old(files), held, p) && held == old(held)
    {
      ok := p in files && p !in held;
      if ok {
        files := files - {p};
      }
    }

    method MoveFile(src: Path, dst: Path) returns (ok: bool)
      modifies this
      ensures ok <==> CanMove(old(files), held, src, dst)
      ensures files == Moved(old(files), held, src, dst) && held == old(held)
    {
      ok := CanMove(files, held, src, dst);
      if ok {
        files := (files - {src})[dst := files[src]];
      }
    }

    method CreateFile(p: Path, d: Disposition, envOk: bool) returns (ok: bool)
      modifies this
      ensures ok <==> OpenSucceeds(old(files), held, p, d, envOk)
      ensures files == Opened(old(files), held, p, d, envOk) && held == old(held)
    {
      ok := OpenSucceeds(files, held, p, d, envOk);
      if ok && d != OpenExisting {
        files := files[p := []];
      }
    }

    /** `WriteFile` through a valid handle on `p`; `w` is what the system reports. */
    method WriteFile(p: Path, data: seq<byte>, w: WriteOutcome) returns (ok: bool, count: nat)
      modifies this
      ensures ok <==> w.Wrote?
      ensures ok ==> count == |Written(data, w.count)|
                     && files == Appended(old(files), p, Written(data, w.count))
      ensures !ok ==> count == 0 && files == old(files)
      ensures held == old(held)
    {
      match w
      case WriteFailed =>
        ok, count := false, 0;
      case Wrote(n) =>
        var b := Written(data, n);
        files := Appended(files, p, b);
        ok, count := true, |b|;
    }
  }
}
