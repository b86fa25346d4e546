/**
  The part of the file system the plugin touches, as a value (`Fs`) and the
  library calls the two revisions make, as functions over it:
  `Files.notExists` and `File.exists`, `Files.createDirectories` and
  `FileUtils.forceMkdir`, `Files.deleteIfExists`, `FileUtils.forceDelete`,
  `Files.newOutputStream` followed by a write, `Files.copy` with
  `REPLACE_EXISTING`, and `Files.readAllBytes`. The object whose fields these
  calls update in place is `LocalFileSystem.FileSystem`.

  A path is its sequence of name elements; `[]` is the root, which is always a
  directory. Paths in `faulty` stand for every I/O failure the platform can
  raise on an entry (permissions, a full disk, a broken device): reading its
  status, creating, deleting, opening for writing or reading such an entry
  fails. A path below a regular file cannot be reached at all (`ENOTDIR`).
*/
module FileSystems {
  import opened Options
  import opened Hex

  type Path = seq<string>

  datatype Fs = Fs(files: map<Path, Bytes>, dirs: set<Path>, faulty: set<Path>)

  /** Whether a call completed normally, and the file system after it. */
  datatype Io = Io(ok: bool, after: Fs)

  function Parent(p: Path): Path
    requires p != []
  {
    p[..|p| - 1]
  }

  predicate Exists(fs: Fs, p: Path)
  {
    p == [] || p in fs.files || p in fs.dirs
  }

  predicate IsDirectory(fs: Fs, p: Path)
  {
    p == [] || p in fs.dirs
  }

  /** The ancestor of `p` with `k` elements is a regular file. */
  predicate FileAtPrefix(fs: Fs, p: Path, k: nat)
    requires k <= |p|
  {
    p[..k] in fs.files
  }

  /** Some proper ancestor of `p` is a regular file, so `p` cannot be reached. */
  predicate UnderFile(fs: Fs, p: Path)
  {
    exists k: nat :: k < |p| && FileAtPrefix(fs, p, k)
  }

  /**
    `Files.notExists(p)`: true only when `p` is known to be absent. An entry
    whose status cannot be read (a failing entry, or one below a regular file)
    is neither reported present nor missing.
  */
  predicate NotExists(fs: Fs, p: Path)
  {
    !Exists(fs, p) && p !in fs.faulty && !UnderFile(fs, p)
  }

  /** `File.exists()` of `java.io.File`: a status that cannot be read counts as absent. */
  predicate FileExists(fs: Fs, p: Path)
  {
    Exists(fs, p) && p !in fs.faulty
  }

  /** A real file system: no entry is both a file and a directory, and every entry's parent is a directory. */
  ghost predicate WellFormed(fs: Fs)
  {
    && (forall p :: p in fs.files ==> p != [] && p !in fs.dirs && IsDirectory(fs, Parent(p)))
    && (forall p :: p in fs.dirs && p != [] ==> IsDirectory(fs, Parent(p)))
  }

  /** Two file systems agree on the file at `p`. */
  ghost predicate SameFileAt(a: Fs, b: Fs, p: Path)
  {
    (p in a.files <==> p in b.files) && (p in a.files ==> a.files[p] == b.files[p])
  }

  /** `createDirectories` can get past the element `p`: it is a directory already, or it can be made one. */
  predicate DirectoryAttainable(fs: Fs, p: Path)
  {
    p in fs.dirs || (p !in fs.files && p !in fs.faulty)
  }

  /**
    `Files.createDirectories(d)` from the `i`-th element on: each missing
    ancestor is created in turn, from the root down; a regular file or a
    failing entry in the way stops the call, keeping the directories made so far.
  */
  function CreateDirectoriesFrom(fs: Fs, d: Path, i: nat): (r: Io)
    requires i <= |d|
    ensures r.after.files == fs.files && r.after.faulty == fs.faulty
    ensures fs.dirs <= r.after.dirs
    ensures forall p :: p in r.after.dirs ==> p in fs.dirs || (p <= d && i < |p|)
    ensures r.ok <==> forall k :: i < k <= |d| ==> DirectoryAttainable(fs, d[..k])
    ensures r.ok ==> forall k :: i < k <= |d| ==> d[..k] in r.after.dirs
    decreases |d| - i
  {
    if i == |d| then Io(true, fs)
    else
      var p := d[..i + 1];
      if p in fs.dirs then CreateDirectoriesFrom(fs, d, i + 1)
      else if p in fs.files || p in fs.faulty then Io(false, fs)
      else CreateDirectoriesFrom(fs.(dirs := fs.dirs + {p}), d, i + 1)
  }

  function CreateDirectories(fs: Fs, d: Path): (r: Io)
    ensures r.ok <==> forall k :: 0 < k <= |d| ==> DirectoryAttainable(fs, d[..k])
    ensures r.ok ==> d == [] || d in r.after.dirs
    ensures r.after.files == fs.files && r.after.faulty == fs.faulty
  {
    assert d[..|d|] == d;
    CreateDirectoriesFrom(fs, d, 0)
  }

  /**
    `FileUtils.forceMkdir(d)`: `createDirectories`, except that an entry whose
    status cannot be read fails the final check that `d` is a directory.
  */
  function ForceMkdir(fs: Fs, d: Path): (r: Io)
    ensures r.ok <==> d !in fs.faulty && forall k :: 0 < k <= |d| ==> DirectoryAttainable(fs, d[..k])
    ensures r.ok ==> d == [] || d in r.after.dirs
    ensures r.after.files == fs.files && r.after.faulty == fs.faulty
  {
    if d in fs.faulty then Io(false, fs) else CreateDirectories(fs, d)
  }

  predicate HasEntriesUnder(fs: Fs, p: Path)
  {
    (exists q :: q in fs.files && p < q) || (exists q :: q in fs.dirs && p < q)
  }

  /**
    `Files.deleteIfExists(p)`: a missing entry is not an error; a non-empty
    directory, a failing entry and a path below a regular file are.
  */
  function DeleteIfExists(fs: Fs, p: Path): (r: Io)
    ensures r.ok ==> p !in r.after.dirs && (p !in fs.dirs ==> p !in r.after.files)
    ensures !r.ok ==> r.after == fs
    ensures r.after.faulty == fs.faulty && r.after.dirs <= fs.dirs && r.after.files.Keys <= fs.files.Keys
    ensures UnderFile(fs, p) ==> !r.ok
  {
    if p in fs.faulty || UnderFile(fs, p) then Io(false, fs)
    else if p in fs.dirs then
      if HasEntriesUnder(fs, p) then Io(false, fs) else Io(true, fs.(dirs := fs.dirs - {p}))
    else Io(true, fs.(files := fs.files - {p}))
  }

  /**
    `FileUtils.forceDelete(p)` with the `FileNotFoundException` for a missing
    entry caught and ignored, as the older revision does: a directory goes
    with everything under it.
  */
  function ForceDelete(fs: Fs, p: Path): (r: Io)
    ensures r.ok <==> !Exists(fs, p) || p !in fs.faulty
    ensures !r.ok ==> r.after == fs
    ensures r.ok && Exists(fs, p) ==> forall q :: p <= q ==> q !in r.after.files && q !in r.after.dirs
    ensures forall q :: !(p <= q) ==> SameFileAt(fs, r.after, q) && (q in r.after.dirs <==> q in fs.dirs)
    ensures forall q :: q in r.after.files ==> q in fs.files && r.after.files[q] == fs.files[q]
    ensures r.after.faulty == fs.faulty && r.after.dirs <= fs.dirs
  {
    if !Exists(fs, p) then Io(true, fs)
    else if p in fs.faulty then Io(false, fs)
    else
      Io(true, fs.(files := map q | q in fs.files && !(p <= q) :: fs.files[q],
                   dirs := set q | q in fs.dirs && !(p <= q)))
  }

  /** Opening `p` for writing succeeds exactly when it can be created or truncated. */
  predicate CanOpenForWrite(fs: Fs, p: Path)
  {
    p != [] && p !in fs.faulty && p !in fs.dirs && IsDirectory(fs, Parent(p))
  }

  /** `Files.newOutputStream(p)` (or `new FileOutputStream(p)`) followed by writing `data`. */
  function Write(fs: Fs, p: Path, data: Bytes): (r: Io)
    ensures r.ok ==> p in r.after.files && r.after.files[p] == data
    ensures !r.ok ==> r.after == fs
    ensures r.after.dirs == fs.dirs && r.after.faulty == fs.faulty
    ensures forall q :: q != p ==> SameFileAt(fs, r.after, q)
  {
    if CanOpenForWrite(fs, p) then Io(true, fs.(files := fs.files[p := data])) else Io(false, fs)
  }

  /** `Files.copy(source, p, REPLACE_EXISTING)` of a source holding `data`: delete the target, then write it. */
  function Copy(fs: Fs, p: Path, data: Bytes): (r: Io)
    ensures r.ok ==> p in r.after.files && r.after.files[p] == data
    ensures r.after.faulty == fs.faulty && r.after.dirs <= fs.dirs
    ensures forall q :: q != p ==> SameFileAt(fs, r.after, q)
  {
    var d := DeleteIfExists(fs, p);
    if !d.ok then d else Write(d.after, p, data)
  }

  /** `Files.readAllBytes(p)`: `None` stands for the `IOException`. */
  function ReadAllBytes(fs: Fs, p: Path): (r: Option<Bytes>)
    ensures r.Some? ==> p in fs.files && r.value == fs.files[p]
    ensures p in fs.faulty ==> r.None?
    ensures p in fs.files && p !in fs.faulty ==> r == Some(fs.files[p])
  {
    if p in fs.files && p !in fs.faulty then Some(fs.files[p]) else None
  }

  lemma {:induction false} CreateDirectoriesWellFormed(fs: Fs, d: Path, i: nat)
    requires WellFormed(fs)
    requires i <= |d| && IsDirectory(fs, d[..i])
    ensures WellFormed(CreateDirectoriesFrom(fs, d, i).after)
    decreases |d| - i
  {
    if i < |d| {
      var p := d[..i + 1];
      assert Parent(p) == d[..i];
      if p in fs.dirs {
        CreateDirectoriesWellFormed(fs, d, i + 1);
      } else if p !in fs.files && p !in fs.faulty {
        var fs' := fs.(dirs := fs.dirs + {p});
        forall q | q in fs'.files
          ensures q != [] && q !in fs'.dirs && IsDirectory(fs', Parent(q))
        {
          assert q in fs.files && q != p;
        }
        forall q | q in fs'.dirs && q != []
          ensures IsDirectory(fs', Parent(q))
        {
          if q != p {
            assert q in fs.dirs;
          }
        }
        CreateDirectoriesWellFormed(fs', d, i + 1);
      }
    }
  }

  lemma DeleteIfExistsWellFormed(fs: Fs, p: Path)
    requires WellFormed(fs)
    ensures WellFormed(DeleteIfExists(fs, p).after)
  {
    var r := DeleteIfExists(fs, p).after;
    if p !in fs.faulty && p in fs.dirs && !HasEntriesUnder(fs, p) {
      forall q | q in r.files
        ensures IsDirectory(r, Parent(q))
      {
        assert q in fs.files;
        assert Parent(q) < q;
      }
      forall q | q in r.dirs && q != []
        ensures IsDirectory(r, Parent(q))
      {
        assert Parent(q) < q;
      }
    }
  }

  lemma ForceDeleteWellFormed(fs: Fs, p: Path)
    requires WellFormed(fs)
    ensures WellFormed(ForceDelete(fs, p).after)
  {
    var r := ForceDelete(fs, p).after;
    forall q | q in r.files
      ensures IsDirectory(r, Parent(q))
    {
      if Parent(q) != [] && p <= Parent(q) {
        assert p <= q;
      }
    }
    forall q | q in r.dirs && q != []
      ensures IsDirectory(r, Parent(q))
    {
      if Parent(q) != [] && p <= Parent(q) {
        assert p <= q;
      }
    }
  }

  lemma WriteWellFormed(fs: Fs, p: Path, data: Bytes)
    requires WellFormed(fs)
    ensures WellFormed(Write(fs, p, data).after)
  {
  }

  lemma CopyWellFormed(fs: Fs, p: Path, data: Bytes)
    requires WellFormed(fs)
    ensures WellFormed(Copy(fs, p, data).after)
  {
    DeleteIfExistsWellFormed(fs, p);
    WriteWellFormed(DeleteIfExists(fs, p).after, p, data);
  }

  /** Nothing exists under a path that does not exist. */
  lemma {:induction false} NothingUnderMissing(fs: Fs, d: Path, q: Path)
    requires WellFormed(fs)
    requires !Exists(fs, d) && d < q
    ensures !Exists(fs, q)
    decreases |q|
  {
    if Exists(fs, q) {
      var parent := Parent(q);
      assert parent in fs.dirs || parent == [];
      if parent == d {
      } else {
        assert d < parent;
        NothingUnderMissing(fs, d, parent);
      }
    }
  }

  /** `createDirectories` of a path whose every ancestor is already a directory changes nothing. */
  lemma {:induction false} CreateDirectoriesExisting(fs: Fs, d: Path, i: nat)
    requires i <= |d|
    requires forall k :: i < k <= |d| ==> d[..k] in fs.dirs
    ensures CreateDirectoriesFrom(fs, d, i) == Io(true, fs)
    decreases |d| - i
  {
    if i < |d| {
      CreateDirectoriesExisting(fs, d, i + 1);
    }
  }

  /** Deleting `p` changes no other entry; a successful delete leaves nothing at `p`. */
  lemma DeleteIfExistsFrame(fs: Fs, p: Path)
    requires WellFormed(fs)
    ensures var r := DeleteIfExists(fs, p);
      && r.after.faulty == fs.faulty
      && (forall q :: q != p ==> SameFileAt(fs, r.after, q))
      && (forall q :: q != p ==> (q in r.after.dirs <==> q in fs.dirs))
      && (r.ok ==> p !in r.after.files && p !in r.after.dirs)
      && (r.ok <==> p !in fs.faulty && !UnderFile(fs, p) && (p in fs.dirs ==> !HasEntriesUnder(fs, p)))
  {
  }

  /** In a real file system no existing entry lies below a regular file. */
  lemma {:induction false} ExistingNotUnderFile(fs: Fs, p: Path)
    requires WellFormed(fs) && Exists(fs, p)
    ensures !UnderFile(fs, p)
    decreases |p|
  {
    if p != [] {
      var parent := Parent(p);
      ExistingNotUnderFile(fs, parent);
      forall k: nat | k < |p|
        ensures !FileAtPrefix(fs, p, k)
      {
        if k < |parent| {
          assert !FileAtPrefix(fs, parent, k);
          assert p[..k] == parent[..k];
        } else {
          assert p[..k] == parent;
        }
      }
    }
  }

  /** Removing entries, or writing `p` itself, puts no regular file above `p`. */
  lemma NotUnderFileKept(a: Fs, b: Fs, p: Path)
    requires !UnderFile(a, p)
    requires forall q :: q in b.files && q < p ==> q in a.files
    ensures !UnderFile(b, p)
  {
    forall k: nat | k < |p|
      ensures !FileAtPrefix(b, p, k)
    {
      assert !FileAtPrefix(a, p, k);
      assert p[..k] < p;
    }
  }

  /** Two file systems with the same files and failing entries answer the status queries for `p` alike. */
  lemma SameStatus(a: Fs, b: Fs, p: Path)
    requires a.files == b.files && a.faulty == b.faulty && Exists(a, p) == Exists(b, p)
    ensures NotExists(a, p) == NotExists(b, p) && FileExists(a, p) == FileExists(b, p)
  {
    forall k: nat | k < |p|
      ensures FileAtPrefix(a, p, k) == FileAtPrefix(b, p, k)
    {
    }
  }

  /**
    The two revisions' existence checks agree on every entry whose status can
    be read, and disagree on the others: `Files.notExists` does not report them
    missing, `File.exists` does not report them present.
  */
  lemma StatusQueries(fs: Fs, p: Path)
    requires WellFormed(fs)
    ensures NotExists(fs, p) ==> !FileExists(fs, p)
    ensures !NotExists(fs, p) && !FileExists(fs, p) <==> p in fs.faulty || UnderFile(fs, p)
  {
    if Exists(fs, p) {
      ExistingNotUnderFile(fs, p);
    }
  }

  /** The same file system with one more entry that fails every operation. */
  function WithFault(fs: Fs, q: Path): Fs
  {
    fs.(faulty := fs.faulty + {q})
  }

  /** A failing entry that is not on the path being created does not change what `createDirectories` does. */
  lemma {:induction false} CreateDirectoriesFaultElsewhere(fs: Fs, d: Path, i: nat, q: Path)
    requires i <= |d| && !(q <= d)
    ensures CreateDirectoriesFrom(WithFault(fs, q), d, i)
         == Io(CreateDirectoriesFrom(fs, d, i).ok, WithFault(CreateDirectoriesFrom(fs, d, i).after, q))
    decreases |d| - i
  {
    if i < |d| {
      var p := d[..i + 1];
      assert p != q;
      if p in fs.dirs {
        CreateDirectoriesFaultElsewhere(fs, d, i + 1, q);
      } else if p !in fs.files && p !in fs.faulty {
        var fs' := fs.(dirs := fs.dirs + {p});
        assert WithFault(fs, q).(dirs := fs.dirs + {p}) == WithFault(fs', q);
        CreateDirectoriesFaultElsewhere(fs', d, i + 1, q);
      }
    }
  }

  /** A failing entry at `q` changes nothing about operations on another path `p`. */
  lemma FaultElsewhere(fs: Fs, p: Path, q: Path, data: Bytes)
    requires p != q
    ensures Exists(WithFault(fs, q), p) == Exists(fs, p)
    ensures NotExists(WithFault(fs, q), p) == NotExists(fs, p)
    ensures FileExists(WithFault(fs, q), p) == FileExists(fs, p)
    ensures ReadAllBytes(WithFault(fs, q), p) == ReadAllBytes(fs, p)
    ensures DeleteIfExists(WithFault(fs, q), p)
         == Io(DeleteIfExists(fs, p).ok, WithFault(DeleteIfExists(fs, p).after, q))
    ensures Write(WithFault(fs, q), p, data) == Io(Write(fs, p, data).ok, WithFault(Write(fs, p, data).after, q))
    ensures Copy(WithFault(fs, q), p, data) == Io(Copy(fs, p, data).ok, WithFault(Copy(fs, p, data).after, q))
    ensures ForceDelete(WithFault(fs, q), p) == Io(ForceDelete(fs, p).ok, WithFault(ForceDelete(fs, p).after, q))
  {
    forall k: nat | k < |p|
      ensures FileAtPrefix(WithFault(fs, q), p, k) == FileAtPrefix(fs, p, k)
    {
    }
    var d := DeleteIfExists(fs, p);
    assert WithFault(fs, q).(dirs := fs.dirs - {p}) == WithFault(fs.(dirs := fs.dirs - {p}), q);
    assert WithFault(fs, q).(files := fs.files - {p}) == WithFault(fs.(files := fs.files - {p}), q);
    assert WithFault(d.after, q).(files := d.after.files[p := data]) == WithFault(d.after.(files := d.after.files[p := data]), q);
  }

  /** In a real file system a regular file at the target or above it makes `forceMkdir` fail. */
  lemma ForceMkdirBlockedByFile(fs: Fs, d: Path, k: nat)
    requires WellFormed(fs)
    requires 0 < k <= |d| && d[..k] in fs.files
    ensures !ForceMkdir(fs, d).ok
  {
    assert !DirectoryAttainable(fs, d[..k]);
  }

  /** A failing entry that is not on the path being created does not change what `forceMkdir` does. */
  lemma ForceMkdirFaultElsewhere(fs: Fs, d: Path, q: Path)
    requires !(q <= d)
    ensures ForceMkdir(WithFault(fs, q), d) == Io(ForceMkdir(fs, d).ok, WithFault(ForceMkdir(fs, d).after, q))
  {
    if d !in fs.faulty {
      CreateDirectoriesFaultElsewhere(fs, d, 0, q);
    }
  }
}
