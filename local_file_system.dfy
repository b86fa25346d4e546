/**
  The file system the plugin runs against, as an object whose fields the
  library calls update in place. Each method is one call the plugin makes and
  states its effect through the function of the same name in `FileSystems`.
*/
module LocalFileSystem {
  import opened Options
  import opened Hex
  import FileSystems

  class FileSystem {
    var files: map<FileSystems.Path, Bytes>
    var dirs: set<FileSystems.Path>
    const faulty: set<FileSystems.Path>

    function State(): FileSystems.Fs
      reads this
    {
      FileSystems.Fs(files, dirs, faulty)
    }

    constructor (files0: map<FileSystems.Path, Bytes>, dirs0: set<FileSystems.Path>, faulty0: set<FileSystems.Path>)
      ensures State() == FileSystems.Fs(files0, dirs0, faulty0)
    {
      files, dirs, faulty := files0, dirs0, faulty0;
    }

    /** `Files.notExists(p)`: reading the status of an entry below a regular file fails. */
    method NotExists(p: FileSystems.Path) returns (missing: bool)
      ensures missing <==> FileSystems.NotExists(State(), p)
      ensures missing ==> p !in files && p !in dirs
    {
      missing := p != [] && p !in files && p !in dirs && p !in faulty;
      if missing {
        missing := NotUnderFile(p);
      }
    }

    /**
      `p.exists()` for a `java.io.File`: the object-side counterpart of the
      predicate `FileSystems.FileExists`, evaluated on the current fields.
    */
    method FileExists(p: FileSystems.Path) returns (present: bool)
      ensures present <==> FileSystems.FileExists(State(), p)
      ensures present ==> p !in faulty
    {
      present := (p == [] || p in files || p in dirs) && p !in faulty;
    }

    /** Whether every proper ancestor of `p` can be searched: none of them is a regular file. */
    method NotUnderFile(p: FileSystems.Path) returns (reachable: bool)
      ensures reachable <==> !FileSystems.UnderFile(State(), p)
    {
      reachable := true;
      var k := 0;
      while reachable && k < |p|
        invariant 0 <= k <= |p|
        invariant reachable <==> forall j: nat :: j < k ==> !FileSystems.FileAtPrefix(State(), p, j)
      {
        reachable := !FileSystems.FileAtPrefix(State(), p, k);
        k := k + 1;
      }
    }

    /** `Files.createDirectories(d)`. */
    method CreateDirectories(d: FileSystems.Path) returns (ok: bool)
      modifies this
      ensures FileSystems.Io(ok, State()) == FileSystems.CreateDirectories(old(State()), d)
    {
      ok := true;
      var i := 0;
      while i < |d|
        invariant 0 <= i <= |d|
        invariant FileSystems.CreateDirectoriesFrom(State(), d, i) == FileSystems.CreateDirectoriesFrom(old(State()), d, 0)
      {
        var p := d[..i + 1];
        if p !in dirs {
          if p in files || p in faulty {
            ok := false;
            return;
          }
          dirs := dirs + {p};
        }
        i := i + 1;
      }
    }

    /** `FileUtils.forceMkdir(d)` of the older revision. */
    method ForceMkdir(d: FileSystems.Path) returns (ok: bool)
      modifies this
      ensures FileSystems.Io(ok, State()) == FileSystems.ForceMkdir(old(State()), d)
    {
      if d in faulty {
        ok := false;
      } else {
        ok := CreateDirectories(d);
      }
    }

    method DeleteIfExists(p: FileSystems.Path) returns (ok: bool)
      modifies this
      ensures FileSystems.Io(ok, State()) == FileSystems.DeleteIfExists(old(State()), p)
    {
      var reachable := NotUnderFile(p);
      if p in faulty || !reachable {
        ok := false;
      } else if p in dirs {
        ok := !FileSystems.HasEntriesUnder(State(), p);
        if ok {
          dirs := dirs - {p};
        }
      } else {
        ok := true;
        files := files - {p};
      }
    }

    method ForceDelete(p: FileSystems.Path) returns (ok: bool)
      modifies this
      ensures FileSystems.Io(ok, State()) == FileSystems.ForceDelete(old(State()), p)
    {
      if p != [] && p !in files && p !in dirs {
        ok := true;
      } else if p in faulty {
        ok := false;
      } else {
        ok := true;
        files := map q | q in files && !(p <= q) :: files[q];
        dirs := set q | q in dirs && !(p <= q);
      }
    }

    /** Open `p` for writing (creating or truncating it) and write `data`. */
    method Write(p: FileSystems.Path, data: Bytes) returns (ok: bool)
      modifies this
      ensures FileSystems.Io(ok, State()) == FileSystems.Write(old(State()), p, data)
    {
      ok := FileSystems.CanOpenForWrite(State(), p);
      if ok {
        files := files[p := data];
      }
    }

    method Copy(p: FileSystems.Path, data: Bytes) returns (ok: bool)
      modifies this
      ensures FileSystems.Io(ok, State()) == FileSystems.Copy(old(State()), p, data)
    {
      ok := DeleteIfExists(p);
      if ok {
        ok := Write(p, data);
      }
    }

    method ReadAllBytes(p: FileSystems.Path) returns (r: Option<Bytes>)
      ensures r == FileSystems.ReadAllBytes(State(), p)
      ensures r.Some? ==> p in files && r.value == files[p]
    {
      r := if p in files && p !in faulty then Some(files[p]) else None;
    }
  }
}
