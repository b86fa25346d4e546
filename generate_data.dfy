/**
  The `generate-data` goal of `io.papermc.paperclipmavenplugin.GenerateDataMojo`:
  prepare the output directory, check that both jars exist, copy the daemon
  protocol descriptor out of the paper jar (or remove a stale copy), write the
  bsdiff patch from the vanilla jar to the paper jar, and write `patch.json`
  with the two SHA-256 digests and a download URL keyed by the vanilla jar's
  SHA-1.
*/
module GenerateData {
  import opened Options
  import opened Hex
  import opened FileSystems
  import opened Plugin
  import LocalFileSystem

  const ProtocolFile: string := "io.papermc.paper.daemon.protocol"

  /** The descriptor's entry name inside the paper jar: `META-INF/` then the file name. */
  const ProtocolEntry: string := "META-INF/" + ProtocolFile

  const MojangPrefix: string := "https://launcher.mojang.com/v1/objects/"
  const MojangSuffix: string := "/server.jar"

  /** Where the descriptor is copied: `META-INF/<file>` under the output directory. */
  function ProtocolPath(cfg: Config): (r: Path)
    ensures |r| == |cfg.generatedResourceLocation| + 2
    ensures r[..|cfg.generatedResourceLocation|] == cfg.generatedResourceLocation
    ensures r[|cfg.generatedResourceLocation|] == "META-INF"
  {
    cfg.generatedResourceLocation + ["META-INF", ProtocolFile]
  }

  /** The record built at the end of a run from the three renderings and the version. */
  function NewPatchData(originalHash: string, patchedHash: string, vanillaSha1: string, mcVersion: string): (r: PatchData)
    ensures r.patch == PatchName && r.version == mcVersion
    ensures r.originalHash == originalHash && r.patchedHash == patchedHash
    ensures |r.sourceUrl| == |MojangPrefix| + |vanillaSha1| + |MojangSuffix|
  {
    PatchData(
      patch := PatchName,
      sourceUrl := MojangPrefix + ToLowerCase(vanillaSha1) + MojangSuffix,
      originalHash := originalHash,
      patchedHash := patchedHash,
      version := mcVersion)
  }

  /** The manifest a run writes for the given jar contents. */
  function ManifestOf(env: Platform, vanilla: Bytes, paper: Bytes, mcVersion: string): (r: PatchData)
    ensures r.patch == PatchName && r.version == mcVersion
    ensures |r.originalHash| == 2 * |env.sha256(vanilla)| && |r.patchedHash| == 2 * |env.sha256(paper)|
  {
    NewPatchData(HexOf(env.sha256(vanilla)), HexOf(env.sha256(paper)), HexOf(env.sha1(vanilla)), mcVersion)
  }

  /**
    Create the output directory if `Files.notExists` reports it missing, and
    only then delete the patch file inside it.
  */
  function OutputDirectoryStep(fs: Fs, cfg: Config): (r: Io)
    ensures r.after.faulty == fs.faulty
  {
    if !NotExists(fs, cfg.generatedResourceLocation) then Io(true, fs)
    else
      var created := CreateDirectories(fs, cfg.generatedResourceLocation);
      if !created.ok then created else DeleteIfExists(created.after, PatchPath(cfg))
  }

  /** The paper jar opened as a zip file system: its entries, or `None` when it cannot be read as one. */
  function OpenJar(fs: Fs, cfg: Config, env: Platform): (r: Option<map<string, Bytes>>)
    ensures r.Some? ==> cfg.paperMinecraft in fs.files && r == env.openJar(fs.files[cfg.paperMinecraft])
    ensures cfg.paperMinecraft in fs.faulty || cfg.paperMinecraft !in fs.files ==> r.None?
    ensures cfg.paperMinecraft in fs.files && cfg.paperMinecraft !in fs.faulty ==>
      r == env.openJar(fs.files[cfg.paperMinecraft])
  {
    match ReadAllBytes(fs, cfg.paperMinecraft)
    case None => None
    case Some(jar) => env.openJar(jar)
  }

  /** Copy the descriptor out of the jar's entries, or delete the output copy when the jar has none. */
  function DescriptorStep(fs: Fs, cfg: Config, entries: map<string, Bytes>): (r: Io)
    ensures r.ok && ProtocolEntry in entries ==>
      ProtocolPath(cfg) in r.after.files && r.after.files[ProtocolPath(cfg)] == entries[ProtocolEntry]
    ensures r.after.faulty == fs.faulty
  {
    if ProtocolEntry !in entries then DeleteIfExists(fs, ProtocolPath(cfg))
    else
      var parent := CreateDirectories(fs, Parent(ProtocolPath(cfg)));
      if !parent.ok then parent else Copy(parent.after, ProtocolPath(cfg), entries[ProtocolEntry])
  }

  /** A whole run of the goal from the file system `fs`. */
  function Run(fs: Fs, cfg: Config, env: Platform): (r: Execution)
    ensures r.after.faulty == fs.faulty
    ensures r.outcome == Success ==> PatchPath(cfg) in r.after.files
  {
    var setup := OutputDirectoryStep(fs, cfg);
    if !setup.ok then Execution(Failure(CouldNotCreateSourceDirectory), setup.after)
    else JarChecks(setup.after, cfg, env)
  }

  /** The run once the output directory is prepared: the jar checks and the descriptor. */
  function JarChecks(fs: Fs, cfg: Config, env: Platform): (r: Execution)
    ensures r.after.faulty == fs.faulty
    ensures r.outcome == Success ==> PatchPath(cfg) in r.after.files
    ensures r.outcome in {Failure(VanillaJarMissing), Failure(PaperJarMissing), Failure(JarUriFailed)} ==> r.after == fs
  {
    if NotExists(fs, cfg.vanillaMinecraft) then Execution(Failure(VanillaJarMissing), fs)
    else if NotExists(fs, cfg.paperMinecraft) then Execution(Failure(PaperJarMissing), fs)
    else if !env.jarUri(cfg.paperMinecraft) then Execution(Failure(JarUriFailed), fs)
    else
      match OpenJar(fs, cfg, env)
      case None => Execution(Failure(JarContentsUnreadable), fs)
      case Some(entries) =>
        var extracted := DescriptorStep(fs, cfg, entries);
        if !extracted.ok then Execution(Failure(JarContentsUnreadable), extracted.after)
        else GenerateStep(extracted.after, cfg, env)
  }

  /** The run once the descriptor is handled: read, diff, hash, write the manifest. */
  function GenerateStep(fs: Fs, cfg: Config, env: Platform): (r: Execution)
    ensures r.after.dirs == fs.dirs && r.after.faulty == fs.faulty
    ensures r.outcome == Success ==> PatchPath(cfg) in r.after.files
  {
    match (ReadAllBytes(fs, cfg.vanillaMinecraft), ReadAllBytes(fs, cfg.paperMinecraft))
    case (Some(vanilla), Some(paper)) =>
      var diff := env.diff(vanilla, paper);
      var patch := Write(fs, PatchPath(cfg), diff.written);
      if !patch.ok || !diff.ok then Execution(Failure(PatchCreationFailed), patch.after)
      else if !env.hasSha256 then Execution(Failure(Sha256Unavailable), patch.after)
      else if !env.hasSha1 then Execution(Failure(Sha1Unavailable), patch.after)
      else
        var json := Write(patch.after, JsonPath(cfg), env.toJson(ManifestOf(env, vanilla, paper, cfg.mcVersion)));
        Execution(Success, json.after)
    case _ => Execution(Failure(JarsUnreadable), fs)
  }

  /** The output directory: create it when missing, then delete a stale patch inside it. */
  method PrepareOutputDirectory(fs: LocalFileSystem.FileSystem, cfg: Config) returns (ok: bool)
    modifies fs
    ensures Io(ok, fs.State()) == OutputDirectoryStep(old(fs.State()), cfg)
  {
    var missing := fs.NotExists(cfg.generatedResourceLocation);
    ok := true;
    if missing {
      ok := fs.CreateDirectories(cfg.generatedResourceLocation);
      if ok {
        ok := fs.DeleteIfExists(PatchPath(cfg));
      }
    }
  }

  /** The descriptor, given the entries of the opened jar. */
  method ExtractDescriptor(fs: LocalFileSystem.FileSystem, cfg: Config, entries: map<string, Bytes>) returns (ok: bool)
    modifies fs
    ensures Io(ok, fs.State()) == DescriptorStep(old(fs.State()), cfg, entries)
  {
    var protocol := ProtocolPath(cfg);
    if ProtocolEntry !in entries {
      ok := fs.DeleteIfExists(protocol);
    } else {
      ok := fs.CreateDirectories(Parent(protocol));
      if ok {
        ok := fs.Copy(protocol, entries[ProtocolEntry]);
      }
    }
  }

  /** Read both jars, write the patch, hash, and write the manifest. */
  method GenerateOutputs(fs: LocalFileSystem.FileSystem, cfg: Config, env: Platform) returns (outcome: Outcome)
    modifies fs
    ensures Execution(outcome, fs.State()) == GenerateStep(old(fs.State()), cfg, env)
  {
    var vanillaBytes := fs.ReadAllBytes(cfg.vanillaMinecraft);
    var paperBytes := fs.ReadAllBytes(cfg.paperMinecraft);
    if vanillaBytes.None? || paperBytes.None? {
      return Failure(JarsUnreadable);
    }

    var diff := env.diff(vanillaBytes.value, paperBytes.value);
    var written := fs.Write(PatchPath(cfg), diff.written);
    if !written || !diff.ok {
      return Failure(PatchCreationFailed);
    }

    if !env.hasSha256 {
      return Failure(Sha256Unavailable);
    }
    if !env.hasSha1 {
      return Failure(Sha1Unavailable);
    }

    var vanillaSha1 := ToHex(env.sha1(vanillaBytes.value));
    var vanillaHash := ToHex(env.sha256(vanillaBytes.value));
    var paperHash := ToHex(env.sha256(paperBytes.value));
    var data := NewPatchData(vanillaHash, paperHash, vanillaSha1, cfg.mcVersion);

    // An IOException opening or closing patch.json is printed and ignored.
    var _ := fs.Write(JsonPath(cfg), env.toJson(data));
    outcome := Success;
  }

  /** `execute()`: the goal's steps against the file system `fs`, in the source's order. */
  method Execute(fs: LocalFileSystem.FileSystem, cfg: Config, env: Platform) returns (outcome: Outcome)
    modifies fs
    ensures Execution(outcome, fs.State()) == Run(old(fs.State()), cfg, env)
  {
    var prepared := PrepareOutputDirectory(fs, cfg);
    if !prepared {
      return Failure(CouldNotCreateSourceDirectory);
    }

    var missing := fs.NotExists(cfg.vanillaMinecraft);
    if missing {
      return Failure(VanillaJarMissing);
    }
    missing := fs.NotExists(cfg.paperMinecraft);
    if missing {
      return Failure(PaperJarMissing);
    }
    if !env.jarUri(cfg.paperMinecraft) {
      return Failure(JarUriFailed);
    }

    var jar := fs.ReadAllBytes(cfg.paperMinecraft);
    var entries := if jar.Some? then env.openJar(jar.value) else None;
    if entries.None? {
      return Failure(JarContentsUnreadable);
    }
    var extracted := ExtractDescriptor(fs, cfg, entries.value);
    if !extracted {
      return Failure(JarContentsUnreadable);
    }

    outcome := GenerateOutputs(fs, cfg, env);
  }

  // Properties of the manifest.

  /**
    On a successful run the manifest names `paperMC.patch`, carries the
    version unchanged, and holds the SHA-256 digests of the two jars as
    64 upper-case hexadecimal characters each.
  */
  lemma ManifestHashes(env: Platform, vanilla: Bytes, paper: Bytes, mcVersion: string)
    requires |env.sha256(vanilla)| == 32 && |env.sha256(paper)| == 32
    ensures var m := ManifestOf(env, vanilla, paper, mcVersion);
      && m.patch == "paperMC.patch"
      && m.version == mcVersion
      && |m.originalHash| == 64 && Unhex(m.originalHash) == Some(env.sha256(vanilla))
      && |m.patchedHash| == 64 && Unhex(m.patchedHash) == Some(env.sha256(paper))
      && (forall k :: 0 <= k < 64 ==> IsUpperHexDigit(m.originalHash[k]) && IsUpperHexDigit(m.patchedHash[k]))
  {
    Sha256Hex(env.sha256, vanilla);
    Sha256Hex(env.sha256, paper);
  }

  /**
    The download URL is the Mojang launcher template around 40 lower-case
    hexadecimal characters that decode to the SHA-1 of the vanilla jar; the
    paper jar and the version play no part in it.
  */
  lemma MojangSourceUrl(env: Platform, vanilla: Bytes, paper: Bytes, mcVersion: string)
    requires |env.sha1(vanilla)| == 20
    ensures var url := ManifestOf(env, vanilla, paper, mcVersion).sourceUrl;
      var key := url[|MojangPrefix|..|url| - |MojangSuffix|];
      && |url| == |MojangPrefix| + 40 + |MojangSuffix|
      && url[..|MojangPrefix|] == "https://launcher.mojang.com/v1/objects/"
      && url[|url| - |MojangSuffix|..] == "/server.jar"
      && (forall k :: 0 <= k < 40 ==> IsLowerHexDigit(key[k]))
      && Unhex(key) == Some(env.sha1(vanilla))
  {
    var key := ToLowerCase(HexOf(env.sha1(vanilla)));
    var url := MojangPrefix + key + MojangSuffix;
    LowerHexOf(env.sha1(vanilla));
    assert url[|MojangPrefix|..|url| - |MojangSuffix|] == key;
  }

  /** Vanilla jars with different SHA-1 digests get different download URLs. */
  lemma SourceUrlKeyedBySha1(env: Platform, v1: Bytes, v2: Bytes, p1: Bytes, p2: Bytes, ver1: string, ver2: string)
    requires |env.sha1(v1)| == 20 && |env.sha1(v2)| == 20
    ensures ManifestOf(env, v1, p1, ver1).sourceUrl == ManifestOf(env, v2, p2, ver2).sourceUrl
        <==> env.sha1(v1) == env.sha1(v2)
  {
    MojangSourceUrl(env, v1, p1, ver1);
    MojangSourceUrl(env, v2, p2, ver2);
  }

  // Properties of the file-system steps.

  lemma ProtocolPathShape(cfg: Config)
    ensures Parent(ProtocolPath(cfg)) == cfg.generatedResourceLocation + ["META-INF"]
    ensures cfg.generatedResourceLocation < Parent(ProtocolPath(cfg))
    ensures ProtocolPath(cfg) != PatchPath(cfg) && ProtocolPath(cfg) != JsonPath(cfg)
    ensures PatchPath(cfg) != JsonPath(cfg)
    ensures !(PatchPath(cfg) <= Parent(ProtocolPath(cfg))) && !(JsonPath(cfg) <= Parent(ProtocolPath(cfg)))
    ensures !(ProtocolPath(cfg) <= Parent(ProtocolPath(cfg)))
    ensures forall k :: 0 <= k < |ProtocolPath(cfg)| ==>
      ProtocolPath(cfg)[..k] != PatchPath(cfg) && ProtocolPath(cfg)[..k] != JsonPath(cfg)
  {
    var out := cfg.generatedResourceLocation;
    var protocol := ProtocolPath(cfg);
    OutputPaths(cfg);
    assert Parent(protocol)[|out|] == "META-INF";
    assert PatchPath(cfg)[|out|] == PatchName;
    assert JsonPath(cfg)[|out|] == JsonName;
    forall k | 0 <= k < |protocol|
      ensures protocol[..k] != PatchPath(cfg) && protocol[..k] != JsonPath(cfg)
    {
      if k == |out| + 1 {
        assert protocol[..k] == Parent(protocol);
      }
    }
  }

  /**
    The output-directory step: nothing happens unless `Files.notExists`
    reports the directory missing (an entry whose status cannot be read is
    left alone); otherwise it is created, and the patch delete that follows
    can find no file, because nothing exists under a directory that did not
    exist, so it fails only on a failing entry. No file changes either way.
  */
  lemma OutputDirectoryPrepared(fs: Fs, cfg: Config)
    requires WellFormed(fs)
    ensures var out := cfg.generatedResourceLocation; var r := OutputDirectoryStep(fs, cfg);
      && (!NotExists(fs, out) ==> r == Io(true, fs))
      && (!r.ok ==> NotExists(fs, out))
      && (r.ok && NotExists(fs, out) ==> out in r.after.dirs)
      && r.after.files == fs.files
      && r.after.faulty == fs.faulty
      && fs.dirs <= r.after.dirs
      && (forall q :: q in r.after.dirs ==> q in fs.dirs || q <= out)
      && WellFormed(r.after)
  {
    var out := cfg.generatedResourceLocation;
    if NotExists(fs, out) {
      var created := CreateDirectories(fs, out);
      CreateDirectoriesWellFormed(fs, out, 0);
      var patch := PatchPath(cfg);
      OutputPaths(cfg);
      assert out < patch;
      NothingUnderMissing(fs, out, patch);
      assert patch !in created.after.dirs;
      if created.ok {
        assert out[..|out|] == out;
        DeleteIfExistsFrame(created.after, patch);
        DeleteIfExistsWellFormed(created.after, patch);
        assert created.after.files - {patch} == created.after.files;
      }
    }
  }

  /**
    When `Files.notExists` reports the directory missing, the step fails
    exactly when the directory cannot be created or the patch entry is a
    failing one: the delete that follows cannot meet a directory, a file, or
    a regular file above the patch.
  */
  lemma OutputDirectoryStepFailure(fs: Fs, cfg: Config)
    requires WellFormed(fs)
    requires NotExists(fs, cfg.generatedResourceLocation)
    ensures OutputDirectoryStep(fs, cfg).ok
        <==> CreateDirectories(fs, cfg.generatedResourceLocation).ok && PatchPath(cfg) !in fs.faulty
  {
    var out := cfg.generatedResourceLocation;
    var created := CreateDirectories(fs, out);
    var patch := PatchPath(cfg);
    OutputPaths(cfg);
    assert out < patch;
    NothingUnderMissing(fs, out, patch);
    assert !UnderFile(created.after, patch) by {
      forall k: nat | k < |patch|
        ensures !FileAtPrefix(created.after, patch, k)
      {
        assert patch[..k] == out[..k];
        if k == |out| {
          assert out[..k] == out;
        } else {
          assert !FileAtPrefix(fs, out, k);
        }
      }
    }
  }

  /** The output-directory step, as later steps need it: no file changes and the file system stays well formed. */
  lemma OutputDirectoryKeepsFiles(fs: Fs, cfg: Config)
    requires WellFormed(fs)
    ensures OutputDirectoryStep(fs, cfg).after.files == fs.files
    ensures WellFormed(OutputDirectoryStep(fs, cfg).after)
  {
    OutputDirectoryPrepared(fs, cfg);
  }

  /**
    The descriptor step keeps the file system well formed and, on success,
    leaves the descriptor copied (its directory in place) or absent, as the
    jar has it or not.
  */
  lemma DescriptorStepFacts(fs: Fs, cfg: Config, entries: map<string, Bytes>)
    requires WellFormed(fs)
    ensures var protocol := ProtocolPath(cfg); var r := DescriptorStep(fs, cfg, entries);
      && WellFormed(r.after)
      && r.after.faulty == fs.faulty
      && (r.ok && ProtocolEntry in entries ==>
            protocol in r.after.files && r.after.files[protocol] == entries[ProtocolEntry]
            && Parent(protocol) in r.after.dirs)
      && (r.ok && ProtocolEntry !in entries ==> !Exists(r.after, protocol))
  {
    var protocol := ProtocolPath(cfg);
    ProtocolPathShape(cfg);
    if ProtocolEntry !in entries {
      DeleteIfExistsFrame(fs, protocol);
      DeleteIfExistsWellFormed(fs, protocol);
    } else {
      var parent := CreateDirectories(fs, Parent(protocol));
      CreateDirectoriesWellFormed(fs, Parent(protocol), 0);
      if parent.ok {
        assert Parent(protocol)[..|Parent(protocol)|] == Parent(protocol);
        DeleteIfExistsFrame(parent.after, protocol);
        CopyWellFormed(parent.after, protocol, entries[ProtocolEntry]);
      }
    }
  }

  /** The descriptor step changes no file but the descriptor, and no directory off the descriptor's path. */
  lemma DescriptorStepAt(fs: Fs, cfg: Config, entries: map<string, Bytes>, q: Path)
    requires WellFormed(fs)
    requires q != ProtocolPath(cfg)
    ensures SameFileAt(fs, DescriptorStep(fs, cfg, entries).after, q)
    ensures !(q <= Parent(ProtocolPath(cfg))) ==>
      (q in DescriptorStep(fs, cfg, entries).after.dirs <==> q in fs.dirs)
  {
    var protocol := ProtocolPath(cfg);
    if ProtocolEntry !in entries {
      DeleteIfExistsFrame(fs, protocol);
      assert SameFileAt(fs, DeleteIfExists(fs, protocol).after, q);
    } else {
      var parent := CreateDirectories(fs, Parent(protocol));
      CreateDirectoriesWellFormed(fs, Parent(protocol), 0);
      assert SameFileAt(fs, parent.after, q);
      if parent.ok {
        var d := DeleteIfExists(parent.after, protocol);
        DeleteIfExistsFrame(parent.after, protocol);
        assert SameFileAt(parent.after, d.after, q);
        if d.ok {
          var w := Write(d.after, protocol, entries[ProtocolEntry]);
          assert SameFileAt(d.after, w.after, q);
          assert DescriptorStep(fs, cfg, entries) == w;
        } else {
          assert DescriptorStep(fs, cfg, entries) == d;
        }
      } else {
        assert DescriptorStep(fs, cfg, entries) == parent;
      }
    }
  }

  /** Reading, diffing, hashing and writing touch no directory and keep the file system well formed. */
  lemma GenerateStepFacts(fs: Fs, cfg: Config, env: Platform)
    requires WellFormed(fs)
    ensures var r := GenerateStep(fs, cfg, env);
      && WellFormed(r.after)
      && r.after.dirs == fs.dirs
      && r.after.faulty == fs.faulty
  {
    var v := ReadAllBytes(fs, cfg.vanillaMinecraft);
    var p := ReadAllBytes(fs, cfg.paperMinecraft);
    if v.Some? && p.Some? {
      var diff := env.diff(v.value, p.value);
      var patch := Write(fs, PatchPath(cfg), diff.written);
      WriteWellFormed(fs, PatchPath(cfg), diff.written);
      var data := env.toJson(ManifestOf(env, v.value, p.value, cfg.mcVersion));
      WriteWellFormed(patch.after, JsonPath(cfg), data);
    }
  }

  /** Reading, diffing, hashing and writing change no file but the patch and the manifest. */
  lemma GenerateStepAt(fs: Fs, cfg: Config, env: Platform, q: Path)
    requires q != PatchPath(cfg) && q != JsonPath(cfg)
    ensures SameFileAt(fs, GenerateStep(fs, cfg, env).after, q)
  {
  }

  /** The run after the output directory step keeps the file system well formed. */
  lemma JarChecksFacts(fs: Fs, cfg: Config, env: Platform)
    requires WellFormed(fs)
    ensures WellFormed(JarChecks(fs, cfg, env).after)
    ensures JarChecks(fs, cfg, env).after.faulty == fs.faulty
  {
    if !NotExists(fs, cfg.vanillaMinecraft) && !NotExists(fs, cfg.paperMinecraft) && env.jarUri(cfg.paperMinecraft)
       && OpenJar(fs, cfg, env).Some? {
      var entries := OpenJar(fs, cfg, env).value;
      var x := DescriptorStep(fs, cfg, entries);
      DescriptorStepFacts(fs, cfg, entries);
      if x.ok {
        GenerateStepFacts(x.after, cfg, env);
      }
    }
  }

  /** The run after the output directory step, at one path that is none of the three outputs. */
  lemma JarChecksAt(fs: Fs, cfg: Config, env: Platform, q: Path)
    requires WellFormed(fs)
    requires q != PatchPath(cfg) && q != ProtocolPath(cfg)
    ensures q != JsonPath(cfg) ==> SameFileAt(fs, JarChecks(fs, cfg, env).after, q)
    ensures !(q <= Parent(ProtocolPath(cfg))) ==> (q in JarChecks(fs, cfg, env).after.dirs <==> q in fs.dirs)
  {
    if !NotExists(fs, cfg.vanillaMinecraft) && !NotExists(fs, cfg.paperMinecraft) && env.jarUri(cfg.paperMinecraft)
       && OpenJar(fs, cfg, env).Some? {
      var entries := OpenJar(fs, cfg, env).value;
      var x := DescriptorStep(fs, cfg, entries);
      DescriptorStepAt(fs, cfg, entries, q);
      if x.ok {
        DescriptorStepFacts(fs, cfg, entries);
        GenerateStepFacts(x.after, cfg, env);
        if q != JsonPath(cfg) {
          GenerateStepAt(x.after, cfg, env, q);
        }
      }
    }
  }

  lemma PrefixOfOutputDirectory(cfg: Config, q: Path)
    requires q <= cfg.generatedResourceLocation
    ensures q <= Parent(ProtocolPath(cfg))
  {
    ProtocolPathShape(cfg);
  }

  /** A whole run, at one path that is none of the three outputs. */
  lemma RunAt(fs: Fs, cfg: Config, env: Platform, q: Path)
    requires WellFormed(fs)
    requires q != PatchPath(cfg) && q != ProtocolPath(cfg)
    ensures q != JsonPath(cfg) ==> SameFileAt(fs, Run(fs, cfg, env).after, q)
    ensures !(q <= Parent(ProtocolPath(cfg))) ==> (q in Run(fs, cfg, env).after.dirs <==> q in fs.dirs)
  {
    var setup := OutputDirectoryStep(fs, cfg);
    OutputDirectoryPrepared(fs, cfg);
    if setup.ok {
      JarChecksAt(setup.after, cfg, env, q);
      if q <= cfg.generatedResourceLocation {
        PrefixOfOutputDirectory(cfg, q);
      }
    }
  }

  /**
    A run keeps the file system well formed, writes no file other than
    `paperMC.patch`, `patch.json` and the descriptor, and creates or removes
    no directory other than the descriptor's ancestors and those outputs.
  */
  lemma RunFrame(fs: Fs, cfg: Config, env: Platform)
    requires WellFormed(fs)
    ensures var after := Run(fs, cfg, env).after;
      && WellFormed(after)
      && after.faulty == fs.faulty
      && (forall q :: q != PatchPath(cfg) && q != JsonPath(cfg) && q != ProtocolPath(cfg) ==> SameFileAt(fs, after, q))
      && (forall q :: q != PatchPath(cfg) && q != ProtocolPath(cfg) && !(q <= Parent(ProtocolPath(cfg)))
            ==> (q in after.dirs <==> q in fs.dirs))
  {
    var setup := OutputDirectoryStep(fs, cfg);
    OutputDirectoryPrepared(fs, cfg);
    if setup.ok {
      JarChecksFacts(setup.after, cfg, env);
    }
    var after := Run(fs, cfg, env).after;
    forall q | q != PatchPath(cfg) && q != JsonPath(cfg) && q != ProtocolPath(cfg)
      ensures SameFileAt(fs, after, q)
    {
      RunAt(fs, cfg, env, q);
    }
    forall q | q != PatchPath(cfg) && q != ProtocolPath(cfg) && !(q <= Parent(ProtocolPath(cfg)))
      ensures q in after.dirs <==> q in fs.dirs
    {
      RunAt(fs, cfg, env, q);
    }
  }

  /**
    The checks before any jar is read run in the source's order, each one
    deciding the outcome only when those before it passed: the output
    directory, the vanilla jar, the paper jar, the jar URI, then opening the
    paper jar as a zip. Until the descriptor step no file is changed.
  */
  lemma PreflightChecks(fs: Fs, cfg: Config, env: Platform)
    requires WellFormed(fs)
    requires !(cfg.vanillaMinecraft <= cfg.generatedResourceLocation)
    requires !(cfg.paperMinecraft <= cfg.generatedResourceLocation)
    ensures var setup := OutputDirectoryStep(fs, cfg); var r := Run(fs, cfg, env);
      var vanilla := !NotExists(fs, cfg.vanillaMinecraft); var paper := !NotExists(fs, cfg.paperMinecraft);
      && (r.outcome == Failure(CouldNotCreateSourceDirectory) <==> !setup.ok)
      && (r.outcome == Failure(VanillaJarMissing) <==> setup.ok && !vanilla)
      && (r.outcome == Failure(PaperJarMissing) <==> setup.ok && vanilla && !paper)
      && (r.outcome == Failure(JarUriFailed) <==> setup.ok && vanilla && paper && !env.jarUri(cfg.paperMinecraft))
      && (setup.ok && vanilla && paper && env.jarUri(cfg.paperMinecraft) && OpenJar(fs, cfg, env).None? ==>
            r.outcome == Failure(JarContentsUnreadable))
      && (!setup.ok || !vanilla || !paper || !env.jarUri(cfg.paperMinecraft) || OpenJar(fs, cfg, env).None? ==>
            r.after.files == fs.files)
  {
    OutputDirectoryPrepared(fs, cfg);
    var setup := OutputDirectoryStep(fs, cfg);
    if setup.ok {
      var fs1 := setup.after;
      assert Exists(fs1, cfg.vanillaMinecraft) == Exists(fs, cfg.vanillaMinecraft);
      assert Exists(fs1, cfg.paperMinecraft) == Exists(fs, cfg.paperMinecraft);
      SameStatus(fs1, fs, cfg.vanillaMinecraft);
      SameStatus(fs1, fs, cfg.paperMinecraft);
      assert OpenJar(fs1, cfg, env) == OpenJar(fs, cfg, env);
      JarChecksOrder(fs1, cfg, env);
    }
  }

  /** The checks after the directory step, in order. */
  lemma JarChecksOrder(fs: Fs, cfg: Config, env: Platform)
    ensures var r := JarChecks(fs, cfg, env);
      var vanilla := !NotExists(fs, cfg.vanillaMinecraft); var paper := !NotExists(fs, cfg.paperMinecraft);
      && r.outcome != Failure(CouldNotCreateSourceDirectory)
      && (r.outcome == Failure(VanillaJarMissing) <==> !vanilla)
      && (r.outcome == Failure(PaperJarMissing) <==> vanilla && !paper)
      && (r.outcome == Failure(JarUriFailed) <==> vanilla && paper && !env.jarUri(cfg.paperMinecraft))
      && (vanilla && paper && env.jarUri(cfg.paperMinecraft) && OpenJar(fs, cfg, env).None? ==>
            r.outcome == Failure(JarContentsUnreadable))
      && (!vanilla || !paper || !env.jarUri(cfg.paperMinecraft) || OpenJar(fs, cfg, env).None? ==> r.after == fs)
  {
    if !NotExists(fs, cfg.vanillaMinecraft) && !NotExists(fs, cfg.paperMinecraft) && env.jarUri(cfg.paperMinecraft)
       && OpenJar(fs, cfg, env).Some? {
      var entries := OpenJar(fs, cfg, env).value;
      var x := DescriptorStep(fs, cfg, entries);
      if x.ok {
        GenerateStepOutcome(x.after, cfg, env);
      }
    }
  }

  /** After the directory step, a failure before the patch is opened leaves the patch and the manifest alone. */
  lemma JarChecksEarlyFailure(fs: Fs, cfg: Config, env: Platform)
    requires WellFormed(fs)
    ensures var r := JarChecks(fs, cfg, env);
      r.outcome in {Failure(CouldNotCreateSourceDirectory), Failure(VanillaJarMissing), Failure(PaperJarMissing),
                    Failure(JarUriFailed), Failure(JarContentsUnreadable), Failure(JarsUnreadable)}
      ==> SameFileAt(fs, r.after, PatchPath(cfg)) && SameFileAt(fs, r.after, JsonPath(cfg))
  {
    ProtocolPathShape(cfg);
    if !NotExists(fs, cfg.vanillaMinecraft) && !NotExists(fs, cfg.paperMinecraft) && env.jarUri(cfg.paperMinecraft)
       && OpenJar(fs, cfg, env).Some? {
      var entries := OpenJar(fs, cfg, env).value;
      var x := DescriptorStep(fs, cfg, entries);
      DescriptorStepAt(fs, cfg, entries, PatchPath(cfg));
      DescriptorStepAt(fs, cfg, entries, JsonPath(cfg));
      if x.ok {
        assert JarChecks(fs, cfg, env) == GenerateStep(x.after, cfg, env);
        GenerateStepOutcome(x.after, cfg, env);
      }
    }
  }

  /** A run that fails before writing the patch leaves `paperMC.patch` and `patch.json` as they were. */
  lemma EarlyFailureKeepsOutputs(fs: Fs, cfg: Config, env: Platform)
    requires WellFormed(fs)
    ensures var r := Run(fs, cfg, env);
      r.outcome in {Failure(CouldNotCreateSourceDirectory), Failure(VanillaJarMissing), Failure(PaperJarMissing),
                    Failure(JarUriFailed), Failure(JarContentsUnreadable), Failure(JarsUnreadable)}
      ==> SameFileAt(fs, r.after, PatchPath(cfg)) && SameFileAt(fs, r.after, JsonPath(cfg))
  {
    var setup := OutputDirectoryStep(fs, cfg);
    var r := Run(fs, cfg, env);
    OutputDirectoryKeepsFiles(fs, cfg);
    if setup.ok {
      assert r == JarChecks(setup.after, cfg, env);
      JarChecksEarlyFailure(setup.after, cfg, env);
    } else {
      assert r.after == setup.after;
    }
  }

  /**
    What a run that has got past the descriptor step leaves at the
    descriptor's path: a byte-for-byte copy of the jar's entry under an
    existing `META-INF` directory when the jar has one, nothing otherwise.
  */
  lemma DescriptorCopiedOrRemoved(fs: Fs, cfg: Config, env: Platform)
    requires WellFormed(fs)
    ensures var r := Run(fs, cfg, env); var protocol := ProtocolPath(cfg);
      r.outcome in {Success, Failure(JarsUnreadable), Failure(PatchCreationFailed),
                    Failure(Sha256Unavailable), Failure(Sha1Unavailable)}
      ==> && OpenJar(fs, cfg, env).Some?
          && (ProtocolEntry in OpenJar(fs, cfg, env).value ==>
                protocol in r.after.files && r.after.files[protocol] == OpenJar(fs, cfg, env).value[ProtocolEntry]
                && Parent(protocol) in r.after.dirs)
          && (ProtocolEntry !in OpenJar(fs, cfg, env).value ==> !Exists(r.after, protocol))
  {
    var setup := OutputDirectoryStep(fs, cfg);
    OutputDirectoryPrepared(fs, cfg);
    ProtocolPathShape(cfg);
    if setup.ok {
      var fs1 := setup.after;
      assert OpenJar(fs1, cfg, env) == OpenJar(fs, cfg, env);
      if !NotExists(fs1, cfg.vanillaMinecraft) && !NotExists(fs1, cfg.paperMinecraft) && env.jarUri(cfg.paperMinecraft)
         && OpenJar(fs1, cfg, env).Some? {
        var entries := OpenJar(fs1, cfg, env).value;
        var x := DescriptorStep(fs1, cfg, entries);
        DescriptorStepFacts(fs1, cfg, entries);
        if x.ok {
          GenerateStepFacts(x.after, cfg, env);
          GenerateStepAt(x.after, cfg, env, ProtocolPath(cfg));
        }
      }
    }
  }

  /**
    After the descriptor, the outcome is decided in the source's order:
    unreadable jars, then the patch (its file cannot be opened or the diff
    fails), then the SHA-256 and SHA-1 algorithms; the manifest's own write
    plays no part. The patch file holds what the diff wrote whenever it
    could be opened, even when the diff then failed.
  */
  lemma GenerateStepOutcome(fs: Fs, cfg: Config, env: Platform)
    ensures var r := GenerateStep(fs, cfg, env);
      var v := ReadAllBytes(fs, cfg.vanillaMinecraft); var p := ReadAllBytes(fs, cfg.paperMinecraft);
      && (r.outcome == Failure(JarsUnreadable) <==> v.None? || p.None?)
      && (v.None? || p.None? ==> r.after == fs)
      && (v.Some? && p.Some? ==>
            var diff := env.diff(v.value, p.value); var open := CanOpenForWrite(fs, PatchPath(cfg));
            && (r.outcome == Failure(PatchCreationFailed) <==> !open || !diff.ok)
            && (r.outcome == Failure(Sha256Unavailable) <==> open && diff.ok && !env.hasSha256)
            && (r.outcome == Failure(Sha1Unavailable) <==> open && diff.ok && env.hasSha256 && !env.hasSha1)
            && (r.outcome == Success <==> open && diff.ok && env.hasSha256 && env.hasSha1)
            && (open ==> PatchPath(cfg) in r.after.files && r.after.files[PatchPath(cfg)] == diff.written))
      && (r.outcome == Success ==>
            var json := JsonPath(cfg);
            && (CanOpenForWrite(fs, json) ==>
                  json in r.after.files
                  && r.after.files[json] == env.toJson(ManifestOf(env, v.value, p.value, cfg.mcVersion)))
            && (!CanOpenForWrite(fs, json) ==> SameFileAt(fs, r.after, json)))
  {
    OutputPaths(cfg);
  }

  /**
    A successful run read both jars as they were before it, wrote the diff
    between them to `paperMC.patch`, and wrote the manifest for them to
    `patch.json` unless that path is a directory or cannot be written, in
    which case `patch.json` is left as it was and the run still succeeds.
  */
  lemma SuccessfulRun(fs: Fs, cfg: Config, env: Platform)
    requires WellFormed(fs)
    requires cfg.vanillaMinecraft !in {PatchPath(cfg), JsonPath(cfg), ProtocolPath(cfg)}
    requires cfg.paperMinecraft !in {PatchPath(cfg), JsonPath(cfg), ProtocolPath(cfg)}
    ensures var r := Run(fs, cfg, env); var v := cfg.vanillaMinecraft; var p := cfg.paperMinecraft;
      var json := JsonPath(cfg);
      r.outcome == Success ==>
        && ReadAllBytes(fs, v).Some? && ReadAllBytes(fs, p).Some?
        && env.diff(fs.files[v], fs.files[p]).ok && env.hasSha256 && env.hasSha1
        && PatchPath(cfg) in r.after.files && r.after.files[PatchPath(cfg)] == env.diff(fs.files[v], fs.files[p]).written
        && (json !in fs.faulty && json !in fs.dirs ==>
              json in r.after.files && r.after.files[json] == env.toJson(ManifestOf(env, fs.files[v], fs.files[p], cfg.mcVersion)))
        && (json in fs.faulty || json in fs.dirs ==> SameFileAt(fs, r.after, json))
  {
    var setup := OutputDirectoryStep(fs, cfg);
    OutputDirectoryPrepared(fs, cfg);
    ProtocolPathShape(cfg);
    var json := JsonPath(cfg);
    if setup.ok {
      var fs1 := setup.after;
      if !NotExists(fs1, cfg.vanillaMinecraft) && !NotExists(fs1, cfg.paperMinecraft) && env.jarUri(cfg.paperMinecraft)
         && OpenJar(fs1, cfg, env).Some? {
        var entries := OpenJar(fs1, cfg, env).value;
        var x := DescriptorStep(fs1, cfg, entries);
        DescriptorStepFacts(fs1, cfg, entries);
        DescriptorStepAt(fs1, cfg, entries, cfg.vanillaMinecraft);
        DescriptorStepAt(fs1, cfg, entries, cfg.paperMinecraft);
        DescriptorStepAt(fs1, cfg, entries, json);
        if x.ok {
          assert Run(fs, cfg, env) == GenerateStep(x.after, cfg, env);
          GenerateStepOutcome(x.after, cfg, env);
          var r := GenerateStep(x.after, cfg, env);
          if r.outcome == Success {
            assert CanOpenForWrite(x.after, PatchPath(cfg));
            assert Parent(json) == Parent(PatchPath(cfg));
            assert CanOpenForWrite(x.after, json) <==> json !in fs.faulty && json !in fs.dirs;
          }
        }
      }
    }
  }

  // A failing write of `patch.json` does not fail the run.

  /** The output-directory step does the same with `patch.json` failing as without. */
  lemma OutputDirectoryStepFault(fs: Fs, cfg: Config)
    ensures var q := JsonPath(cfg);
      OutputDirectoryStep(WithFault(fs, q), cfg)
        == Io(OutputDirectoryStep(fs, cfg).ok, WithFault(OutputDirectoryStep(fs, cfg).after, q))
  {
    var out := cfg.generatedResourceLocation;
    var q := JsonPath(cfg);
    OutputPaths(cfg);
    assert !(q <= out) by {
      assert |q| == |out| + 1;
    }
    FaultElsewhere(fs, out, q, []);
    if NotExists(fs, out) {
      CreateDirectoriesFaultElsewhere(fs, out, 0, q);
      FaultElsewhere(CreateDirectories(fs, out).after, PatchPath(cfg), q, []);
    }
  }

  /** The descriptor step does the same with `patch.json` failing as without. */
  lemma DescriptorStepFault(fs: Fs, cfg: Config, entries: map<string, Bytes>)
    ensures var q := JsonPath(cfg);
      DescriptorStep(WithFault(fs, q), cfg, entries)
        == Io(DescriptorStep(fs, cfg, entries).ok, WithFault(DescriptorStep(fs, cfg, entries).after, q))
  {
    var q := JsonPath(cfg);
    var protocol := ProtocolPath(cfg);
    ProtocolPathShape(cfg);
    if ProtocolEntry !in entries {
      FaultElsewhere(fs, protocol, q, []);
    } else {
      CreateDirectoriesFaultElsewhere(fs, Parent(protocol), 0, q);
      FaultElsewhere(CreateDirectories(fs, Parent(protocol)).after, protocol, q, entries[ProtocolEntry]);
    }
  }

  /** After the descriptor, only the manifest write sees the fault, and its failure is swallowed. */
  lemma GenerateStepFault(fs: Fs, cfg: Config, env: Platform)
    requires cfg.vanillaMinecraft != JsonPath(cfg) && cfg.paperMinecraft != JsonPath(cfg)
    ensures GenerateStep(WithFault(fs, JsonPath(cfg)), cfg, env).outcome == GenerateStep(fs, cfg, env).outcome
  {
    var q := JsonPath(cfg);
    FaultElsewhere(fs, cfg.vanillaMinecraft, q, []);
    FaultElsewhere(fs, cfg.paperMinecraft, q, []);
    GenerateStepOutcome(fs, cfg, env);
    GenerateStepOutcome(WithFault(fs, q), cfg, env);
    OutputPaths(cfg);
    assert CanOpenForWrite(WithFault(fs, q), PatchPath(cfg)) == CanOpenForWrite(fs, PatchPath(cfg));
  }

  /** The jar checks and the descriptor do not touch `patch.json`. */
  lemma JarChecksFault(fs: Fs, cfg: Config, env: Platform)
    requires cfg.vanillaMinecraft != JsonPath(cfg) && cfg.paperMinecraft != JsonPath(cfg)
    ensures JarChecks(WithFault(fs, JsonPath(cfg)), cfg, env).outcome == JarChecks(fs, cfg, env).outcome
  {
    var q := JsonPath(cfg);
    FaultElsewhere(fs, cfg.vanillaMinecraft, q, []);
    FaultElsewhere(fs, cfg.paperMinecraft, q, []);
    assert OpenJar(WithFault(fs, q), cfg, env) == OpenJar(fs, cfg, env);
    if !NotExists(fs, cfg.vanillaMinecraft) && !NotExists(fs, cfg.paperMinecraft) && env.jarUri(cfg.paperMinecraft)
       && OpenJar(fs, cfg, env).Some? {
      var entries := OpenJar(fs, cfg, env).value;
      DescriptorStepFault(fs, cfg, entries);
      var x := DescriptorStep(fs, cfg, entries);
      if x.ok {
        GenerateStepFault(x.after, cfg, env);
      }
    }
  }

  /**
    The manifest write is the last step and its failure is swallowed: with
    `patch.json` made unwritable, a run ends in the same outcome as before.
  */
  lemma ManifestWriteFailureIgnored(fs: Fs, cfg: Config, env: Platform)
    requires cfg.vanillaMinecraft != JsonPath(cfg) && cfg.paperMinecraft != JsonPath(cfg)
    ensures Run(WithFault(fs, JsonPath(cfg)), cfg, env).outcome == Run(fs, cfg, env).outcome
  {
    OutputDirectoryStepFault(fs, cfg);
    var setup := OutputDirectoryStep(fs, cfg);
    if setup.ok {
      JarChecksFault(setup.after, cfg, env);
    }
  }

  // Running the goal again after a success.

  /** What a successful descriptor step leaves behind, in a form a second run can rely on. */
  ghost predicate DescriptorSettled(fs: Fs, cfg: Config, entries: map<string, Bytes>)
  {
    var protocol := ProtocolPath(cfg);
    && protocol !in fs.faulty && protocol !in fs.dirs && !UnderFile(fs, protocol)
    && (ProtocolEntry in entries ==>
          && protocol in fs.files && fs.files[protocol] == entries[ProtocolEntry]
          && (forall k :: 0 < k <= |Parent(protocol)| ==> Parent(protocol)[..k] in fs.dirs))
    && (ProtocolEntry !in entries ==> protocol !in fs.files)
  }

  lemma DescriptorStepSettles(fs: Fs, cfg: Config, entries: map<string, Bytes>)
    requires WellFormed(fs)
    requires DescriptorStep(fs, cfg, entries).ok
    ensures DescriptorSettled(DescriptorStep(fs, cfg, entries).after, cfg, entries)
  {
    var protocol := ProtocolPath(cfg);
    ProtocolPathShape(cfg);
    if ProtocolEntry !in entries {
      DeleteIfExistsFrame(fs, protocol);
      NotUnderFileKept(fs, DeleteIfExists(fs, protocol).after, protocol);
    } else {
      var parent := CreateDirectories(fs, Parent(protocol));
      CreateDirectoriesWellFormed(fs, Parent(protocol), 0);
      var d := DeleteIfExists(parent.after, protocol);
      DeleteIfExistsFrame(parent.after, protocol);
      var w := Write(d.after, protocol, entries[ProtocolEntry]);
      assert DescriptorStep(fs, cfg, entries) == w;
      NotUnderFileKept(parent.after, w.after, protocol);
      forall k | 0 < k <= |Parent(protocol)|
        ensures Parent(protocol)[..k] in d.after.dirs
      {
        assert Parent(protocol)[..k] in parent.after.dirs;
        assert Parent(protocol)[..k] != protocol by {
          assert |Parent(protocol)[..k]| < |protocol|;
        }
      }
    }
  }

  /** On a settled file system the descriptor step finds nothing to do. */
  lemma DescriptorStepFixpoint(fs: Fs, cfg: Config, entries: map<string, Bytes>)
    requires DescriptorSettled(fs, cfg, entries)
    ensures DescriptorStep(fs, cfg, entries) == Io(true, fs)
  {
    var protocol := ProtocolPath(cfg);
    if ProtocolEntry !in entries {
      assert fs.files - {protocol} == fs.files;
    } else {
      var parent := Parent(protocol);
      CreateDirectoriesExisting(fs, parent, 0);
      assert parent[..|parent|] == parent;
      assert CreateDirectories(fs, parent) == Io(true, fs);
      var removed := fs.(files := fs.files - {protocol});
      assert DeleteIfExists(fs, protocol) == Io(true, removed);
      assert IsDirectory(removed, parent);
      var data := entries[ProtocolEntry];
      assert Write(removed, protocol, data) == Io(true, removed.(files := removed.files[protocol := data]));
      assert removed.files[protocol := data] == fs.files;
    }
  }

  /** Reading, diffing and writing again over the outputs of a successful step writes what is already there. */
  lemma GenerateStepFixpoint(fs: Fs, cfg: Config, env: Platform)
    requires cfg.vanillaMinecraft != PatchPath(cfg) && cfg.vanillaMinecraft != JsonPath(cfg)
    requires cfg.paperMinecraft != PatchPath(cfg) && cfg.paperMinecraft != JsonPath(cfg)
    requires GenerateStep(fs, cfg, env).outcome == Success
    ensures var a := GenerateStep(fs, cfg, env).after; GenerateStep(a, cfg, env) == Execution(Success, a)
  {
    var a := GenerateStep(fs, cfg, env).after;
    GenerateStepOutcome(fs, cfg, env);
    GenerateStepOutcome(a, cfg, env);
    OutputPaths(cfg);
    var patch := PatchPath(cfg);
    var json := JsonPath(cfg);
    var vanilla := fs.files[cfg.vanillaMinecraft];
    var paper := fs.files[cfg.paperMinecraft];
    var diff := env.diff(vanilla, paper);
    assert ReadAllBytes(a, cfg.vanillaMinecraft) == Some(vanilla);
    assert ReadAllBytes(a, cfg.paperMinecraft) == Some(paper);
    var w := Write(a, patch, diff.written);
    assert a.files[patch := diff.written] == a.files;
    assert w == Io(true, a);
    var data := env.toJson(ManifestOf(env, vanilla, paper, cfg.mcVersion));
    if CanOpenForWrite(a, json) {
      assert a.files[json := data] == a.files;
    }
  }

  /** The generate step does not disturb a settled descriptor. */
  lemma GenerateStepKeepsSettled(fs: Fs, cfg: Config, env: Platform, entries: map<string, Bytes>)
    requires DescriptorSettled(fs, cfg, entries)
    ensures DescriptorSettled(GenerateStep(fs, cfg, env).after, cfg, entries)
  {
    var protocol := ProtocolPath(cfg);
    ProtocolPathShape(cfg);
    GenerateStepAt(fs, cfg, env, protocol);
    GenerateStepOutcome(fs, cfg, env);
    forall k: nat | k < |protocol|
      ensures !FileAtPrefix(GenerateStep(fs, cfg, env).after, protocol, k)
    {
      assert !FileAtPrefix(fs, protocol, k);
      GenerateStepAt(fs, cfg, env, protocol[..k]);
    }
  }

  /** The run after the directory step, repeated on what it left behind after a success. */
  lemma JarChecksIdempotent(fs: Fs, cfg: Config, env: Platform)
    requires WellFormed(fs)
    requires cfg.vanillaMinecraft !in {PatchPath(cfg), JsonPath(cfg), ProtocolPath(cfg)}
    requires cfg.paperMinecraft !in {PatchPath(cfg), JsonPath(cfg), ProtocolPath(cfg)}
    requires JarChecks(fs, cfg, env).outcome == Success
    ensures var a := JarChecks(fs, cfg, env).after;
      JarChecks(a, cfg, env) == Execution(Success, a) && Exists(a, cfg.generatedResourceLocation)
  {
    assert env.jarUri(cfg.paperMinecraft) && OpenJar(fs, cfg, env).Some?;
    var entries := OpenJar(fs, cfg, env).value;
    var x := DescriptorStep(fs, cfg, entries);
    assert x.ok;
    assert JarChecks(fs, cfg, env) == GenerateStep(x.after, cfg, env);
    DescriptorStepFacts(fs, cfg, entries);
    DescriptorStepAt(fs, cfg, entries, cfg.paperMinecraft);
    DescriptorStepSettles(fs, cfg, entries);
    var a := GenerateStep(x.after, cfg, env).after;
    GenerateStepOutcome(x.after, cfg, env);
    GenerateStepFacts(x.after, cfg, env);
    GenerateStepAt(x.after, cfg, env, cfg.vanillaMinecraft);
    GenerateStepAt(x.after, cfg, env, cfg.paperMinecraft);
    OutputPaths(cfg);
    assert Exists(a, cfg.generatedResourceLocation) by {
      assert CanOpenForWrite(x.after, PatchPath(cfg));
    }
    assert OpenJar(a, cfg, env) == OpenJar(fs, cfg, env);
    GenerateStepKeepsSettled(x.after, cfg, env, entries);
    DescriptorStepFixpoint(a, cfg, entries);
    GenerateStepFixpoint(x.after, cfg, env);
    assert !NotExists(a, cfg.vanillaMinecraft) && !NotExists(a, cfg.paperMinecraft) by {
      assert cfg.vanillaMinecraft in a.files && cfg.paperMinecraft in a.files;
    }
    assert JarChecks(a, cfg, env) == GenerateStep(a, cfg, env);
  }

  /**
    Running the goal again on what a successful run left behind succeeds
    and changes nothing: the directory exists, the descriptor is in place,
    and the patch and manifest are rewritten with the bytes they already hold.
  */
  lemma RunIdempotent(fs: Fs, cfg: Config, env: Platform)
    requires WellFormed(fs)
    requires cfg.vanillaMinecraft !in {PatchPath(cfg), JsonPath(cfg), ProtocolPath(cfg)}
    requires cfg.paperMinecraft !in {PatchPath(cfg), JsonPath(cfg), ProtocolPath(cfg)}
    requires Run(fs, cfg, env).outcome == Success
    ensures var a := Run(fs, cfg, env).after; Run(a, cfg, env) == Execution(Success, a)
  {
    var setup := OutputDirectoryStep(fs, cfg);
    OutputDirectoryKeepsFiles(fs, cfg);
    assert Run(fs, cfg, env) == JarChecks(setup.after, cfg, env);
    JarChecksIdempotent(setup.after, cfg, env);
    var a := Run(fs, cfg, env).after;
    assert OutputDirectoryStep(a, cfg) == Io(true, a);
  }
}
