/**
  The `generate-data` goal of the older revision,
  `com.destroystokyo.paperclipmavenplugin.GenerateDataMojo`: prepare the
  output directory, check that both jars exist, write the bsdiff patch from
  the vanilla jar to the paper jar, and write `patch.json` with the two
  SHA-256 digests and an Amazon S3 download URL built from the version.
  It has no jar URI, no zip file system and no protocol descriptor, and it
  reads only the diff, the SHA-256 digest and the serialiser from the
  platform.
*/
module LegacyGenerateData {
  import opened Options
  import opened Hex
  import opened FileSystems
  import opened Plugin
  import LocalFileSystem
  import GenerateData

  const S3Prefix: string := "https://s3.amazonaws.com/Minecraft.Download/versions/"
  const ServerJarPrefix: string := "/minecraft_server."
  const JarSuffix: string := ".jar"

  /** The download URL of the vanilla server jar: the version, twice, in the S3 template. */
  function SourceUrl(mcVersion: string): (r: string)
    ensures |r| == |S3Prefix| + 2 * |mcVersion| + |ServerJarPrefix| + |JarSuffix|
    ensures r[..|S3Prefix|] == S3Prefix
    ensures r[|S3Prefix|..|S3Prefix| + |mcVersion|] == mcVersion
    ensures r[|S3Prefix| + |mcVersion|..|S3Prefix| + |mcVersion| + |ServerJarPrefix|] == ServerJarPrefix
    ensures r[|S3Prefix| + |mcVersion| + |ServerJarPrefix|..|r| - |JarSuffix|] == mcVersion
    ensures r[|r| - |JarSuffix|..] == JarSuffix
  {
    S3Prefix + mcVersion + ServerJarPrefix + mcVersion + JarSuffix
  }

  /** The manifest a run writes for the given jar contents. */
  function ManifestOf(env: Platform, vanilla: Bytes, paper: Bytes, mcVersion: string): (r: PatchData)
    ensures r.patch == PatchName && r.version == mcVersion
    ensures |r.originalHash| == 2 * |env.sha256(vanilla)| && |r.patchedHash| == 2 * |env.sha256(paper)|
  {
    PatchData(
      patch := PatchName,
      sourceUrl := SourceUrl(mcVersion),
      originalHash := HexOf(env.sha256(vanilla)),
      patchedHash := HexOf(env.sha256(paper)),
      version := mcVersion)
  }

  /**
    Force-create the output directory if `File.exists` reports it absent,
    then force-delete the patch file inside it, a missing file being ignored.
  */
  function OutputDirectoryStep(fs: Fs, cfg: Config): (r: Io)
    ensures r.after.faulty == fs.faulty
  {
    if FileExists(fs, cfg.generatedResourceLocation) then Io(true, fs)
    else
      var created := ForceMkdir(fs, cfg.generatedResourceLocation);
      if !created.ok then created else ForceDelete(created.after, PatchPath(cfg))
  }

  /** A whole run of the goal from the file system `fs`. */
  function Run(fs: Fs, cfg: Config, env: Platform): (r: Execution)
    ensures r.after.faulty == fs.faulty
    ensures r.outcome == Success ==> PatchPath(cfg) in r.after.files
    ensures r.outcome in {Failure(VanillaJarMissing), Failure(PaperJarMissing)} ==> !FileExists(r.after, cfg.vanillaMinecraft) || !FileExists(r.after, cfg.paperMinecraft)
  {
    var setup := OutputDirectoryStep(fs, cfg);
    if !setup.ok then Execution(Failure(CouldNotCreateSourceDirectory), setup.after)
    else if !FileExists(setup.after, cfg.vanillaMinecraft) then Execution(Failure(VanillaJarMissing), setup.after)
    else if !FileExists(setup.after, cfg.paperMinecraft) then Execution(Failure(PaperJarMissing), setup.after)
    else GenerateStep(setup.after, cfg, env)
  }

  /** The run once both jars are known to exist: read, diff, hash, write the manifest. */
  function GenerateStep(fs: Fs, cfg: Config, env: Platform): (r: Execution)
    ensures r.after.dirs == fs.dirs && r.after.faulty == fs.faulty
    ensures r.outcome == Success ==> PatchPath(cfg) in r.after.files
  {
    match (ReadAllBytes(fs, cfg.vanillaMinecraft), ReadAllBytes(fs, cfg.paperMinecraft))
    case (Some(vanilla), Some(paper)) =>
      var diff := env.diff(vanilla, paper);
      var patch := Write(fs, PatchPath(cfg), diff.written);
      if !patch.ok || !diff.ok then Execution(Failure(PatchCreationFailed), patch.after)
      else if !env.hasSha256 then Execution(Failure(Sha256Unavailable), patch.after)
      else
        var json := Write(patch.after, JsonPath(cfg), env.toJson(ManifestOf(env, vanilla, paper, cfg.mcVersion)));
        Execution(Success, json.after)
    case _ => Execution(Failure(JarsUnreadable), fs)
  }

  /** The output directory: create it when missing, then force-delete a stale patch inside it. */
  method PrepareOutputDirectory(fs: LocalFileSystem.FileSystem, cfg: Config) returns (ok: bool)
    modifies fs
    ensures Io(ok, fs.State()) == OutputDirectoryStep(old(fs.State()), cfg)
  {
    var present := fs.FileExists(cfg.generatedResourceLocation);
    ok := true;
    if !present {
      ok := fs.ForceMkdir(cfg.generatedResourceLocation);
      if ok {
        ok := fs.ForceDelete(PatchPath(cfg));
      }
    }
  }

  /** Read both jars, write the patch, hash, and write the manifest. */
  method GenerateOutputs(fs: LocalFileSystem.FileSystem, cfg: Config, env: Platform) returns (outcome: Outcome)
    modifies fs
    ensures Execution(outcome, fs.State()) == GenerateStep(old(fs.State()), cfg, env)
  {
    var vanillaBytes := fs.ReadAllBytes(cfg.vanillaMinecraft);
    var paperBytes := fs.ReadAllBytes(cfg.paperMinecraft);
    if vanillaBytes.None? || paperBytes.None? {
      return Failure(JarsUnreadable);
    }

    var diff := env.diff(vanillaBytes.value, paperBytes.value);
    var written := fs.Write(PatchPath(cfg), diff.written);
    if !written || !diff.ok {
      return Failure(PatchCreationFailed);
    }

    if !env.hasSha256 {
      return Failure(Sha256Unavailable);
    }

    var vanillaHash := ToHex(env.sha256(vanillaBytes.value));
    var paperHash := ToHex(env.sha256(paperBytes.value));
    var data := PatchData(PatchName, SourceUrl(cfg.mcVersion), vanillaHash, paperHash, cfg.mcVersion);

    // An IOException while writing patch.json is printed and ignored.
    var _ := fs.Write(JsonPath(cfg), env.toJson(data));
    outcome := Success;
  }

  /** `execute()`: the goal's steps against the file system `fs`, in the source's order. */
  method Execute(fs: LocalFileSystem.FileSystem, cfg: Config, env: Platform) returns (outcome: Outcome)
    modifies fs
    ensures Execution(outcome, fs.State()) == Run(old(fs.State()), cfg, env)
  {
    var prepared := PrepareOutputDirectory(fs, cfg);
    if !prepared {
      return Failure(CouldNotCreateSourceDirectory);
    }

    var present := fs.FileExists(cfg.vanillaMinecraft);
    if !present {
      return Failure(VanillaJarMissing);
    }
    present := fs.FileExists(cfg.paperMinecraft);
    if !present {
      return Failure(PaperJarMissing);
    }

    outcome := GenerateOutputs(fs, cfg, env);
  }

  // Properties of the manifest.

  /** The download URL names the version and nothing else: equal versions give equal URLs and different ones different URLs. */
  lemma SourceUrlKeyedByVersion(ver1: string, ver2: string)
    ensures SourceUrl(ver1) == SourceUrl(ver2) <==> ver1 == ver2
  {
    var u1 := SourceUrl(ver1);
    var u2 := SourceUrl(ver2);
    if u1 == u2 {
      assert |ver1| == |ver2|;
      assert u1[|S3Prefix|..|S3Prefix| + |ver1|] == ver1;
      assert u2[|S3Prefix|..|S3Prefix| + |ver2|] == ver2;
    }
  }

  /**
    On a successful run the manifest names `paperMC.patch`, carries the
    version unchanged, holds the SHA-256 digests of the two jars as 64
    upper-case hexadecimal characters each, and points at the S3 URL of
    the version, whatever the jars hold.
  */
  lemma ManifestHashes(env: Platform, vanilla: Bytes, paper: Bytes, mcVersion: string)
    requires |env.sha256(vanilla)| == 32 && |env.sha256(paper)| == 32
    ensures var m := ManifestOf(env, vanilla, paper, mcVersion);
      && m.patch == "paperMC.patch"
      && m.version == mcVersion
      && m.sourceUrl == "https://s3.amazonaws.com/Minecraft.Download/versions/" + mcVersion
                        + "/minecraft_server." + mcVersion + ".jar"
      && |m.originalHash| == 64 && Unhex(m.originalHash) == Some(env.sha256(vanilla))
      && |m.patchedHash| == 64 && Unhex(m.patchedHash) == Some(env.sha256(paper))
      && (forall k :: 0 <= k < 64 ==> IsUpperHexDigit(m.originalHash[k]) && IsUpperHexDigit(m.patchedHash[k]))
  {
    Sha256Hex(env.sha256, vanilla);
    Sha256Hex(env.sha256, paper);
  }

  /**
    The two revisions build the same manifest but for the download URL: the
    older one names the version in an S3 URL, the newer one the vanilla
    jar's SHA-1 in a launcher URL.
  */
  lemma ManifestAcrossRevisions(env: Platform, vanilla: Bytes, paper: Bytes, mcVersion: string)
    ensures ManifestOf(env, vanilla, paper, mcVersion)
         == GenerateData.ManifestOf(env, vanilla, paper, mcVersion).(sourceUrl := SourceUrl(mcVersion))
  {
  }

  // Properties of the file-system steps.

  /**
    The output-directory step: nothing happens when `File.exists` reports the
    directory present; otherwise it is force-created, and the forced delete
    of the patch that follows finds nothing, because nothing exists under a
    directory that did not exist. No file changes either way.
  */
  lemma OutputDirectoryPrepared(fs: Fs, cfg: Config)
    requires WellFormed(fs)
    ensures var out := cfg.generatedResourceLocation; var r := OutputDirectoryStep(fs, cfg);
      && (FileExists(fs, out) ==> r == Io(true, fs))
      && (!r.ok ==> !FileExists(fs, out))
      && (r.ok && !FileExists(fs, out) ==> out in r.after.dirs)
      && r.after.files == fs.files
      && r.after.faulty == fs.faulty
      && fs.dirs <= r.after.dirs
      && (forall q :: q in r.after.dirs ==> q in fs.dirs || q <= out)
      && WellFormed(r.after)
  {
    var out := cfg.generatedResourceLocation;
    if !FileExists(fs, out) && out !in fs.faulty {
      var created := CreateDirectories(fs, out);
      CreateDirectoriesWellFormed(fs, out, 0);
      var patch := PatchPath(cfg);
      OutputPaths(cfg);
      assert out < patch;
      NothingUnderMissing(fs, out, patch);
      if created.ok {
        assert out[..|out|] == out;
        assert patch !in created.after.files && patch !in created.after.dirs;
        assert ForceDelete(created.after, patch) == Io(true, created.after);
      }
    }
  }

  /**
    When `File.exists` reports the directory absent, the step fails exactly
    when `forceMkdir` does: the forced delete that follows finds nothing.
  */
  lemma OutputDirectoryStepFailure(fs: Fs, cfg: Config)
    requires WellFormed(fs)
    requires !FileExists(fs, cfg.generatedResourceLocation)
    ensures OutputDirectoryStep(fs, cfg).ok <==> ForceMkdir(fs, cfg.generatedResourceLocation).ok
  {
    OutputDirectoryPrepared(fs, cfg);
    var out := cfg.generatedResourceLocation;
    if out !in fs.faulty {
      var created := CreateDirectories(fs, out);
      OutputPaths(cfg);
      NothingUnderMissing(fs, out, PatchPath(cfg));
      if created.ok {
        assert ForceDelete(created.after, PatchPath(cfg)) == Io(true, created.after);
      }
    }
  }

  /**
    The checks before any jar is read run in the source's order, each one
    deciding the outcome only when those before it passed: the output
    directory, the vanilla jar, then the paper jar. A run stopped by one of
    them changes no file.
  */
  lemma PreflightChecks(fs: Fs, cfg: Config, env: Platform)
    requires WellFormed(fs)
    requires !(cfg.vanillaMinecraft <= cfg.generatedResourceLocation)
    requires !(cfg.paperMinecraft <= cfg.generatedResourceLocation)
    ensures var setup := OutputDirectoryStep(fs, cfg); var r := Run(fs, cfg, env);
      var vanilla := FileExists(fs, cfg.vanillaMinecraft); var paper := FileExists(fs, cfg.paperMinecraft);
      && (r.outcome == Failure(CouldNotCreateSourceDirectory) <==> !setup.ok)
      && (r.outcome == Failure(VanillaJarMissing) <==> setup.ok && !vanilla)
      && (r.outcome == Failure(PaperJarMissing) <==> setup.ok && vanilla && !paper)
      && (!setup.ok || !vanilla || !paper ==> r.after.files == fs.files)
  {
    OutputDirectoryPrepared(fs, cfg);
    var setup := OutputDirectoryStep(fs, cfg);
    if setup.ok {
      assert Exists(setup.after, cfg.vanillaMinecraft) == Exists(fs, cfg.vanillaMinecraft);
      assert Exists(setup.after, cfg.paperMinecraft) == Exists(fs, cfg.paperMinecraft);
      if FileExists(fs, cfg.vanillaMinecraft) && FileExists(fs, cfg.paperMinecraft) {
        assert Run(fs, cfg, env) == GenerateStep(setup.after, cfg, env);
        GenerateStepOutcome(setup.after, cfg, env);
      }
    }
  }

  /**
    After the existence checks, the outcome is decided in the source's
    order: unreadable jars, then the patch (its file cannot be opened or
    the diff fails), then the SHA-256 algorithm; the manifest's own write
    plays no part. The patch file holds what the diff wrote whenever it
    could be opened, even when the diff then failed.
  */
  lemma GenerateStepOutcome(fs: Fs, cfg: Config, env: Platform)
    ensures var r := GenerateStep(fs, cfg, env);
      var v := ReadAllBytes(fs, cfg.vanillaMinecraft); var p := ReadAllBytes(fs, cfg.paperMinecraft);
      && (r.outcome == Failure(JarsUnreadable) <==> v.None? || p.None?)
      && (v.Some? && p.Some? ==>
            var diff := env.diff(v.value, p.value); var open := CanOpenForWrite(fs, PatchPath(cfg));
            && (r.outcome == Failure(PatchCreationFailed) <==> !open || !diff.ok)
            && (r.outcome == Failure(Sha256Unavailable) <==> open && diff.ok && !env.hasSha256)
            && (r.outcome == Success <==> open && diff.ok && env.hasSha256)
            && (open ==> PatchPath(cfg) in r.after.files && r.after.files[PatchPath(cfg)] == diff.written))
      && (r.outcome == Success ==>
            var json := JsonPath(cfg);
            && (CanOpenForWrite(fs, json) ==>
                  json in r.after.files
                  && r.after.files[json] == env.toJson(ManifestOf(env, v.value, p.value, cfg.mcVersion)))
            && (!CanOpenForWrite(fs, json) ==> SameFileAt(fs, r.after, json)))
      && r.after.dirs == fs.dirs && r.after.faulty == fs.faulty
      && r.outcome !in {Failure(CouldNotCreateSourceDirectory), Failure(VanillaJarMissing), Failure(PaperJarMissing)}
  {
    OutputPaths(cfg);
  }

  /** Reading, diffing, hashing and writing keep the file system well formed. */
  lemma GenerateStepWellFormed(fs: Fs, cfg: Config, env: Platform)
    requires WellFormed(fs)
    ensures WellFormed(GenerateStep(fs, cfg, env).after)
  {
    var v := ReadAllBytes(fs, cfg.vanillaMinecraft);
    var p := ReadAllBytes(fs, cfg.paperMinecraft);
    if v.Some? && p.Some? {
      var diff := env.diff(v.value, p.value);
      var patch := Write(fs, PatchPath(cfg), diff.written);
      WriteWellFormed(fs, PatchPath(cfg), diff.written);
      var data := env.toJson(ManifestOf(env, v.value, p.value, cfg.mcVersion));
      WriteWellFormed(patch.after, JsonPath(cfg), data);
    }
  }

  /** Reading, diffing, hashing and writing change no file but the patch and the manifest. */
  lemma GenerateStepAt(fs: Fs, cfg: Config, env: Platform, q: Path)
    requires q != PatchPath(cfg) && q != JsonPath(cfg)
    ensures SameFileAt(fs, GenerateStep(fs, cfg, env).after, q)
  {
  }

  /** A whole run, at one path that is neither output. */
  lemma RunAt(fs: Fs, cfg: Config, env: Platform, q: Path)
    requires WellFormed(fs)
    requires q != PatchPath(cfg) && q != JsonPath(cfg)
    ensures SameFileAt(fs, Run(fs, cfg, env).after, q)
  {
    var setup := OutputDirectoryStep(fs, cfg);
    OutputDirectoryPrepared(fs, cfg);
    if setup.ok {
      GenerateStepAt(setup.after, cfg, env, q);
    }
  }

  /**
    A run keeps the file system well formed, writes no file other than
    `paperMC.patch` and `patch.json`, and creates no directory other than
    the output directory and its ancestors; it removes none.
  */
  lemma RunFrame(fs: Fs, cfg: Config, env: Platform)
    requires WellFormed(fs)
    ensures var after := Run(fs, cfg, env).after;
      && WellFormed(after)
      && after.faulty == fs.faulty
      && (forall q :: q != PatchPath(cfg) && q != JsonPath(cfg) ==> SameFileAt(fs, after, q))
      && fs.dirs <= after.dirs
      && (forall q :: q in after.dirs ==> q in fs.dirs || q <= cfg.generatedResourceLocation)
  {
    var setup := OutputDirectoryStep(fs, cfg);
    OutputDirectoryPrepared(fs, cfg);
    if setup.ok {
      GenerateStepOutcome(setup.after, cfg, env);
      GenerateStepWellFormed(setup.after, cfg, env);
    }
    var after := Run(fs, cfg, env).after;
    forall q | q != PatchPath(cfg) && q != JsonPath(cfg)
      ensures SameFileAt(fs, after, q)
    {
      RunAt(fs, cfg, env, q);
    }
  }

  /**
    A successful run read both jars as they were before it, wrote the diff
    between them to `paperMC.patch`, and wrote the manifest for them to
    `patch.json` unless that path is a directory or cannot be written, in
    which case `patch.json` is left as it was and the run still succeeds.
  */
  lemma SuccessfulRun(fs: Fs, cfg: Config, env: Platform)
    requires WellFormed(fs)
    ensures var r := Run(fs, cfg, env); var v := cfg.vanillaMinecraft; var p := cfg.paperMinecraft;
      var json := JsonPath(cfg);
      r.outcome == Success ==>
        && ReadAllBytes(fs, v).Some? && ReadAllBytes(fs, p).Some?
        && env.diff(fs.files[v], fs.files[p]).ok && env.hasSha256
        && PatchPath(cfg) in r.after.files && r.after.files[PatchPath(cfg)] == env.diff(fs.files[v], fs.files[p]).written
        && (json !in fs.faulty && json !in fs.dirs ==>
              json in r.after.files && r.after.files[json] == env.toJson(ManifestOf(env, fs.files[v], fs.files[p], cfg.mcVersion)))
        && (json in fs.faulty || json in fs.dirs ==> SameFileAt(fs, r.after, json))
  {
    var setup := OutputDirectoryStep(fs, cfg);
    OutputDirectoryPrepared(fs, cfg);
    var json := JsonPath(cfg);
    if setup.ok && FileExists(setup.after, cfg.vanillaMinecraft) && FileExists(setup.after, cfg.paperMinecraft) {
      var fs1 := setup.after;
      GenerateStepOutcome(fs1, cfg, env);
      if GenerateStep(fs1, cfg, env).outcome == Success {
        OutputPaths(cfg);
        assert CanOpenForWrite(fs1, PatchPath(cfg));
        assert json !in fs1.dirs <==> json !in fs.dirs by {
          assert !(json <= cfg.generatedResourceLocation) by {
            assert |json| == |cfg.generatedResourceLocation| + 1;
          }
        }
        assert CanOpenForWrite(fs1, json) <==> json !in fs.faulty && json !in fs.dirs;
      }
    }
  }

  /**
    A run that fails leaves `patch.json` as it was, and one that fails
    before the patch is opened leaves `paperMC.patch` as it was too.
  */
  lemma FailureKeepsManifest(fs: Fs, cfg: Config, env: Platform)
    requires WellFormed(fs)
    ensures var r := Run(fs, cfg, env);
      && (r.outcome.Failure? ==> SameFileAt(fs, r.after, JsonPath(cfg)))
      && (r.outcome in {Failure(CouldNotCreateSourceDirectory), Failure(VanillaJarMissing),
                        Failure(PaperJarMissing), Failure(JarsUnreadable)} ==>
            SameFileAt(fs, r.after, PatchPath(cfg)))
  {
    var setup := OutputDirectoryStep(fs, cfg);
    OutputDirectoryPrepared(fs, cfg);
    OutputPaths(cfg);
    var r := Run(fs, cfg, env);
    if setup.ok && FileExists(setup.after, cfg.vanillaMinecraft) && FileExists(setup.after, cfg.paperMinecraft) {
      assert r == GenerateStep(setup.after, cfg, env);
      var v := ReadAllBytes(setup.after, cfg.vanillaMinecraft);
      var p := ReadAllBytes(setup.after, cfg.paperMinecraft);
      if v.Some? && p.Some? && r.outcome.Failure? {
        var diff := env.diff(v.value, p.value);
        assert r.after == Write(setup.after, PatchPath(cfg), diff.written).after;
      }
    } else {
      assert r.after == setup.after;
    }
  }

  // A failing write of `patch.json` does not fail the run.

  /** The output-directory step does the same with `patch.json` failing as without. */
  lemma OutputDirectoryStepFault(fs: Fs, cfg: Config)
    ensures var q := JsonPath(cfg);
      OutputDirectoryStep(WithFault(fs, q), cfg)
        == Io(OutputDirectoryStep(fs, cfg).ok, WithFault(OutputDirectoryStep(fs, cfg).after, q))
  {
    var out := cfg.generatedResourceLocation;
    var q := JsonPath(cfg);
    OutputPaths(cfg);
    assert !(q <= out) by {
      assert |q| == |out| + 1;
    }
    FaultElsewhere(fs, out, q, []);
    if !FileExists(fs, out) {
      ForceMkdirFaultElsewhere(fs, out, q);
      FaultElsewhere(ForceMkdir(fs, out).after, PatchPath(cfg), q, []);
    }
  }

  /** After the existence checks, only the manifest write sees the fault, and its failure is swallowed. */
  lemma GenerateStepFault(fs: Fs, cfg: Config, env: Platform)
    requires cfg.vanillaMinecraft != JsonPath(cfg) && cfg.paperMinecraft != JsonPath(cfg)
    ensures GenerateStep(WithFault(fs, JsonPath(cfg)), cfg, env).outcome == GenerateStep(fs, cfg, env).outcome
  {
    var q := JsonPath(cfg);
    FaultElsewhere(fs, cfg.vanillaMinecraft, q, []);
    FaultElsewhere(fs, cfg.paperMinecraft, q, []);
    GenerateStepOutcome(fs, cfg, env);
    GenerateStepOutcome(WithFault(fs, q), cfg, env);
    OutputPaths(cfg);
    assert CanOpenForWrite(WithFault(fs, q), PatchPath(cfg)) == CanOpenForWrite(fs, PatchPath(cfg));
  }

  /**
    The manifest write is the last step and its failure is swallowed: with
    `patch.json` made unwritable, a run ends in the same outcome as before.
  */
  lemma ManifestWriteFailureIgnored(fs: Fs, cfg: Config, env: Platform)
    requires cfg.vanillaMinecraft != JsonPath(cfg) && cfg.paperMinecraft != JsonPath(cfg)
    ensures Run(WithFault(fs, JsonPath(cfg)), cfg, env).outcome == Run(fs, cfg, env).outcome
  {
    var q := JsonPath(cfg);
    OutputDirectoryStepFault(fs, cfg);
    var setup := OutputDirectoryStep(fs, cfg);
    if setup.ok {
      FaultElsewhere(setup.after, cfg.vanillaMinecraft, q, []);
      FaultElsewhere(setup.after, cfg.paperMinecraft, q, []);
      GenerateStepFault(setup.after, cfg, env);
    }
  }

  /** Reading, diffing and writing again over the outputs of a successful step writes what is already there. */
  lemma GenerateStepFixpoint(fs: Fs, cfg: Config, env: Platform)
    requires cfg.vanillaMinecraft != PatchPath(cfg) && cfg.vanillaMinecraft != JsonPath(cfg)
    requires cfg.paperMinecraft != PatchPath(cfg) && cfg.paperMinecraft != JsonPath(cfg)
    requires GenerateStep(fs, cfg, env).outcome == Success
    ensures var a := GenerateStep(fs, cfg, env).after; GenerateStep(a, cfg, env) == Execution(Success, a)
  {
    var a := GenerateStep(fs, cfg, env).after;
    GenerateStepOutcome(fs, cfg, env);
    GenerateStepOutcome(a, cfg, env);
    OutputPaths(cfg);
    var patch := PatchPath(cfg);
    var json := JsonPath(cfg);
    var vanilla := fs.files[cfg.vanillaMinecraft];
    var paper := fs.files[cfg.paperMinecraft];
    var diff := env.diff(vanilla, paper);
    assert ReadAllBytes(a, cfg.vanillaMinecraft) == Some(vanilla);
    assert ReadAllBytes(a, cfg.paperMinecraft) == Some(paper);
    assert a.files[patch := diff.written] == a.files;
    assert Write(a, patch, diff.written) == Io(true, a);
    var data := env.toJson(ManifestOf(env, vanilla, paper, cfg.mcVersion));
    if CanOpenForWrite(a, json) {
      assert a.files[json := data] == a.files;
    }
  }

  /**
    Running the goal again on what a successful run left behind succeeds
    and changes nothing: the directory exists and the patch and manifest
    are rewritten with the bytes they already hold.
  */
  lemma RunIdempotent(fs: Fs, cfg: Config, env: Platform)
    requires WellFormed(fs)
    requires cfg.vanillaMinecraft != PatchPath(cfg) && cfg.vanillaMinecraft != JsonPath(cfg)
    requires cfg.paperMinecraft != PatchPath(cfg) && cfg.paperMinecraft != JsonPath(cfg)
    requires Run(fs, cfg, env).outcome == Success
    ensures var a := Run(fs, cfg, env).after; Run(a, cfg, env) == Execution(Success, a)
  {
    var setup := OutputDirectoryStep(fs, cfg);
    OutputDirectoryPrepared(fs, cfg);
    var fs1 := setup.after;
    var a := GenerateStep(fs1, cfg, env).after;
    GenerateStepOutcome(fs1, cfg, env);
    OutputPaths(cfg);
    assert cfg.generatedResourceLocation !in fs.faulty;
    assert FileExists(a, cfg.generatedResourceLocation) by {
      assert CanOpenForWrite(fs1, PatchPath(cfg));
    }
    assert FileExists(a, cfg.vanillaMinecraft) && FileExists(a, cfg.paperMinecraft);
    GenerateStepFixpoint(fs1, cfg, env);
  }

  /**
    Where both revisions succeed from the same file system, they write the
    same `paperMC.patch`, and their manifests differ at most in the download
    URL.
  */
  lemma RevisionsAgreeOnPatch(fs: Fs, cfg: Config, env: Platform)
    requires WellFormed(fs)
    requires cfg.vanillaMinecraft !in {PatchPath(cfg), JsonPath(cfg), GenerateData.ProtocolPath(cfg)}
    requires cfg.paperMinecraft !in {PatchPath(cfg), JsonPath(cfg), GenerateData.ProtocolPath(cfg)}
    requires Run(fs, cfg, env).outcome == Success && GenerateData.Run(fs, cfg, env).outcome == Success
    ensures PatchPath(cfg) in Run(fs, cfg, env).after.files
    ensures PatchPath(cfg) in GenerateData.Run(fs, cfg, env).after.files
    ensures Run(fs, cfg, env).after.files[PatchPath(cfg)] == GenerateData.Run(fs, cfg, env).after.files[PatchPath(cfg)]
  {
    SuccessfulRun(fs, cfg, env);
    GenerateData.SuccessfulRun(fs, cfg, env);
  }
}
