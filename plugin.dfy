/**
  What the two revisions of the `generate-data` goal share: the manifest
  record, the goal's parameters, the collaborators the goal calls without
  this model looking inside them, the ways a run can fail, and the names of
  the files it writes.
*/
module Plugin {
  import opened Options
  import opened Hex
  import opened FileSystems

  /** The `PatchData` record that is serialised to `patch.json`; field names are the serialised names. */
  datatype PatchData = PatchData(
    patch: string,
    sourceUrl: string,
    originalHash: string,
    patchedHash: string,
    version: string)

  /** The goal's parameters: the two jars, the output directory and the Minecraft version. */
  datatype Config = Config(
    vanillaMinecraft: Path,
    paperMinecraft: Path,
    generatedResourceLocation: Path,
    mcVersion: string)

  /**
    What `Diff.diff` leaves in the patch stream, and whether it returned
    normally (`false` for an `InvalidHeaderException`, a `CompressorException`
    or an `IOException`, after which the stream holds whatever was written).
  */
  datatype DiffResult = DiffResult(written: Bytes, ok: bool)

  /**
    The collaborators the goal calls: the jbsdiff library, the two message
    digests (SHA-256 and SHA-1, sections 6.2 and 6.1 of FIPS 180-4, which
    yield 32 and 20 bytes) and whether the runtime provides them, the construction of the
    `jar:` URI for a path, the zip file system's view of a jar's bytes
    (`None` when they are not a readable zip), and Gson's serialisation of
    the manifest.
  */
  datatype Platform = Platform(
    diff: (Bytes, Bytes) -> DiffResult,
    sha256: Bytes -> Bytes,
    sha1: Bytes -> Bytes,
    hasSha256: bool,
    hasSha1: bool,
    jarUri: Path -> bool,
    openJar: Bytes -> Option<map<string, Bytes>>,
    toJson: PatchData -> Bytes)

  /** The `MojoExecutionException`s the goal throws, one per message. */
  datatype MojoError =
    | CouldNotCreateSourceDirectory
    | VanillaJarMissing
    | PaperJarMissing
    | JarUriFailed
    | JarContentsUnreadable
    | JarsUnreadable
    | PatchCreationFailed
    | Sha256Unavailable
    | Sha1Unavailable

  datatype Outcome = Success | Failure(error: MojoError)

  /** How a run ended and the file system it left. */
  datatype Execution = Execution(outcome: Outcome, after: Fs)

  const PatchName: string := "paperMC.patch"
  const JsonName: string := "patch.json"

  function PatchPath(cfg: Config): (r: Path)
    ensures |r| == |cfg.generatedResourceLocation| + 1
    ensures r[..|cfg.generatedResourceLocation|] == cfg.generatedResourceLocation
  {
    cfg.generatedResourceLocation + [PatchName]
  }

  function JsonPath(cfg: Config): (r: Path)
    ensures |r| == |cfg.generatedResourceLocation| + 1
    ensures r[..|cfg.generatedResourceLocation|] == cfg.generatedResourceLocation
  {
    cfg.generatedResourceLocation + [JsonName]
  }

  /** Both outputs sit directly in the output directory, under different names. */
  lemma OutputPaths(cfg: Config)
    ensures PatchPath(cfg) != JsonPath(cfg)
    ensures Parent(PatchPath(cfg)) == cfg.generatedResourceLocation
    ensures Parent(JsonPath(cfg)) == cfg.generatedResourceLocation
  {
    assert PatchPath(cfg)[|cfg.generatedResourceLocation|] == PatchName;
    assert JsonPath(cfg)[|cfg.generatedResourceLocation|] == JsonName;
  }

  /**
    The rendering of a SHA-256 digest stored in `originalHash` and
    `patchedHash`: 64 characters of `0-9A-F` that decode to the digest.
  */
  lemma Sha256Hex(sha256: Bytes -> Bytes, data: Bytes)
    requires |sha256(data)| == 32
    ensures |HexOf(sha256(data))| == 64
    ensures forall k :: 0 <= k < 64 ==> IsUpperHexDigit(HexOf(sha256(data))[k])
    ensures Unhex(HexOf(sha256(data))) == Some(sha256(data))
  {
    HexOfAlphabet(sha256(data));
    UnhexHexOf(sha256(data));
  }
}
