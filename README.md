# Paperclip Maven Plugin: the `generate-data` goal

The Paperclip Maven plugin prepares the data that Paperclip needs to rebuild
a Paper server jar from the vanilla Minecraft server jar. Its one goal,
`generate-data`, does the following:

- It makes sure the output directory exists.
- It checks that both jars exist.
- It writes a bsdiff patch from the vanilla jar to the paper jar as `paperMC.patch`.
- It writes `patch.json`, the manifest. The manifest holds the patch's file name, the upper-case hexadecimal SHA-256 digests of both jars, the Minecraft version, and a URL from which the vanilla jar can be downloaded.

Two revisions of the goal are modelled.

- `io.papermc.paperclipmavenplugin.GenerateDataMojo` is the newer revision, in `generate_data.dfy`. It also opens the paper jar as a zip file system. It copies the daemon protocol descriptor `META-INF/io.papermc.paper.daemon.protocol` out of the jar, or removes a stale copy when the jar has none. It keys the download URL by the lower-cased SHA-1 of the vanilla jar.
- `com.destroystokyo.paperclipmavenplugin.GenerateDataMojo` is the older revision, in `legacy_generate_data.dfy`. It has no descriptor step. It keys the download URL by the version string.

The project is laid out as follows:

- `hex.dfy`: `toHex`. Its body is the same in both revisions, so it is modelled once. `HexOf` specifies it, the method `ToHex` keeps the `StringBuilder` loop, and `Unhex` decodes its output.
- `filesystems.dfy`: the file system as a value `Fs`. It holds files, directories, and a set of `faulty` paths at which every I/O call fails, reading the entry's status included. A path below a regular file cannot be reached (`ENOTDIR`). The two revisions ask about existence differently, and both queries are modelled: `Files.notExists` (newer revision) says true only when the entry is known to be absent, so an entry whose status cannot be read is not reported missing; `File.exists()` (older revision) says false for such an entry. The module also defines the library calls the goal makes as functions on `Fs`: `Files.createDirectories`, `deleteIfExists`, `copy`, `newOutputStream`, `readAllBytes`, and commons-io `forceMkdir`/`forceDelete`. The `WellFormed` invariant says that every entry's parent is a directory.
- `local_file_system.dfy`: the class `FileSystem`, whose methods perform those calls in place. Each method is tied to its function.
- `plugin.dfy`: what both revisions share.
  - The `PatchData` manifest record. Its field names are the serialised names.
  - The goal's parameters.
  - The collaborators, passed in as a `Platform` value: jbsdiff, the SHA-256 and SHA-1 digests, the `jar:` URI construction, the zip reader, and Gson.
  - The `MojoExecutionException` kinds and the output file names.
- The two goal files. Each defines `Run` as a function over `Fs`. Each has an `Execute` method that performs the calls against a `FileSystem` in the order of `execute()`. The method is proved to end in the state and outcome that `Run` gives. Then come the lemmas about `Run`.

A `MojoExecutionException` thrown by `execute()` becomes `Failure(e)`, with one `MojoError` per message. Unchecked exceptions are not modelled (see below). A run that returns normally is `Success`.

## Model

| member | source | states |
|---|---|---|
| Hex.Unsigned | src/main/java/io/papermc/paperclipmavenplugin/GenerateDataMojo.java:156 | `aHash & 0xFF` is the byte's value modulo 256, in 0..255 |
| Hex.Signed | src/main/java/io/papermc/paperclipmavenplugin/GenerateDataMojo.java:156 | the byte whose `& 0xFF` value is the given 0..255 value |
| Hex.HexDigit | src/main/java/io/papermc/paperclipmavenplugin/GenerateDataMojo.java:156 | a digit of `%X` is one of `0-9A-F` |
| Hex.FormatByte | src/main/java/io/papermc/paperclipmavenplugin/GenerateDataMojo.java:156 | `String.format("%02X", b & 0xFF)` is exactly two upper-case hexadecimal digits |
| Hex.HexOf | src/main/java/io/papermc/paperclipmavenplugin/GenerateDataMojo.java:153-159 | the rendering of a byte array has exactly twice its length |
| Hex.ToHex | src/main/java/io/papermc/paperclipmavenplugin/GenerateDataMojo.java:153-159 | the `StringBuilder` loop returns `HexOf(hash)`, of length `2 * hash.length` |
| Hex.DigitValue | src/main/java/io/papermc/paperclipmavenplugin/GenerateDataMojo.java:156 | a hexadecimal digit of either case has a value in 0..15 |
| Hex.LowerChar | src/main/java/io/papermc/paperclipmavenplugin/GenerateDataMojo.java:142 | `toLowerCase` of one character turns an ASCII upper-case letter into a lower-case letter and leaves every other character alone |
| Hex.Unhex | src/main/java/io/papermc/paperclipmavenplugin/GenerateDataMojo.java:153-159 | the inverse of `toHex`: a decoded string is twice as long as its bytes |
| Hex.ToLowerCase | src/main/java/io/papermc/paperclipmavenplugin/GenerateDataMojo.java:142 | `toLowerCase()` keeps the length |
| Hex.SignedUnsigned | src/main/java/io/papermc/paperclipmavenplugin/GenerateDataMojo.java:156 | masking with `0xFF` loses nothing: casting back gives the byte |
| Hex.FormatByteDecodes | src/main/java/io/papermc/paperclipmavenplugin/GenerateDataMojo.java:156 | the two digits of a byte are its high and low nibble of `b & 0xFF`, and they rebuild the byte |
| Hex.HexOfPairs | src/main/java/io/papermc/paperclipmavenplugin/GenerateDataMojo.java:153-159 | byte `i` is rendered by characters `2i` and `2i+1`, in input order |
| Hex.HexOfAlphabet | src/main/java/io/papermc/paperclipmavenplugin/GenerateDataMojo.java:156 | every character of the output is in `0-9A-F` |
| Hex.UnhexHexOf | src/main/java/io/papermc/paperclipmavenplugin/GenerateDataMojo.java:153-159 | decoding the output gives back the original bytes |
| Hex.HexOfInjective | src/main/java/io/papermc/paperclipmavenplugin/GenerateDataMojo.java:153-159 | different byte arrays have different renderings |
| Hex.LowerDigitValue | src/main/java/io/papermc/paperclipmavenplugin/GenerateDataMojo.java:142 | lower-casing an upper-case hexadecimal digit keeps its value |
| Hex.UnhexLowerCase | src/main/java/io/papermc/paperclipmavenplugin/GenerateDataMojo.java:142 | lower-casing upper-case hexadecimal text does not change what it decodes to |
| Hex.LowerHexOf | src/main/java/io/papermc/paperclipmavenplugin/GenerateDataMojo.java:142 | `toHex(x).toLowerCase()` has length `2 * x.length`, only `0-9a-f`, and decodes to `x` |
| FileSystems.Exists | src/main/java/io/papermc/paperclipmavenplugin/GenerateDataMojo.java:60 | defines presence: the root, a file or a directory; how the two status queries read it is `StatusQueries` |
| FileSystems.UnderFile | src/main/java/io/papermc/paperclipmavenplugin/GenerateDataMojo.java:88-89 | defines an unreachable path: some proper ancestor is a regular file |
| FileSystems.NotExists | src/main/java/io/papermc/paperclipmavenplugin/GenerateDataMojo.java:60 | defines `Files.notExists`: absent, not a failing entry, and not below a regular file; its properties are `StatusQueries` and `ExistingNotUnderFile` |
| FileSystems.FileExists | src/main/java/com/destroystokyo/paperclipmavenplugin/GenerateDataMojo.java:58 | defines `File.exists()`: present, and not a failing entry; its properties are `StatusQueries` |
| FileSystems.CreateDirectories | src/main/java/io/papermc/paperclipmavenplugin/GenerateDataMojo.java:62 | `createDirectories` succeeds exactly when every ancestor of the target is a directory or can be made one; on success the target is a directory; it changes no file and no failing entry |
| FileSystems.CreateDirectoriesFrom | src/main/java/io/papermc/paperclipmavenplugin/GenerateDataMojo.java:62 | `createDirectories` succeeds exactly when every ancestor is a directory or can be made one; on success all of them are directories; it adds only ancestors of the target and changes no file |
| FileSystems.ForceMkdir | src/main/java/com/destroystokyo/paperclipmavenplugin/GenerateDataMojo.java:60 | `forceMkdir` succeeds exactly when the target's status can be read and every ancestor is a directory or can be made one; on success the target is a directory; it changes no file and no failing entry |
| FileSystems.DeleteIfExists | src/main/java/io/papermc/paperclipmavenplugin/GenerateDataMojo.java:63 | `deleteIfExists` on success leaves no directory at the path, and no file when it was not a directory; on failure it changes nothing; below a regular file it fails; it only ever removes entries |
| FileSystems.ForceDelete | src/main/java/com/destroystokyo/paperclipmavenplugin/GenerateDataMojo.java:61-63 | `forceDelete` succeeds exactly when the path is missing or its status can be read; a failed call changes nothing; on success nothing is left at or below an existing path; every entry outside that subtree is left as it was |
| FileSystems.Write | src/main/java/io/papermc/paperclipmavenplugin/GenerateDataMojo.java:111 | a successful write leaves the data in the file; a failed one changes nothing; no other file and no directory changes |
| FileSystems.Copy | src/main/java/io/papermc/paperclipmavenplugin/GenerateDataMojo.java:94 | a successful copy leaves the source's bytes at the target; no other file changes and no directory is created |
| FileSystems.ReadAllBytes | src/main/java/io/papermc/paperclipmavenplugin/GenerateDataMojo.java:104-105 | a readable regular file yields exactly its current bytes; a missing, directory or failing entry gives the `IOException` |
| FileSystems.CreateDirectoriesWellFormed | src/main/java/io/papermc/paperclipmavenplugin/GenerateDataMojo.java:62 | creating directories from the root down keeps every entry's parent a directory |
| FileSystems.CreateDirectoriesExisting | src/main/java/io/papermc/paperclipmavenplugin/GenerateDataMojo.java:93 | `createDirectories` of a path whose ancestors all exist changes nothing |
| FileSystems.DeleteIfExistsWellFormed | src/main/java/io/papermc/paperclipmavenplugin/GenerateDataMojo.java:63 | `deleteIfExists` keeps the file system well formed |
| FileSystems.DeleteIfExistsFrame | src/main/java/io/papermc/paperclipmavenplugin/GenerateDataMojo.java:89 | `deleteIfExists(p)` changes nothing but `p`; it succeeds exactly when `p` is not a failing entry, does not lie below a regular file (`ENOTDIR`) and is not a non-empty directory, and `p` is then gone |
| FileSystems.ForceDeleteWellFormed | src/main/java/com/destroystokyo/paperclipmavenplugin/GenerateDataMojo.java:62 | `forceDelete` of a whole subtree keeps the file system well formed |
| FileSystems.WriteWellFormed | src/main/java/io/papermc/paperclipmavenplugin/GenerateDataMojo.java:111 | writing a file through `newOutputStream` keeps the file system well formed |
| FileSystems.CopyWellFormed | src/main/java/io/papermc/paperclipmavenplugin/GenerateDataMojo.java:94 | `copy` with `REPLACE_EXISTING` keeps the file system well formed |
| FileSystems.NothingUnderMissing | src/main/java/io/papermc/paperclipmavenplugin/GenerateDataMojo.java:60-64 | nothing exists below a path that does not exist |
| FileSystems.ExistingNotUnderFile | src/main/java/io/papermc/paperclipmavenplugin/GenerateDataMojo.java:60 | in a well-formed file system no existing entry lies below a regular file |
| FileSystems.NotUnderFileKept | src/main/java/io/papermc/paperclipmavenplugin/GenerateDataMojo.java:88-94 | removing entries, or writing the path itself, puts no regular file above a path |
| FileSystems.SameStatus | src/main/java/io/papermc/paperclipmavenplugin/GenerateDataMojo.java:69-73 | two file systems with the same files, failing entries and presence of a path answer both status queries for it alike |
| FileSystems.StatusQueries | src/main/java/com/destroystokyo/paperclipmavenplugin/GenerateDataMojo.java:58 | an entry `Files.notExists` reports missing is not one `File.exists()` reports present; neither reports an entry exactly when it is a failing entry or lies below a regular file |
| FileSystems.CreateDirectoriesFaultElsewhere | src/main/java/io/papermc/paperclipmavenplugin/GenerateDataMojo.java:146-150 | a failure at a path off the target's ancestry does not change what `createDirectories` does |
| FileSystems.FaultElsewhere | src/main/java/io/papermc/paperclipmavenplugin/GenerateDataMojo.java:146-150 | a failure at another path does not change the answers of `exists`, `Files.notExists` and `File.exists`, nor the outcome of `readAllBytes`, `deleteIfExists`, a write, `copy` or `forceDelete` |
| FileSystems.ForceMkdirBlockedByFile | src/main/java/com/destroystokyo/paperclipmavenplugin/GenerateDataMojo.java:60 | in a well-formed file system a regular file at the target or at one of its ancestors makes `forceMkdir` fail |
| FileSystems.ForceMkdirFaultElsewhere | src/main/java/com/destroystokyo/paperclipmavenplugin/GenerateDataMojo.java:60 | a failure at a path off the target's ancestry does not change what `forceMkdir` does |
| LocalFileSystem.FileSystem.NotExists | src/main/java/io/papermc/paperclipmavenplugin/GenerateDataMojo.java:60 | `Files.notExists` answers true exactly when `NotExists` holds: the path is absent, its status can be read, and no ancestor is a regular file; an entry whose status is unknown is not reported missing |
| LocalFileSystem.FileSystem.FileExists | src/main/java/com/destroystokyo/paperclipmavenplugin/GenerateDataMojo.java:58 | `File.exists()` answers exactly `FileExists`: a failing entry is reported absent |
| LocalFileSystem.FileSystem.NotUnderFile | src/main/java/io/papermc/paperclipmavenplugin/GenerateDataMojo.java:60 | the loop over the proper ancestors answers whether none of them is a regular file |
| LocalFileSystem.FileSystem.CreateDirectories | src/main/java/io/papermc/paperclipmavenplugin/GenerateDataMojo.java:62 | the loop over ancestors ends in the state and outcome of `CreateDirectories` |
| LocalFileSystem.FileSystem.ForceMkdir | src/main/java/com/destroystokyo/paperclipmavenplugin/GenerateDataMojo.java:60 | `forceMkdir` ends in the state and outcome of `ForceMkdir` |
| LocalFileSystem.FileSystem.DeleteIfExists | src/main/java/io/papermc/paperclipmavenplugin/GenerateDataMojo.java:63 | the in-place delete ends in the state and outcome of `DeleteIfExists` |
| LocalFileSystem.FileSystem.ForceDelete | src/main/java/com/destroystokyo/paperclipmavenplugin/GenerateDataMojo.java:61-63 | the in-place forced delete, with a missing file ignored, ends in the state and outcome of `ForceDelete` |
| LocalFileSystem.FileSystem.Write | src/main/java/io/papermc/paperclipmavenplugin/GenerateDataMojo.java:111 | opening and writing a file ends in the state and outcome of `Write` |
| LocalFileSystem.FileSystem.Copy | src/main/java/io/papermc/paperclipmavenplugin/GenerateDataMojo.java:94 | the copy ends in the state and outcome of `Copy` |
| LocalFileSystem.FileSystem.ReadAllBytes | src/main/java/io/papermc/paperclipmavenplugin/GenerateDataMojo.java:104-105 | a successful read returns the file's current bytes; a failing entry gives the `IOException` |
| Plugin.PatchPath | src/main/java/io/papermc/paperclipmavenplugin/GenerateDataMojo.java:55 | `paperMC.patch` lies one level below the output directory |
| Plugin.JsonPath | src/main/java/io/papermc/paperclipmavenplugin/GenerateDataMojo.java:56 | `patch.json` lies one level below the output directory |
| Plugin.OutputPaths | src/main/java/io/papermc/paperclipmavenplugin/GenerateDataMojo.java:55-56 | `paperMC.patch` and `patch.json` are different files directly in the output directory |
| Plugin.Sha256Hex | src/main/java/io/papermc/paperclipmavenplugin/GenerateDataMojo.java:134-140 | a 32-byte SHA-256 digest renders as 64 characters of `0-9A-F` that decode to it |
| GenerateData.ProtocolPath | src/main/java/io/papermc/paperclipmavenplugin/GenerateDataMojo.java:57 | the descriptor lies two levels below the output directory, inside `META-INF` |
| GenerateData.NewPatchData | src/main/java/io/papermc/paperclipmavenplugin/GenerateDataMojo.java:138-143 | the record names `paperMC.patch`, carries the version and both SHA-256 renderings as given, and its URL is the launcher template's length plus the SHA-1 rendering's |
| GenerateData.ManifestOf | src/main/java/io/papermc/paperclipmavenplugin/GenerateDataMojo.java:134-143 | the manifest names `paperMC.patch`, carries the version, and each hash is twice as long as its SHA-256 digest |
| GenerateData.OutputDirectoryStep | src/main/java/io/papermc/paperclipmavenplugin/GenerateDataMojo.java:59-67 | the directory step never changes which entries fail; the rest of its behaviour is `OutputDirectoryPrepared` |
| GenerateData.OpenJar | src/main/java/io/papermc/paperclipmavenplugin/GenerateDataMojo.java:86 | a readable paper jar is opened from exactly its bytes on disk (`env.openJar` of them); a missing or failing jar gives the `IOException` |
| GenerateData.DescriptorStep | src/main/java/io/papermc/paperclipmavenplugin/GenerateDataMojo.java:85-97 | when the jar has a descriptor, a successful step leaves its bytes at the descriptor path; failing entries stay as they are |
| GenerateData.Run | src/main/java/io/papermc/paperclipmavenplugin/GenerateDataMojo.java:54-151 | a run never changes which entries fail, and a successful one leaves a `paperMC.patch` file |
| GenerateData.JarChecks | src/main/java/io/papermc/paperclipmavenplugin/GenerateDataMojo.java:69-150 | the run after the directory step does the same, and one stopped by a missing jar or the URI changes nothing |
| GenerateData.GenerateStep | src/main/java/io/papermc/paperclipmavenplugin/GenerateDataMojo.java:99-150 | the last step creates and removes no directory, and a successful one leaves a `paperMC.patch` file |
| GenerateData.PrepareOutputDirectory | src/main/java/io/papermc/paperclipmavenplugin/GenerateDataMojo.java:59-67 | the `Files.notExists` check, `createDirectories` and `deleteIfExists` end in the state and outcome of `OutputDirectoryStep` |
| GenerateData.ExtractDescriptor | src/main/java/io/papermc/paperclipmavenplugin/GenerateDataMojo.java:85-97 | the descriptor step ends in the state and outcome of `DescriptorStep` |
| GenerateData.GenerateOutputs | src/main/java/io/papermc/paperclipmavenplugin/GenerateDataMojo.java:99-150 | reading, patching, hashing with `toHex`, and writing the manifest end in the state and outcome of `GenerateStep` |
| GenerateData.Execute | src/main/java/io/papermc/paperclipmavenplugin/GenerateDataMojo.java:54-151 | `execute()` ends in the state and outcome of `Run` |
| GenerateData.ManifestHashes | src/main/java/io/papermc/paperclipmavenplugin/GenerateDataMojo.java:134-143 | the manifest names `paperMC.patch`, carries the version, and holds both SHA-256 digests as 64 upper-case hexadecimal characters that decode to them |
| GenerateData.MojangSourceUrl | src/main/java/io/papermc/paperclipmavenplugin/GenerateDataMojo.java:142 | the URL is the launcher template around 40 lower-case hexadecimal characters that decode to the vanilla jar's SHA-1 |
| GenerateData.SourceUrlKeyedBySha1 | src/main/java/io/papermc/paperclipmavenplugin/GenerateDataMojo.java:142 | two runs get the same URL exactly when the vanilla jars have the same SHA-1; the paper jar and the version play no part |
| GenerateData.ProtocolPathShape | src/main/java/io/papermc/paperclipmavenplugin/GenerateDataMojo.java:55-57 | the descriptor sits in `META-INF` below the output directory, apart from the patch and the manifest |
| GenerateData.OutputDirectoryPrepared | src/main/java/io/papermc/paperclipmavenplugin/GenerateDataMojo.java:59-67 | unless `Files.notExists` reports the directory missing nothing changes, so an entry whose status is unknown is left alone; a failure implies it was reported missing; a missing one is created; the stale-patch delete can find nothing; no file changes; the file system stays well formed |
| GenerateData.OutputDirectoryStepFailure | src/main/java/io/papermc/paperclipmavenplugin/GenerateDataMojo.java:60-66 | when `Files.notExists` reports the directory missing, the step fails exactly when `createDirectories` fails or the patch entry is a failing one |
| GenerateData.OutputDirectoryKeepsFiles | src/main/java/io/papermc/paperclipmavenplugin/GenerateDataMojo.java:59-67 | the directory step changes no file and keeps the file system well formed |
| GenerateData.DescriptorStepFacts | src/main/java/io/papermc/paperclipmavenplugin/GenerateDataMojo.java:85-97 | on success the descriptor is a byte-for-byte copy of the jar entry in an existing directory, or absent when the jar has none |
| GenerateData.DescriptorStepAt | src/main/java/io/papermc/paperclipmavenplugin/GenerateDataMojo.java:85-97 | the descriptor step changes no other file, and no directory off the descriptor's path |
| GenerateData.GenerateStepFacts | src/main/java/io/papermc/paperclipmavenplugin/GenerateDataMojo.java:99-150 | reading, patching and writing the manifest create and remove no directory |
| GenerateData.GenerateStepAt | src/main/java/io/papermc/paperclipmavenplugin/GenerateDataMojo.java:110-150 | they change no file but the patch and the manifest |
| GenerateData.GenerateStepOutcome | src/main/java/io/papermc/paperclipmavenplugin/GenerateDataMojo.java:99-150 | the outcome is decided in order: unreadable jars (nothing changes), patch creation, SHA-256, SHA-1; the patch holds what the diff wrote; on success the manifest is written if its file can be opened, else left alone |
| GenerateData.JarChecksFacts | src/main/java/io/papermc/paperclipmavenplugin/GenerateDataMojo.java:69-150 | the run after the directory step keeps the file system well formed |
| GenerateData.JarChecksAt | src/main/java/io/papermc/paperclipmavenplugin/GenerateDataMojo.java:69-150 | the run after the directory step changes no file but the three outputs |
| GenerateData.PrefixOfOutputDirectory | src/main/java/io/papermc/paperclipmavenplugin/GenerateDataMojo.java:57 | an ancestor of the output directory is an ancestor of the descriptor's directory |
| GenerateData.RunAt | src/main/java/io/papermc/paperclipmavenplugin/GenerateDataMojo.java:54-151 | a run leaves any one path other than the outputs as it was |
| GenerateData.RunFrame | src/main/java/io/papermc/paperclipmavenplugin/GenerateDataMojo.java:54-151 | a run writes no file but `paperMC.patch`, `patch.json` and the descriptor; it creates or removes no directory off their paths; it keeps the file system well formed |
| GenerateData.PreflightChecks | src/main/java/io/papermc/paperclipmavenplugin/GenerateDataMojo.java:59-97 | the directory, vanilla jar, paper jar, URI and zip checks decide the outcome in that order, a jar counting as missing only when `Files.notExists` says so; a run stopped by one of them changes no file |
| GenerateData.JarChecksOrder | src/main/java/io/papermc/paperclipmavenplugin/GenerateDataMojo.java:69-97 | after the directory step, the `Files.notExists` checks of the vanilla and paper jars, the URI and the zip decide the outcome in that order, and a run stopped by one of them changes nothing |
| GenerateData.JarChecksEarlyFailure | src/main/java/io/papermc/paperclipmavenplugin/GenerateDataMojo.java:69-108 | after the directory step, a failure before the patch is opened leaves the patch and the manifest alone |
| GenerateData.EarlyFailureKeepsOutputs | src/main/java/io/papermc/paperclipmavenplugin/GenerateDataMojo.java:59-108 | a run that fails before the patch is opened leaves the patch and the manifest as they were |
| GenerateData.DescriptorCopiedOrRemoved | src/main/java/io/papermc/paperclipmavenplugin/GenerateDataMojo.java:85-97 | a run past the descriptor step leaves the jar's descriptor copied byte for byte, or none when the jar has none |
| GenerateData.SuccessfulRun | src/main/java/io/papermc/paperclipmavenplugin/GenerateDataMojo.java:99-150 | a successful run wrote the diff of the jars' original bytes as the patch, and their manifest unless `patch.json` cannot be written, in which case it is left alone |
| GenerateData.OutputDirectoryStepFault | src/main/java/io/papermc/paperclipmavenplugin/GenerateDataMojo.java:59-67 | the directory step does not touch `patch.json` |
| GenerateData.DescriptorStepFault | src/main/java/io/papermc/paperclipmavenplugin/GenerateDataMojo.java:85-97 | the descriptor step does not touch `patch.json` |
| GenerateData.GenerateStepFault | src/main/java/io/papermc/paperclipmavenplugin/GenerateDataMojo.java:145-150 | a failing manifest write does not change the outcome of the last step |
| GenerateData.JarChecksFault | src/main/java/io/papermc/paperclipmavenplugin/GenerateDataMojo.java:69-150 | nor of the run after the directory step |
| GenerateData.ManifestWriteFailureIgnored | src/main/java/io/papermc/paperclipmavenplugin/GenerateDataMojo.java:145-150 | with `patch.json` unwritable a run ends in the same outcome: the `IOException` from opening the file is swallowed |
| GenerateData.DescriptorStepSettles | src/main/java/io/papermc/paperclipmavenplugin/GenerateDataMojo.java:85-97 | after a successful descriptor step the descriptor and its directories are in place, or the descriptor is gone |
| GenerateData.DescriptorStepFixpoint | src/main/java/io/papermc/paperclipmavenplugin/GenerateDataMojo.java:85-97 | on such a file system the descriptor step changes nothing |
| GenerateData.GenerateStepFixpoint | src/main/java/io/papermc/paperclipmavenplugin/GenerateDataMojo.java:99-150 | repeating a successful last step rewrites the same bytes |
| GenerateData.GenerateStepKeepsSettled | src/main/java/io/papermc/paperclipmavenplugin/GenerateDataMojo.java:99-150 | the last step leaves the descriptor alone |
| GenerateData.JarChecksIdempotent | src/main/java/io/papermc/paperclipmavenplugin/GenerateDataMojo.java:69-150 | after a successful run past the directory step, running it again succeeds and changes nothing, and the output directory exists |
| GenerateData.RunIdempotent | src/main/java/io/papermc/paperclipmavenplugin/GenerateDataMojo.java:54-151 | running the goal again after a success succeeds and changes nothing |
| LegacyGenerateData.SourceUrl | src/main/java/com/destroystokyo/paperclipmavenplugin/GenerateDataMojo.java:111 | the S3 URL is the S3 prefix, the version, `/minecraft_server.`, the version again and `.jar`, in that order and nothing else |
| LegacyGenerateData.ManifestOf | src/main/java/com/destroystokyo/paperclipmavenplugin/GenerateDataMojo.java:104-113 | the manifest names `paperMC.patch`, carries the version, and each hash is twice as long as its SHA-256 digest |
| LegacyGenerateData.OutputDirectoryStep | src/main/java/com/destroystokyo/paperclipmavenplugin/GenerateDataMojo.java:57-67 | the directory step never changes which entries fail; the rest of its behaviour is `OutputDirectoryPrepared` |
| LegacyGenerateData.Run | src/main/java/com/destroystokyo/paperclipmavenplugin/GenerateDataMojo.java:52-127 | a run never changes which entries fail; a successful one leaves a `paperMC.patch` file; a run stopped for a missing jar found one of them not reported present by `File.exists()` |
| LegacyGenerateData.GenerateStep | src/main/java/com/destroystokyo/paperclipmavenplugin/GenerateDataMojo.java:77-126 | the last step creates and removes no directory, and a successful one leaves a `paperMC.patch` file |
| LegacyGenerateData.PrepareOutputDirectory | src/main/java/com/destroystokyo/paperclipmavenplugin/GenerateDataMojo.java:57-67 | the `File.exists()` check, `forceMkdir` and the forced delete end in the state and outcome of `OutputDirectoryStep` |
| LegacyGenerateData.GenerateOutputs | src/main/java/com/destroystokyo/paperclipmavenplugin/GenerateDataMojo.java:77-126 | reading, patching, hashing and writing the manifest end in the state and outcome of `GenerateStep` |
| LegacyGenerateData.Execute | src/main/java/com/destroystokyo/paperclipmavenplugin/GenerateDataMojo.java:52-127 | `execute()` ends in the state and outcome of `Run` |
| LegacyGenerateData.SourceUrlKeyedByVersion | src/main/java/com/destroystokyo/paperclipmavenplugin/GenerateDataMojo.java:111 | two versions give the same S3 URL exactly when they are equal |
| LegacyGenerateData.ManifestHashes | src/main/java/com/destroystokyo/paperclipmavenplugin/GenerateDataMojo.java:104-113 | the manifest names `paperMC.patch`, carries the version, holds the S3 URL of the version whatever the jars hold, and both SHA-256 digests as 64 upper-case hexadecimal characters that decode to them |
| LegacyGenerateData.ManifestAcrossRevisions | src/main/java/com/destroystokyo/paperclipmavenplugin/GenerateDataMojo.java:107-113 | the two revisions build the same manifest except for the download URL |
| LegacyGenerateData.OutputDirectoryPrepared | src/main/java/com/destroystokyo/paperclipmavenplugin/GenerateDataMojo.java:57-67 | when `File.exists()` reports the directory present nothing changes; a failure implies it was reported absent; otherwise it is force-created, and the forced delete of the patch finds nothing; no file changes; the file system stays well formed |
| LegacyGenerateData.OutputDirectoryStepFailure | src/main/java/com/destroystokyo/paperclipmavenplugin/GenerateDataMojo.java:58-66 | when `File.exists()` reports the directory absent, the step fails exactly when `forceMkdir` does |
| LegacyGenerateData.PreflightChecks | src/main/java/com/destroystokyo/paperclipmavenplugin/GenerateDataMojo.java:57-75 | the directory, vanilla jar and paper jar checks decide the outcome in that order, a jar counting as missing whenever `File.exists()` says false; a run stopped by one of them changes no file |
| LegacyGenerateData.GenerateStepOutcome | src/main/java/com/destroystokyo/paperclipmavenplugin/GenerateDataMojo.java:77-126 | the outcome is decided in order: unreadable jars, patch creation, SHA-256; the patch holds what the diff wrote; on success the manifest is written if its file can be opened, else left alone |
| LegacyGenerateData.GenerateStepAt | src/main/java/com/destroystokyo/paperclipmavenplugin/GenerateDataMojo.java:77-126 | reading, patching and writing change no file but the patch and the manifest |
| LegacyGenerateData.GenerateStepWellFormed | src/main/java/com/destroystokyo/paperclipmavenplugin/GenerateDataMojo.java:77-126 | reading, patching and writing keep the file system well formed |
| LegacyGenerateData.RunAt | src/main/java/com/destroystokyo/paperclipmavenplugin/GenerateDataMojo.java:52-127 | a run leaves any one path other than the two outputs as it was |
| LegacyGenerateData.RunFrame | src/main/java/com/destroystokyo/paperclipmavenplugin/GenerateDataMojo.java:52-127 | a run writes no file but `paperMC.patch` and `patch.json`; it creates no directory but the output directory's ancestors and removes none |
| LegacyGenerateData.SuccessfulRun | src/main/java/com/destroystokyo/paperclipmavenplugin/GenerateDataMojo.java:77-126 | a successful run wrote the diff of the jars' original bytes as the patch, and their manifest unless `patch.json` cannot be written |
| LegacyGenerateData.FailureKeepsManifest | src/main/java/com/destroystokyo/paperclipmavenplugin/GenerateDataMojo.java:88-126 | a failed run leaves `patch.json` alone; one that fails before the patch is opened leaves the patch alone too |
| LegacyGenerateData.OutputDirectoryStepFault | src/main/java/com/destroystokyo/paperclipmavenplugin/GenerateDataMojo.java:57-67 | the directory step does not touch `patch.json` |
| LegacyGenerateData.GenerateStepFault | src/main/java/com/destroystokyo/paperclipmavenplugin/GenerateDataMojo.java:115-126 | a failing manifest write does not change the outcome of the last step |
| LegacyGenerateData.ManifestWriteFailureIgnored | src/main/java/com/destroystokyo/paperclipmavenplugin/GenerateDataMojo.java:119-126 | with `patch.json` unwritable a run ends in the same outcome: the `IOException` is swallowed |
| LegacyGenerateData.GenerateStepFixpoint | src/main/java/com/destroystokyo/paperclipmavenplugin/GenerateDataMojo.java:77-126 | repeating a successful last step rewrites the same bytes |
| LegacyGenerateData.RunIdempotent | src/main/java/com/destroystokyo/paperclipmavenplugin/GenerateDataMojo.java:52-127 | running the goal again after a success succeeds and changes nothing |
| LegacyGenerateData.RevisionsAgreeOnPatch | src/main/java/com/destroystokyo/paperclipmavenplugin/GenerateDataMojo.java:88-93 | where both revisions succeed from the same file system they write the same `paperMC.patch` |

The older revision's `toHex`, at `src/main/java/com/destroystokyo/paperclipmavenplugin/GenerateDataMojo.java:129-135`, has the same body as the newer one's. So the `Hex` rows, which cite the newer file, stand for both.

Both `PatchData` classes are five-string records with no behaviour:
`src/main/java/io/papermc/paperclipmavenplugin/PatchData.java:12-18` and
`src/main/java/com/destroystokyo/paperclipmavenplugin/PatchData.java:15-32`.
They are the single datatype `Plugin.PatchData`.

Two quirks of the code are proved rather than changed.

- The stale-patch delete sits inside the branch where the output directory did not exist. It therefore can never find a file: nothing exists under a missing directory. A patch left by an earlier failed run survives until the next patch write. This is part of `OutputDirectoryPrepared` in both revisions.
- When `patch.json` cannot be opened for writing, the `IOException` is printed and swallowed, and the run succeeds. In the older revision this holds for any `IOException` while opening, writing or closing the file; in the newer one, Gson wraps a failing write in an unchecked exception (see below). This is proved by `ManifestWriteFailureIgnored` and `SuccessfulRun`. Every other I/O failure in the goal's main path aborts the run, so this can be read as a defect. (The older revision also ignores the `FileNotFoundException` of `forceDelete` at `src/main/java/com/destroystokyo/paperclipmavenplugin/GenerateDataMojo.java:61-63`, and the newer one swallows a failure to close `patch.json` along with a failure to open it.) The model follows the code.

## Left out

- Maven plumbing: the `@Mojo` and `@Parameter` injection, the `File`-to-`Path` setters, the unused `project` field, and logging through `getLog()` and `printStackTrace`. The goal's parameters are a `Config` value.
- The bsdiff algorithm, SHA-256 and SHA-1 (sections 6.2 and 6.1 of FIPS 180-4), and Gson serialisation (RFC 8259). They are uninterpreted fields of `Platform`. A digest's length (32 or 20 bytes) is a precondition of the lemmas that need it, not a property of the field.
- The `jar:` URI construction and ZIP parsing. A URI failure is `env.jarUri(path) == false`, and the jar's content is `env.openJar(bytes)`, an optional map from entry names to bytes. The map holds only the file entries the goal looks up.
- A zip file system that opens and then fails while the descriptor's presence is checked is not modelled separately. Any failure inside that `try` block is modelled by `openJar` returning `None` or by the descriptor's file-system calls failing.
- The zip file system reads the jar lazily. The model reads the jar's bytes once, before the descriptor step, so a descriptor step that overwrote the paper jar itself cannot be followed. The lemmas that depend on the jar's bytes require the jars not to be among the outputs.
- Path resolution and normalisation (`resolve`, `..`, symbolic links). Paths are sequences of names, and the root always exists.
- Partial writes. A failed write of `patch.json` or of the descriptor is modelled as leaving the file unchanged, whereas Java may have truncated it already. A failing diff leaves in the patch whatever jbsdiff wrote (`DiffResult.written`).
- `forceDelete` of a directory is modelled as all-or-nothing; commons-io may delete part of a tree before failing. In this goal `forceDelete` is only reached for a path below a directory that did not exist, where it finds nothing.
- `toLowerCase` is locale-sensitive in Java. The model lower-cases ASCII letters only, which is exact for hexadecimal text.
- Concurrency between two runs on the same output directory.
- Unchecked exceptions, which escape `execute()` without becoming a `MojoExecutionException`. In particular, `Gson.toJson(Object, Appendable)` in the newer revision (`src/main/java/io/papermc/paperclipmavenplugin/GenerateDataMojo.java:147`) wraps an `IOException` from the writer in a `JsonIOException`. So a write that fails after `patch.json` was opened, once the manifest outgrows the writer's buffer, is not swallowed there. The model's write of `patch.json` fails only when the file cannot be opened, which both revisions swallow.
- GenerateData.ManifestWriteFailureIgnored: covers only a `patch.json` that cannot be opened. A write failing after the open is not modelled, because of the unchecked exception above.
- The file system's failures are simplified. A failing entry fails every call on itself, but not on the paths below it. `createDirectories` does not read the status of an ancestor that is already a directory, so a failing directory on the way does not stop it.
