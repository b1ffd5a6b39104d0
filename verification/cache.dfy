/** The on-disk shader cache (d3d.cpp:332-452, 559-613): the compiled variants live in the
    cache folder next to `checksum.bin`, a hash of the shader source and the compiler flags.
    When the hash on disk is missing or differs, the folder is wiped and recreated. */
module ShaderCache {
  import opened Wrappers
  import opened FileSystem

  const ChecksumName: Path := "checksum.bin"
  const MaxChecksumSize: int := 256

  const ChecksumRangeError: string := "checksum.bin file size out of range"
  const CorruptCacheError: string := "corrupt vertex shader cache"
  const CacheStoreError: string := "Failed to open file for cache storage."
  const CreateCacheError: string := "Failed to create cache directory!"
  const DeleteCacheError: string := "Failed to delete cache directory!"
  const ChecksumWriteError: string := "Failed to open file for writing: "

  /** `COMPILER_FLAGS`: D3DXSHADER_PACKMATRIX_ROWMAJOR (0x8) | D3DXSHADER_OPTIMIZATION_LEVEL3
      (0x8000), and the four bytes of it the hash is fed, least significant first. */
  const CompilerFlags: nat := 0x8008
  const CompilerFlagBytes: Bytes := [0x08, 0x80, 0x00, 0x00]

  lemma CompilerFlagBytesAreLittleEndian()
    ensures CompilerFlags == CompilerFlagBytes[0] as int + 0x100 * CompilerFlagBytes[1] as int
                             + 0x1_0000 * CompilerFlagBytes[2] as int + 0x100_0000 * CompilerFlagBytes[3] as int
  {
  }

  /** A SHA-256 value. */
  type Digest = b: Bytes | |b| == 32 witness seq(32, i => 0)

  /** SHA-256 over a byte string; the CryptoAPI provider is not modelled, so any function
      of this type can stand for it. */
  type Hasher = Bytes -> Digest

  /** `shader_hash`: the source is hashed, then the compiler flags. */
  function ShaderHash(hash: Hasher, source: Bytes): Digest {
    hash(source + CompilerFlagBytes)
  }

  /** The filesystem after an operation that may have thrown part-way, and the outcome. */
  datatype Io = Io(fs: Fs, outcome: Outcome)

  /** `load_shader_file`: the whole file, or nothing when it is missing or empty. */
  function LoadShaderFile(fs: Fs, shaderPath: Path): (source: Bytes)
    ensures |source| > 0 <==> shaderPath in fs.files && |fs.files[shaderPath]| > 0
    ensures |source| > 0 ==> source == fs.files[shaderPath]
  {
    if Size(fs, shaderPath) > 0 then fs.files[shaderPath] else []
  }

  /** `read_checksum`: the file's bytes when it holds between 1 and 256 of them. */
  function ReadChecksum(fs: Fs, path: Path): (r: Result<Bytes>)
    ensures r.Ok? <==> path in fs.files && 1 <= |fs.files[path]| <= MaxChecksumSize
    ensures r.Ok? ==> r.value == fs.files[path]
    ensures r.Err? ==> r.error == ChecksumRangeError
  {
    var size := Size(fs, path);
    if size > MaxChecksumSize || size < 1 then Err(ChecksumRangeError) else Ok(fs.files[path])
  }

  /** `load_cached_shader`: a compiled blob, which must not be empty. */
  function LoadCachedShader(fs: Fs, path: Path): (r: Result<Bytes>)
    ensures r.Ok? <==> path in fs.files && |fs.files[path]| >= 1
    ensures r.Ok? ==> r.value == fs.files[path]
    ensures r.Err? ==> r.error == CorruptCacheError
  {
    if Size(fs, path) < 1 then Err(CorruptCacheError) else Ok(fs.files[path])
  }

  /** `save_cached_shader`: the blob is written, or opening the file fails. */
  function SaveCachedShader(fs: Fs, cachePath: Path, path: Path, data: Bytes): (r: Result<Fs>)
    ensures r.Ok? <==> cachePath in fs.dirs && path !in fs.locked && path !in fs.dirs
    ensures r.Ok? ==> r.value == WriteFile(fs, cachePath, path, data).value
    ensures r.Err? ==> r.error == CacheStoreError
  {
    match WriteFile(fs, cachePath, path, data)
    case Some(written) => Ok(written)
    case None => Err(CacheStoreError)
  }

  /** `create_cache`. */
  function CreateCache(fs: Fs, cachePath: Path): (io: Io)
    ensures io.outcome.Pass? <==> cachePath !in fs.locked && !Exists(fs, cachePath)
    ensures io.outcome.Pass? ==> io.fs == CreateDirectory(fs, cachePath).value
    ensures io.outcome.Fail? ==> io.fs == fs && io.outcome.error == CreateCacheError
  {
    match CreateDirectory(fs, cachePath)
    case Some(created) => Io(created, Pass)
    case None => Io(fs, Fail(CreateCacheError))
  }

  /** `invalidate_cache`: remove the folder if it exists, then create it afresh. On success
      the folder exists and holds nothing (a folder that did not exist is only created, so
      stray entries below its name are left alone). */
  function InvalidateCache(fs: Fs, cachePath: Path): (io: Io)
    ensures io.outcome.Pass? ==> cachePath in io.fs.dirs
    ensures io.outcome.Pass? ==> forall p :: Under(p, cachePath) && Exists(io.fs, p) ==>
              p == cachePath || (!Exists(fs, cachePath) && Exists(fs, p))
    ensures SameOutside(fs, io.fs, cachePath)
  {
    if Exists(fs, cachePath) then
      match RemoveAll(fs, cachePath)
      case None => Io(fs, Fail(DeleteCacheError))
      case Some(removed) => RemovedAllCanBeCreated(fs, cachePath); CreateCache(removed, cachePath)
    else
      CreateCache(fs, cachePath)
  }

  lemma RemovedAllCanBeCreated(fs: Fs, cachePath: Path)
    requires RemoveAll(fs, cachePath).Some?
    ensures !Exists(RemoveAll(fs, cachePath).value, cachePath)
    ensures cachePath !in RemoveAll(fs, cachePath).value.locked
  {
    assert Under(cachePath, cachePath);
  }

  /** `store_checksum`: invalidate the cache, then write the hash into the checksum file. */
  function StoreChecksum(fs: Fs, cachePath: Path, checksumPath: Path, hash: Digest): (io: Io)
    requires Under(checksumPath, cachePath) && checksumPath != cachePath
    ensures io.outcome.Pass? ==> checksumPath in io.fs.files && io.fs.files[checksumPath] == hash
    ensures io.outcome.Pass? ==> cachePath in io.fs.dirs
    ensures io.outcome.Pass? ==> forall p :: Under(p, cachePath) && Exists(io.fs, p) ==>
              p == cachePath || p == checksumPath || (!Exists(fs, cachePath) && Exists(fs, p))
    ensures SameOutside(fs, io.fs, cachePath)
  {
    var invalidated := InvalidateCache(fs, cachePath);
    if invalidated.outcome.Fail? then invalidated
    else
      match WriteFile(invalidated.fs, cachePath, checksumPath, hash)
      case None => Io(invalidated.fs, Fail(ChecksumWriteError + checksumPath))
      case Some(written) => Io(written, Pass)
  }

  /** The cache folder holds a checksum equal to the current hash. */
  predicate ChecksumValid(fs: Fs, cachePath: Path, checksumPath: Path, current: Digest) {
    Exists(fs, cachePath) && Exists(fs, checksumPath) && ReadChecksum(fs, checksumPath) == Ok(current)
  }

  /** What `check_shader_cache` leaves behind: the loaded source (kept even when the check
      throws), the filesystem, and the outcome. */
  datatype Checked = Checked(source: Bytes, fs: Fs, outcome: Outcome)

  /** `check_shader_cache`: load the source, hash it, and store the checksum (wiping the
      cache) unless the folder exists with a checksum equal to the hash. */
  function CheckShaderCache(fs: Fs, cachePath: Path, shaderPath: Path, hash: Hasher): (c: Checked)
    ensures c.source == LoadShaderFile(fs, shaderPath)
    ensures SameOutside(fs, c.fs, cachePath)
  {
    var source := LoadShaderFile(fs, shaderPath);
    var checksumPath := Combine(cachePath, ChecksumName);
    var current := ShaderHash(hash, source);
    if Exists(fs, cachePath) then
      if !Exists(fs, checksumPath) then
        var io := StoreChecksum(fs, cachePath, checksumPath, current);
        Checked(source, io.fs, io.outcome)
      else
        match ReadChecksum(fs, checksumPath)
        case Err(e) => Checked(source, fs, Fail(e))
        case Ok(last) =>
          if last != current then
            var io := StoreChecksum(fs, cachePath, checksumPath, current);
            Checked(source, io.fs, io.outcome)
          else
            Checked(source, fs, Pass)
    else
      var io := StoreChecksum(fs, cachePath, checksumPath, current);
      Checked(source, io.fs, io.outcome)
  }

  /** After a successful check the checksum file holds the hash of the source just loaded. */
  lemma CheckLeavesCurrentHash(fs: Fs, cachePath: Path, shaderPath: Path, hash: Hasher)
    requires CheckShaderCache(fs, cachePath, shaderPath, hash).outcome.Pass?
    ensures var c := CheckShaderCache(fs, cachePath, shaderPath, hash);
            var checksumPath := Combine(cachePath, ChecksumName);
            && Exists(c.fs, cachePath)
            && checksumPath in c.fs.files
            && c.fs.files[checksumPath] == ShaderHash(hash, c.source)
  {
  }

  /** A cache folder whose checksum matches is left exactly as it was. */
  lemma CheckKeepsValidCache(fs: Fs, cachePath: Path, shaderPath: Path, hash: Hasher)
    requires ChecksumValid(fs, cachePath, Combine(cachePath, ChecksumName), ShaderHash(hash, LoadShaderFile(fs, shaderPath)))
    ensures CheckShaderCache(fs, cachePath, shaderPath, hash) == Checked(LoadShaderFile(fs, shaderPath), fs, Pass)
  {
  }

  /** Otherwise a successful check leaves nothing in the folder but the new checksum: every
      cached variant is gone. This includes a folder that exists without a checksum. */
  lemma CheckWipesStaleCache(fs: Fs, cachePath: Path, shaderPath: Path, hash: Hasher, p: Path)
    requires Exists(fs, cachePath)
    requires !ChecksumValid(fs, cachePath, Combine(cachePath, ChecksumName), ShaderHash(hash, LoadShaderFile(fs, shaderPath)))
    requires CheckShaderCache(fs, cachePath, shaderPath, hash).outcome.Pass?
    requires Under(p, cachePath) && p != cachePath && p != Combine(cachePath, ChecksumName)
    ensures !Exists(CheckShaderCache(fs, cachePath, shaderPath, hash).fs, p)
  {
  }

  /** A checksum file of a bad size stops the check with an error and touches nothing. */
  lemma CheckRejectsBadChecksum(fs: Fs, cachePath: Path, shaderPath: Path, hash: Hasher)
    requires Exists(fs, cachePath)
    requires var checksumPath := Combine(cachePath, ChecksumName);
             checksumPath in fs.files && (|fs.files[checksumPath]| < 1 || |fs.files[checksumPath]| > MaxChecksumSize)
    ensures CheckShaderCache(fs, cachePath, shaderPath, hash) == Checked(LoadShaderFile(fs, shaderPath), fs, Fail(ChecksumRangeError))
  {
  }

  /** Checking twice in a row: the second check finds the checksum the first one stored and
      changes nothing. The source must lie outside the cache folder, which `Init` ensures. */
  lemma CheckIdempotent(fs: Fs, cachePath: Path, shaderPath: Path, hash: Hasher)
    requires !Under(shaderPath, cachePath)
    requires CheckShaderCache(fs, cachePath, shaderPath, hash).outcome.Pass?
    ensures var c := CheckShaderCache(fs, cachePath, shaderPath, hash);
            CheckShaderCache(c.fs, cachePath, shaderPath, hash) == Checked(c.source, c.fs, Pass)
  {
    var c := CheckShaderCache(fs, cachePath, shaderPath, hash);
    CheckLeavesCurrentHash(fs, cachePath, shaderPath, hash);
    assert LoadShaderFile(c.fs, shaderPath) == c.source;
    CheckKeepsValidCache(c.fs, cachePath, shaderPath, hash);
  }
}
