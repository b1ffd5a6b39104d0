/** The variant registry (d3d.cpp:615-759): `get_vertex_shader` and `get_pixel_shader` keep
    one device object per variant key, and behind them the compiled blob of each variant is
    kept in the cache folder. The compiler, SHA-256 and device object creation are not
    modelled; they are the functions of a `Platform`. */
module Registry {
  import opened Wrappers
  import opened Flags
  import opened FileSystem
  import opened Device
  import opened Encoders
  import opened Macros
  import opened ShaderCache
  import opened ModPaths

  /** `D3DXCompileShader`, SHA-256, and `CreateVertexShader`/`CreatePixelShader`. */
  datatype Platform = Platform(
    hash: Hasher,
    compile: CompileRequest -> CompileReply,
    create: (Stage, Bytes) -> DeviceReply)

  /** The loaded shader source (`shader_file`) and the two variant maps, indexed by the
      numeric value of the variant key. */
  datatype Shaders = Shaders(source: Bytes, vertex: map<nat, Shader>, pixel: map<nat, Shader>)

  /** A variant key as a map index. */
  function Slot(key: ShaderFlags): nat {
    key as nat
  }

  lemma SlotInjective(a: ShaderFlags, b: ShaderFlags)
    requires Slot(a) == Slot(b)
    ensures a == b
  {
    FlagNatRoundTrip(a);
    FlagNatRoundTrip(b);
  }

  /** The externally visible steps of a lookup, in order. */
  datatype Event =
    | CheckedCache
    | LoadedBlob(path: Path)
    | Compiled(request: CompileRequest)
    | CreatedObject(stage: Stage, bytecode: Bytes)
    | SavedBlob(path: Path)

  /** The registry, the filesystem and the result after a lookup, and what it did. */
  datatype Lookup = Lookup(shaders: Shaders, fs: Fs, result: Result<Shader>, events: seq<Event>)

  function EntryPoint(stage: Stage): string {
    match stage
    case Vertex => "vs_main"
    case Pixel => "ps_main"
  }

  function Profile(stage: Stage): string {
    match stage
    case Vertex => "vs_3_0"
    case Pixel => "ps_3_0"
  }

  function Extension(stage: Stage): string {
    match stage
    case Vertex => ".vs"
    case Pixel => ".ps"
  }

  /** The cache file of a variant: its id and the stage's extension, inside the cache folder. */
  function BlobPath(cachePath: Path, stage: Stage, key: ShaderFlags): Path {
    Combine(cachePath, ShaderId(key) + Extension(stage))
  }

  /** The compiler call for a variant: the whole source, the variant's macros, the stage's
      entry point and profile, and `COMPILER_FLAGS`. */
  function Request(stage: Stage, source: Bytes, key: ShaderFlags): CompileRequest {
    CompileRequest(source, MacroList(key), EntryPoint(stage), Profile(stage), CompilerFlags)
  }

  /** A failed status or any error text at all rejects the compilation. */
  function CompileResult(reply: CompileReply): (r: Result<Bytes>)
    ensures r.Ok? <==> !Failed(reply.hr) && reply.errors.None?
    ensures r.Ok? ==> r.value == reply.bytecode
    ensures r.Err? ==> r.error == ErrorMessage(reply.hr, reply.errors)
  {
    if Failed(reply.hr) || reply.errors.Some? then Err(ErrorMessage(reply.hr, reply.errors))
    else Ok(reply.bytecode)
  }

  /** `after` holds the maps of `before`, with a successful lookup's object recorded under
      `key` in the stage's map. */
  ghost predicate Recorded(before: Shaders, after: Shaders, stage: Stage, key: ShaderFlags, result: Result<Shader>) {
    && after.vertex == (if stage.Vertex? && result.Ok? then before.vertex[Slot(key) := result.value] else before.vertex)
    && after.pixel == (if stage.Pixel? && result.Ok? then before.pixel[Slot(key) := result.value] else before.pixel)
  }

  /** Records `shader` under `key` in the stage's map. */
  function Store(shaders: Shaders, stage: Stage, key: ShaderFlags, shader: Shader): (r: Shaders)
    ensures r.source == shaders.source
    ensures stage.Vertex? ==> r.vertex == shaders.vertex[Slot(key) := shader] && r.pixel == shaders.pixel
    ensures stage.Pixel? ==> r.pixel == shaders.pixel[Slot(key) := shader] && r.vertex == shaders.vertex
  {
    match stage
    case Vertex => shaders.(vertex := shaders.vertex[Slot(key) := shader])
    case Pixel => shaders.(pixel := shaders.pixel[Slot(key) := shader])
  }

  /** Creates the device object from `data`, writes the blob when `save` is set (a compiled
      variant), and records the object under `key`. The blob is written only once the
      object exists. */
  function Install(platform: Platform, stage: Stage, key: ShaderFlags, shaders: Shaders, fs: Fs, cachePath: Path, path: Path, data: Bytes, save: bool): (r: Lookup)
    ensures Recorded(shaders, r.shaders, stage, key, r.result) && r.shaders.source == shaders.source
    ensures r.events == [CreatedObject(stage, data)] + (if save && r.result.Ok? then [SavedBlob(path)] else [])
    ensures r.fs != fs ==> save && r.result.Ok?
    ensures r.result.Ok? <==> !Failed(platform.create(stage, data).hr) && (save ==> cachePath in fs.dirs && path !in fs.locked && path !in fs.dirs)
  {
    var reply := platform.create(stage, data);
    if Failed(reply.hr) then
      Lookup(shaders, fs, Err(ErrorMessage(reply.hr, None)), [CreatedObject(stage, data)])
    else
      var shader := ShaderObject(reply.id);
      var saved := if save then SaveCachedShader(fs, cachePath, path, data) else Ok(fs);
      if saved.Err? then
        Lookup(shaders, fs, Err(saved.error), [CreatedObject(stage, data)])
      else
        Lookup(Store(shaders, stage, key, shader), saved.value, Ok(shader),
               [CreatedObject(stage, data)] + (if save then [SavedBlob(path)] else []))
  }

  /** The part both lookups share after deciding to build a variant: load the blob when a
      cache file exists and compile otherwise, then install the object. */
  function Build(platform: Platform, cachePath: Path, stage: Stage, key: ShaderFlags, shaders: Shaders, fs: Fs): (r: Lookup)
    ensures Recorded(shaders, r.shaders, stage, key, r.result) && r.shaders.source == shaders.source
    ensures |r.events| >= 1
    ensures r.events[0] == if Exists(fs, BlobPath(cachePath, stage, key)) then LoadedBlob(BlobPath(cachePath, stage, key))
                           else Compiled(Request(stage, shaders.source, key))
    ensures r.fs != fs ==> !Exists(fs, BlobPath(cachePath, stage, key)) && r.result.Ok?
  {
    var path := BlobPath(cachePath, stage, key);
    if Exists(fs, path) then
      match LoadCachedShader(fs, path)
      case Err(e) => Lookup(shaders, fs, Err(e), [LoadedBlob(path)])
      case Ok(data) =>
        var i := Install(platform, stage, key, shaders, fs, cachePath, path, data, false);
        i.(events := [LoadedBlob(path)] + i.events)
    else
      var request := Request(stage, shaders.source, key);
      match CompileResult(platform.compile(request))
      case Err(e) => Lookup(shaders, fs, Err(e), [Compiled(request)])
      case Ok(data) =>
        var i := Install(platform, stage, key, shaders, fs, cachePath, path, data, true);
        i.(events := [Compiled(request)] + i.events)
  }

  /** Runs the cache check first when the source has not been loaded. The loaded source is
      kept even when the check fails. */
  function CheckThenBuild(platform: Platform, loc: Locations, stage: Stage, key: ShaderFlags, shaders: Shaders, fs: Fs): (r: Lookup)
    requires |shaders.source| == 0
    ensures |r.events| >= 1 && r.events[0] == CheckedCache
    ensures r.shaders.source == LoadShaderFile(fs, loc.shaderPath)
    ensures Recorded(shaders, r.shaders, stage, key, r.result)
  {
    var c := CheckShaderCache(fs, loc.cachePath, loc.shaderPath, platform.hash);
    var loaded := shaders.(source := c.source);
    if c.outcome.Fail? then
      Lookup(loaded, c.fs, Err(c.outcome.error), [CheckedCache])
    else
      var b := Build(platform, loc.cachePath, stage, key, loaded, c.fs);
      b.(events := [CheckedCache] + b.events)
  }

  /** `get_vertex_shader`: sanitize and project the flags, then either check the cache (no
      source loaded yet), return the stored object, or build the variant. */
  function GetVertexShader(platform: Platform, loc: Locations, shaders: Shaders, fs: Fs, flags: ShaderFlags): (r: Lookup)
    ensures Recorded(shaders, r.shaders, Vertex, VertexKey(flags), r.result)
  {
    var key := VertexKey(flags);
    if |shaders.source| == 0 then CheckThenBuild(platform, loc, Vertex, key, shaders, fs)
    else if Slot(key) in shaders.vertex then
      Lookup(shaders, fs, Ok(shaders.vertex[Slot(key)]), [])
    else Build(platform, loc.cachePath, Vertex, key, shaders, fs)
  }

  /** `get_pixel_shader`: the map is searched with the raw `flags & PS_FLAGS`, and a built
      variant is stored under the sanitized key. */
  function GetPixelShader(platform: Platform, loc: Locations, shaders: Shaders, fs: Fs, flags: ShaderFlags): (r: Lookup)
    ensures Recorded(shaders, r.shaders, Pixel, PixelKey(flags), r.result)
  {
    PixelLookupKeyIsStoreKey(flags);
    if |shaders.source| == 0 then CheckThenBuild(platform, loc, Pixel, PixelKey(flags), shaders, fs)
    else if Slot(flags & PsFlags) in shaders.pixel then
      Lookup(shaders, fs, Ok(shaders.pixel[Slot(flags & PsFlags)]), [])
    else Build(platform, loc.cachePath, Pixel, PixelKey(flags), shaders, fs)
  }

  /** Once the source is loaded, a stored vertex variant is returned as it is: no cache
      check, no load, no compile, no filesystem change. */
  lemma VertexLookupMemoised(platform: Platform, loc: Locations, shaders: Shaders, fs: Fs, flags: ShaderFlags)
    requires |shaders.source| > 0 && Slot(VertexKey(flags)) in shaders.vertex
    ensures GetVertexShader(platform, loc, shaders, fs, flags) == Lookup(shaders, fs, Ok(shaders.vertex[Slot(VertexKey(flags))]), [])
  {
  }

  /** The same for pixel variants: the raw lookup key finds what was stored under the
      sanitized key. */
  lemma PixelLookupMemoised(platform: Platform, loc: Locations, shaders: Shaders, fs: Fs, flags: ShaderFlags)
    requires |shaders.source| > 0 && Slot(PixelKey(flags)) in shaders.pixel
    ensures GetPixelShader(platform, loc, shaders, fs, flags) == Lookup(shaders, fs, Ok(shaders.pixel[Slot(PixelKey(flags))]), [])
  {
    PixelLookupKeyIsStoreKey(flags);
  }

  /** Asking again for a vertex variant that was just obtained returns the same object and
      does nothing else. */
  lemma RepeatedVertexRequest(platform: Platform, loc: Locations, shaders: Shaders, fs: Fs, flags: ShaderFlags, again: ShaderFlags)
    requires GetVertexShader(platform, loc, shaders, fs, flags).result.Ok?
    requires |GetVertexShader(platform, loc, shaders, fs, flags).shaders.source| > 0
    requires VertexKey(again) == VertexKey(flags)
    ensures var r := GetVertexShader(platform, loc, shaders, fs, flags);
            GetVertexShader(platform, loc, r.shaders, r.fs, again) == Lookup(r.shaders, r.fs, r.result, [])
  {
  }

  /** Asking again for a pixel variant with any flags of the same key returns the same
      object and does nothing else. */
  lemma RepeatedPixelRequest(platform: Platform, loc: Locations, shaders: Shaders, fs: Fs, flags: ShaderFlags, again: ShaderFlags)
    requires GetPixelShader(platform, loc, shaders, fs, flags).result.Ok?
    requires |GetPixelShader(platform, loc, shaders, fs, flags).shaders.source| > 0
    requires PixelKey(again) == PixelKey(flags)
    ensures var r := GetPixelShader(platform, loc, shaders, fs, flags);
            GetPixelShader(platform, loc, r.shaders, r.fs, again) == Lookup(r.shaders, r.fs, r.result, [])
  {
    PixelLookupKeyIsStoreKey(again);
  }

  /** The filesystem changes only when a variant was compiled, its device object was
      created, and then its blob was written to the variant's cache file. */
  lemma BlobWrittenOnlyAfterCreation(platform: Platform, cachePath: Path, stage: Stage, key: ShaderFlags, shaders: Shaders, fs: Fs)
    requires Build(platform, cachePath, stage, key, shaders, fs).fs != fs
    ensures var r := Build(platform, cachePath, stage, key, shaders, fs);
            var path := BlobPath(cachePath, stage, key);
            var data := platform.compile(Request(stage, shaders.source, key)).bytecode;
            && r.result.Ok?
            && !Exists(fs, path)
            && cachePath in fs.dirs
            && r.events == [Compiled(Request(stage, shaders.source, key)), CreatedObject(stage, data), SavedBlob(path)]
            && r.fs == WriteFile(fs, cachePath, path, data).value
  {
  }

  /** Without the cache folder the compiled blob cannot be stored: the lookup throws (the
      storage error when compiling and creating succeeded), records nothing and leaves the
      filesystem as it was. */
  lemma MissingCacheFolderNotWritten(platform: Platform, cachePath: Path, stage: Stage, key: ShaderFlags, shaders: Shaders, fs: Fs)
    requires !Exists(fs, BlobPath(cachePath, stage, key)) && cachePath !in fs.dirs
    ensures var r := Build(platform, cachePath, stage, key, shaders, fs);
            var reply := platform.compile(Request(stage, shaders.source, key));
            && r.result.Err? && r.fs == fs && r.shaders == shaders
            && (CompileResult(reply).Ok? && !Failed(platform.create(stage, reply.bytecode).hr) ==> r.result.error == CacheStoreError)
  {
  }

  /** A variant with a cache file is never compiled and never written. */
  lemma CachedVariantNotCompiled(platform: Platform, cachePath: Path, stage: Stage, key: ShaderFlags, shaders: Shaders, fs: Fs)
    requires Exists(fs, BlobPath(cachePath, stage, key))
    ensures var r := Build(platform, cachePath, stage, key, shaders, fs);
            && r.fs == fs
            && forall i :: 0 <= i < |r.events| ==> !r.events[i].Compiled? && !r.events[i].SavedBlob?
  {
    var path := BlobPath(cachePath, stage, key);
    var r := Build(platform, cachePath, stage, key, shaders, fs);
    match LoadCachedShader(fs, path)
    case Err(e) =>
      assert r.events == [LoadedBlob(path)];
    case Ok(data) =>
      var i := Install(platform, stage, key, shaders, fs, cachePath, path, data, false);
      assert r == i.(events := [LoadedBlob(path)] + i.events);
      assert i.fs == fs && i.events == [CreatedObject(stage, data)];
  }

  /** The cache round trip: after a variant was compiled and written, its cache file holds
      the compiled bytecode byte for byte, and building it again on a later start (a
      registry that does not hold it) loads that blob instead of compiling and creates the
      object from the same bytes, provided the blob was not empty. Because `create` is a
      function of the bytes, the object is also the same one. */
  lemma CacheRoundTrip(platform: Platform, cachePath: Path, stage: Stage, key: ShaderFlags, shaders: Shaders, fs: Fs, later: Shaders)
    requires !Exists(fs, BlobPath(cachePath, stage, key))
    requires Build(platform, cachePath, stage, key, shaders, fs).result.Ok?
    requires |platform.compile(Request(stage, shaders.source, key)).bytecode| > 0
    ensures var r := Build(platform, cachePath, stage, key, shaders, fs);
            var warm := Build(platform, cachePath, stage, key, later, r.fs);
            var path := BlobPath(cachePath, stage, key);
            var bytecode := platform.compile(Request(stage, shaders.source, key)).bytecode;
            && path in r.fs.files && r.fs.files[path] == bytecode
            && warm.events == [LoadedBlob(path), CreatedObject(stage, bytecode)]
            && warm.result == r.result
            && warm.fs == r.fs
  {
    var path := BlobPath(cachePath, stage, key);
    var request := Request(stage, shaders.source, key);
    var data := platform.compile(request).bytecode;
    var r := Build(platform, cachePath, stage, key, shaders, fs);
    assert CompileResult(platform.compile(request)) == Ok(data);
    var i := Install(platform, stage, key, shaders, fs, cachePath, path, data, true);
    assert r == i.(events := [Compiled(request)] + i.events);
    assert r.fs == WriteFile(fs, cachePath, path, data).value;
    assert Exists(r.fs, path) && LoadCachedShader(r.fs, path) == Ok(data);
    var j := Install(platform, stage, key, later, r.fs, cachePath, path, data, false);
    assert Build(platform, cachePath, stage, key, later, r.fs) == j.(events := [LoadedBlob(path)] + j.events);
  }

  /** An empty compiled blob is still written, and the next start rejects it as corrupt. */
  lemma EmptyBlobRejectedLater(platform: Platform, cachePath: Path, stage: Stage, key: ShaderFlags, shaders: Shaders, fs: Fs, later: Shaders)
    requires !Exists(fs, BlobPath(cachePath, stage, key))
    requires Build(platform, cachePath, stage, key, shaders, fs).result.Ok?
    requires |platform.compile(Request(stage, shaders.source, key)).bytecode| == 0
    ensures var r := Build(platform, cachePath, stage, key, shaders, fs);
            Build(platform, cachePath, stage, key, later, r.fs).result == Err(CorruptCacheError)
  {
  }

  /** A failed cache check still leaves the source loaded, so when the file was found the
      next lookup skips the check and trusts whatever the cache folder holds. */
  lemma FailedCheckNotRepeated(platform: Platform, loc: Locations, shaders: Shaders, fs: Fs, flags: ShaderFlags, next: ShaderFlags)
    requires |shaders.source| == 0
    requires GetVertexShader(platform, loc, shaders, fs, flags).result.Err?
    requires |LoadShaderFile(fs, loc.shaderPath)| > 0
    ensures var r := GetVertexShader(platform, loc, shaders, fs, flags);
            var n := GetVertexShader(platform, loc, r.shaders, r.fs, next);
            |n.events| == 0 || n.events[0] != CheckedCache
  {
  }

  /** Without a shader file nothing is ever loaded, so every lookup checks the cache again
      and builds the variant again, even one already stored. */
  lemma MissingSourceNeverMemoised(platform: Platform, loc: Locations, shaders: Shaders, fs: Fs, flags: ShaderFlags)
    requires |shaders.source| == 0
    ensures |GetVertexShader(platform, loc, shaders, fs, flags).events| >= 1
    ensures GetVertexShader(platform, loc, shaders, fs, flags).events[0] == CheckedCache
  {
  }
}
