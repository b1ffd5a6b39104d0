/** The paths `Init` derives from the mod's folder (mod.cpp:151-154). */
module ModPaths {
  import opened FileSystem

  datatype Locations = Locations(modPath: Path, systemPath: Path, cachePath: Path, shaderPath: Path)

  /** `Init`: the system and cache folders sit directly inside the mod folder, and the
      shader source inside the system folder. */
  function Locate(modPath: Path): (l: Locations)
    ensures l.cachePath == modPath + "\\cache\\"
    ensures l.shaderPath == modPath + "\\system\\shader.hlsl"
    ensures Under(l.shaderPath, l.systemPath) && Under(l.systemPath, modPath) && Under(l.cachePath, modPath)
  {
    var systemPath := modPath + "\\system\\";
    var shaderPath := systemPath + "shader.hlsl";
    assert shaderPath == modPath + "\\system\\shader.hlsl";
    Locations(modPath, systemPath, modPath + "\\cache\\", shaderPath)
  }

  /** The shader source is never inside the cache folder, so wiping the cache cannot
      delete it. */
  lemma ShaderSourceOutsideCache(modPath: Path)
    ensures !Under(Locate(modPath).shaderPath, Locate(modPath).cachePath)
  {
    var l := Locate(modPath);
    var n := |modPath|;
    assert l.shaderPath[n + 1] == 's';
    assert l.cachePath[n + 1] == 'c';
  }

  /** The cache folder ends in a backslash, so a cached file's path is the folder followed
      by the file name. */
  lemma CacheFileNames(modPath: Path, name: Path)
    ensures Combine(Locate(modPath).cachePath, name) == modPath + "\\cache\\" + name
  {
  }
}
