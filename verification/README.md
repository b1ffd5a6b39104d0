# sadx-gc-lighting: the shader-variant decision layer in Dafny

sadx-gc-lighting replaces the fixed-function lighting of Sonic Adventure DX with HLSL
shaders. Behind its Direct3D hooks sits a small, sequential decision layer. This project
models that layer and proves properties of it:

- **Feature flags** (`Flags`): the seven-bit `ShaderFlags` set and its mask and count.
  It also covers `sanitize`, `set_flags` and the per-stage keys `VS_FLAGS` and
  `PS_FLAGS`.
- **Encoders**:
  - `Hex` and `Encoders`: `shader_id`, the two-digit hex stem of a cache file, and
    `d3d_exception`, the `[xxxxxxxx] text` error message.
  - `Macros`: `populate_macros`, the `D3DXMACRO` list handed to the compiler.
  - `FlagNames`: `to_string`, the `" | "`-joined flag names.
  - `FlagTables` holds the one reference definition that both loops are proved against.
- **Shader cache** (`ShaderCache`, over an abstract `FileSystem`):
  - `load_shader_file`, `read_checksum`, `load_cached_shader` and `save_cached_shader`;
  - `create_cache`, `invalidate_cache`, `store_checksum` and `check_shader_cache`.
- **Variant registry** (`Registry`): `get_vertex_shader` and `get_pixel_shader`.
  - The compiler, SHA-256 and device object creation are functions carried by a
    `Platform` value.
  - Each lookup returns the new maps, the new filesystem, the object or the message of
    the exception, and the ordered list of visible steps (cache check, blob load,
    compile, object creation, blob save).
- **Draw orchestration** (`Draw`):
  - the nesting counter `begin`/`end`;
  - `shader_start`/`shader_end`, with the effect gate, the rebind rule, the pending
    parameter upload and the error path;
  - the two-pass `run_d3d_trampoline`.

  The device is a record of what it has bound, its render state, the log of operations
  issued to it and the draw calls it received.
- **Material hooks** (`Material`):
  - the attribute-to-flag translation of `Direct3D_ParseMaterial_r` with the
    constant-attribute override;
  - `update_material`;
  - the save and restore of `DrawLandTable_r`.
- **Paths and lights**:
  - `ModPaths`: the paths `Init` derives from the mod folder.
  - `Lights`: `StageLight`/`StageLights` equality and the specialised
    `ShaderParameter<StageLights>::commit`.

Flags are `bv32`, the source's `Uint32`. The `drawing` counter wraps at 2^32, as the
source's `++drawing` does. `HRESULT` is a signed 32-bit range. Exceptions become `Err`
values that carry the same message. The filesystem is a map from path to bytes plus a
set of directories. Paths in its `locked` set are ones where create, delete or open for
writing fails.

Every loop is verified as a method: `PopulateMacros` and `ToString` carry their loop
invariants. The rest is functions with contracts, plus lemmas relating them to reference
definitions, inverses and earlier states.

## Model

| member | source | states |
|---|---|---|
| Flags.Sanitize | sadx-gc-lighting/d3d.cpp:169-179 | the result lies inside the mask; EnvMap survives exactly when both EnvMap and Texture were set; every other named flag is kept as it was |
| Flags.SanitizeIdempotent | sadx-gc-lighting/d3d.cpp:169-179 | sanitizing twice is sanitizing once |
| Flags.SetFlags | sadx-gc-lighting/d3d.cpp:1224-1234 | after the call the given bits are all set when adding and all clear when removing |
| Flags.SetFlagsKeepsOthers | sadx-gc-lighting/d3d.cpp:1224-1234 | no bit outside the given ones changes |
| Flags.NoneIsOrIdentity | sadx-gc-lighting/d3d.h:12 | `ShaderFlags_None` is the identity of or, and `set_flags(None)` with its default `add` changes nothing |
| Flags.NamedAreDistinctSingleBits | sadx-gc-lighting/d3d.h:13-19 | the seven named flags are the bits 1, 2, 4, ..., 64 and pairwise disjoint |
| Flags.MaskIsUnionOfNamed | sadx-gc-lighting/d3d.h:20 | the mask is exactly the union of the seven flags |
| Flags.CountEnumeratesSubsets | sadx-gc-lighting/d3d.h:21 | `Count` is `Mask + 1`, and a word is below `Count` exactly when it has no bit outside the mask |
| Flags.PixelLookupKeyIsStoreKey | sadx-gc-lighting/d3d.cpp:698-708 | the raw key `f & PS_FLAGS` the pixel map is searched with always equals the sanitized key a variant is stored under |
| Flags.KeysIdempotent | sadx-gc-lighting/d3d.cpp:142-144 | projecting a stage key again gives the same key |
| Flags.VertexKeysReachable | sadx-gc-lighting/d3d.cpp:143 | only the vertex variants None, Texture and Texture+EnvMap can ever be requested |
| Flags.KeysInsideMask | sadx-gc-lighting/d3d.cpp:142-144 | both stage keys lie below `Count` |
| Hex.ToHex | sadx-gc-lighting/d3d.cpp:454-464 | the spelling is non-empty lower-case hexadecimal |
| Hex.ParseToHex | sadx-gc-lighting/d3d.cpp:454-464 | parsing the hexadecimal spelling of `n` gives back `n` |
| Hex.ParseLeadingZeros | sadx-gc-lighting/d3d.cpp:454-464 | zero padding on the left does not change the value |
| Hex.ToHexLength | sadx-gc-lighting/d3d.cpp:454-464 | a number below 16^k is spelled in at most k digits |
| Hex.PaddedHex | sadx-gc-lighting/d3d.cpp:454-464 | `setw(width)` with zero fill yields at least `width` hex digits that parse back to `n`, and exactly `width` when `n` fits |
| Encoders.ShaderId | sadx-gc-lighting/d3d.cpp:454-464 | the stem is at least two lower-case hex digits that parse back to the flags, and exactly two below 0x100 |
| Encoders.MaskedShaderIdHasTwoDigits | sadx-gc-lighting/d3d.cpp:454-464 | every word inside the mask has a two-character id |
| Encoders.ShaderIdInjective | sadx-gc-lighting/d3d.cpp:454-464 | distinct flag words never share a cache file name |
| Encoders.ErrorMessage | sadx-gc-lighting/d3d.cpp:533-557 | the message is `[`, the code as eight hex digits that read back as the signed code, `] `, then the diagnostic text or `Unspecified error.` |
| Encoders.ErrorMessageDistinguishesCodes | sadx-gc-lighting/d3d.cpp:533-557 | two equal messages come from the same code and, when both had text, the same text |
| FlagTables.SelectFirst | sadx-gc-lighting/d3d.cpp:474-528 | taking the first set flag of a table emits its item and continues as the walk over the word with that flag cleared |
| FlagTables.SelectedMembership | sadx-gc-lighting/d3d.cpp:474-528 | with distinct items, an item is emitted exactly when its flag is set |
| FlagTables.SelectedDistinct | sadx-gc-lighting/d3d.cpp:474-528 | with distinct items, nothing is emitted twice and everything emitted comes from the table |
| Macros.MacroListShape | sadx-gc-lighting/d3d.cpp:466-531 | the list has popcount(f & Mask) definitions with distinct names, each `"1"`, then one terminator; a definition appears exactly when its flag is set; bits above the mask are ignored |
| Macros.CountMacroFlags | sadx-gc-lighting/d3d.cpp:474-528 | the number of table flags set is the popcount of the masked word |
| Macros.TakeStep | sadx-gc-lighting/d3d.cpp:474-526 | one pass of the loop keeps the invariant "emitted so far, then what the remaining flags emit, is the whole list" and makes progress |
| Macros.FirstRemaining | sadx-gc-lighting/d3d.cpp:478-528 | the chain of tests finds the first remaining flag in the source's order, or reports that only bits above the mask are left (the `break`) |
| Macros.PopulateMacros | sadx-gc-lighting/d3d.cpp:466-531 | the loop produces exactly the reference list, of length popcount(f & Mask) + 1 |
| FlagNames.ToString | sadx-gc-lighting/d3d.cpp:256-330 | the output is the set flags' names in the source's order joined by the space-bar-space separator, followed by one dangling separator when a name was written and bits above the mask remain |
| FlagNames.ToStringOfKey | sadx-gc-lighting/d3d.cpp:256-330 | for every word inside the mask the output is exactly the joined names |
| FlagNames.NameListMembership | sadx-gc-lighting/d3d.cpp:270-324 | a name appears exactly when its flag is set, and the list is empty exactly when no named flag is set |
| FlagNames.DanglingSeparator | sadx-gc-lighting/d3d.cpp:261-327 | Texture together with bit 7 prints `USE_TEXTURE` followed by a dangling separator |
| FlagNames.NameStep | sadx-gc-lighting/d3d.cpp:261-324 | one pass of the loop keeps the invariant of the names taken and never clears a bit above the mask |
| FlagNames.NameDone | sadx-gc-lighting/d3d.cpp:261-327 | when no named flag is left all names were taken, and the loop reaches its `break` exactly when bits above the mask were present |
| FlagNames.JoinFirstPrefix | sadx-gc-lighting/d3d.cpp:265-268 | joining a prefix of the names looks only at that prefix |
| FileSystem.RemoveAll | sadx-gc-lighting/d3d.cpp:344 | removal succeeds exactly when nothing below the folder is locked, and afterwards nothing at or below it exists while everything else is unchanged |
| FileSystem.CreateDirectory | sadx-gc-lighting/d3d.cpp:334 | creation fails for a locked or existing path and otherwise adds just the folder |
| FileSystem.WriteFile | sadx-gc-lighting/d3d.cpp:442-451 | opening for writing fails when the containing folder does not exist, for a locked path or for a folder; otherwise the file holds the data and no other file changes |
| FileSystem.WriteThenRead | sadx-gc-lighting/d3d.cpp:603-613 | what is written reads back at the length written |
| ModPaths.Locate | sadx-gc-lighting/mod.cpp:151-154 | the cache path is `mod_path + "\\cache\\"`, the shader path `mod_path + "\\system\\shader.hlsl"`, both inside the mod folder |
| ModPaths.ShaderSourceOutsideCache | sadx-gc-lighting/mod.cpp:151-154 | the shader source never lies inside the cache folder, so wiping the cache cannot delete it |
| ModPaths.CacheFileNames | sadx-gc-lighting/mod.cpp:153 | a cached file's path is the cache folder followed directly by the file name |
| ShaderCache.CompilerFlagBytesAreLittleEndian | sadx-gc-lighting/d3d.cpp:140 | the four bytes hashed after the source are `COMPILER_FLAGS`, least significant first |
| ShaderCache.LoadShaderFile | sadx-gc-lighting/d3d.cpp:405-418 | the source is loaded exactly when the file exists and is non-empty, and is then its whole content |
| ShaderCache.ReadChecksum | sadx-gc-lighting/d3d.cpp:420-436 | a checksum is read exactly when its file holds between 1 and 256 bytes; otherwise the size error is raised |
| ShaderCache.LoadCachedShader | sadx-gc-lighting/d3d.cpp:588-601 | a blob is loaded exactly when its file holds at least one byte; otherwise the corrupt-cache error is raised |
| ShaderCache.SaveCachedShader | sadx-gc-lighting/d3d.cpp:603-613 | the blob is written exactly when the cache folder exists and the file can be opened; otherwise the storage error is raised and nothing changes |
| ShaderCache.CreateCache | sadx-gc-lighting/d3d.cpp:332-338 | the folder is created when it is neither locked nor present; otherwise nothing changes and the creation error is raised |
| ShaderCache.InvalidateCache | sadx-gc-lighting/d3d.cpp:340-351 | on success the folder exists and holds nothing new, and nothing outside it changes in any case |
| ShaderCache.StoreChecksum | sadx-gc-lighting/d3d.cpp:438-452 | on success the folder holds only the checksum file, whose content is the hash, and nothing outside the folder changes |
| ShaderCache.CheckShaderCache | sadx-gc-lighting/d3d.cpp:559-586 | the source is always loaded, and nothing outside the cache folder is touched |
| ShaderCache.CheckLeavesCurrentHash | sadx-gc-lighting/d3d.cpp:559-586 | after a successful check the folder exists and the checksum file holds the hash of the loaded source |
| ShaderCache.CheckKeepsValidCache | sadx-gc-lighting/d3d.cpp:566-580 | a folder whose checksum equals the current hash is left untouched |
| ShaderCache.CheckWipesStaleCache | sadx-gc-lighting/d3d.cpp:566-585 | otherwise, including a folder without a checksum, every cached file is gone after a successful check |
| ShaderCache.CheckRejectsBadChecksum | sadx-gc-lighting/d3d.cpp:426-429 | a checksum file of a bad size stops the check with the size error and touches nothing |
| ShaderCache.CheckIdempotent | sadx-gc-lighting/d3d.cpp:559-586 | a second check right after a successful one finds its checksum and changes nothing |
| Registry.SlotInjective | sadx-gc-lighting/d3d.cpp:150-151 | distinct variant keys occupy distinct map entries |
| Registry.CompileResult | sadx-gc-lighting/d3d.cpp:662-669 | a compilation is accepted exactly when the status succeeded and no error text came back; a rejection carries the `d3d_exception` message |
| Registry.Install | sadx-gc-lighting/d3d.cpp:671-685 | the object is created first; the blob is saved only for a compiled variant and only after creation succeeded; installing succeeds exactly when creation succeeds and, when saving, the cache folder exists and the file can be opened; the object is recorded only on success |
| Registry.Build | sadx-gc-lighting/d3d.cpp:635-685 | an existing cache file is loaded, otherwise the variant is compiled; only a compiled, successfully created variant changes the filesystem |
| Registry.CheckThenBuild | sadx-gc-lighting/d3d.cpp:622-625 | with no source loaded the cache check runs first, and its loaded source is kept whatever happens next |
| Registry.GetVertexShader | sadx-gc-lighting/d3d.cpp:615-686 | a successful lookup records its object under the sanitized vertex key, and nothing else in the maps changes |
| Registry.GetPixelShader | sadx-gc-lighting/d3d.cpp:688-759 | a successful lookup records its object under the sanitized pixel key, and nothing else in the maps changes |
| Registry.VertexLookupMemoised | sadx-gc-lighting/d3d.cpp:626-633 | once the source is loaded, a stored vertex variant is returned with no check, load, compile or filesystem change |
| Registry.PixelLookupMemoised | sadx-gc-lighting/d3d.cpp:696-703 | the same for pixel variants, found by the raw key although stored under the sanitized one |
| Registry.RepeatedVertexRequest | sadx-gc-lighting/d3d.cpp:615-686 | asking again for a vertex variant just obtained returns the same object and does nothing else |
| Registry.RepeatedPixelRequest | sadx-gc-lighting/d3d.cpp:688-759 | asking again, with any flags of the same key, for a pixel variant just obtained returns the same object and does nothing else |
| Registry.BlobWrittenOnlyAfterCreation | sadx-gc-lighting/d3d.cpp:642-685 | the filesystem changes only on a cache miss with an existing cache folder, by compile, then object creation, then writing exactly the compiled blob to the variant's file |
| Registry.MissingCacheFolderNotWritten | sadx-gc-lighting/d3d.cpp:603-610 | when the cache folder is missing, a cache miss fails without touching the filesystem or the registry, and after a successful compile and creation the failure is the storage error |
| Registry.CachedVariantNotCompiled | sadx-gc-lighting/d3d.cpp:642-650 | a variant with a cache file is never compiled and never written |
| Registry.CacheRoundTrip | sadx-gc-lighting/d3d.cpp:642-685 | after a variant was compiled and saved, its cache file holds the compiled bytecode byte for byte, and a later start loads that file instead of compiling and creates the object from those same bytes; the result is the same because object creation is treated as a function of the bytes |
| Registry.EmptyBlobRejectedLater | sadx-gc-lighting/d3d.cpp:594-597 | an empty compiled blob is still saved, and the next start rejects it as a corrupt cache |
| Registry.FailedCheckNotRepeated | sadx-gc-lighting/d3d.cpp:405-418 | after a failed cache check with a shader file present, the next lookup does not check the cache again |
| Registry.MissingSourceNeverMemoised | sadx-gc-lighting/d3d.cpp:622-625 | while no source can be loaded, every lookup starts with a cache check |
| Draw.Apply | sadx-gc-lighting/d3d.cpp:775-855 | the device appends the operation to its log and changes only the state that operation sets |
| Draw.Begin | sadx-gc-lighting/d3d.cpp:761-764 | the counter goes up by one modulo 2^32 and nothing else changes |
| Draw.End | sadx-gc-lighting/d3d.cpp:766-773 | a non-zero counter goes down by one, the effect is switched off exactly when the outermost level closes, and an unmatched `end` changes nothing |
| Draw.NestingRestores | sadx-gc-lighting/d3d.cpp:761-773 | n nested `begin`s followed by n `end`s restore the counter, and switch the effect off exactly when they opened the outermost level |
| Draw.BeginsCount | sadx-gc-lighting/d3d.cpp:761-764 | n `begin`s without wrapping add n to the counter |
| Draw.BeginWraps | sadx-gc-lighting/d3d.cpp:157 | the counter is 32 bits wide: one more `begin` at 0xffffffff wraps it to 0 |
| Draw.ShaderEnd | sadx-gc-lighting/d3d.cpp:775-783 | afterwards no pair is bound; the device unbinds only if a pair was bound, and render state and draws are untouched |
| Draw.Finish | sadx-gc-lighting/d3d.cpp:841-854 | pending parameters are uploaded once (nothing when none are pending), forgotten, and the pair is marked bound |
| Draw.BindVertex | sadx-gc-lighting/d3d.cpp:826-830 | the vertex stage is set only if no pair was bound or its object changed |
| Draw.BindPixel | sadx-gc-lighting/d3d.cpp:832-836 | the pixel stage is set only if no pair was bound or its object changed |
| Draw.Report | sadx-gc-lighting/d3d.cpp:817-823 | a failed lookup unbinds, shows the message last, keeps the stored pair and the pending parameters, and touches no drawing global |
| Draw.BindPair | sadx-gc-lighting/d3d.cpp:826-854 | the device receives exactly the rebind-rule operations followed by one upload of what was pending |
| Draw.Conclude | sadx-gc-lighting/d3d.cpp:812-854 | a switch ends bound with nothing pending, or unbound after showing the error with the pending parameters kept |
| Draw.Switch | sadx-gc-lighting/d3d.cpp:812-836 | the same for the whole vertex-then-pixel switch |
| Draw.Resume | sadx-gc-lighting/d3d.cpp:838-854 | with unchanged flags the stored pair is kept, rebound only if unbound, and the pending parameters are uploaded |
| Draw.Retarget | sadx-gc-lighting/d3d.cpp:805-836 | with changed flags the new flags are remembered even when the lookup fails, in which case the camera position stays pending |
| Draw.ShaderStart | sadx-gc-lighting/d3d.cpp:785-855 | a pair ends bound only inside a drawing call with the effect on, with nothing pending and the sanitized flags remembered; draws and render state are untouched |
| Draw.StartGated | sadx-gc-lighting/d3d.cpp:787-791 | outside a drawing call or with the effect off, nothing stays bound and nothing is looked up, compiled or uploaded |
| Draw.InitialStartIsSilent | sadx-gc-lighting/d3d.cpp:146-158 | at start-up no drawing call is open, so `shader_start` changes nothing |
| Draw.StartSteady | sadx-gc-lighting/d3d.cpp:838-854 | with unchanged flags and a bound pair the registry is not consulted, nothing is rebound, and only pending parameters are uploaded |
| Draw.SwitchBindsRegistered | sadx-gc-lighting/d3d.cpp:805-836 | after a successful switch the bound pair is what the registry holds under the vertex and pixel keys of the current flags |
| Draw.SwitchRebindsOnlyChanged | sadx-gc-lighting/d3d.cpp:826-854 | after a successful switch the device saw exactly the rebinds of stages whose object changed (or all, when unbound) and one upload |
| Draw.StartFailure | sadx-gc-lighting/d3d.cpp:805-823 | a failed start happens only on changed flags; it reports, remembers the new flags and keeps the camera position pending |
| Draw.StaleRebindAfterFailure | sadx-gc-lighting/d3d.cpp:805-840 | after a failed lookup, the next start with the same flags binds the previously stored pair of other flags and does not consult the registry |
| Draw.DepthPass | sadx-gc-lighting/d3d.cpp:1073-1087 | the depth pass draws with DepthMap added, depth writes off and the depth surface as target, then restores the back buffer and depth writes |
| Draw.Pass | sadx-gc-lighting/d3d.cpp:1067-1071 | the draw is forwarded once with the current flags and render state |
| Draw.Exit | sadx-gc-lighting/d3d.cpp:1046-1052 | leaving through `shader_guard` always unbinds and returns the given result |
| Draw.ColorPass | sadx-gc-lighting/d3d.cpp:1094-1098 | the back-buffer pass runs with the saved flags restored |
| Draw.RunDrawAsWritten | sadx-gc-lighting/d3d.cpp:1054-1100 | the trampoline as written ends unbound with the device log extended, and leaves DepthMap added exactly when the depth pass failed |
| Draw.RunDraw | sadx-gc-lighting/d3d.cpp:1054-1100 | the trampoline ends unbound with the flags and depth-write state as they were before the draw |
| Draw.SinglePassDrawsOnce | sadx-gc-lighting/d3d.cpp:1067-1071 | with depth writes off or `no_depth` set the draw is forwarded exactly once with the original flags and render state, and its result is returned |
| Draw.TwoPassDraws | sadx-gc-lighting/d3d.cpp:1073-1099 | otherwise the depth pass is forwarded first; a failed result is returned without a second forwarding, else a second forwarding draws with the original flags into the back buffer |
| Draw.AsWrittenDiffersOnlyInFlags | sadx-gc-lighting/d3d.cpp:1087-1094 | the as-written and the corrected trampolines agree on everything but the flags left behind |
| Draw.DepthMapLeaks | sadx-gc-lighting/d3d.cpp:1087-1090 | a failed depth pass leaves DepthMap set as written, but not in the corrected version |
| Draw.DepthMapSticks | sadx-gc-lighting/d3d.cpp:1061-1094 | once leaked, DepthMap is never removed by a later draw |
| Draw.DepthMapLeakExample | sadx-gc-lighting/d3d.cpp:1073-1090 | a start-up state with depth writes on whose depth pass fails with `E_FAIL` is left with `DEFAULT_FLAGS` plus DepthMap |
| Material.EffectiveAttr | sadx-gc-lighting/mod.cpp:86-91 | without constant attributes the material's own flags are used |
| Material.ConstantAttrOverride | sadx-gc-lighting/mod.cpp:88-91 | under constant attributes every bit of the or-mask is set, and any other bit is set exactly when the material has it and the and-mask keeps it |
| Material.MaterialShaderFlags | sadx-gc-lighting/mod.cpp:93-96 | Texture, Alpha and EnvMap follow USE_TEXTURE, USE_ALPHA and USE_ENV; Light is set exactly when IGNORE_LIGHT is clear; no other bit changes |
| Material.MaterialShaderFlagsIdempotent | sadx-gc-lighting/mod.cpp:93-96 | applying the same material's flags twice is applying them once |
| Material.UpdateMaterial | sadx-gc-lighting/mod.cpp:22-38 | with both shaders present the diffuse source and the material's diffuse, specular and power become pending; without them nothing changes |
| Material.ParseMaterial | sadx-gc-lighting/mod.cpp:65-106 | without both shaders nothing changes; otherwise the effect ends on, the four flags come from the effective attributes, the material's parameters become pending, and nothing else changes |
| Material.ParseKeepsOtherFlags | sadx-gc-lighting/mod.cpp:93-96 | parsing never changes Fog, DepthMap, SoftParticle or any bit above the mask |
| Material.ParseIdempotent | sadx-gc-lighting/mod.cpp:65-106 | parsing the same material again changes nothing |
| Material.MaterialChoosesVertexVariant | sadx-gc-lighting/mod.cpp:86-96 | after a parse the vertex variant depends only on the material: none, Texture, or Texture+EnvMap when it uses both a texture and an environment map |
| Material.DrawLandTable | sadx-gc-lighting/mod.cpp:108-120 | the game's draw sees constant attributes with IGNORE_SPECULAR in the or-mask, and afterwards the control flag and or-mask are back to their prior values |
| Material.LandTableIgnoresSpecular | sadx-gc-lighting/mod.cpp:108-120 | every level material is drawn ignoring specular, with its other bits from the constant masks |
| Material.LandTableRestores | sadx-gc-lighting/mod.cpp:110-119 | when the game leaves the globals alone, they are restored exactly |
| Lights.FloatEqAgainstPatterns | sadx-gc-lighting/lights.cpp:10-11 | float `==` is bit-pattern equality except that the two zeros are equal and a NaN equals nothing |
| Lights.LightEqIsEquivalenceOnNumbers | sadx-gc-lighting/lights.cpp:7-14 | light equality is symmetric and transitive, and reflexive exactly when neither scalar is NaN |
| Lights.LightEqUpToZeroSign | sadx-gc-lighting/lights.cpp:7-14 | equal lights have identical vectors and scalars identical up to the sign of zero |
| Lights.NaNLightDiffersFromItself | sadx-gc-lighting/lights.cpp:10-19 | a light with a NaN specular is unequal to itself |
| Lights.SignedZeros | sadx-gc-lighting/lights.cpp:9-13 | signed zeros compare equal in the scalars but unequal in the `memcmp`-compared vectors |
| Lights.LightsEqPairwise | sadx-gc-lighting/lights.cpp:21-32 | the four lights are equal exactly when each pair is equal, and unequal exactly when some pair differs |
| Lights.LightsEqSymmetric | sadx-gc-lighting/lights.cpp:21-27 | equality of the four lights is symmetric |
| Lights.Commit | sadx-gc-lighting/lights.cpp:34-47 | a modified value is uploaded as 16 registers at its index to the vertex and then the pixel stage and stops being modified; an unmodified one uploads nothing; the result says whether it uploaded |
| Lights.CommitTwice | sadx-gc-lighting/lights.cpp:37-46 | a second commit with no change in between uploads nothing |

## Left out

- Direct3D 9 and D3DX calls are not modelled: the device, `D3DXCompileShader`, and
  `CreateVertexShader`/`CreatePixelShader`. Their results are inputs, via `Platform`
  and the `first`/`second` results of the trampoline. Texture and surface creation and
  `Clear` are not modelled.
- SHA-256 through CryptoAPI (d3d.cpp:353-403) is a function parameter (`Hasher`).
  Failures of the CryptoAPI calls themselves are not modelled.
- `MessageBoxA` is an operation in the device log (`ShowError`); the dialog is not
  modelled. `PrintDebug` log lines are not modelled.
- Hooks, trampolines, vtable patching and the `DrawPrimitive*_r` wrappers are not
  modelled; `RunDraw` stands for all four wrappers.
- Floating-point math is not modelled: matrices, lighting, `CorrectMaterial_r`,
  `NormalScale_r` and particle geometry. The stage lights keep their floats as bit
  patterns, and only IEEE equality on them is modelled.
- The parameter values are not modelled. `ShaderParameter.h` and `lights.h` are not part
  of this model. A parameter is either pending or not. Assigning one always makes it
  pending, even when the value did not change, because the header that decides this is
  not available.
- `create_shaders`, `clear_shaders`, `free_shaders`, `load_shader` and the device
  reset paths are not modelled. The start-up state therefore holds null shaders.
- The `_DEBUG` Z-button early return in `Direct3D_ParseMaterial_r` is not modelled (a
  debug-build input).
- `FileSystem.h` is not part of this model. `combine_path`, `exists`, `remove_all` and
  `create_directory` are given the meaning in `FileSystem`. Text-mode newline
  translation when reading the shader source is not modelled.
- FileSystem.RemoveAll is all-or-nothing: when any file below the folder is locked,
  nothing is removed. A real recursive removal (`filesystem::remove_all` of `FileSystem.h`)
  can delete part of the tree before it fails, and that partial state is not modelled.
- Object creation (`CreateVertexShader`/`CreatePixelShader`) is treated as a function of
  the bytecode, so the same bytes always give the same object or the same failure.
  Registry.CacheRoundTrip rests on this for its equal results.
- Material.EffectiveAttr: the contract states only the case without constant attributes.
  The constant case is stated by `Material.ConstantAttrOverride`, because the combined
  bit-vector contract is too costly for the solver.
- Flags.SetFlags: the contract states only the given bits. That no other bit changes is
  stated separately by `Flags.SetFlagsKeepsOthers`.
- Registry.FailedCheckNotRepeated: states only that the next lookup does not begin with
  a cache check, not what it loads.
- Registry.GetVertexShader: the contract states how the maps change. Memoisation, the
  steps taken and the cache behaviour are stated by the lemmas that follow it.
- Registry.GetPixelShader: the same.
- ShaderCache.CheckShaderCache: the contract states the loaded source and the folder
  boundary. The outcomes are stated by the `Check*` lemmas.

## Findings

| source | as written | input that shows it | evidently intended | confidence | as-written member | corrected member |
|---|---|---|---|---|---|---|
| sadx-gc-lighting/d3d.cpp:1061-1094 | `run_d3d_trampoline` ORs DepthMap into `shader_flags` for the depth pass. It returns a failed first result before restoring `old_flags`, so DepthMap stays set after the draw. Every later two-pass draw saves and restores flags that already contain it, and material parsing touches only four other bits, so it is never cleared again. | depth writes on, `no_depth` false, `DEFAULT_FLAGS`, first forwarding returns `E_FAIL` (0x80004005): afterwards `shader_flags` is `DEFAULT_FLAGS` plus DepthMap | `shader_flags` is restored to `old_flags` on every exit, as the saved copy suggests | not executed | Draw.RunDrawAsWritten (shown by Draw.DepthMapLeaks, Draw.DepthMapLeakExample, Draw.DepthMapSticks) | Draw.RunDraw |
