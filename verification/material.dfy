/** The material hooks of mod.cpp: `Direct3D_ParseMaterial_r` turns a Ninja material's
    attribute flags into shader flags and switches the effect on, and `DrawLandTable_r`
    forces constant attributes while the level geometry is drawn. */
module Material {
  import opened Flags
  import opened Device
  import opened Draw

  /** Ninja attribute bits (`NJD_FLAG_*`) and the 3D control bit `NJD_CONTROL_3D_CONSTANT_ATTR`,
      with the values the Ninja SDK's ninja.h gives them; that header is not part of this model. */
  const UseTexture: bv32 := 0x0020_0000
  const UseEnv: bv32 := 0x0040_0000
  const UseAlpha: bv32 := 0x0010_0000
  const IgnoreLight: bv32 := 0x0200_0000
  const IgnoreSpecular: bv32 := 0x0008_0000
  const ConstantAttr: bv32 := 0x0000_0200

  /** The Ninja globals `_nj_control_3d_flag_`, `_nj_constant_attr_or_` and
      `_nj_constant_attr_and_`. */
  datatype Ninja = Ninja(control3d: bv32, attrOr: bv32, attrAnd: bv32)

  /** The attribute flags a material is drawn with: its own, or under constant attributes
      the constant or-mask together with the bits of its own the and-mask keeps. */
  function EffectiveAttr(ninja: Ninja, attr: bv32): (r: bv32)
    ensures ninja.control3d & ConstantAttr == 0 ==> r == attr
  {
    if ninja.control3d & ConstantAttr != 0 then ninja.attrOr | (ninja.attrAnd & attr) else attr
  }

  lemma OrMask(o: bv32, x: bv32)
    ensures (o | x) & o == o
    ensures (o | x) & !o == x & !o
  {
  }

  /** Under constant attributes every bit of the or-mask is set, and outside it a bit is set
      exactly when the material has it and the and-mask keeps it. */
  lemma ConstantAttrOverride(ninja: Ninja, attr: bv32)
    requires ninja.control3d & ConstantAttr != 0
    ensures EffectiveAttr(ninja, attr) & ninja.attrOr == ninja.attrOr
    ensures EffectiveAttr(ninja, attr) & !ninja.attrOr == (ninja.attrAnd & attr) & !ninja.attrOr
  {
    OrMask(ninja.attrOr, ninja.attrAnd & attr);
  }

  /** `shaders_not_null`. */
  predicate ShadersNotNull(s: State) {
    s.vertexShader != NullShader && s.pixelShader != NullShader
  }

  /** The flags parsing may change. */
  const MaterialFlags: ShaderFlags := Texture | Alpha | EnvMap | Light

  /** The four `set_flags` calls: Texture, Alpha and EnvMap follow the matching attribute
      bits and Light is on unless the material ignores lighting. */
  function MaterialShaderFlags(flags: ShaderFlags, attr: bv32): (r: ShaderFlags)
    ensures Has(r, Texture) <==> attr & UseTexture != 0
    ensures Has(r, Alpha) <==> attr & UseAlpha != 0
    ensures Has(r, EnvMap) <==> attr & UseEnv != 0
    ensures Has(r, Light) <==> attr & IgnoreLight == 0
    ensures r & !MaterialFlags == flags & !MaterialFlags
  {
    var t := SetFlags(flags, Texture, attr & UseTexture != 0);
    SetFlagsKeepsOthers(flags, Texture, attr & UseTexture != 0);
    var a := SetFlags(t, Alpha, attr & UseAlpha != 0);
    SetFlagsKeepsOthers(t, Alpha, attr & UseAlpha != 0);
    var e := SetFlags(a, EnvMap, attr & UseEnv != 0);
    SetFlagsKeepsOthers(a, EnvMap, attr & UseEnv != 0);
    SetFlagsKeepsOthers(e, Light, attr & IgnoreLight == 0);
    SetFlags(e, Light, attr & IgnoreLight == 0)
  }

  /** `update_material`: with both shaders present, the diffuse source and the material's
      diffuse, specular and power are assigned. */
  function UpdateMaterial(s: State): (r: State)
    ensures ShadersNotNull(s) ==> r.pending == s.pending + {DiffuseSource, MaterialDiffuse, MaterialSpecular, MaterialPower}
    ensures !ShadersNotNull(s) ==> r == s
    ensures r.(pending := s.pending) == s
  {
    if !ShadersNotNull(s) then s
    else s.(pending := s.pending + {DiffuseSource, MaterialDiffuse, MaterialSpecular, MaterialPower})
  }

  /** The parameters a parsed material assigns. */
  const MaterialParams: set<Param> := {TextureTransform, DiffuseSource, MaterialDiffuse, MaterialSpecular, MaterialPower}

  /** `Direct3D_ParseMaterial_r` after the game's own parsing: without both shaders nothing
      happens; otherwise the material decides the four flags, its parameters become
      pending, and the effect is switched on. */
  function ParseMaterial(s: State, ninja: Ninja, attr: bv32): (r: State)
    ensures !ShadersNotNull(s) ==> r == s
    ensures ShadersNotNull(s) ==>
              && r.doEffect
              && r.shaderFlags == MaterialShaderFlags(s.shaderFlags, EffectiveAttr(ninja, attr))
              && r.pending == s.pending + MaterialParams
              && r.(doEffect := s.doEffect, shaderFlags := s.shaderFlags, pending := s.pending) == s
  {
    if !ShadersNotNull(s) then s
    else
      var off := s.(doEffect := false);
      var flagged := off.(shaderFlags := MaterialShaderFlags(off.shaderFlags, EffectiveAttr(ninja, attr)));
      var transformed := flagged.(pending := flagged.pending + {TextureTransform});
      UpdateMaterial(transformed).(doEffect := true)
  }

  /** Words that agree outside the material flags agree on Fog, DepthMap and SoftParticle. */
  lemma OutsideMaterialFlags(a: ShaderFlags, b: ShaderFlags)
    requires a & !MaterialFlags == b & !MaterialFlags
    ensures Has(a, Fog) == Has(b, Fog) && Has(a, DepthMap) == Has(b, DepthMap) && Has(a, SoftParticle) == Has(b, SoftParticle)
  {
    var keep := !MaterialFlags;
    assert a & Fog == (a & keep) & Fog && b & Fog == (b & keep) & Fog;
    assert a & DepthMap == (a & keep) & DepthMap && b & DepthMap == (b & keep) & DepthMap;
    assert a & SoftParticle == (a & keep) & SoftParticle && b & SoftParticle == (b & keep) & SoftParticle;
  }

  /** Parsing leaves Fog, DepthMap, SoftParticle and every bit above the mask as they were. */
  lemma ParseKeepsOtherFlags(s: State, ninja: Ninja, attr: bv32)
    ensures var f := ParseMaterial(s, ninja, attr).shaderFlags;
            && f & !MaterialFlags == s.shaderFlags & !MaterialFlags
            && Has(f, Fog) == Has(s.shaderFlags, Fog)
            && Has(f, DepthMap) == Has(s.shaderFlags, DepthMap)
            && Has(f, SoftParticle) == Has(s.shaderFlags, SoftParticle)
  {
    var f := ParseMaterial(s, ninja, attr).shaderFlags;
    ParseKeepsOutside(s, ninja, attr);
    OutsideMaterialFlags(f, s.shaderFlags);
  }

  lemma ParseKeepsOutside(s: State, ninja: Ninja, attr: bv32)
    ensures ParseMaterial(s, ninja, attr).shaderFlags & !MaterialFlags == s.shaderFlags & !MaterialFlags
  {
    if ShadersNotNull(s) {
      var m := MaterialShaderFlags(s.shaderFlags, EffectiveAttr(ninja, attr));
      assert ParseMaterial(s, ninja, attr).shaderFlags == m;
    }
  }

  /** The four flags are decided by the material alone, so applying them twice is applying
      them once. */
  lemma MaterialShaderFlagsIdempotent(flags: ShaderFlags, attr: bv32)
    ensures MaterialShaderFlags(MaterialShaderFlags(flags, attr), attr) == MaterialShaderFlags(flags, attr)
  {
    var f := MaterialShaderFlags(flags, attr);
    var g := MaterialShaderFlags(f, attr);
    assert g & !MaterialFlags == f & !MaterialFlags;
    assert Has(g, Texture) == Has(f, Texture) && Has(g, Alpha) == Has(f, Alpha);
    assert Has(g, EnvMap) == Has(f, EnvMap) && Has(g, Light) == Has(f, Light);
    SameFlagsEqual(g, f);
  }

  lemma SameFlagsEqual(a: ShaderFlags, b: ShaderFlags)
    requires a & !MaterialFlags == b & !MaterialFlags
    requires Has(a, Texture) == Has(b, Texture) && Has(a, Alpha) == Has(b, Alpha)
    requires Has(a, EnvMap) == Has(b, EnvMap) && Has(a, Light) == Has(b, Light)
    ensures a == b
  {
  }

  /** Parsing the same material again changes nothing. */
  lemma ParseIdempotent(s: State, ninja: Ninja, attr: bv32)
    ensures ParseMaterial(ParseMaterial(s, ninja, attr), ninja, attr) == ParseMaterial(s, ninja, attr)
  {
    MaterialShaderFlagsIdempotent(s.shaderFlags, EffectiveAttr(ninja, attr));
  }

  /** The vertex variant drawn after a parse depends on the material alone: EnvMap survives
      sanitizing exactly when the material uses both a texture and an environment map. */
  lemma MaterialChoosesVertexVariant(s: State, ninja: Ninja, attr: bv32)
    requires ShadersNotNull(s)
    ensures var eff := EffectiveAttr(ninja, attr);
            VertexKey(ParseMaterial(s, ninja, attr).shaderFlags) ==
              (if eff & UseTexture == 0 then None else if eff & UseEnv == 0 then Texture else Texture | EnvMap)
  {
    var f := ParseMaterial(s, ninja, attr).shaderFlags;
    var k := VertexKey(f);
    VertexKeysReachable(f);
    assert Has(Sanitize(f), Texture) == Has(f, Texture);
    assert Has(k, Texture) == Has(Sanitize(f), Texture);
    assert Has(k, EnvMap) == Has(Sanitize(f), EnvMap);
  }

  /** The Ninja globals the level geometry is drawn with, and the ones left behind. */
  datatype LandDraw = LandDraw(seen: Ninja, after: Ninja)

  /** `DrawLandTable_r`: force constant attributes with IGNORE_SPECULAR added for the
      duration of the game's `DrawLandTable` (`host`, which may itself change the globals),
      then put the control flag and the or-mask back. */
  function DrawLandTable(ninja: Ninja, host: Ninja -> Ninja): (r: LandDraw)
    ensures r.seen == ninja.(control3d := ninja.control3d | ConstantAttr, attrOr := ninja.attrOr | IgnoreSpecular)
    ensures r.after == host(r.seen).(control3d := ninja.control3d, attrOr := ninja.attrOr)
  {
    var seen := ninja.(control3d := ninja.control3d | ConstantAttr, attrOr := ninja.attrOr | IgnoreSpecular);
    var back := host(seen);
    LandDraw(seen, back.(control3d := ninja.control3d, attrOr := ninja.attrOr))
  }

  /** Every material of the level geometry is drawn ignoring specular, whatever its own
      attributes; its other attribute bits come from the constant masks as the game set them. */
  lemma LandTableIgnoresSpecular(ninja: Ninja, host: Ninja -> Ninja, attr: bv32)
    ensures EffectiveAttr(DrawLandTable(ninja, host).seen, attr) & IgnoreSpecular != 0
    ensures EffectiveAttr(DrawLandTable(ninja, host).seen, attr) == ninja.attrOr | IgnoreSpecular | (ninja.attrAnd & attr)
  {
  }

  /** When the game leaves the globals alone, drawing the land table restores them exactly. */
  lemma LandTableRestores(ninja: Ninja)
    ensures DrawLandTable(ninja, (n: Ninja) => n).after == ninja
  {
  }
}
