/** Stage lights (lights.cpp): equality of one light and of the set of four, and the
    specialised `commit` of the shader parameter that holds them. Floats are kept as their
    32-bit patterns; `==` on a float is IEEE equality, while `memcmp` compares patterns. */
module Lights {
  import opened Device

  /** A single-precision float as its bit pattern. */
  type F32 = bv32

  const ExponentBits: F32 := 0x7f80_0000
  const MantissaBits: F32 := 0x007f_ffff
  const MagnitudeBits: F32 := 0x7fff_ffff

  predicate IsNaN(x: F32) {
    x & ExponentBits == ExponentBits && x & MantissaBits != 0
  }

  /** IEEE 754 equality: a NaN equals nothing, and the two zeros are equal. */
  predicate FloatEq(a: F32, b: F32) {
    !IsNaN(a) && !IsNaN(b) && (a == b || (a & MagnitudeBits == 0 && b & MagnitudeBits == 0))
  }

  /** `NJS_VECTOR`: three floats, compared with `memcmp`, that is by bit pattern. */
  datatype Vec3 = Vec3(x: F32, y: F32, z: F32)

  datatype StageLight = StageLight(direction: Vec3, specular: F32, multiplier: F32, diffuse: Vec3, ambient: Vec3)

  /** `StageLight::operator==`: the three vectors compared byte for byte, the two scalars
      as floats. */
  predicate LightEq(a: StageLight, b: StageLight) {
    && a.direction == b.direction
    && FloatEq(a.specular, b.specular)
    && FloatEq(a.multiplier, b.multiplier)
    && a.diffuse == b.diffuse
    && a.ambient == b.ambient
  }

  /** `StageLight::operator!=`. */
  predicate LightNe(a: StageLight, b: StageLight) {
    !LightEq(a, b)
  }

  /** `StageLights`: the four lights of a stage. */
  type Four = s: seq<StageLight> | |s| == 4
    witness seq(4, _ => StageLight(Vec3(0, 0, 0), 0, 0, Vec3(0, 0, 0), Vec3(0, 0, 0)))

  datatype StageLights = StageLights(lights: Four)

  /** `StageLights::operator==`: the lights compared in order 0 to 3. */
  predicate LightsEq(a: StageLights, b: StageLights) {
    && LightEq(a.lights[0], b.lights[0])
    && LightEq(a.lights[1], b.lights[1])
    && LightEq(a.lights[2], b.lights[2])
    && LightEq(a.lights[3], b.lights[3])
  }

  /** `StageLights::operator!=`. */
  predicate LightsNe(a: StageLights, b: StageLights) {
    !LightsEq(a, b)
  }

  lemma FloatEqSymmetric(a: F32, b: F32)
    ensures FloatEq(a, b) == FloatEq(b, a)
  {
  }

  lemma FloatEqTransitive(a: F32, b: F32, c: F32)
    requires FloatEq(a, b) && FloatEq(b, c)
    ensures FloatEq(a, c)
  {
  }

  /** Float equality is pattern equality except that the two zeros are equal and a NaN is
      not even equal to itself. */
  lemma FloatEqAgainstPatterns(a: F32, b: F32)
    ensures FloatEq(a, b) ==> a == b || (a & MagnitudeBits == 0 && b & MagnitudeBits == 0)
    ensures a == b && !IsNaN(a) ==> FloatEq(a, b)
    ensures IsNaN(a) ==> !FloatEq(a, b)
  {
  }

  /** Two lights are equal exactly when the same is true of every field, each compared as
      the operator compares it; the relation is symmetric and transitive. */
  lemma LightEqIsEquivalenceOnNumbers(a: StageLight, b: StageLight, c: StageLight)
    ensures LightEq(a, b) == LightEq(b, a)
    ensures LightEq(a, b) && LightEq(b, c) ==> LightEq(a, c)
    ensures LightEq(a, a) <==> !IsNaN(a.specular) && !IsNaN(a.multiplier)
  {
    FloatEqSymmetric(a.specular, b.specular);
    FloatEqSymmetric(a.multiplier, b.multiplier);
    if LightEq(a, b) && LightEq(b, c) {
      FloatEqTransitive(a.specular, b.specular, c.specular);
      FloatEqTransitive(a.multiplier, b.multiplier, c.multiplier);
    }
  }

  /** Equal lights are the same light up to the sign of a zero specular or multiplier. */
  lemma LightEqUpToZeroSign(a: StageLight, b: StageLight)
    requires LightEq(a, b)
    ensures a.direction == b.direction && a.diffuse == b.diffuse && a.ambient == b.ambient
    ensures a.specular == b.specular || a.specular & MagnitudeBits == b.specular & MagnitudeBits == 0
    ensures a.multiplier == b.multiplier || a.multiplier & MagnitudeBits == b.multiplier & MagnitudeBits == 0
  {
  }

  /** A light whose specular is NaN is not equal to itself, so assigning it always counts as
      a change. */
  lemma NaNLightDiffersFromItself()
    ensures var l := StageLight(Vec3(0, 0, 0), 0x7fc0_0000, 0, Vec3(0, 0, 0), Vec3(0, 0, 0));
            LightNe(l, l)
  {
  }

  /** A positive and a negative zero specular compare equal, although the bytes differ;
      in the direction the same two zeros compare unequal. */
  lemma SignedZeros()
    ensures var p := StageLight(Vec3(0, 0, 0), 0, 0, Vec3(0, 0, 0), Vec3(0, 0, 0));
            var n := p.(specular := 0x8000_0000);
            var d := p.(direction := Vec3(0x8000_0000, 0, 0));
            p != n && LightEq(p, n) && LightNe(p, d)
  {
  }

  /** The set of four is equal exactly when each light equals its counterpart, and `!=`
      holds exactly when some pair differs. */
  lemma LightsEqPairwise(a: StageLights, b: StageLights)
    ensures LightsEq(a, b) <==> forall i :: 0 <= i < 4 ==> LightEq(a.lights[i], b.lights[i])
    ensures LightsNe(a, b) <==> exists i :: 0 <= i < 4 && LightNe(a.lights[i], b.lights[i])
  {
    if LightsEq(a, b) {
      forall i | 0 <= i < 4
        ensures LightEq(a.lights[i], b.lights[i])
      {
        assert i == 0 || i == 1 || i == 2 || i == 3;
      }
    }
  }

  lemma LightsEqSymmetric(a: StageLights, b: StageLights)
    ensures LightsEq(a, b) == LightsEq(b, a)
  {
    LightEqIsEquivalenceOnNumbers(a.lights[0], b.lights[0], a.lights[0]);
    LightEqIsEquivalenceOnNumbers(a.lights[1], b.lights[1], a.lights[1]);
    LightEqIsEquivalenceOnNumbers(a.lights[2], b.lights[2], a.lights[2]);
    LightEqIsEquivalenceOnNumbers(a.lights[3], b.lights[3], a.lights[3]);
  }

  /** Registers one `StageLights` value occupies: four per light. */
  const LightRegisters: nat := 16

  /** One `Set*ShaderConstantF` call. */
  datatype Upload = Upload(stage: Stage, register: nat, count: nat, value: StageLights)

  /** The parameter holding the stage lights: its first register, value and modified flag. */
  datatype LightsParam = LightsParam(index: nat, current: StageLights, modified: bool)

  /** The parameter after `commit`, whether it uploaded, and the uploads issued. */
  datatype Committed = Committed(param: LightsParam, uploaded: bool, uploads: seq<Upload>)

  /** `ShaderParameter<StageLights>::commit`: a modified value goes to the vertex and then
      the pixel stage and stops being modified; an unmodified one is left alone. */
  function Commit(p: LightsParam): (r: Committed)
    ensures r.uploaded == p.modified
    ensures !r.param.modified
    ensures r.param.index == p.index && r.param.current == p.current
    ensures |r.uploads| == (if p.modified then 2 else 0)
    ensures forall i :: 0 <= i < |r.uploads| ==>
              r.uploads[i].register == p.index && r.uploads[i].count == LightRegisters && r.uploads[i].value == p.current
    ensures p.modified ==> r.uploads[0].stage == Vertex && r.uploads[1].stage == Pixel
  {
    if p.modified then
      Committed(p.(modified := false), true,
                [Upload(Vertex, p.index, LightRegisters, p.current), Upload(Pixel, p.index, LightRegisters, p.current)])
    else Committed(p, false, [])
  }

  /** A second commit with no change in between uploads nothing and reports no upload. */
  lemma CommitTwice(p: LightsParam)
    ensures var again := Commit(Commit(p).param);
            !again.uploaded && again.uploads == [] && again.param == Commit(p).param
  {
  }
}
