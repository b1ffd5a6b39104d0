/** The two small text encoders of d3d.cpp: the cache-file stem of a variant
    (`shader_id`) and the message of a failed compiler or device call (`d3d_exception`). */
module Encoders {
  import opened Wrappers
  import opened Hex
  import opened Flags
  import opened Device

  lemma Pow16Values()
    ensures Pow16(2) == 0x100
    ensures Pow16(8) == 0x1_0000_0000
  {
  }

  lemma MaskedFlagIsSmall(f: ShaderFlags)
    requires f < Count
    ensures f as nat < 0x100
  {
  }

  lemma FlagNatRoundTrip(f: ShaderFlags)
    ensures (f as int) as ShaderFlags == f
  {
  }

  /** `shader_id`: the flags in lower-case hexadecimal, zero-padded to two characters. */
  function ShaderId(f: ShaderFlags): (id: string)
    ensures |id| >= 2
    ensures forall i :: 0 <= i < |id| ==> IsHexDigit(id[i])
    ensures ParseHex(id) == f as nat
    ensures f as nat < 0x100 ==> |id| == 2
  {
    var n: nat := f as nat;
    Pow16Values();
    PaddedHex(n, 2)
  }

  /** Every flag word inside the mask, and so every variant key, has a two-character id. */
  lemma MaskedShaderIdHasTwoDigits(f: ShaderFlags)
    requires f < Count
    ensures |ShaderId(f)| == 2
  {
    MaskedFlagIsSmall(f);
  }

  /** Distinct flag words never share a cache file name. */
  lemma ShaderIdInjective(f: ShaderFlags, g: ShaderFlags)
    requires ShaderId(f) == ShaderId(g)
    ensures f == g
  {
    assert f as nat == g as nat;
    FlagNatRoundTrip(f);
    FlagNatRoundTrip(g);
  }

  /** The 32-bit pattern `std::hex` prints for a signed `HRESULT`. */
  function Unsigned(code: HResult): (u: nat)
    ensures u < U32Limit
  {
    if code < 0 then code + U32Limit else code
  }

  /** Reads a 32-bit pattern back as a signed `HRESULT`. */
  function Signed(u: nat): int {
    if u >= 0x8000_0000 then u - U32Limit else u
  }

  const UnspecifiedError: string := "Unspecified error."

  /** `d3d_exception`: "[" + the code as eight hex digits + "] " + the compiler's
      diagnostic text, or "Unspecified error." when there is no error buffer. */
  function ErrorMessage(code: HResult, diagnostic: Option<string>): (msg: string)
    ensures |msg| >= 11
    ensures msg[0] == '[' && msg[9..11] == "] "
    ensures forall i :: 1 <= i < 9 ==> IsHexDigit(msg[i])
    ensures Signed(ParseHex(msg[1..9])) == code
    ensures msg[11..] == if diagnostic.Some? then diagnostic.value else UnspecifiedError
  {
    var u := Unsigned(code);
    Pow16Values();
    var digits := PaddedHex(u, 8);
    assert |digits| == 8;
    var detail := if diagnostic.Some? then diagnostic.value else UnspecifiedError;
    var msg := "[" + digits + "] " + detail;
    assert msg[1..9] == digits && msg[9..11] == "] " && msg[11..] == detail;
    assert Signed(u) == code;
    msg
  }

  /** The code is always printed in exactly eight digits, so two messages for different
      codes differ. */
  lemma ErrorMessageDistinguishesCodes(a: HResult, b: HResult, d: Option<string>, e: Option<string>)
    requires ErrorMessage(a, d) == ErrorMessage(b, e)
    ensures a == b && (d.Some? ==> e.Some? ==> d == e)
  {
    var m := ErrorMessage(a, d);
    assert Signed(ParseHex(m[1..9])) == a;
  }
}
