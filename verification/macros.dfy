/** `populate_macros`: the preprocessor definitions handed to the shader compiler for one
    variant. The list is cleared before every call (d3d.cpp:635, 705), so the result
    depends on the flags alone. */
module Macros {
  import opened Flags
  import opened FlagTables
  import opened Device

  /** The order in which the source tests the flags, and the definition each one adds. */
  const MacroOrder: seq<ShaderFlags> := [SoftParticle, DepthMap, Texture, EnvMap, Light, Alpha, Fog]
  const MacroDefines: seq<Macro> := [
    Define("SOFT_PARTICLE", "1"), Define("DEPTH_MAP", "1"), Define("USE_TEXTURE", "1"),
    Define("USE_ENVMAP", "1"), Define("USE_LIGHT", "1"), Define("USE_ALPHA", "1"), Define("USE_FOG", "1")]

  lemma MacroTableFacts()
    ensures |MacroOrder| == |MacroDefines| == 7
    ensures DisjointBits(MacroOrder)
    ensures forall a, b :: 0 <= a < b < 7 ==> MacroDefines[a].name != MacroDefines[b].name
    ensures forall a :: 0 <= a < 7 ==> MacroDefines[a].Define? && MacroDefines[a].definition == "1"
  {
  }

  /** Reference definition: one `{NAME, "1"}` per set flag in the table's order, then the
      terminator. */
  function MacroList(f: ShaderFlags): seq<Macro> {
    Selected(f, MacroOrder, MacroDefines, 0) + [EndOfList]
  }

  lemma {:induction false} CountMacroFlags(f: ShaderFlags)
    ensures CountFrom(f, MacroOrder, 0) == PopCount(f & Mask)
  {
    assert CountFrom(f, MacroOrder, 7) == 0;
    assert CountFrom(f, MacroOrder, 6) == (if Has(f, Fog) then 1 else 0);
    assert CountFrom(f, MacroOrder, 5) == (if Has(f, Alpha) then 1 else 0) + CountFrom(f, MacroOrder, 6);
    assert CountFrom(f, MacroOrder, 4) == (if Has(f, Light) then 1 else 0) + CountFrom(f, MacroOrder, 5);
    assert CountFrom(f, MacroOrder, 3) == (if Has(f, EnvMap) then 1 else 0) + CountFrom(f, MacroOrder, 4);
    assert CountFrom(f, MacroOrder, 2) == (if Has(f, Texture) then 1 else 0) + CountFrom(f, MacroOrder, 3);
    assert CountFrom(f, MacroOrder, 1) == (if Has(f, DepthMap) then 1 else 0) + CountFrom(f, MacroOrder, 2);
    assert CountFrom(f, MacroOrder, 0) == (if Has(f, SoftParticle) then 1 else 0) + CountFrom(f, MacroOrder, 1);
  }

  lemma MacroListLength(f: ShaderFlags)
    ensures |MacroList(f)| == PopCount(f & Mask) + 1
  {
    SelectedLength(f, MacroOrder, MacroDefines, 0);
    CountMacroFlags(f);
  }

  lemma MacroListNames(f: ShaderFlags)
    ensures forall i :: 0 <= i < |MacroList(f)| - 1 ==>
              MacroList(f)[i].Define? && MacroList(f)[i].definition == "1"
    ensures forall i, j :: 0 <= i < j < |MacroList(f)| - 1 ==> MacroList(f)[i].name != MacroList(f)[j].name
  {
    MacroTableFacts();
    var s := Selected(f, MacroOrder, MacroDefines, 0);
    SelectedDistinct(f, MacroOrder, MacroDefines, 0);
    assert MacroDefines[0..] == MacroDefines;
    assert forall i :: 0 <= i < |s| ==> s[i] in MacroDefines;
    forall i, j | 0 <= i < j < |s|
      ensures s[i].name != s[j].name
    {
      assert s[i] in MacroDefines && s[j] in MacroDefines;
    }
    assert MacroList(f)[..|MacroList(f)| - 1] == s;
  }

  lemma MacroListMembership(f: ShaderFlags)
    ensures forall m :: 0 <= m < 7 ==> (MacroDefines[m] in MacroList(f) <==> Has(f, MacroOrder[m]))
  {
    MacroTableFacts();
    forall m | 0 <= m < 7
      ensures MacroDefines[m] in MacroList(f) <==> Has(f, MacroOrder[m])
    {
      SelectedMembership(f, MacroOrder, MacroDefines, 0, m);
    }
  }

  lemma MacroListIgnoresHighBits(f: ShaderFlags)
    ensures MacroList(f) == MacroList(f & Mask)
  {
    forall m | 0 <= m < 7
      ensures Has(f, MacroOrder[m]) <==> Has(f & Mask, MacroOrder[m])
    {
    }
    SelectedAgree(f, f & Mask, MacroOrder, MacroDefines, 0);
  }

  /** The list has one definition per set flag inside the mask, seven distinct names in all,
      and one terminator; bits outside the mask are ignored. */
  lemma MacroListShape(f: ShaderFlags)
    ensures |MacroList(f)| == PopCount(f & Mask) + 1
    ensures MacroList(f)[|MacroList(f)| - 1] == EndOfList
    ensures forall i :: 0 <= i < |MacroList(f)| - 1 ==>
              MacroList(f)[i].Define? && MacroList(f)[i].definition == "1"
    ensures forall i, j :: 0 <= i < j < |MacroList(f)| - 1 ==> MacroList(f)[i].name != MacroList(f)[j].name
    ensures forall m :: 0 <= m < 7 ==> (MacroDefines[m] in MacroList(f) <==> Has(f, MacroOrder[m]))
    ensures MacroList(f) == MacroList(f & Mask)
  {
    MacroListLength(f);
    MacroListNames(f);
    MacroListMembership(f);
    MacroListIgnoresHighBits(f);
  }

  /** The union of the first `j` flags of the table. */
  const Before: seq<ShaderFlags> := [0x00, 0x40, 0x60, 0x61, 0x63, 0x6b, 0x6f]

  lemma BeforeMeans(remaining: ShaderFlags, j: nat)
    requires j < 7 && remaining & Before[j] == 0
    ensures forall m :: 0 <= m < j ==> !Has(remaining, MacroOrder[m])
  {
    if j == 0 {
    } else if j == 1 {
    } else if j == 2 {
    } else if j == 3 {
    } else if j == 4 {
    } else if j == 5 {
    } else {
    }
  }

  /** One pass of the source's loop: the first remaining flag in table order is taken. */
  lemma Take(remaining: ShaderFlags, j: nat)
    requires j < 7 && Has(remaining, MacroOrder[j])
    requires remaining & Before[j] == 0
    ensures Selected(remaining, MacroOrder, MacroDefines, 0)
            == [MacroDefines[j]] + Selected(remaining & !MacroOrder[j], MacroOrder, MacroDefines, 0)
  {
    MacroTableFacts();
    BeforeMeans(remaining, j);
    SelectFirst(remaining, MacroOrder, MacroDefines, j);
  }

  /** The loop invariant survives taking flag `j`. */
  lemma TakeStep(flags: ShaderFlags, macros: seq<Macro>, remaining: ShaderFlags, j: nat, bit: ShaderFlags, def: Macro)
    requires j < 7 && bit == MacroOrder[j] && def == MacroDefines[j]
    requires Has(remaining, bit) && remaining & Before[j] == 0
    requires Emitted(flags, macros, remaining)
    ensures Emitted(flags, macros + [def], remaining & !bit)
    ensures |Selected(remaining & !bit, MacroOrder, MacroDefines, 0)| < |Selected(remaining, MacroOrder, MacroDefines, 0)|
  {
    Take(remaining, j);
    AppendStep(macros, def, Selected(remaining & !bit, MacroOrder, MacroDefines, 0), Selected(remaining, MacroOrder, MacroDefines, 0));
  }

  /** Moving the head of what is still to come onto what has been emitted keeps the whole. */
  lemma AppendStep<T>(done: seq<T>, x: T, rest: seq<T>, todo: seq<T>)
    requires todo == [x] + rest
    ensures done + [x] + rest == done + todo
    ensures |rest| < |todo|
  {
  }

  lemma NoneLeft(remaining: ShaderFlags)
    requires remaining & Mask == 0
    ensures Selected(remaining, MacroOrder, MacroDefines, 0) == []
  {
    SelectedNone(remaining, MacroOrder, MacroDefines);
  }

  /** The source's chain of tests inside the loop: the table position of the first flag
      still set, or 7 when only bits outside the mask remain (the `break`). */
  function FirstRemaining(remaining: ShaderFlags): (j: nat)
    ensures j <= 7
    ensures j < 7 ==> Has(remaining, MacroOrder[j]) && remaining & Before[j] == 0
    ensures j == 7 ==> remaining & Mask == 0
  {
    if Has(remaining, SoftParticle) then 0
    else if Has(remaining, DepthMap) then 1
    else if Has(remaining, Texture) then 2
    else if Has(remaining, EnvMap) then 3
    else if Has(remaining, Light) then 4
    else if Has(remaining, Alpha) then 5
    else if Has(remaining, Fog) then 6
    else 7
  }

  /** The loop invariant: what has been emitted, followed by what the remaining flags would
      emit, is the whole list. */
  ghost predicate Emitted(flags: ShaderFlags, macros: seq<Macro>, remaining: ShaderFlags) {
    macros + Selected(remaining, MacroOrder, MacroDefines, 0) == Selected(flags, MacroOrder, MacroDefines, 0)
  }

  lemma Finish(flags: ShaderFlags, macros: seq<Macro>, remaining: ShaderFlags)
    requires Emitted(flags, macros, remaining) && remaining & Mask == 0
    ensures macros + [EndOfList] == MacroList(flags)
    ensures |macros + [EndOfList]| == PopCount(flags & Mask) + 1
  {
    NoneLeft(remaining);
    MacroListLength(flags);
  }

  /** `populate_macros`: each pass of the loop takes the first remaining flag in the
      source's order, and a word with only bits outside the mask left ends the loop. */
  method PopulateMacros(flags: ShaderFlags) returns (macros: seq<Macro>)
    ensures macros == MacroList(flags)
    ensures |macros| == PopCount(flags & Mask) + 1
  {
    var remaining := flags;
    macros := [];
    while remaining != 0
      invariant Emitted(flags, macros, remaining)
      decreases |Selected(remaining, MacroOrder, MacroDefines, 0)|
    {
      var j := FirstRemaining(remaining);
      if j == 7 {
        break;
      }
      TakeStep(flags, macros, remaining, j, MacroOrder[j], MacroDefines[j]);
      remaining := remaining & !MacroOrder[j];
      macros := macros + [MacroDefines[j]];
    }
    Finish(flags, macros, remaining);
    macros := macros + [EndOfList];
  }
}
