/** `to_string`: the readable name of a flag word used in the registry's log lines, the set
    flags' names joined by " | ". The source tests the flags in an order of its own. */
module FlagNames {
  import opened Flags
  import opened FlagTables

  const Separator: string := " | "

  const NameOrder: seq<ShaderFlags> := [SoftParticle, DepthMap, Fog, Light, Alpha, EnvMap, Texture]
  const NameItems: seq<string> :=
    ["SOFT_PARTICLE", "DEPTH_MAP", "USE_FOG", "USE_LIGHT", "USE_ALPHA", "USE_ENVMAP", "USE_TEXTURE"]

  lemma NameTableFacts()
    ensures |NameOrder| == |NameItems| == 7
    ensures DisjointBits(NameOrder)
    ensures forall a, b :: 0 <= a < b < 7 ==> NameItems[a] != NameItems[b]
  {
  }

  /** The parts joined with the separator between neighbours. */
  function Join(parts: seq<string>): string {
    JoinFirst(parts, |parts|)
  }

  /** The first `n` parts joined. */
  function JoinFirst(parts: seq<string>, n: nat): string
    requires n <= |parts|
  {
    if n == 0 then ""
    else if n == 1 then parts[0]
    else JoinFirst(parts, n - 1) + Separator + parts[n - 1]
  }

  /** Joining a prefix only looks at the prefix. */
  lemma {:induction false} JoinFirstPrefix(parts: seq<string>, more: seq<string>, n: nat)
    requires n <= |parts|
    ensures JoinFirst(parts + more, n) == JoinFirst(parts, n)
  {
    if n > 1 {
      JoinFirstPrefix(parts, more, n - 1);
    }
  }

  /** Reference definition: the names of the set flags inside the mask, in the source's order. */
  function NameList(f: ShaderFlags): seq<string> {
    Selected(f, NameOrder, NameItems, 0)
  }

  /** The union of the first `j` flags of the name table. */
  const NameBefore: seq<ShaderFlags> := [0x00, 0x40, 0x60, 0x70, 0x78, 0x7c, 0x7e]

  lemma NameBeforeMeans(remaining: ShaderFlags, j: nat)
    requires j < 7 && remaining & NameBefore[j] == 0
    ensures forall m :: 0 <= m < j ==> !Has(remaining, NameOrder[m])
  {
    var b := NameBefore[j];
    assert j >= 1 ==> b & SoftParticle == SoftParticle;
    assert j >= 2 ==> b & DepthMap == DepthMap;
    assert j >= 3 ==> b & Fog == Fog;
    assert j >= 4 ==> b & Light == Light;
    assert j >= 5 ==> b & Alpha == Alpha;
    assert j >= 6 ==> b & EnvMap == EnvMap;
    forall m | 0 <= m < j
      ensures !Has(remaining, NameOrder[m])
    {
      Disjoint(remaining, b, NameOrder[m]);
    }
  }

  /** A word disjoint from `b` is disjoint from every part of `b`. */
  lemma Disjoint(r: ShaderFlags, b: ShaderFlags, part: ShaderFlags)
    requires r & b == 0 && b & part == part
    ensures r & part == 0
  {
  }

  /** The chain of tests in the loop body: the first flag still set, or 7 for the `break`. */
  function FirstNamed(remaining: ShaderFlags): (j: nat)
    ensures j <= 7
    ensures j < 7 ==> Has(remaining, NameOrder[j]) && remaining & NameBefore[j] == 0
    ensures j == 7 ==> remaining & Mask == 0
  {
    if Has(remaining, SoftParticle) then 0
    else if Has(remaining, DepthMap) then 1
    else if Has(remaining, Fog) then 2
    else if Has(remaining, Light) then 3
    else if Has(remaining, Alpha) then 4
    else if Has(remaining, EnvMap) then 5
    else if Has(remaining, Texture) then 6
    else 7
  }

  /** The loop invariant: the names taken so far, then the names of the remaining flags,
      are all the names; the bits outside the mask are never cleared. */
  ghost predicate Listed(flags: ShaderFlags, taken: seq<string>, remaining: ShaderFlags) {
    && taken + NameList(remaining) == NameList(flags)
    && remaining & !Mask == flags & !Mask
  }

  /** One pass of the loop: the first remaining flag in the name table's order is taken. */
  lemma NameTake(remaining: ShaderFlags, j: nat)
    requires j < 7 && Has(remaining, NameOrder[j])
    requires remaining & NameBefore[j] == 0
    ensures NameList(remaining) == [NameItems[j]] + NameList(remaining & !NameOrder[j])
  {
    NameTableFacts();
    NameBeforeMeans(remaining, j);
    SelectFirst(remaining, NameOrder, NameItems, j);
  }

  lemma KeepsHighBits(remaining: ShaderFlags, bit: ShaderFlags)
    requires bit & !Mask == 0
    ensures (remaining & !bit) & !Mask == remaining & !Mask
  {
  }

  lemma NameStep(flags: ShaderFlags, taken: seq<string>, remaining: ShaderFlags, j: nat, bit: ShaderFlags, name: string)
    requires j < 7 && bit == NameOrder[j] && name == NameItems[j]
    requires Has(remaining, bit) && remaining & NameBefore[j] == 0
    requires Listed(flags, taken, remaining)
    ensures Listed(flags, taken + [name], remaining & !bit)
    ensures |NameList(remaining & !bit)| < |NameList(remaining)|
  {
    NameTake(remaining, j);
    assert bit & !Mask == 0;
    KeepsHighBits(remaining, bit);
  }

  lemma NoNamesLeft(remaining: ShaderFlags)
    requires remaining & Mask == 0
    ensures NameList(remaining) == []
  {
    SelectedNone(remaining, NameOrder, NameItems);
  }

  lemma OnlyHighBits(flags: ShaderFlags, remaining: ShaderFlags)
    requires remaining & Mask == 0 && remaining & !Mask == flags & !Mask
    ensures remaining != 0 <==> flags & !Mask != 0
  {
    assert remaining == remaining & !Mask;
  }

  /** When no named flag is left, everything has been taken, and the loop reached the
      `break` exactly when bits above the mask were present. */
  lemma NameDone(flags: ShaderFlags, taken: seq<string>, remaining: ShaderFlags)
    requires Listed(flags, taken, remaining) && remaining & Mask == 0
    ensures taken == NameList(flags)
    ensures remaining != 0 <==> flags & !Mask != 0
  {
    NoNamesLeft(remaining);
    assert taken + [] == taken;
    OnlyHighBits(flags, remaining);
  }

  /** Writing the separator (after the first name) and then a name extends the joined list. */
  lemma AppendName(taken: seq<string>, name: string, thing: bool, before: string, s: string)
    requires before == Join(taken) && (thing <==> |taken| > 0)
    requires s == before + (if thing then Separator else "")
    ensures s + name == Join(taken + [name])
  {
    JoinFirstPrefix(taken, [name], |taken|);
  }

  /** `to_string` as the source writes it. A separator is written at the top of every pass
      after the first name, even the pass that finds no named flag left and breaks, so a
      word with a name and a bit above the mask ends in a dangling separator. */
  method ToString(flags: ShaderFlags) returns (s: string)
    ensures s == Join(NameList(flags)) + (if |NameList(flags)| > 0 && flags & !Mask != 0 then Separator else "")
  {
    var remaining := flags;
    var thing := false;
    ghost var taken: seq<string> := [];
    s := "";
    while remaining != 0
      invariant Written(flags, taken, remaining, thing, s)
      decreases |NameList(remaining)|
    {
      ghost var before := s;
      if thing {
        s := s + Separator;
      }
      assert s == before + (if thing then Separator else "");
      var j := FirstNamed(remaining);
      if j == 7 {
        BreakResult(flags, taken, remaining, thing, before, s);
        return;
      }
      var bit, name := NameOrder[j], NameItems[j];
      NameStep(flags, taken, remaining, j, bit, name);
      PassJoined(taken, thing, before, s, name);
      remaining := remaining & !bit;
      s := s + name;
      taken := taken + [name];
      thing := true;
    }
    ExitResult(flags, taken, thing, s);
  }

  /** The loop invariant of `to_string`: the names are listed so far, `thing` records that
      one was written, and the output is their join. */
  ghost predicate Written(flags: ShaderFlags, taken: seq<string>, remaining: ShaderFlags, thing: bool, s: string) {
    && Listed(flags, taken, remaining)
    && (thing <==> |taken| > 0)
    && s == Join(taken)
  }

  /** A pass that finds flag `j`: the output is the join of the names taken. */
  lemma PassJoined(taken: seq<string>, thing: bool, before: string, s: string, name: string)
    requires before == Join(taken) && (thing <==> |taken| > 0)
    requires s == before + (if thing then Separator else "")
    ensures s + name == Join(taken + [name]) && |taken + [name]| > 0
  {
    AppendName(taken, name, thing, before, s);
  }

  /** The `break`: only bits above the mask are left, after the separator was written. */
  lemma BreakResult(flags: ShaderFlags, taken: seq<string>, remaining: ShaderFlags, thing: bool, before: string, s: string)
    requires Written(flags, taken, remaining, thing, before)
    requires s == before + (if thing then Separator else "")
    requires remaining & Mask == 0 && remaining != 0
    ensures s == Join(NameList(flags)) + (if |NameList(flags)| > 0 && flags & !Mask != 0 then Separator else "")
  {
    NameDone(flags, taken, remaining);
  }

  /** The loop condition fails: every bit has been cleared. */
  lemma ExitResult(flags: ShaderFlags, taken: seq<string>, thing: bool, s: string)
    requires Written(flags, taken, 0, thing, s)
    ensures s == Join(NameList(flags)) + (if |NameList(flags)| > 0 && flags & !Mask != 0 then Separator else "")
  {
    NameDone(flags, taken, 0);
  }

  /** On every word inside the mask, which is all the registry ever passes, the result is
      exactly the joined names. */
  lemma ToStringOfKey(flags: ShaderFlags, s: string)
    requires flags & !Mask == 0
    requires s == Join(NameList(flags)) + (if |NameList(flags)| > 0 && flags & !Mask != 0 then Separator else "")
    ensures s == Join(NameList(flags))
  {
  }

  /** A name appears exactly when its flag is set. */
  lemma NameListMembership(f: ShaderFlags)
    ensures forall m :: 0 <= m < 7 ==> (NameItems[m] in NameList(f) <==> Has(f, NameOrder[m]))
    ensures |NameList(f)| == 0 <==> f & Mask == 0
  {
    NameTableFacts();
    forall m | 0 <= m < 7
      ensures NameItems[m] in NameList(f) <==> Has(f, NameOrder[m])
    {
      SelectedMembership(f, NameOrder, NameItems, 0, m);
    }
    if f & Mask == 0 {
      SelectedNone(f, NameOrder, NameItems);
    } else {
      var j := FirstNamed(f);
      assert NameItems[j] in NameList(f);
    }
  }

  /** Texture together with bit 7 shows the dangling separator. */
  lemma DanglingSeparator()
    ensures Join(NameList(0x81)) + (if |NameList(0x81)| > 0 && (0x81 as ShaderFlags) & !Mask != 0 then Separator else "")
            == "USE_TEXTURE | "
  {
    NameTableFacts();
    SelectedSkip(0x81, NameOrder, NameItems, 0, 6);
  }
}
