/** Both `populate_macros` and `to_string` walk the seven flags in a fixed order and emit
    one item per flag that is set. `Selected` is that walk written once, as a reference
    definition, with the facts the two loops need about it. */
module FlagTables {
  import opened Flags

  /** The entries of `order` are non-zero and pairwise disjoint bits. */
  ghost predicate DisjointBits(order: seq<ShaderFlags>) {
    && (forall i :: 0 <= i < |order| ==> order[i] != 0)
    && (forall i, j :: 0 <= i < |order| && 0 <= j < |order| && i != j ==> order[i] & order[j] == 0)
  }

  /** The items whose flag (at the same position of `order`) is set in `f`, from position `i` on. */
  function Selected<T>(f: ShaderFlags, order: seq<ShaderFlags>, items: seq<T>, i: nat): (s: seq<T>)
    requires |order| == |items| && i <= |order|
    ensures |s| <= |order| - i
    decreases |order| - i
  {
    if i == |order| then []
    else (if Has(f, order[i]) then [items[i]] else []) + Selected(f, order, items, i + 1)
  }

  /** The number of flags of `order` set in `f`, from position `i` on. */
  function CountFrom(f: ShaderFlags, order: seq<ShaderFlags>, i: nat): nat
    requires i <= |order|
    decreases |order| - i
  {
    if i == |order| then 0 else (if Has(f, order[i]) then 1 else 0) + CountFrom(f, order, i + 1)
  }

  lemma {:induction false} SelectedLength<T>(f: ShaderFlags, order: seq<ShaderFlags>, items: seq<T>, i: nat)
    requires |order| == |items| && i <= |order|
    ensures |Selected(f, order, items, i)| == CountFrom(f, order, i)
    decreases |order| - i
  {
    if i < |order| {
      SelectedLength(f, order, items, i + 1);
    }
  }

  /** Two flag words that agree on every flag from position `i` on select the same items. */
  lemma {:induction false} SelectedAgree<T>(f: ShaderFlags, g: ShaderFlags, order: seq<ShaderFlags>, items: seq<T>, i: nat)
    requires |order| == |items| && i <= |order|
    requires forall m :: i <= m < |order| ==> (Has(f, order[m]) <==> Has(g, order[m]))
    ensures Selected(f, order, items, i) == Selected(g, order, items, i)
    decreases |order| - i
  {
    if i < |order| {
      SelectedAgree(f, g, order, items, i + 1);
    }
  }

  /** Positions whose flag is clear contribute nothing. */
  lemma {:induction false} SelectedSkip<T>(f: ShaderFlags, order: seq<ShaderFlags>, items: seq<T>, i: nat, j: nat)
    requires |order| == |items| && i <= j <= |order|
    requires forall m :: i <= m < j ==> !Has(f, order[m])
    ensures Selected(f, order, items, i) == Selected(f, order, items, j)
    decreases j - i
  {
    if i < j {
      SelectedSkip(f, order, items, i + 1, j);
    }
  }

  /** A word with no flag of `order` set selects nothing. */
  lemma SelectedNone<T>(f: ShaderFlags, order: seq<ShaderFlags>, items: seq<T>)
    requires |order| == |items|
    requires forall m :: 0 <= m < |order| ==> !Has(f, order[m])
    ensures Selected(f, order, items, 0) == []
  {
    SelectedSkip(f, order, items, 0, |order|);
  }

  lemma ClearOther(f: ShaderFlags, a: ShaderFlags, b: ShaderFlags)
    requires a & b == 0
    ensures Has(f & !b, a) <==> Has(f, a)
  {
  }

  lemma ClearOnly(f: ShaderFlags, a: ShaderFlags, b: ShaderFlags)
    requires !Has(f, a) || a == b
    ensures !Has(f & !b, a)
  {
  }

  /** If `order[j]` is the first flag of `order` set in `f`, the walk emits `items[j]` and then
      continues exactly as a walk over `f` with that flag cleared: one pass of the source's
      `while` loop. */
  lemma SelectFirst<T>(f: ShaderFlags, order: seq<ShaderFlags>, items: seq<T>, j: nat)
    requires |order| == |items| && j < |order| && DisjointBits(order)
    requires Has(f, order[j])
    requires forall m :: 0 <= m < j ==> !Has(f, order[m])
    ensures Selected(f, order, items, 0) == [items[j]] + Selected(f & !order[j], order, items, 0)
  {
    var g := f & !order[j];
    SelectedSkip(f, order, items, 0, j);
    assert Selected(f, order, items, j) == [items[j]] + Selected(f, order, items, j + 1);
    ClearedAgreesAfter(f, order, j);
    SelectedAgree(f, g, order, items, j + 1);
    ClearedAbsentBefore(f, order, j);
    SelectedSkip(g, order, items, 0, j + 1);
  }

  lemma ClearedAgreesAfter(f: ShaderFlags, order: seq<ShaderFlags>, j: nat)
    requires j < |order| && DisjointBits(order)
    ensures forall m :: j < m < |order| ==> (Has(f, order[m]) <==> Has(f & !order[j], order[m]))
  {
    forall m | j < m < |order|
      ensures Has(f, order[m]) <==> Has(f & !order[j], order[m])
    {
      ClearOther(f, order[m], order[j]);
    }
  }

  lemma ClearedAbsentBefore(f: ShaderFlags, order: seq<ShaderFlags>, j: nat)
    requires j < |order|
    requires forall m :: 0 <= m < j ==> !Has(f, order[m])
    ensures forall m :: 0 <= m <= j ==> !Has(f & !order[j], order[m])
  {
    forall m | 0 <= m <= j
      ensures !Has(f & !order[j], order[m])
    {
      ClearOnly(f, order[m], order[j]);
    }
  }

  /** With distinct items, an item is selected exactly when its flag is set. */
  lemma {:induction false} SelectedMembership<T>(f: ShaderFlags, order: seq<ShaderFlags>, items: seq<T>, i: nat, m: nat)
    requires |order| == |items| && i <= m < |order|
    requires forall a, b :: 0 <= a < b < |items| ==> items[a] != items[b]
    ensures items[m] in Selected(f, order, items, i) <==> Has(f, order[m])
    decreases |order| - i
  {
    if i < m {
      SelectedMembership(f, order, items, i + 1, m);
    } else {
      SelectedExcludes(f, order, items, i + 1, m);
    }
  }

  lemma {:induction false} SelectedExcludes<T>(f: ShaderFlags, order: seq<ShaderFlags>, items: seq<T>, i: nat, m: nat)
    requires |order| == |items| && m < i <= |order|
    requires forall a, b :: 0 <= a < b < |items| ==> items[a] != items[b]
    ensures items[m] !in Selected(f, order, items, i)
    decreases |order| - i
  {
    if i < |order| {
      SelectedExcludes(f, order, items, i + 1, m);
    }
  }

  /** Every selected item is an item of the table, and with distinct items no item is selected twice. */
  lemma {:induction false} SelectedDistinct<T>(f: ShaderFlags, order: seq<ShaderFlags>, items: seq<T>, i: nat)
    requires |order| == |items| && i <= |order|
    requires forall a, b :: 0 <= a < b < |items| ==> items[a] != items[b]
    ensures forall x :: x in Selected(f, order, items, i) ==> x in items[i..]
    ensures forall a, b :: 0 <= a < b < |Selected(f, order, items, i)| ==>
              Selected(f, order, items, i)[a] != Selected(f, order, items, i)[b]
    decreases |order| - i
  {
    if i < |order| {
      SelectedDistinct(f, order, items, i + 1);
      var rest := Selected(f, order, items, i + 1);
      forall x | x in rest
        ensures x != items[i]
      {
        var k :| i + 1 <= k < |items| && items[k] == x;
      }
      var s := Selected(f, order, items, i);
      if Has(f, order[i]) {
        assert s == [items[i]] + rest;
        forall a, b | 0 <= a < b < |s|
          ensures s[a] != s[b]
        {
          if a == 0 {
            assert s[b] == rest[b - 1];
            assert s[b] in rest;
          } else {
            assert s[a] == rest[a - 1] && s[b] == rest[b - 1];
          }
        }
      } else {
        assert s == rest;
      }
    }
  }
}
