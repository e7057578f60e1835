/** The comparisons the demo scripts print after running the four
    flattenings: whether all four results are the same (compared as JSON
    text, modelled here as equality of the record sequences) and whether
    all four have the same length. */
module Demos {
  import opened Menu
  import opened PreOrderFacts
  import opened Flatten
  import opened Generators

  predicate AllSame(r1: seq<Record>, r2: seq<Record>, r3: seq<Record>, r4: seq<Record>)
  {
    r1 == r2 && r2 == r3 && r3 == r4
  }

  predicate CountSame(r1: seq<Record>, r2: seq<Record>, r3: seq<Record>, r4: seq<Record>)
  {
    |r1| == |r2| && |r2| == |r3| && |r3| == |r4|
  }

  /** On a forest of leaves every record is a root's copy: no parent fields,
      and the iterative order is the pre-order. */
  lemma {:induction false} LeavesOnly(style: Style, forest: seq<Node>)
    requires !HasNested(forest)
    ensures PreOrder(style, forest) == PreOrder(Style(style.levels, NoParent), forest)
    ensures IterOrder(style, forest) == PreOrder(style, forest)
  {
    if forest != [] {
      var plain := Style(style.levels, NoParent);
      var t := forest[0];
      assert t.children == [] by {
        assert !(forest[0].children != []);
      }
      assert !HasNested(forest[1..]) by {
        forall i | 0 <= i < |forest[1..]| ensures forest[1..][i].children == [] {
          assert forest[1..][i] == forest[i + 1];
        }
      }
      LeavesOnly(style, forest[1..]);
      PreOrderCons(style, forest);
      PreOrderCons(plain, forest);
      VisitsSingle(style, t, 1, None);
      VisitsSingle(plain, t, 1, None);
      assert PreOrder(style, [t]) == [Emit(style, Visit(t, 1, None))];
      assert Reverse(PreOrder(style, [t])) == PreOrder(style, [t]) by {
        assert [Emit(style, Visit(t, 1, None))][1..] == [];
      }
    }
  }

  /** With parent fields on the recursive result and none on the other
      three, the four results agree exactly when no root has children. */
  lemma AllSameIff(levels: bool, link: LinkStyle, forest: seq<Node>)
    requires link != NoParent
    ensures var plain := Style(levels, NoParent);
            AllSame(PreOrder(Style(levels, link), forest), PreOrder(plain, forest),
                    PreOrder(plain, forest), IterOrder(plain, forest))
            <==> !HasNested(forest)
  {
    if HasNested(forest) {
      ParentFieldsDiffer(levels, link, forest);
    } else {
      LeavesOnly(Style(levels, link), forest);
      LeavesOnly(Style(levels, NoParent), forest);
    }
  }

  /** The check printed by flatten-menu.js: flattenMenu (parent labels),
      flatMap and reduce (plain copies, which agree with each other and with
      flattenMenu minus its parent fields), and the in-place iterative
      flattening, whose result is the iterative order of the plain copies.
      They all agree exactly when no root has children. */
  lemma FlattenMenuCheck(forest: seq<Node>)
    ensures FlattenFlatMap(false, forest, 1) == PreOrder(PlainStyle, forest)
    ensures UnlinkAll(PreOrder(LabelParentStyle, forest)) == PreOrder(PlainStyle, forest)
    ensures AllSame(PreOrder(LabelParentStyle, forest), FlattenFlatMap(false, forest, 1),
                    PreOrder(PlainStyle, forest), IterOrder(PlainStyle, forest))
            <==> !HasNested(forest)
  {
    UnlinkPreOrder(false, ByLabel, forest);
    AllSameIff(false, ByLabel, forest);
  }

  /** testPerformance of performance-test-large.js: the recursive flattening
      (with parentId and parentLabel), flatMap, reduce and the iterative
      stack flattening, then the comparison of all four. */
  method CompareFlattenings(forest: seq<Node>) returns (allSame: bool)
    ensures allSame <==> !HasNested(forest)
  {
    var result1 := FlattenRecursive(IdsStyle, forest);
    var result2 := FlattenFlatMap(true, forest, 1);
    var result3 := FlattenReduce(true, forest, 1);
    var result4 := FlattenIterative(forest);
    allSame := result1 == result2 && result2 == result3 && result3 == result4;
    AllSameIff(true, ByIdAndLabel, forest);
  }

  /** The comparison testPerformance evidently means to make: drop the
      parent fields the recursive flattening adds before comparing, and use
      the stack flattening that pushes the roots in reverse so that it pops
      them in menu order. The four results then always agree. */
  method CompareFlatteningsUnlinked(forest: seq<Node>) returns (allSame: bool)
    ensures allSame
    ensures AllSame(UnlinkAll(PreOrder(IdsStyle, forest)), PreOrder(LevelStyle, forest),
                    PreOrder(LevelStyle, forest), PreOrder(LevelStyle, forest))
  {
    var result1 := FlattenRecursive(IdsStyle, forest);
    var result2 := FlattenFlatMap(true, forest, 1);
    var result3 := FlattenReduce(true, forest, 1);
    var result4 := FlattenIterativePreOrder(forest);
    UnlinkPreOrder(true, ByIdAndLabel, forest);
    allSame := UnlinkAll(result1) == result2 && result2 == result3 && result3 == result4;
  }

  /** Every menu the large performance test builds with at least one root,
      one child per node and depth at least 2 has nested items, so the
      comparison prints false. */
  lemma LargeMenuComparesFalse(menu: seq<Node>, n: nat, k: nat, d: nat)
    requires |menu| == n && forall i :: 0 <= i < n ==> IsLargeRoot(menu[i], i, k, d)
    requires n >= 1 && k >= 1 && d >= 2
    ensures HasNested(menu)
    ensures !AllSame(PreOrder(IdsStyle, menu), PreOrder(LevelStyle, menu),
                     PreOrder(LevelStyle, menu), IterOrder(LevelStyle, menu))
  {
    assert IsLargeRoot(menu[0], 0, k, d);
    assert |menu[0].children| == k;
    AllSameIff(true, ByIdAndLabel, menu);
  }

  /** testPerformanceWithMemory of performance-test-with-memory.js: the same
      four flattenings, then the comparison of their lengths, which always
      agree: one record per node. */
  method CompareCounts(forest: seq<Node>) returns (countSame: bool)
    ensures countSame
    ensures CountSame(PreOrder(IdsStyle, forest), PreOrder(LevelStyle, forest),
                      PreOrder(LevelStyle, forest), IterOrder(LevelStyle, forest))
  {
    var result1 := FlattenRecursive(IdsStyle, forest);
    var result2 := FlattenFlatMap(true, forest, 1);
    var result3 := FlattenReduce(true, forest, 1);
    var result4 := FlattenIterative(forest);
    VisitsLength(forest, 1, None);
    IterOrderIsPermutation(LevelStyle, forest);
    countSame := |result1| == |result2| && |result2| == |result3| && |result3| == |result4|;
  }
}
