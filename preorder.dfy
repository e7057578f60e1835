/** Facts about the pre-order walk: its length, its block structure, where
    each record's parent sits, and how the stack order relates to it. */
module PreOrderFacts {
  import opened Menu

  /** Some root has at least one child, i.e. the forest is not flat. */
  predicate HasNested(forest: seq<Node>)
  {
    exists i :: 0 <= i < |forest| && forest[i].children != []
  }

  /** The walk emits exactly one visit per node. */
  lemma {:induction false} VisitsLength(items: seq<Node>, level: nat, parent: Option<Node>)
    ensures |Visits(items, level, parent)| == CountList(items)
    decreases items
  {
    if items != [] {
      VisitsLength(items[0].children, level + 1, Some(items[0]));
      VisitsLength(items[1..], level, parent);
    }
  }

  /** Walking two lists of siblings one after the other is walking their
      concatenation. */
  lemma {:induction false} VisitsAppend(a: seq<Node>, b: seq<Node>, level: nat, parent: Option<Node>)
    ensures Visits(a + b, level, parent) == Visits(a, level, parent) + Visits(b, level, parent)
    decreases a
  {
    if a != [] {
      assert (a + b)[0] == a[0];
      assert (a + b)[1..] == a[1..] + b;
      VisitsAppend(a[1..], b, level, parent);
    } else {
      assert a + b == b;
    }
  }

  lemma RecordsAppend(style: Style, a: seq<Visit>, b: seq<Visit>)
    ensures Records(style, a + b) == Records(style, a) + Records(style, b)
  {
  }

  lemma RecordsSlice(style: Style, vs: seq<Visit>, i: nat, j: nat)
    requires i <= j <= |vs|
    ensures Records(style, vs)[i..j] == Records(style, vs[i..j])
  {
  }

  /** A forest's records are the first root's records followed by the rest's. */
  lemma PreOrderCons(style: Style, forest: seq<Node>)
    requires forest != []
    ensures PreOrder(style, forest) == PreOrder(style, [forest[0]]) + PreOrder(style, forest[1..])
  {
    assert forest == [forest[0]] + forest[1..];
    VisitsAppend([forest[0]], forest[1..], 1, None);
    RecordsAppend(style, Visits([forest[0]], 1, None), Visits(forest[1..], 1, None));
  }

  /** The walk of a non-empty list: the first node, its descendants' walk,
      then the walk of its later siblings. */
  lemma VisitsSplit(items: seq<Node>, level: nat, parent: Option<Node>)
    requires items != []
    ensures Visits(items, level, parent)
            == [Visit(items[0], level, parent)]
               + Visits(items[0].children, level + 1, Some(items[0]))
               + Visits(items[1..], level, parent)
  {
  }

  /** Levels and parents: every visit is at least at the starting level; a
      visit at the starting level is one of `items` under `parent`; a deeper
      visit has its parent earlier in the walk, one level up, and is one of
      that parent's children. */
  lemma {:induction false} ParentPrecedes(items: seq<Node>, level: nat, parent: Option<Node>, k: nat) returns (j: nat)
    requires k < |Visits(items, level, parent)|
    ensures Placed(Visits(items, level, parent), items, level, parent, k, j)
    decreases items
  {
    var x := Visit(items[0], level, parent);
    var A := Visits(items[0].children, level + 1, Some(items[0]));
    var B := Visits(items[1..], level, parent);
    VisitsSplit(items, level, parent);
    if k == 0 {
      j := 0;
      assert ([x] + A + B)[0] == x;
    } else if k <= |A| {
      var i := ParentPrecedes(items[0].children, level + 1, Some(items[0]), k - 1);
      j := PlacedInChildren(x, A, B, items, level, parent, k, i);
    } else {
      var i := ParentPrecedes(items[1..], level, parent, k - 1 - |A|);
      j := PlacedInSiblings(x, A, B, items, level, parent, k, i);
    }
  }

  /** Visit k of `vs`, the walk of `items` at `level` under `parent`, is at
      or below that level: at it, one of `items` under `parent`; below it,
      a child of the earlier visit j one level up. */
  ghost predicate Placed(vs: seq<Visit>, items: seq<Node>, level: nat, parent: Option<Node>, k: nat, j: nat)
  {
    && k < |vs|
    && vs[k].level >= level
    && (vs[k].level == level ==> vs[k].parent == parent && vs[k].node in items)
    && (vs[k].level > level ==>
          && j < k && vs[k].parent == Some(vs[j].node)
          && vs[j].level + 1 == vs[k].level && vs[k].node in vs[j].node.children)
  }

  /** A visit placed inside the first item's walk is placed in the whole walk. */
  lemma PlacedInChildren(x: Visit, A: seq<Visit>, B: seq<Visit>, items: seq<Node>, level: nat,
                         parent: Option<Node>, k: nat, i: nat) returns (j: nat)
    requires items != [] && x == Visit(items[0], level, parent)
    requires 0 < k <= |A| && Placed(A, items[0].children, level + 1, Some(items[0]), k - 1, i)
    ensures Placed([x] + A + B, items, level, parent, k, j)
  {
    ThreeParts(x, A, B, k);
    if A[k - 1].level > level + 1 {
      j := i + 1;
      ThreeParts(x, A, B, j);
    } else {
      j := 0;
      ThreeParts(x, A, B, 0);
    }
  }

  /** A visit placed in the later siblings' walk is placed in the whole walk. */
  lemma PlacedInSiblings(x: Visit, A: seq<Visit>, B: seq<Visit>, items: seq<Node>, level: nat,
                         parent: Option<Node>, k: nat, i: nat) returns (j: nat)
    requires items != []
    requires |A| < k && Placed(B, items[1..], level, parent, k - 1 - |A|, i)
    ensures Placed([x] + A + B, items, level, parent, k, j)
  {
    ThreeParts(x, A, B, k);
    j := i + 1 + |A|;
    if B[k - 1 - |A|].level > level {
      ThreeParts(x, A, B, j);
    } else {
      InTail(items, B[k - 1 - |A|].node);
    }
  }

  /** Indexing into a sequence made of one element and two sequences. */
  lemma ThreeParts<T>(x: T, A: seq<T>, B: seq<T>, k: nat)
    requires k < 1 + |A| + |B|
    ensures ([x] + A + B)[k] == if k == 0 then x else if k <= |A| then A[k - 1] else B[k - 1 - |A|]
  {
  }

  lemma InTail<T>(s: seq<T>, x: T)
    requires s != [] && x in s[1..]
    ensures x in s
  {
  }

  /** A style that adds no parent fields does not see which parent the walk
      started under. */
  lemma {:induction false} RecordsIgnoreParent(style: Style, items: seq<Node>, level: nat, p: Option<Node>, q: Option<Node>)
    requires style.link == NoParent
    ensures Records(style, Visits(items, level, p)) == Records(style, Visits(items, level, q))
    decreases items
  {
    if items != [] {
      var A := Visits(items[0].children, level + 1, Some(items[0]));
      RecordsIgnoreParent(style, items[1..], level, p, q);
      RecordsAppend(style, [Visit(items[0], level, p)] + A, Visits(items[1..], level, p));
      RecordsAppend(style, [Visit(items[0], level, p)], A);
      RecordsAppend(style, [Visit(items[0], level, q)] + A, Visits(items[1..], level, q));
      RecordsAppend(style, [Visit(items[0], level, q)], A);
    }
  }

  /** A style that adds neither level nor parent fields does not see where
      the walk started at all. */
  lemma {:induction false} RecordsIgnoreContext(style: Style, items: seq<Node>, l: nat, p: Option<Node>, m: nat, q: Option<Node>)
    requires style == PlainStyle
    ensures Records(style, Visits(items, l, p)) == Records(style, Visits(items, m, q))
    decreases items
  {
    if items != [] {
      var n := items[0];
      RecordsIgnoreContext(style, n.children, l + 1, Some(n), m + 1, Some(n));
      RecordsIgnoreContext(style, items[1..], l, p, m, q);
      var A := Visits(n.children, l + 1, Some(n));
      var A' := Visits(n.children, m + 1, Some(n));
      RecordsAppend(style, [Visit(n, l, p)] + A, Visits(items[1..], l, p));
      RecordsAppend(style, [Visit(n, l, p)], A);
      RecordsAppend(style, [Visit(n, m, q)] + A', Visits(items[1..], m, q));
      RecordsAppend(style, [Visit(n, m, q)], A');
    }
  }

  lemma {:induction false} ReverseLength<T>(s: seq<T>)
    ensures |Reverse(s)| == |s|
  {
    if s != [] { ReverseLength(s[1..]); }
  }

  lemma {:induction false} ReverseAt<T>(s: seq<T>, k: nat)
    requires k < |s|
    ensures |Reverse(s)| == |s| && Reverse(s)[k] == s[|s| - 1 - k]
  {
    ReverseLength(s);
    if k < |s| - 1 {
      ReverseAt(s[1..], k);
    }
  }

  lemma {:induction false} ReverseMultiset<T>(s: seq<T>)
    ensures multiset(Reverse(s)) == multiset(s)
  {
    if s != [] {
      ReverseMultiset(s[1..]);
      assert s == [s[0]] + s[1..];
    }
  }

  lemma {:induction false} ReverseAppend<T>(a: seq<T>, b: seq<T>)
    ensures Reverse(a + b) == Reverse(b) + Reverse(a)
  {
    if a == [] {
      assert a + b == b;
    } else {
      assert (a + b)[1..] == a[1..] + b;
      ReverseAppend(a[1..], b);
    }
  }

  lemma {:induction false} ReverseReverse<T>(s: seq<T>)
    ensures Reverse(Reverse(s)) == s
  {
    if s != [] {
      ReverseReverse(s[1..]);
      ReverseAppend(Reverse(s[1..]), [s[0]]);
      assert Reverse([s[0]]) == [s[0]];
    }
  }

  /** The stack flatteners return the same records as pre-order, the same
      number of times each, and one per node. */
  lemma {:induction false} IterOrderIsPermutation(style: Style, forest: seq<Node>)
    ensures |IterOrder(style, forest)| == |PreOrder(style, forest)| == CountList(forest)
    ensures multiset(IterOrder(style, forest)) == multiset(PreOrder(style, forest))
  {
    VisitsLength(forest, 1, None);
    if forest != [] {
      IterOrderIsPermutation(style, forest[1..]);
      PreOrderCons(style, forest);
      ReverseLength(PreOrder(style, [forest[0]]));
      ReverseMultiset(PreOrder(style, [forest[0]]));
    }
  }

  /** In the walk of a single root, every visit after the first is at level 2
      or deeper. */
  lemma SingleRootDeeper(n: Node, k: nat)
    requires 0 < k < |Visits([n], 1, None)|
    ensures Visits([n], 1, None)[k].level >= 2
  {
    var A := Visits(n.children, 2, Some(n));
    assert [n][1..] == [];
    assert Visits([n], 1, None) == [Visit(n, 1, None)] + A;
    var _ := ParentPrecedes(n.children, 2, Some(n), k - 1);
  }

  /** The stack order is never pre-order once a root has a child (for styles
      that record levels): at the start of that root's block pre-order emits
      the root, at level 1, while the stack order emits its last descendant. */
  lemma {:induction false} IterOrderIsNotPreOrder(style: Style, forest: seq<Node>)
    requires style.levels && HasNested(forest)
    ensures IterOrder(style, forest) != PreOrder(style, forest)
  {
    var n := forest[0];
    var block := PreOrder(style, [n]);
    var vs := Visits([n], 1, None);
    PreOrderCons(style, forest);
    VisitsLength([n], 1, None);
    ReverseLength(block);
    if n.children == [] {
      assert [n][1..] == [];
      assert vs == [Visit(n, 1, None)];
      assert Reverse(block) == block;
      var i :| 0 <= i < |forest| && forest[i].children != [];
      assert forest[1..][i - 1] == forest[i];
      IterOrderIsNotPreOrder(style, forest[1..]);
      assert IterOrder(style, forest)[1..] == IterOrder(style, forest[1..]);
      assert PreOrder(style, forest)[1..] == PreOrder(style, forest[1..]);
    } else {
      assert [n][1..] == [];
      var c := CountList(n.children);
      assert CountList([n]) == 1 + c;
      assert c >= 1;
      ReverseAt(block, 0);
      SingleRootDeeper(n, c);
      assert block[0].level == Some(1);
      assert Reverse(block)[0] == block[c];
      assert block[c].level == Some(vs[c].level);
      assert IterOrder(style, forest)[0] == Reverse(block)[0];
      assert PreOrder(style, forest)[0] == block[0];
    }
  }

  /** A recursive flattener that adds parent fields and a flattener that does
      not can only agree on a forest without nesting: the first nested node
      carries parent fields in one and none in the other. */
  lemma {:induction false} ParentFieldsDiffer(levels: bool, link: LinkStyle, forest: seq<Node>)
    requires link != NoParent && HasNested(forest)
    ensures PreOrder(Style(levels, link), forest) != PreOrder(Style(levels, NoParent), forest)
  {
    var linked, plain := Style(levels, link), Style(levels, NoParent);
    var n := forest[0];
    PreOrderCons(linked, forest);
    PreOrderCons(plain, forest);
    assert [n][1..] == [];
    VisitsLength([n], 1, None);
    if n.children == [] {
      var i :| 0 <= i < |forest| && forest[i].children != [];
      assert forest[1..][i - 1] == forest[i];
      ParentFieldsDiffer(levels, link, forest[1..]);
      assert PreOrder(linked, forest)[1..] == PreOrder(linked, forest[1..]);
      assert PreOrder(plain, forest)[1..] == PreOrder(plain, forest[1..]);
    } else {
      var vs := Visits([n], 1, None);
      assert vs == [Visit(n, 1, None)] + Visits(n.children, 2, Some(n));
      assert vs[1].parent == Some(n);
      assert PreOrder(linked, forest)[1] == Emit(linked, vs[1]);
      assert PreOrder(plain, forest)[1] == Emit(plain, vs[1]);
    }
  }

  /** Removing the parent fields from a linked flattening gives the
      flattening of the same levels without links. */
  lemma UnlinkPreOrder(levels: bool, link: LinkStyle, forest: seq<Node>)
    ensures UnlinkAll(PreOrder(Style(levels, link), forest)) == PreOrder(Style(levels, NoParent), forest)
  {
  }
}
