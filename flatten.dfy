/** The four flattening strategies, each proved against the pre-order
    specification of module Menu.

    The recursive walk, the flatMap recursion and the reduce recursion all
    produce pre-order. The stack-based loop, as written, returns each root's
    tree in reversed pre-order; `FlattenIterativePreOrder` is the loop its
    comments describe. */
module Flatten {
  import opened Menu
  import opened PreOrderFacts

  /** The records of one node's visit followed by those of its descendants. */
  lemma VisitsSingle(style: Style, item: Node, level: nat, parent: Option<Node>)
    ensures Records(style, Visits([item], level, parent))
            == [Emit(style, Visit(item, level, parent))] + Records(style, Visits(item.children, level + 1, Some(item)))
  {
    var A := Visits(item.children, level + 1, Some(item));
    VisitsSplit([item], level, parent);
    assert [item][1..] == [];
    assert Visits([item], level, parent) == [Visit(item, level, parent)] + A;
    RecordsAppend(style, [Visit(item, level, parent)], A);
    assert Records(style, [Visit(item, level, parent)]) == [Emit(style, Visit(item, level, parent))];
  }

  /** Extending a prefix of a sibling list by one node extends its records by
      that node's records. */
  lemma RecordsExtend(style: Style, items: seq<Node>, i: nat, level: nat, parent: Option<Node>)
    requires i < |items|
    ensures Records(style, Visits(items[..i + 1], level, parent))
            == Records(style, Visits(items[..i], level, parent)) + Records(style, Visits([items[i]], level, parent))
  {
    assert items[..i + 1] == items[..i] + [items[i]];
    VisitsAppend(items[..i], [items[i]], level, parent);
    RecordsAppend(style, Visits(items[..i], level, parent), Visits([items[i]], level, parent));
  }

  /** flattenRecursive, the inner closure of the recursive strategy: for each
      item, push its copy (with level and parent fields as the style asks)
      onto the shared result, then recurse into a non-empty children list. */
  method Walk(style: Style, items: seq<Node>, parent: Option<Node>, level: nat, acc: seq<Record>)
    returns (out: seq<Record>)
    ensures out == acc + Records(style, Visits(items, level, parent))
    decreases items
  {
    out := acc;
    for i := 0 to |items|
      invariant out == acc + Records(style, Visits(items[..i], level, parent))
    {
      var item := items[i];
      ghost var before := out;
      out := out + [Emit(style, Visit(item, level, parent))];
      if |item.children| > 0 {
        out := Walk(style, item.children, Some(item), level + 1, out);
      }
      WalkStep(style, items, i, level, parent, acc, before, out);
    }
    assert items[..|items|] == items;
  }

  /** One iteration of `Walk`: the item's copy, then (when it has any) its
      children's records, extend the records of the items before it. */
  lemma WalkStep(style: Style, items: seq<Node>, i: nat, level: nat, parent: Option<Node>,
                 acc: seq<Record>, before: seq<Record>, after: seq<Record>)
    requires i < |items|
    requires before == acc + Records(style, Visits(items[..i], level, parent))
    requires after == before + [Emit(style, Visit(items[i], level, parent))]
                      + (if |items[i].children| > 0
                         then Records(style, Visits(items[i].children, level + 1, Some(items[i])))
                         else [])
    ensures after == acc + Records(style, Visits(items[..i + 1], level, parent))
  {
    var item := items[i];
    var done := Records(style, Visits(items[..i], level, parent));
    var e := Emit(style, Visit(item, level, parent));
    var below := Records(style, Visits(item.children, level + 1, Some(item)));
    RecordsExtend(style, items, i, level, parent);
    VisitsSingle(style, item, level, parent);
    if |item.children| == 0 {
      assert Visits(item.children, level + 1, Some(item)) == [];
      assert below == [];
    }
    assert after == ((acc + done) + [e]) + below;
    Regroup(acc, done, [e], below);
  }

  lemma Regroup<T>(a: seq<T>, b: seq<T>, c: seq<T>, d: seq<T>)
    ensures ((a + b) + c) + d == a + (b + (c + d))
  {
  }

  /** flattenMenu, flattenMenuWithLevels, flattenMenuWithIds and the
      performance tests' flattenMenuRecursive: the recursive walk from the
      roots, at level 1, with no parent. */
  method FlattenRecursive(style: Style, forest: seq<Node>) returns (result: seq<Record>)
    ensures result == PreOrder(style, forest)
  {
    result := Walk(style, forest, None, 1, []);
  }

  /** The flatMap strategy: each item becomes its copy followed by the
      flattening of its non-empty children one level deeper. */
  function FlattenFlatMap(levels: bool, items: seq<Node>, level: nat): (r: seq<Record>)
    ensures r == Records(Style(levels, NoParent), Visits(items, level, None))
    decreases items
  {
    if items == [] then []
    else
      var item := items[0];
      var flatItem := Emit(Style(levels, NoParent), Visit(item, level, None));
      var own := if |item.children| > 0 then [flatItem] + FlattenFlatMap(levels, item.children, level + 1) else [flatItem];
      RecordsIgnoreParent(Style(levels, NoParent), item.children, level + 1, None, Some(item));
      VisitsSingle(Style(levels, NoParent), item, level, None);
      PreOrderConsAt(Style(levels, NoParent), items, level);
      own + FlattenFlatMap(levels, items[1..], level)
  }

  lemma PreOrderConsAt(style: Style, items: seq<Node>, level: nat)
    requires items != []
    ensures Records(style, Visits(items, level, None))
            == Records(style, Visits([items[0]], level, None)) + Records(style, Visits(items[1..], level, None))
  {
    assert items == [items[0]] + items[1..];
    VisitsAppend([items[0]], items[1..], level, None);
    RecordsAppend(style, Visits([items[0]], level, None), Visits(items[1..], level, None));
  }

  /** The reduce strategy: an accumulator to which each item's copy is
      pushed, followed by the reduce-flattening of its non-empty children. */
  method FlattenReduce(levels: bool, items: seq<Node>, level: nat) returns (acc: seq<Record>)
    ensures acc == Records(Style(levels, NoParent), Visits(items, level, None))
    decreases items
  {
    var style := Style(levels, NoParent);
    acc := [];
    for i := 0 to |items|
      invariant acc == Records(style, Visits(items[..i], level, None))
    {
      var item := items[i];
      RecordsExtend(style, items, i, level, None);
      VisitsSingle(style, item, level, None);
      RecordsIgnoreParent(style, item.children, level + 1, None, Some(item));
      acc := acc + [Emit(style, Visit(item, level, None))];
      if |item.children| > 0 {
        var sub := FlattenReduce(levels, item.children, level + 1);
        acc := acc + sub;
      }
    }
    assert items[..|items|] == items;
  }

  /** A stack entry of the iterative strategies: a node and its level. */
  datatype Frame = Frame(item: Node, level: nat)

  function Frames(items: seq<Node>, level: nat): (fs: seq<Frame>)
    ensures |fs| == |items|
  {
    seq(|items|, i requires 0 <= i < |items| => Frame(items[i], level))
  }

  /** The records still owed for a list of frames, taken front to back. */
  function Owed(fs: seq<Frame>): seq<Record>
  {
    if fs == [] then [] else Records(LevelStyle, Visits([fs[0].item], fs[0].level, None)) + Owed(fs[1..])
  }

  lemma {:induction false} OwedAppend(a: seq<Frame>, b: seq<Frame>)
    ensures Owed(a + b) == Owed(a) + Owed(b)
  {
    if a == [] {
      assert a + b == b;
    } else {
      assert (a + b)[1..] == a[1..] + b;
      OwedAppend(a[1..], b);
    }
  }

  /** The frames of a sibling list owe exactly the level-style records of
      that list's walk. */
  lemma {:induction false} OwedFrames(items: seq<Node>, level: nat)
    ensures Owed(Frames(items, level)) == Records(LevelStyle, Visits(items, level, None))
  {
    if items != [] {
      assert Frames(items, level)[1..] == Frames(items[1..], level);
      OwedFrames(items[1..], level);
      PreOrderConsAt(LevelStyle, items, level);
    }
  }

  /** Reversing what the stack emits for the roots, bottom-most root last,
      gives each root's reversed pre-order in input order. */
  lemma {:induction false} ReversedOwedIsIterOrder(forest: seq<Node>)
    ensures Reverse(Owed(Reverse(Frames(forest, 1)))) == IterOrder(LevelStyle, forest)
  {
    if forest != [] {
      var fs := Frames(forest, 1);
      assert fs == [fs[0]] + Frames(forest[1..], 1);
      ReverseAppend([fs[0]], Frames(forest[1..], 1));
      assert Reverse([fs[0]]) == [fs[0]];
      OwedAppend(Reverse(Frames(forest[1..], 1)), [fs[0]]);
      var head := Records(LevelStyle, Visits([forest[0]], 1, None));
      assert Owed([fs[0]]) == head;
      ReverseAppend(Owed(Reverse(Frames(forest[1..], 1))), head);
      ReversedOwedIsIterOrder(forest[1..]);
    }
  }

  /** One step of the stack loop: popping a frame and pushing its children's
      frames in reverse keeps the owed records, minus the popped copy. */
  lemma PopPush(rest: seq<Frame>, top: Frame)
    ensures Owed(Reverse(rest + [top]))
            == [Emit(LevelStyle, Visit(top.item, top.level, None))]
               + Owed(Reverse(rest + Reverse(Frames(top.item.children, top.level + 1))))
  {
    var kids := Frames(top.item.children, top.level + 1);
    var R := Reverse(rest);
    var head := [Emit(LevelStyle, Visit(top.item, top.level, None))];
    ReverseAppend(rest, [top]);
    assert Reverse([top]) == [top];
    OwedAppend([top], R);
    OwedTop(top);
    assert Owed(Reverse(rest + [top])) == head + Owed(kids) + Owed(R);
    ReverseAppend(rest, Reverse(kids));
    ReverseReverse(kids);
    OwedAppend(kids, R);
    assert Owed(Reverse(rest + Reverse(kids))) == Owed(kids) + Owed(R);
  }

  /** The records owed for one frame: its copy, then its children's frames. */
  lemma OwedTop(top: Frame)
    ensures Owed([top]) == [Emit(LevelStyle, Visit(top.item, top.level, None))]
                           + Owed(Frames(top.item.children, top.level + 1))
  {
    OwedFrames(top.item.children, top.level + 1);
    VisitsSingle(LevelStyle, top.item, top.level, None);
    RecordsIgnoreParent(LevelStyle, top.item.children, top.level + 1, None, Some(top.item));
    assert Owed([top]) == Records(LevelStyle, Visits([top.item], top.level, None)) + Owed([]);
  }

  /** flattenMenuIterativeWithIds, flattenMenuIterativeWithLevels and the
      performance tests' flattenMenuIterative, as written: a stack of
      (node, level) frames holding the roots in input order; pop, push the
      copy, push the children's frames reversed; finally reverse the result.
      Only a fresh array of frames is reversed, never the input. */
  method FlattenIterative(forest: seq<Node>) returns (result: seq<Record>)
    ensures result == IterOrder(LevelStyle, forest)
  {
    var out: seq<Record> := [];
    var stack := Frames(forest, 1);
    ghost var total := Owed(Reverse(stack));
    while |stack| > 0
      invariant out + Owed(Reverse(stack)) == total
      decreases |total| - |out|
    {
      var top := stack[|stack| - 1];
      var rest := stack[..|stack| - 1];
      assert stack == rest + [top];
      PopPush(rest, top);
      stack := rest;
      out := out + [Emit(LevelStyle, Visit(top.item, top.level, None))];
      if |top.item.children| > 0 {
        var children := Frames(top.item.children, top.level + 1);
        stack := stack + Reverse(children);
      } else {
        assert Frames(top.item.children, top.level + 1) == [];
        assert Reverse(Frames(top.item.children, top.level + 1)) == [];
        assert rest + [] == rest;
      }
    }
    assert stack == [] && Reverse(stack) == [] && Owed([]) == [];
    assert out == total;
    result := Reverse(out);
    ReversedOwedIsIterOrder(forest);
  }

  /** The stack loop as its comments describe it: the roots are pushed in
      reverse too and the result is not reversed, which yields pre-order. */
  method FlattenIterativePreOrder(forest: seq<Node>) returns (result: seq<Record>)
    ensures result == PreOrder(LevelStyle, forest)
  {
    var out: seq<Record> := [];
    var stack := Reverse(Frames(forest, 1));
    ghost var total := Owed(Reverse(stack));
    while |stack| > 0
      invariant out + Owed(Reverse(stack)) == total
      decreases |total| - |out|
    {
      var top := stack[|stack| - 1];
      var rest := stack[..|stack| - 1];
      assert stack == rest + [top];
      PopPush(rest, top);
      stack := rest;
      out := out + [Emit(LevelStyle, Visit(top.item, top.level, None))];
      if |top.item.children| > 0 {
        var children := Frames(top.item.children, top.level + 1);
        stack := stack + Reverse(children);
      } else {
        assert Frames(top.item.children, top.level + 1) == [];
        assert Reverse(Frames(top.item.children, top.level + 1)) == [];
        assert rest + [] == rest;
      }
    }
    assert stack == [] && Reverse(stack) == [] && Owed([]) == [];
    assert out == total;
    result := out;
    ReverseReverse(Frames(forest, 1));
    OwedFrames(forest, 1);
  }
}
