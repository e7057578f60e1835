/** The menu as mutable objects, for flattenMenuIterative of
    flatten-menu.js, which reverses the `children` array of every node it
    expands, in place.

    A node's `children` is the only field that changes; `id`, `label` and
    the other fields are constants. A ghost snapshot K records every node's
    children list at the start of a call, and a ghost rank (smaller for
    children) makes the tree behind a node well-founded. */
module MenuObjects {
  import opened Menu
  import opened PreOrderFacts
  import opened Flatten

  class MenuNode {
    const id: Option<string>
    const caption: string
    const attrs: Attrs
    var children: seq<MenuNode>

    constructor (id: Option<string>, caption: string, attrs: Attrs, children: seq<MenuNode>)
      ensures this.id == id && this.caption == caption && this.attrs == attrs && this.children == children
    {
      this.id := id;
      this.caption := caption;
      this.attrs := attrs;
      this.children := children;
    }
  }

  /** The children list of every node, as seen at one moment. */
  type Snapshot = map<MenuNode, seq<MenuNode>>

  /** Every node of K is ranked above its children, which are in K too. */
  ghost predicate Ranked(K: Snapshot, rank: map<MenuNode, nat>)
  {
    && (forall n :: n in K ==> n in rank)
    && (forall n, i :: n in K && 0 <= i < |K[n]| ==> K[n][i] in K && rank[K[n][i]] < rank[n])
  }

  ghost predicate AllIn(ns: seq<MenuNode>, K: Snapshot)
  {
    forall x :: x in ns ==> x in K
  }

  /** The heap agrees with the snapshot. */
  ghost predicate Current(K: Snapshot)
    reads K.Keys
  {
    forall n {:trigger n.children} :: n in K ==> n.children == K[n]
  }

  /** Every element occurs once. */
  ghost predicate Distinct<T>(s: seq<T>)
  {
    forall i {:trigger multiset(s)[s[i]]} :: 0 <= i < |s| ==> multiset(s)[s[i]] == 1
  }

  function Max(a: nat, b: nat): nat
  {
    if a < b then b else a
  }

  /** One more than the largest rank in ns (0 when ns is empty). */
  ghost function Bound(rank: map<MenuNode, nat>, ns: seq<MenuNode>): (b: nat)
    requires forall x :: x in ns ==> x in rank
    ensures forall i :: 0 <= i < |ns| ==> rank[ns[i]] < b
  {
    if ns == [] then 0 else Max(rank[ns[0]] + 1, Bound(rank, ns[1..]))
  }

  lemma {:induction false} BoundBelow(rank: map<MenuNode, nat>, ns: seq<MenuNode>, b: nat)
    requires forall x :: x in ns ==> x in rank
    requires forall i :: 0 <= i < |ns| ==> rank[ns[i]] < b
    ensures Bound(rank, ns) <= b
  {
    if ns != [] {
      BoundBelow(rank, ns[1..], b);
    }
  }

  /** The nodes of ns and all their descendants, in pre-order, as objects. */
  ghost function Objs(K: Snapshot, rank: map<MenuNode, nat>, ns: seq<MenuNode>): seq<MenuNode>
    requires Ranked(K, rank) && AllIn(ns, K)
    decreases Bound(rank, ns), |ns|
  {
    if ns == [] then []
    else
      BoundBelow(rank, K[ns[0]], rank[ns[0]]);
      [ns[0]] + Objs(K, rank, K[ns[0]]) + Objs(K, rank, ns[1..])
  }

  /** The value of the tree below n. */
  ghost function Tree(K: Snapshot, rank: map<MenuNode, nat>, n: MenuNode): Node
    requires Ranked(K, rank) && n in K
    decreases rank[n]
  {
    Node(n.id, n.caption, n.attrs, seq(|K[n]|, i requires 0 <= i < |K[n]| => Tree(K, rank, K[n][i])))
  }

  ghost function Trees(K: Snapshot, rank: map<MenuNode, nat>, ns: seq<MenuNode>): (ts: seq<Node>)
    requires Ranked(K, rank) && AllIn(ns, K)
    ensures |ts| == |ns|
  {
    seq(|ns|, i requires 0 <= i < |ns| => Tree(K, rank, ns[i]))
  }

  /** The copy of a node without children, as flatten-menu.js makes it. */
  function NodeRecord(n: MenuNode): Record
  {
    Record(n.id, n.caption, n.attrs, None, NoLink)
  }

  function NodeRecords(ns: seq<MenuNode>): (rs: seq<Record>)
    ensures |rs| == |ns|
  {
    seq(|ns|, i requires 0 <= i < |ns| => NodeRecord(ns[i]))
  }

  lemma NodeRecordsAppend(a: seq<MenuNode>, b: seq<MenuNode>)
    ensures NodeRecords(a + b) == NodeRecords(a) + NodeRecords(b)
  {
  }

  lemma NodeRecordsSnoc(a: seq<MenuNode>, x: MenuNode)
    ensures NodeRecords(a + [x]) == NodeRecords(a) + [NodeRecord(x)]
  {
    NodeRecordsAppend(a, [x]);
  }

  lemma {:induction false} ObjsAppend(K: Snapshot, rank: map<MenuNode, nat>, a: seq<MenuNode>, b: seq<MenuNode>)
    requires Ranked(K, rank) && AllIn(a, K) && AllIn(b, K)
    ensures Objs(K, rank, a + b) == Objs(K, rank, a) + Objs(K, rank, b)
  {
    if a == [] {
      assert a + b == b;
    } else {
      assert (a + b)[0] == a[0] && (a + b)[1..] == a[1..] + b;
      ObjsAppend(K, rank, a[1..], b);
      var head := [a[0]] + Objs(K, rank, K[a[0]]);
      assert Objs(K, rank, a + b) == head + Objs(K, rank, a[1..] + b);
      assert Objs(K, rank, a) == head + Objs(K, rank, a[1..]);
      assert head + (Objs(K, rank, a[1..]) + Objs(K, rank, b)) == (head + Objs(K, rank, a[1..])) + Objs(K, rank, b);
    }
  }

  lemma ObjsSingle(K: Snapshot, rank: map<MenuNode, nat>, n: MenuNode)
    requires Ranked(K, rank) && n in K
    ensures Objs(K, rank, [n]) == [n] + Objs(K, rank, K[n])
  {
    assert [n][1..] == [];
    assert Objs(K, rank, [n]) == [n] + Objs(K, rank, K[n]) + Objs(K, rank, []);
  }

  /** The flat records of the plain style are the node copies in pre-order. */
  lemma {:induction false} ObjsRecords(K: Snapshot, rank: map<MenuNode, nat>, ns: seq<MenuNode>, level: nat, parent: Option<Node>)
    requires Ranked(K, rank) && AllIn(ns, K)
    ensures Records(PlainStyle, Visits(Trees(K, rank, ns), level, parent)) == NodeRecords(Objs(K, rank, ns))
    decreases Bound(rank, ns), |ns|
  {
    if ns != [] {
      var ts := Trees(K, rank, ns);
      var t := Tree(K, rank, ns[0]);
      assert ts[0] == t;
      assert t.children == Trees(K, rank, K[ns[0]]);
      assert ts[1..] == Trees(K, rank, ns[1..]);
      BoundBelow(rank, K[ns[0]], rank[ns[0]]);
      ObjsRecords(K, rank, K[ns[0]], level + 1, Some(t));
      ObjsRecords(K, rank, ns[1..], level, parent);
      RecordsCons(PlainStyle, ts, level, parent);
      NodeRecordsCons(ns[0], Objs(K, rank, K[ns[0]]), Objs(K, rank, ns[1..]));
    }
  }

  /** The records of a non-empty walk: the first node's, then its
      descendants', then its later siblings'. */
  lemma RecordsCons(style: Style, ts: seq<Node>, level: nat, parent: Option<Node>)
    requires ts != []
    ensures Records(style, Visits(ts, level, parent))
            == [Emit(style, Visit(ts[0], level, parent))]
               + Records(style, Visits(ts[0].children, level + 1, Some(ts[0])))
               + Records(style, Visits(ts[1..], level, parent))
  {
    var v := Visit(ts[0], level, parent);
    var A := Visits(ts[0].children, level + 1, Some(ts[0]));
    var B := Visits(ts[1..], level, parent);
    VisitsSplit(ts, level, parent);
    RecordsAppend(style, [v] + A, B);
    RecordsAppend(style, [v], A);
    assert Records(style, [v]) == [Emit(style, v)];
  }

  lemma NodeRecordsCons(x: MenuNode, a: seq<MenuNode>, b: seq<MenuNode>)
    ensures NodeRecords([x] + a + b) == [NodeRecord(x)] + NodeRecords(a) + NodeRecords(b)
  {
    NodeRecordsAppend([x] + a, b);
    NodeRecordsAppend([x], a);
  }

  lemma {:induction false} ObjsReverseMultiset(K: Snapshot, rank: map<MenuNode, nat>, ns: seq<MenuNode>)
    requires Ranked(K, rank) && AllIn(ns, K)
    ensures AllIn(Reverse(ns), K)
    ensures multiset(Objs(K, rank, Reverse(ns))) == multiset(Objs(K, rank, ns))
  {
    ReverseAllIn(ns, K);
    if ns != [] {
      var tail := ns[1..];
      assert AllIn(tail, K) by {
        forall x | x in tail ensures x in K { assert x in ns; }
      }
      ObjsReverseMultiset(K, rank, tail);
      assert Reverse(ns) == Reverse(tail) + [ns[0]];
      ObjsAppend(K, rank, Reverse(tail), [ns[0]]);
      assert ns == [ns[0]] + tail;
      ObjsAppend(K, rank, [ns[0]], tail);
      MultisetSwap(Objs(K, rank, Reverse(tail)), Objs(K, rank, [ns[0]]), Objs(K, rank, tail));
    }
  }

  lemma MultisetSwap<T>(a: seq<T>, b: seq<T>, c: seq<T>)
    requires multiset(a) == multiset(c)
    ensures multiset(a + b) == multiset(b + c)
  {
    assert multiset(a + b) == multiset(a) + multiset(b);
    assert multiset(b + c) == multiset(b) + multiset(c);
  }

  lemma ReverseAllIn(ns: seq<MenuNode>, K: Snapshot)
    requires AllIn(ns, K)
    ensures AllIn(Reverse(ns), K)
  {
    ReverseMultiset(ns);
    forall x | x in Reverse(ns) ensures x in K {
      assert multiset(Reverse(ns))[x] > 0;
    }
  }

  /** The records of one root's objects are its plain pre-order. */
  lemma RootRecords(K: Snapshot, rank: map<MenuNode, nat>, r: MenuNode)
    requires Ranked(K, rank) && r in K
    ensures NodeRecords(Objs(K, rank, [r])) == PreOrder(PlainStyle, [Tree(K, rank, r)])
  {
    ObjsRecords(K, rank, [r], 1, None);
    assert Trees(K, rank, [r]) == [Tree(K, rank, r)];
  }

  /** Reversing what the stack emitted gives, root by root in input order,
      each root's reversed pre-order. */
  lemma {:induction false} ReversedObjsIsIterOrder(K: Snapshot, rank: map<MenuNode, nat>, roots: seq<MenuNode>)
    requires Ranked(K, rank) && AllIn(roots, K)
    ensures AllIn(Reverse(roots), K)
    ensures Reverse(NodeRecords(Objs(K, rank, Reverse(roots)))) == IterOrder(PlainStyle, Trees(K, rank, roots))
  {
    ReverseAllIn(roots, K);
    if roots != [] {
      var r := roots[0];
      var tail := roots[1..];
      ReversedObjsIsIterOrder(K, rank, tail);
      assert Reverse(roots) == Reverse(tail) + [r];
      var A := Objs(K, rank, Reverse(tail));
      var B := Objs(K, rank, [r]);
      ObjsAppend(K, rank, Reverse(tail), [r]);
      NodeRecordsAppend(A, B);
      ReverseAppend(NodeRecords(A), NodeRecords(B));
      RootRecords(K, rank, r);
      var ts := Trees(K, rank, roots);
      assert ts[0] == Tree(K, rank, r);
      assert ts[1..] == Trees(K, rank, tail);
      assert Reverse(NodeRecords(Objs(K, rank, Reverse(roots)))) == Reverse(NodeRecords(B)) + Reverse(NodeRecords(A));
    }
  }

  /** Popping `top` off `rest + [top]` and pushing its reversed children
      leaves owed exactly the objects below `top`, then those of `rest`. */
  lemma PopStep(K: Snapshot, rank: map<MenuNode, nat>, rest: seq<MenuNode>, top: MenuNode)
    requires Ranked(K, rank) && AllIn(rest, K) && top in K
    ensures AllIn(Reverse(rest), K) && AllIn(Reverse(rest + [top]), K)
    ensures AllIn(Reverse(K[top]), K) && AllIn(rest + Reverse(K[top]), K)
    ensures AllIn(Reverse(rest + Reverse(K[top])), K)
    ensures Objs(K, rank, Reverse(rest + [top])) == [top] + Objs(K, rank, K[top]) + Objs(K, rank, Reverse(rest))
    ensures Objs(K, rank, Reverse(rest + Reverse(K[top]))) == Objs(K, rank, K[top]) + Objs(K, rank, Reverse(rest))
  {
    ReverseAllIn(rest, K);
    ReverseAppend(rest, [top]);
    assert Reverse([top]) == [top] by {
      assert [top][1..] == [];
    }
    assert Reverse(rest + [top]) == [top] + Reverse(rest);
    ObjsAppend(K, rank, [top], Reverse(rest));
    ObjsSingle(K, rank, top);
    assert AllIn(K[top], K);
    ReverseAllIn(K[top], K);
    ReverseAppend(rest, Reverse(K[top]));
    ReverseReverse(K[top]);
    ObjsAppend(K, rank, K[top], Reverse(rest));
    ReverseAllIn(rest + Reverse(K[top]), K);
  }

  lemma LastSplit<T>(s: seq<T>)
    requires |s| > 0
    ensures s == s[..|s| - 1] + [s[|s| - 1]]
  {
  }

  /** An element that occurs once, right after `done`, is not in `done`. */
  lemma NotBefore<T>(total: seq<T>, done: seq<T>, x: T, after: seq<T>)
    requires total == done + [x] + after && Distinct(total)
    ensures x !in done
  {
    assert total[|done|] == x;
    assert multiset(total)[x] == multiset(done)[x] + 1 + multiset(after)[x];
  }

  lemma DistinctPermutation<T>(a: seq<T>, b: seq<T>)
    requires multiset(a) == multiset(b) && Distinct(b)
    ensures Distinct(a)
  {
    forall i | 0 <= i < |a| ensures multiset(a)[a[i]] == 1 {
      assert a[i] in multiset(b);
      var j :| 0 <= j < |b| && b[j] == a[i];
    }
  }

  /** One iteration of the stack loop: the popped node was still owed (so
      not yet expanded), and after pushing its reversed children the stack
      owes exactly what remains after it. */
  lemma PopInvariant(K: Snapshot, rank: map<MenuNode, nat>, total: seq<MenuNode>, done: seq<MenuNode>, stack: seq<MenuNode>)
    requires Ranked(K, rank) && |stack| > 0 && AllIn(stack, K)
    requires AllIn(Reverse(stack), K) && done + Objs(K, rank, Reverse(stack)) == total && Distinct(total)
    ensures stack[|stack| - 1] !in done
    ensures var rest := stack[..|stack| - 1];
            var next := rest + Reverse(K[stack[|stack| - 1]]);
            && AllIn(rest, K) && AllIn(next, K) && AllIn(Reverse(next), K)
            && (done + [stack[|stack| - 1]]) + Objs(K, rank, Reverse(next)) == total
  {
    var top := stack[|stack| - 1];
    var rest := stack[..|stack| - 1];
    LastSplit(stack);
    assert AllIn(rest, K);
    PopStep(K, rank, rest, top);
    var below := Objs(K, rank, K[top]);
    var after := Objs(K, rank, Reverse(rest));
    assert total == done + [top] + (below + after);
    NotBefore(total, done, top, below + after);
  }

  /** When the stack is empty, the reversed output is the iterative order
      and every node of the menu has been expanded. */
  lemma Finished(K: Snapshot, rank: map<MenuNode, nat>, roots: seq<MenuNode>, done: seq<MenuNode>)
    requires Ranked(K, rank) && AllIn(roots, K) && AllIn(Reverse(roots), K)
    requires done == Objs(K, rank, Reverse(roots))
    requires forall n :: n in K ==> n in Objs(K, rank, roots)
    ensures Reverse(NodeRecords(done)) == IterOrder(PlainStyle, Trees(K, rank, roots))
    ensures forall n :: n in K ==> n in done
  {
    ReversedObjsIsIterOrder(K, rank, roots);
    ObjsReverseMultiset(K, rank, roots);
    forall n | n in K ensures n in done {
      assert multiset(Objs(K, rank, roots))[n] > 0;
    }
  }

  /** The snapshot in which every children list is reversed. */
  ghost function Reversed(K: Snapshot): Snapshot
  {
    map n | n in K :: Reverse(K[n])
  }

  /** The loop of flattenMenuIterative in flatten-menu.js: pop a node, emit
      its copy, and if it has children reverse its `children` array in place
      and push that array, until the stack is empty. It emits the owed
      objects in order and reverses the children of exactly those. */
  method DrainStack(stack0: seq<MenuNode>, ghost K: Snapshot, ghost rank: map<MenuNode, nat>)
    returns (out: seq<Record>, ghost done: seq<MenuNode>)
    requires Ranked(K, rank) && AllIn(stack0, K) && AllIn(Reverse(stack0), K) && Current(K)
    requires Distinct(Objs(K, rank, Reverse(stack0)))
    modifies K.Keys
    ensures done == Objs(K, rank, Reverse(stack0))
    ensures out == NodeRecords(done)
    ensures forall n {:trigger n.children} :: n in K ==> n.children == if n in done then Reverse(K[n]) else K[n]
  {
    out := [];
    var stack := stack0;
    ghost var total := Objs(K, rank, Reverse(stack));
    done := [];
    while |stack| > 0
      invariant AllIn(stack, K) && AllIn(Reverse(stack), K)
      invariant done + Objs(K, rank, Reverse(stack)) == total
      invariant out == NodeRecords(done)
      invariant forall n {:trigger n.children} :: n in K ==> n.children == if n in done then Reverse(K[n]) else K[n]
      decreases |total| - |done|
    {
      PopInvariant(K, rank, total, done, stack);
      var top := stack[|stack| - 1];
      stack := stack[..|stack| - 1];
      out := out + [NodeRecord(top)];
      NodeRecordsSnoc(done, top);
      if |top.children| > 0 {
        top.children := Reverse(top.children);
        stack := stack + top.children;
      } else {
        assert stack + Reverse(K[top]) == stack;
      }
      done := done + [top];
    }
    assert Reverse(stack) == [];
  }

  /** flattenMenuIterative of flatten-menu.js, as written: a stack of the
      roots, drained as above, and the output reversed at the end. On a
      forest (no node reachable twice) it returns each root's reversed
      pre-order and leaves every node's children reversed. */
  method FlattenIterativeInPlace(roots: seq<MenuNode>, ghost K: Snapshot, ghost rank: map<MenuNode, nat>)
    returns (result: seq<Record>)
    requires Ranked(K, rank) && AllIn(roots, K) && Current(K)
    requires Distinct(Objs(K, rank, roots))
    requires forall n :: n in K ==> n in Objs(K, rank, roots)
    modifies K.Keys
    ensures result == IterOrder(PlainStyle, Trees(K, rank, roots))
    ensures Current(Reversed(K))
  {
    ObjsReverseMultiset(K, rank, roots);
    DistinctPermutation(Objs(K, rank, Reverse(roots)), Objs(K, rank, roots));
    var out;
    ghost var done;
    out, done := DrainStack(roots, K, rank);
    result := Reverse(out);
    Finished(K, rank, roots, done);
  }

  /** Reversing every children list keeps the ranking. */
  lemma RankedReversed(K: Snapshot, rank: map<MenuNode, nat>)
    requires Ranked(K, rank)
    ensures Ranked(Reversed(K), rank)
  {
    var R := Reversed(K);
    forall n, i | n in R && 0 <= i < |R[n]| ensures R[n][i] in R && rank[R[n][i]] < rank[n] {
      ReverseLength(K[n]);
      ReverseAt(K[n], i);
    }
  }

  lemma ReversedTwice(K: Snapshot)
    ensures Reversed(Reversed(K)) == K
  {
    forall n | n in K ensures Reversed(Reversed(K))[n] == K[n] {
      ReverseReverse(K[n]);
    }
  }

  /** Reversing the children lists permutes the walk of every node list. */
  lemma {:induction false} ObjsReversedMultiset(K: Snapshot, rank: map<MenuNode, nat>, ns: seq<MenuNode>)
    requires Ranked(K, rank) && AllIn(ns, K)
    ensures Ranked(Reversed(K), rank) && AllIn(ns, Reversed(K))
    ensures multiset(Objs(Reversed(K), rank, ns)) == multiset(Objs(K, rank, ns))
    decreases Bound(rank, ns), |ns|
  {
    var R := Reversed(K);
    RankedReversed(K, rank);
    if ns != [] {
      var n0 := ns[0];
      BoundBelow(rank, K[n0], rank[n0]);
      assert AllIn(K[n0], K);
      ObjsReversedMultiset(K, rank, K[n0]);
      ObjsReversedMultiset(K, rank, ns[1..]);
      ObjsReverseMultiset(R, rank, K[n0]);
      assert R[n0] == Reverse(K[n0]);
    }
  }

  /** The tree a node heads, with every node's children in reverse order:
      what flattenMenuIterative of flatten-menu.js leaves behind. */
  function Mirror(t: Node): (m: Node)
    ensures m.id == t.id && m.caption == t.caption && m.attrs == t.attrs
    ensures |m.children| == |t.children|
    decreases t
  {
    ReverseLength(MirrorAll(t.children));
    Node(t.id, t.caption, t.attrs, Reverse(MirrorAll(t.children)))
  }

  function MirrorAll(ts: seq<Node>): (ms: seq<Node>)
    ensures |ms| == |ts|
    decreases ts
  {
    seq(|ts|, i requires 0 <= i < |ts| => Mirror(ts[i]))
  }

  /** The tree read through the reversed snapshot is the mirror image of
      the tree read through the original one. */
  lemma MirrorTree(K: Snapshot, rank: map<MenuNode, nat>, n: MenuNode)
    requires Ranked(K, rank) && n in K
    ensures Ranked(Reversed(K), rank) && n in Reversed(K)
    ensures Tree(Reversed(K), rank, n) == Mirror(Tree(K, rank, n))
    decreases rank[n], 1
  {
    RankedReversed(K, rank);
    var R := Reversed(K);
    var t := Tree(K, rank, n);
    var cs := MirrorAll(t.children);
    ReverseLength(cs);
    ReverseLength(K[n]);
    forall i | 0 <= i < |R[n]| ensures Tree(R, rank, n).children[i] == Reverse(cs)[i] {
      MirrorChild(K, rank, n, i);
    }
    assert Tree(R, rank, n).children == Mirror(t).children;
  }

  /** Child i of n in the reversed snapshot is the mirror of child
      |K[n]| - 1 - i in the original. */
  lemma MirrorChild(K: Snapshot, rank: map<MenuNode, nat>, n: MenuNode, i: nat)
    requires Ranked(K, rank) && n in K && i < |K[n]|
    ensures Ranked(Reversed(K), rank) && n in Reversed(K) && |Reverse(MirrorAll(Tree(K, rank, n).children))| == |K[n]|
    ensures |Tree(Reversed(K), rank, n).children| == |K[n]|
    ensures Tree(Reversed(K), rank, n).children[i] == Reverse(MirrorAll(Tree(K, rank, n).children))[i]
    decreases rank[n], 0
  {
    RankedReversed(K, rank);
    var R := Reversed(K);
    var cs := MirrorAll(Tree(K, rank, n).children);
    ReverseLength(cs);
    ReverseLength(K[n]);
    ReverseAt(K[n], i);
    ReverseAt(cs, i);
    var j := |K[n]| - 1 - i;
    var c := K[n][j];
    assert R[n][i] == c;
    assert Tree(R, rank, n).children[i] == Tree(R, rank, c);
    assert cs[j] == Mirror(Tree(K, rank, c));
    MirrorTree(K, rank, c);
  }

  lemma MirrorTrees(K: Snapshot, rank: map<MenuNode, nat>, ns: seq<MenuNode>)
    requires Ranked(K, rank) && AllIn(ns, K)
    ensures Ranked(Reversed(K), rank) && AllIn(ns, Reversed(K))
    ensures Trees(Reversed(K), rank, ns) == MirrorAll(Trees(K, rank, ns))
  {
    RankedReversed(K, rank);
    forall i | 0 <= i < |ns| ensures Trees(Reversed(K), rank, ns)[i] == MirrorAll(Trees(K, rank, ns))[i] {
      MirrorTree(K, rank, ns[i]);
    }
  }

  /** The plain copy of a node. */
  function Copy(n: Node): Record
  {
    Record(n.id, n.caption, n.attrs, None, NoLink)
  }

  /** Post-order of a forest: each node's descendants, children in order,
      then the node itself, then its later siblings. */
  function PostOrder(forest: seq<Node>): seq<Record>
    decreases forest
  {
    if forest == [] then [] else PostOrder(forest[0].children) + [Copy(forest[0])] + PostOrder(forest[1..])
  }

  lemma PreOrderAppend(style: Style, a: seq<Node>, b: seq<Node>)
    ensures PreOrder(style, a + b) == PreOrder(style, a) + PreOrder(style, b)
  {
    VisitsAppend(a, b, 1, None);
    RecordsAppend(style, Visits(a, 1, None), Visits(b, 1, None));
  }

  /** The iterative order is the pre-order of the reversed roots, reversed. */
  lemma {:induction false} ReversedPreOrder(style: Style, xs: seq<Node>)
    ensures Reverse(PreOrder(style, Reverse(xs))) == IterOrder(style, xs)
  {
    if xs != [] {
      ReversedPreOrder(style, xs[1..]);
      assert Reverse(xs) == Reverse(xs[1..]) + [xs[0]];
      PreOrderAppend(style, Reverse(xs[1..]), [xs[0]]);
      ReverseAppend(PreOrder(style, Reverse(xs[1..])), PreOrder(style, [xs[0]]));
    }
  }

  /** The plain pre-order of one tree: its copy, then its children's. */
  lemma PlainSingle(t: Node)
    ensures PreOrder(PlainStyle, [t]) == [Copy(t)] + PreOrder(PlainStyle, t.children)
  {
    VisitsSingle(PlainStyle, t, 1, None);
    RecordsIgnoreContext(PlainStyle, t.children, 2, Some(t), 1, None);
  }

  /** A second run of flattenMenuIterative sees the mirrored forest and
      returns the post-order of the original one. */
  lemma {:induction false} SecondCallIsPostOrder(forest: seq<Node>)
    ensures IterOrder(PlainStyle, MirrorAll(forest)) == PostOrder(forest)
    decreases forest
  {
    if forest != [] {
      var t := forest[0];
      var ms := MirrorAll(forest);
      assert ms[1..] == MirrorAll(forest[1..]);
      SecondCallIsPostOrder(forest[1..]);
      SecondCallIsPostOrder(t.children);
      var cs := MirrorAll(t.children);
      assert Mirror(t).children == Reverse(cs);
      PlainSingle(Mirror(t));
      ReverseAppend([Copy(t)], PreOrder(PlainStyle, Reverse(cs)));
      ReversedPreOrder(PlainStyle, cs);
      assert Reverse([Copy(t)]) == [Copy(t)] by {
        assert [Copy(t)][1..] == [];
      }
    }
  }

  /** On a root with two different leaf children, the first and the second
      run of flattenMenuIterative return different sequences. */
  lemma RepeatedCallsDiffer()
    ensures var a := Node(None, "A", map[], []);
            var b := Node(None, "B", map[], []);
            var forest := [Node(None, "Root", map[], [a, b])];
            && IterOrder(PlainStyle, forest) == [Copy(b), Copy(a), Copy(forest[0])]
            && IterOrder(PlainStyle, MirrorAll(forest)) == [Copy(a), Copy(b), Copy(forest[0])]
            && IterOrder(PlainStyle, forest) != IterOrder(PlainStyle, MirrorAll(forest))
  {
    var a := Node(None, "A", map[], []);
    var b := Node(None, "B", map[], []);
    var r := Node(None, "Root", map[], [a, b]);
    var forest := [r];
    SecondCallIsPostOrder(forest);
    assert PostOrder([a, b]) == [Copy(a), Copy(b)] by {
      assert [a, b][1..] == [b];
      assert PostOrder([b]) == [Copy(b)];
    }
    assert forest[1..] == [];
    assert IterOrder(PlainStyle, MirrorAll(forest)) == [Copy(a), Copy(b), Copy(r)];
    PlainSingle(r);
    PlainSingle(a);
    PlainSingle(b);
    PreOrderAppend(PlainStyle, [a], [b]);
    assert [a] + [b] == [a, b];
    assert PreOrder(PlainStyle, [r]) == [Copy(r), Copy(a), Copy(b)];
    assert Reverse([Copy(r), Copy(a), Copy(b)]) == [Copy(b), Copy(a), Copy(r)] by {
      assert [Copy(b)][1..] == [];
      assert Reverse([Copy(b)]) == [Copy(b)];
      assert [Copy(a), Copy(b)][1..] == [Copy(b)];
      assert Reverse([Copy(a), Copy(b)]) == [Copy(b), Copy(a)];
      assert [Copy(r), Copy(a), Copy(b)][1..] == [Copy(a), Copy(b)];
    }
    assert IterOrder(PlainStyle, forest) == Reverse(PreOrder(PlainStyle, [r])) + IterOrder(PlainStyle, []);
    assert Copy(a) != Copy(b);
  }

  /** Running flattenMenuIterative of flatten-menu.js twice on the same
      menu: the first run returns the iterative order, the second the
      post-order, and the children arrays end up as they started. */
  method FlattenIterativeTwice(roots: seq<MenuNode>, ghost K: Snapshot, ghost rank: map<MenuNode, nat>)
    returns (first: seq<Record>, second: seq<Record>)
    requires Ranked(K, rank) && AllIn(roots, K) && Current(K)
    requires Distinct(Objs(K, rank, roots))
    requires forall n :: n in K ==> n in Objs(K, rank, roots)
    modifies K.Keys
    ensures first == IterOrder(PlainStyle, Trees(K, rank, roots))
    ensures second == PostOrder(Trees(K, rank, roots))
    ensures Current(K)
  {
    first := FlattenIterativeInPlace(roots, K, rank);
    ObjsReversedMultiset(K, rank, roots);
    DistinctPermutation(Objs(Reversed(K), rank, roots), Objs(K, rank, roots));
    forall n | n in Reversed(K) ensures n in Objs(Reversed(K), rank, roots) {
      assert multiset(Objs(K, rank, roots))[n] > 0;
    }
    second := FlattenIterativeInPlace(roots, Reversed(K), rank);
    MirrorTrees(K, rank, roots);
    SecondCallIsPostOrder(Trees(K, rank, roots));
    ReversedTwice(K);
  }

  /** The invariant of the copying loop: the objects already emitted,
      then those the stack still owes, make up `total`. */
  ghost predicate Draining(K: Snapshot, rank: map<MenuNode, nat>, total: seq<MenuNode>, done: seq<MenuNode>,
                           stack: seq<MenuNode>, out: seq<Record>)
  {
    && Ranked(K, rank) && AllIn(stack, K) && AllIn(Reverse(stack), K)
    && done + Objs(K, rank, Reverse(stack)) == total
    && out == NodeRecords(done)
  }

  /** One turn of the copying loop. */
  lemma CopyStep(K: Snapshot, rank: map<MenuNode, nat>, total: seq<MenuNode>, done: seq<MenuNode>,
                 stack: seq<MenuNode>, out: seq<Record>)
    requires Draining(K, rank, total, done, stack, out) && |stack| > 0
    ensures stack[|stack| - 1] in K && |done| < |total|
    ensures Draining(K, rank, total, done + [stack[|stack| - 1]],
                     stack[..|stack| - 1] + Reverse(K[stack[|stack| - 1]]), out + [NodeRecord(stack[|stack| - 1])])
  {
    var top := stack[|stack| - 1];
    var rest := stack[..|stack| - 1];
    LastSplit(stack);
    assert AllIn(rest, K);
    PopStep(K, rank, rest, top);
    NodeRecordsSnoc(done, top);
    assert done + [top] + Objs(K, rank, Reverse(rest + Reverse(K[top]))) == total;
  }

  /** The loop of the copying variant: pop a node, emit its copy, push a
      reversed copy of its children; the heap is only read. */
  method DrainCopying(stack0: seq<MenuNode>, ghost K: Snapshot, ghost rank: map<MenuNode, nat>)
    returns (out: seq<Record>)
    requires Ranked(K, rank) && AllIn(stack0, K) && AllIn(Reverse(stack0), K) && Current(K)
    ensures out == NodeRecords(Objs(K, rank, Reverse(stack0)))
  {
    out := [];
    var stack := stack0;
    ghost var total := Objs(K, rank, Reverse(stack));
    ghost var done: seq<MenuNode> := [];
    while |stack| > 0
      invariant Draining(K, rank, total, done, stack, out)
      decreases |total| - |done|
    {
      var top := stack[|stack| - 1];
      CopyStep(K, rank, total, done, stack, out);
      out := out + [NodeRecord(top)];
      stack := stack[..|stack| - 1] + Reverse(top.children);
      done := done + [top];
    }
    assert Reverse(stack) == [];
  }

  /** flattenMenuIterative as its comments intend: the copies in pre-order,
      with the input left as it was. The stack starts with the roots
      reversed and each node pushes a reversed copy of its children. */
  method FlattenIterativeCopying(roots: seq<MenuNode>, ghost K: Snapshot, ghost rank: map<MenuNode, nat>)
    returns (result: seq<Record>)
    requires Ranked(K, rank) && AllIn(roots, K) && Current(K)
    ensures result == PreOrder(PlainStyle, Trees(K, rank, roots))
  {
    ReverseAllIn(roots, K);
    ReverseAllIn(Reverse(roots), K);
    ReverseReverse(roots);
    result := DrainCopying(Reverse(roots), K, rank);
    ObjsRecords(K, rank, roots, 1, None);
  }
}
