/** Queries over a flattened menu (the flat sequence only, never the tree):
    lookup by id, the children filter, breadth-first descendants and the
    grouping by level. */
module Queries {
  import opened Menu

  /** The `parentId` field of a record; undefined (None) on roots and on
      records made by styles without parent ids. */
  function ParentIdOf(r: Record): Option<string>
  {
    match r.link
    case ParentRef(pid, _) => pid
    case _ => None
  }

  /** `a` is `b` with some elements left out, the rest in the same order. */
  ghost predicate Subsequence<T>(a: seq<T>, b: seq<T>)
    decreases |b|
  {
    a == [] || (b != [] && if a[0] == b[0] then Subsequence(a[1..], b[1..]) else Subsequence(a, b[1..]))
  }

  /** findItemById: the first record, in sequence order, whose id is `id`;
      None (undefined) when there is none. */
  function FindById(flat: seq<Record>, id: string): (found: Option<Record>)
    ensures found.None? <==> forall k :: 0 <= k < |flat| ==> flat[k].id != Some(id)
    ensures found.Some? ==>
              exists k :: 0 <= k < |flat| && flat[k] == found.value && found.value.id == Some(id)
                          && forall j :: 0 <= j < k ==> flat[j].id != Some(id)
  {
    if flat == [] then None
    else if flat[0].id == Some(id) then Some(flat[0])
    else
      var rest := FindById(flat[1..], id);
      assert rest.Some? ==> exists k :: 1 <= k < |flat| && flat[k] == rest.value && forall j :: 0 <= j < k ==> flat[j].id != Some(id) by {
        if rest.Some? {
          var k' :| 0 <= k' < |flat| - 1 && flat[1..][k'] == rest.value && rest.value.id == Some(id)
                    && forall j :: 0 <= j < k' ==> flat[1..][j].id != Some(id);
          assert forall j :: 0 <= j < k' + 1 ==> flat[j].id != Some(id) by {
            forall j | 0 <= j < k' + 1 ensures flat[j].id != Some(id) {
              if j > 0 { assert flat[j] == flat[1..][j - 1]; }
            }
          }
        }
      }
      rest
  }

  /** `flat.filter(item => item.parentId === parentId)`. */
  function ChildrenOf(flat: seq<Record>, parentId: Option<string>): seq<Record>
  {
    if flat == [] then []
    else (if ParentIdOf(flat[0]) == parentId then [flat[0]] else []) + ChildrenOf(flat[1..], parentId)
  }

  /** The filter keeps every record whose parentId is `parentId`, as often as
      it occurs, drops every other one, and keeps the sequence order. */
  lemma {:induction false} ChildrenOfIsFilter(flat: seq<Record>, parentId: Option<string>)
    ensures forall x :: multiset(ChildrenOf(flat, parentId))[x] == if ParentIdOf(x) == parentId then multiset(flat)[x] else 0
    ensures Subsequence(ChildrenOf(flat, parentId), flat)
  {
    ChildrenOfMultiset(flat, parentId);
    ChildrenOfSubsequence(flat, parentId);
  }

  lemma {:induction false} ChildrenOfMultiset(flat: seq<Record>, parentId: Option<string>)
    ensures forall x :: multiset(ChildrenOf(flat, parentId))[x] == if ParentIdOf(x) == parentId then multiset(flat)[x] else 0
  {
    if flat != [] {
      var head := if ParentIdOf(flat[0]) == parentId then [flat[0]] else [];
      ChildrenOfMultiset(flat[1..], parentId);
      assert flat == [flat[0]] + flat[1..];
      assert multiset(flat) == multiset([flat[0]]) + multiset(flat[1..]);
      assert multiset(ChildrenOf(flat, parentId)) == multiset(head) + multiset(ChildrenOf(flat[1..], parentId));
    }
  }

  lemma {:induction false} ChildrenOfSubsequence(flat: seq<Record>, parentId: Option<string>)
    ensures Subsequence(ChildrenOf(flat, parentId), flat)
  {
    if flat != [] {
      var rest := ChildrenOf(flat[1..], parentId);
      ChildrenOfSubsequence(flat[1..], parentId);
      if ParentIdOf(flat[0]) == parentId {
        assert ChildrenOf(flat, parentId) == [flat[0]] + rest;
        assert ([flat[0]] + rest)[1..] == rest;
      } else {
        assert ChildrenOf(flat, parentId) == rest;
        if rest != [] {
          ChildrenOfMultiset(flat[1..], parentId);
          assert multiset(rest)[rest[0]] > 0;
          assert rest[0] != flat[0];
        }
      }
    }
  }

  lemma ChildrenMember(flat: seq<Record>, parentId: Option<string>, x: Record)
    ensures x in ChildrenOf(flat, parentId) <==> x in flat && ParentIdOf(x) == parentId
  {
    ChildrenOfIsFilter(flat, parentId);
    assert x in ChildrenOf(flat, parentId) <==> multiset(ChildrenOf(flat, parentId))[x] > 0;
    assert x in flat <==> multiset(flat)[x] > 0;
  }

  /** Every record has an id, no two records share one, and every parentId
      names a record that comes earlier. A flattened forest whose ids are
      present and unique has this shape (lemma Links.WithIdsIsWellLinked). */
  ghost predicate WellLinked(flat: seq<Record>)
  {
    && (forall k :: 0 <= k < |flat| ==> flat[k].id.Some?)
    && (forall i, j :: 0 <= i < j < |flat| ==> flat[i].id != flat[j].id)
    && (forall k {:trigger ParentIdOf(flat[k])} :: 0 <= k < |flat| && ParentIdOf(flat[k]).Some? ==>
          exists j :: 0 <= j < k && flat[j].id == ParentIdOf(flat[k]))
  }

  /** Every record comes after every record its parentId names. This rules
      out parent cycles, so the queue of the breadth-first search runs dry; it
      is a sufficient condition, stronger than termination needs. */
  ghost predicate ParentsEarlier(flat: seq<Record>)
  {
    forall kr, kc :: 0 <= kr < |flat| && 0 <= kc < |flat| && flat[kr].id == ParentIdOf(flat[kc]) ==> kr < kc
  }

  /** The parent chain of the record at k reaches the record with id p. */
  ghost predicate Reaches(flat: seq<Record>, k: nat, p: string)
    decreases k
  {
    k < |flat| &&
    (ParentIdOf(flat[k]) == Some(p)
     || exists j :: 0 <= j < k && flat[j].id == ParentIdOf(flat[k]) && Reaches(flat, j, p))
  }

  /** The ids of a run of records, as the queue receives them. */
  function Ids(rs: seq<Record>): (ids: seq<Option<string>>)
    ensures |ids| == |rs|
    ensures forall t :: 0 <= t < |rs| ==> ids[t] == rs[t].id
  {
    if rs == [] then [] else [rs[0].id] + Ids(rs[1..])
  }

  /** The children of every id in `qs`, in queue order. */
  function Expand(flat: seq<Record>, qs: seq<Option<string>>): seq<Record>
  {
    if qs == [] then [] else ChildrenOf(flat, qs[0]) + Expand(flat, qs[1..])
  }

  /** The ids at breadth-first distance g below p (layer 0 is p itself). */
  function Layer(flat: seq<Record>, p: string, g: nat): seq<Option<string>>
  {
    if g == 0 then [Some(p)] else Ids(Expand(flat, Layer(flat, p, g - 1)))
  }

  /** The records of the first n layers below p, layer by layer. */
  function UpTo(flat: seq<Record>, p: string, n: nat): seq<Record>
  {
    if n == 0 then [] else UpTo(flat, p, n - 1) + Expand(flat, Layer(flat, p, n - 1))
  }

  /** Breadth-first descendants of p: all layers (none lies deeper than
      |flat| when the sequence is well linked). */
  function Descendants(flat: seq<Record>, p: string): seq<Record>
  {
    UpTo(flat, p, |flat| + 1)
  }

  lemma {:induction false} ExpandAppend(flat: seq<Record>, a: seq<Option<string>>, b: seq<Option<string>>)
    ensures Expand(flat, a + b) == Expand(flat, a) + Expand(flat, b)
  {
    if a == [] {
      assert a + b == b;
    } else {
      assert (a + b)[1..] == a[1..] + b;
      ExpandAppend(flat, a[1..], b);
    }
  }

  lemma {:induction false} ExpandMember(flat: seq<Record>, qs: seq<Option<string>>, c: Record)
    ensures c in Expand(flat, qs) <==> exists i :: 0 <= i < |qs| && c in ChildrenOf(flat, qs[i])
  {
    if qs != [] {
      ExpandMember(flat, qs[1..], c);
      if exists i :: 0 <= i < |qs| && c in ChildrenOf(flat, qs[i]) {
        var i :| 0 <= i < |qs| && c in ChildrenOf(flat, qs[i]);
        if i > 0 { assert qs[1..][i - 1] == qs[i]; }
      }
      if exists i :: 0 <= i < |qs| - 1 && c in ChildrenOf(flat, qs[1..][i]) {
        var i :| 0 <= i < |qs| - 1 && c in ChildrenOf(flat, qs[1..][i]);
        assert qs[1..][i] == qs[i + 1];
      }
    }
  }

  lemma IdsMember(rs: seq<Record>, x: Option<string>)
    requires x in Ids(rs)
    ensures exists t :: 0 <= t < |rs| && rs[t].id == x
  {
    var t :| 0 <= t < |rs| && Ids(rs)[t] == x;
  }

  lemma IdsAppend(a: seq<Record>, b: seq<Record>)
    ensures Ids(a + b) == Ids(a) + Ids(b)
  {
    assert |Ids(a + b)| == |Ids(a) + Ids(b)|;
    forall t | 0 <= t < |a + b| ensures Ids(a + b)[t] == (Ids(a) + Ids(b))[t] {
      if t >= |a| { assert (a + b)[t] == b[t - |a|]; }
    }
  }

  /** A record of Expand(qs) is a record of `flat` whose parentId is in qs. */
  lemma ExpandedParent(flat: seq<Record>, qs: seq<Option<string>>, c: Record)
    requires c in Expand(flat, qs)
    ensures c in flat && ParentIdOf(c) in qs
  {
    ExpandMember(flat, qs, c);
    var i :| 0 <= i < |qs| && c in ChildrenOf(flat, qs[i]);
    ChildrenMember(flat, qs[i], c);
  }

  /** In a well-linked sequence a record comes after the record named by its
      parentId. */
  lemma ChildAfterParent(flat: seq<Record>, kq: nat, kc: nat)
    requires WellLinked(flat) && kq < |flat| && kc < |flat|
    requires ParentIdOf(flat[kc]) == flat[kq].id
    ensures kq < kc
  {
    var j :| 0 <= j < kc && flat[j].id == ParentIdOf(flat[kc]);
    assert j == kq;
  }

  /** Every id of layer g >= 1 is the id of a record at index g - 1 or later,
      so a non-empty layer g lies within |flat|. */
  lemma {:induction false} LayerBound(flat: seq<Record>, p: string, g: nat)
    requires ParentsEarlier(flat) && g >= 1
    ensures forall x :: x in Layer(flat, p, g) ==> exists k :: g - 1 <= k < |flat| && flat[k].id == x
    ensures Layer(flat, p, g) != [] ==> g <= |flat|
  {
    if g > 1 { LayerBound(flat, p, g - 1); }
    var prev := Layer(flat, p, g - 1);
    forall x | x in Layer(flat, p, g) ensures exists k :: g - 1 <= k < |flat| && flat[k].id == x {
      var E := Expand(flat, prev);
      IdsMember(E, x);
      var t :| 0 <= t < |E| && E[t].id == x;
      ExpandedParent(flat, prev, E[t]);
      var kc :| 0 <= kc < |flat| && flat[kc] == E[t];
      if g > 1 {
        var kq :| g - 2 <= kq < |flat| && flat[kq].id == ParentIdOf(E[t]);
        assert kq < kc;
      }
    }
    if Layer(flat, p, g) != [] {
      assert Layer(flat, p, g)[0] in Layer(flat, p, g);
    }
  }

  /** Once a layer is empty, so is every deeper one, and no records follow. */
  lemma {:induction false} UpToStable(flat: seq<Record>, p: string, m: nat, n: nat)
    requires m <= n && Layer(flat, p, m) == []
    ensures Layer(flat, p, n) == [] && UpTo(flat, p, n) == UpTo(flat, p, m)
    decreases n
  {
    if n > m {
      UpToStable(flat, p, m, n - 1);
      assert Expand(flat, Layer(flat, p, n - 1)) == [];
    }
  }

  /** Moving from the first i ids of L to the first i + 1 adds the
      children of L[i] to the records and their ids to the queue's tail. */
  lemma ConsumeOne(flat: seq<Record>, L: seq<Option<string>>, i: nat)
    requires i < |L|
    ensures Expand(flat, L[..i + 1]) == Expand(flat, L[..i]) + ChildrenOf(flat, L[i])
    ensures Ids(Expand(flat, L[..i + 1])) == Ids(Expand(flat, L[..i])) + Ids(ChildrenOf(flat, L[i]))
  {
    assert L[..i + 1] == L[..i] + [L[i]];
    ExpandAppend(flat, L[..i], [L[i]]);
    assert Expand(flat, [L[i]]) == ChildrenOf(flat, L[i]) + Expand(flat, []);
    IdsAppend(Expand(flat, L[..i]), ChildrenOf(flat, L[i]));
  }

  lemma UpToNext(flat: seq<Record>, p: string, g: nat)
    ensures UpTo(flat, p, g + 1) == UpTo(flat, p, g) + Expand(flat, Layer(flat, p, g))
    ensures Layer(flat, p, g + 1) == Ids(Expand(flat, Layer(flat, p, g)))
  {
  }

  lemma Associate<T>(a: seq<T>, b: seq<T>, c: seq<T>)
    ensures (a + b) + c == a + (b + c)
  {
  }

  /** Dequeuing the head of `L[i..] + A` and enqueuing C. */
  lemma Dequeue<T>(L: seq<T>, i: nat, A: seq<T>, C: seq<T>, queue: seq<T>)
    requires i < |L| && queue == L[i..] + A
    ensures queue != [] && queue[0] == L[i]
    ensures queue[1..] + C == L[i + 1..] + (A + C)
  {
    assert L[i..] == [L[i]] + L[i + 1..];
    assert queue[1..] == L[i + 1..] + A;
  }

  /** The state of findDescendants' loop after the first i ids of layer g
      have been dequeued: the queue holds the rest of layer g followed by
      the ids of the children found so far, and the result holds the
      records of the layers before g followed by those children. */
  ghost predicate QueueState(flat: seq<Record>, p: string, g: nat, i: nat,
                             queue: seq<Option<string>>, descendants: seq<Record>)
  {
    var L := Layer(flat, p, g);
    && g <= |flat| + 1 && i <= |L|
    && queue == L[i..] + Ids(Expand(flat, L[..i]))
    && descendants == UpTo(flat, p, g) + Expand(flat, L[..i])
  }

  lemma QueueStart(flat: seq<Record>, p: string)
    ensures QueueState(flat, p, 0, 0, [Some(p)], [])
  {
    var L := Layer(flat, p, 0);
    assert L[0..] == L && L[..0] == [];
  }

  /** When layer g is used up and the queue is not empty, the queue holds
      exactly layer g + 1, which lies within |flat|. */
  lemma QueueAdvance(flat: seq<Record>, p: string, g: nat, queue: seq<Option<string>>, descendants: seq<Record>)
    requires ParentsEarlier(flat) && queue != []
    requires QueueState(flat, p, g, |Layer(flat, p, g)|, queue, descendants)
    ensures Layer(flat, p, g + 1) != [] && QueueState(flat, p, g + 1, 0, queue, descendants)
  {
    var L := Layer(flat, p, g);
    assert L[..|L|] == L && L[|L|..] == [];
    UpToNext(flat, p, g);
    var N := Layer(flat, p, g + 1);
    assert queue == N;
    assert N[..0] == [] && N[0..] == N;
    LayerBound(flat, p, g + 1);
  }

  /** Dequeuing the next id of layer g and taking its children. */
  lemma QueueConsume(flat: seq<Record>, p: string, g: nat, i: nat, queue: seq<Option<string>>, descendants: seq<Record>)
    requires QueueState(flat, p, g, i, queue, descendants) && i < |Layer(flat, p, g)|
    ensures queue != [] && queue[0] == Layer(flat, p, g)[i]
    ensures QueueState(flat, p, g, i + 1, queue[1..] + Ids(ChildrenOf(flat, queue[0])),
                       descendants + ChildrenOf(flat, queue[0]))
  {
    var L := Layer(flat, p, g);
    var D := Expand(flat, L[..i]);
    var C := ChildrenOf(flat, L[i]);
    ConsumeOne(flat, L, i);
    Dequeue(L, i, Ids(D), Ids(C), queue);
    Associate(UpTo(flat, p, g), D, C);
  }

  /** One turn of the loop: dequeue an id, moving on to the next layer when
      the current one is used up. */
  lemma QueueStep(flat: seq<Record>, p: string, g: nat, i: nat, queue: seq<Option<string>>, descendants: seq<Record>)
    returns (g': nat, i': nat)
    requires ParentsEarlier(flat) && queue != [] && QueueState(flat, p, g, i, queue, descendants)
    ensures (g' == g && i' == i + 1) || (g' == g + 1 && i' == 1)
    ensures QueueState(flat, p, g', i', queue[1..] + Ids(ChildrenOf(flat, queue[0])),
                       descendants + ChildrenOf(flat, queue[0]))
  {
    if i == |Layer(flat, p, g)| {
      QueueAdvance(flat, p, g, queue, descendants);
      QueueConsume(flat, p, g + 1, 0, queue, descendants);
      g', i' := g + 1, 1;
    } else {
      QueueConsume(flat, p, g, i, queue, descendants);
      g', i' := g, i + 1;
    }
  }

  /** No layer lies deeper than |flat|. */
  lemma DeepestLayer(flat: seq<Record>, p: string)
    requires ParentsEarlier(flat)
    ensures Layer(flat, p, |flat| + 1) == []
  {
    LayerBound(flat, p, |flat| + 1);
  }

  /** An empty queue means every layer has been taken. */
  lemma QueueFinish(flat: seq<Record>, p: string, g: nat, i: nat, descendants: seq<Record>)
    requires ParentsEarlier(flat) && QueueState(flat, p, g, i, [], descendants)
    ensures descendants == Descendants(flat, p)
  {
    var L := Layer(flat, p, g);
    assert L[..i] == L;
    UpToNext(flat, p, g);
    assert descendants == UpTo(flat, p, g + 1);
    if g + 1 <= |flat| + 1 {
      UpToStable(flat, p, g + 1, |flat| + 1);
    } else {
      DeepestLayer(flat, p);
      UpToStable(flat, p, |flat| + 1, g + 1);
    }
  }

  /** findDescendants: a FIFO queue that starts with p; for each dequeued id,
      append the records whose parentId is that id and enqueue their ids.
      The result is the breadth-first layering of the records below p. */
  method FindDescendants(flat: seq<Record>, p: string) returns (descendants: seq<Record>)
    requires ParentsEarlier(flat)
    ensures descendants == Descendants(flat, p)
  {
    descendants := [];
    var queue := [Some(p)];
    ghost var g: nat := 0;   // the layer being dequeued
    ghost var i: nat := 0;   // how many of its ids have been dequeued
    QueueStart(flat, p);
    while |queue| > 0
      invariant QueueState(flat, p, g, i, queue, descendants)
      decreases |flat| + 1 - g, |Layer(flat, p, g)| - i
    {
      ghost var g', i' := QueueStep(flat, p, g, i, queue, descendants);
      var currentId := queue[0];
      queue := queue[1..];
      var children := ChildrenOf(flat, currentId);
      descendants := descendants + children;
      queue := queue + Ids(children);
      g, i := g', i';
    }
    QueueFinish(flat, p, g, i, descendants);
  }

  lemma IdsOfMember(rs: seq<Record>, c: Record)
    requires c in rs
    ensures c.id in Ids(rs)
  {
    var t :| 0 <= t < |rs| && rs[t] == c;
    assert Ids(rs)[t] == c.id;
  }

  lemma {:induction false} UpToMember(flat: seq<Record>, p: string, n: nat, c: Record) returns (g: nat)
    requires c in UpTo(flat, p, n)
    ensures g < n && c in Expand(flat, Layer(flat, p, g))
  {
    if c in Expand(flat, Layer(flat, p, n - 1)) {
      g := n - 1;
    } else {
      g := UpToMember(flat, p, n - 1, c);
    }
  }

  lemma {:induction false} UpToContains(flat: seq<Record>, p: string, n: nat, g: nat, c: Record)
    requires g < n && c in Expand(flat, Layer(flat, p, g))
    ensures c in UpTo(flat, p, n)
  {
    var last := Expand(flat, Layer(flat, p, n - 1));
    assert UpTo(flat, p, n) == UpTo(flat, p, n - 1) + last;
    if g < n - 1 {
      UpToContains(flat, p, n - 1, g, c);
    } else {
      assert c in last;
    }
  }

  lemma {:induction false} UpToPrefix(flat: seq<Record>, p: string, m: nat, n: nat)
    requires m <= n
    ensures UpTo(flat, p, m) <= UpTo(flat, p, n)
  {
    if m < n {
      UpToPrefix(flat, p, m, n - 1);
      PrefixExtend(UpTo(flat, p, m), UpTo(flat, p, n - 1), Expand(flat, Layer(flat, p, n - 1)));
    }
  }

  lemma PrefixExtend<T>(a: seq<T>, b: seq<T>, c: seq<T>)
    requires a <= b
    ensures a <= b + c
  {
    assert (b + c)[..|a|] == b[..|a|];
  }

  /** Every record of a layer is a record of `flat` whose parent chain
      reaches p. */
  lemma {:induction false} ExpandedReaches(flat: seq<Record>, p: string, g: nat, c: Record) returns (kc: nat)
    requires ParentsEarlier(flat) && c in Expand(flat, Layer(flat, p, g))
    ensures kc < |flat| && flat[kc] == c && Reaches(flat, kc, p)
  {
    if g == 0 {
      kc := FirstLayerReaches(flat, p, c);
    } else {
      var h := g - 1;
      var d := ParentInLayer(flat, p, h, c);
      var kr := ExpandedReaches(flat, p, h, d);
      kc := IndexOf(flat, c);
      ReachesStep(flat, p, kr, kc);
    }
  }

  lemma FirstLayerReaches(flat: seq<Record>, p: string, c: Record) returns (kc: nat)
    requires c in Expand(flat, Layer(flat, p, 0))
    ensures kc < |flat| && flat[kc] == c && Reaches(flat, kc, p)
  {
    ExpandedParent(flat, Layer(flat, p, 0), c);
    kc := IndexOf(flat, c);
    assert ParentIdOf(c) == Some(p);
  }

  lemma IndexOf(flat: seq<Record>, c: Record) returns (k: nat)
    requires c in flat
    ensures k < |flat| && flat[k] == c
  {
    k :| 0 <= k < |flat| && flat[k] == c;
  }

  /** A record of layer h + 1 is a record of `flat` whose parent is among
      the records of layer h. */
  lemma ParentInLayer(flat: seq<Record>, p: string, h: nat, c: Record) returns (d: Record)
    requires c in Expand(flat, Layer(flat, p, h + 1))
    ensures c in flat && d in Expand(flat, Layer(flat, p, h)) && d.id == ParentIdOf(c)
  {
    var E := Expand(flat, Layer(flat, p, h));
    ExpandedParent(flat, Layer(flat, p, h + 1), c);
    IdsMember(E, ParentIdOf(c));
    var t :| 0 <= t < |E| && E[t].id == ParentIdOf(c);
    d := E[t];
  }

  /** The parent chain of a record continues through its parent's. */
  lemma ReachesStep(flat: seq<Record>, p: string, kr: nat, kc: nat)
    requires ParentsEarlier(flat) && kr < |flat| && kc < |flat|
    requires flat[kr].id == ParentIdOf(flat[kc]) && Reaches(flat, kr, p)
    ensures Reaches(flat, kc, p)
  {
    assert kr < kc;
  }

  lemma WellLinkedParentsEarlier(flat: seq<Record>)
    requires WellLinked(flat)
    ensures ParentsEarlier(flat)
  {
    forall kr, kc | 0 <= kr < |flat| && 0 <= kc < |flat| && flat[kr].id == ParentIdOf(flat[kc]) ensures kr < kc {
      ChildAfterParent(flat, kr, kc);
    }
  }

  /** A child of a record of layer g lies in layer g + 1, which is still
      shallower than |flat|. */
  lemma NextLayerChild(flat: seq<Record>, p: string, g: nat, j: nat, k: nat) returns (g': nat)
    requires ParentsEarlier(flat) && j < |flat| && k < |flat|
    requires flat[j] in Expand(flat, Layer(flat, p, g)) && ParentIdOf(flat[k]) == flat[j].id
    ensures g' == g + 1 && g' < |flat| && flat[k] in Expand(flat, Layer(flat, p, g'))
  {
    g' := g + 1;
    IdsOfMember(Expand(flat, Layer(flat, p, g)), flat[j]);
    var next := Layer(flat, p, g + 1);
    assert next == Ids(Expand(flat, Layer(flat, p, g)));
    var i :| 0 <= i < |next| && next[i] == flat[j].id;
    ChildrenMember(flat, flat[j].id, flat[k]);
    ExpandMember(flat, next, flat[k]);
    IdsOfMember(Expand(flat, next), flat[k]);
    LayerBound(flat, p, g + 2);
  }

  /** The next link of a parent chain that does not end at p directly. */
  lemma ChainStep(flat: seq<Record>, p: string, k: nat) returns (j: nat)
    requires Reaches(flat, k, p) && ParentIdOf(flat[k]) != Some(p)
    ensures j < k && flat[j].id == ParentIdOf(flat[k]) && Reaches(flat, j, p)
  {
    j :| 0 <= j < k && flat[j].id == ParentIdOf(flat[k]) && Reaches(flat, j, p);
  }

  lemma DirectChild(flat: seq<Record>, p: string, k: nat) returns (g: nat)
    requires k < |flat| && ParentIdOf(flat[k]) == Some(p)
    ensures g == 0 && g < |flat| && flat[k] in Expand(flat, Layer(flat, p, g))
  {
    g := 0;
    ChildrenMember(flat, Some(p), flat[k]);
    UpToOne(flat, p);
    assert Expand(flat, Layer(flat, p, 0)) == UpTo(flat, p, 1);
  }

  /** Every record whose parent chain reaches p lies in a layer, and that
      layer is shallower than |flat|. */
  lemma {:induction false} ReachesExpanded(flat: seq<Record>, p: string, k: nat) returns (g: nat)
    requires ParentsEarlier(flat) && Reaches(flat, k, p)
    ensures g < |flat| && flat[k] in Expand(flat, Layer(flat, p, g))
    decreases k
  {
    if ParentIdOf(flat[k]) == Some(p) {
      g := DirectChild(flat, p, k);
    } else {
      var j := ChainStep(flat, p, k);
      var h := ReachesExpanded(flat, p, j);
      g := NextLayerChild(flat, p, h, j, k);
    }
  }

  /** A record whose parent chain reaches p comes after p's own record. */
  lemma {:induction false} ReachesAfter(flat: seq<Record>, p: string, k: nat)
    requires ParentsEarlier(flat) && Reaches(flat, k, p)
    ensures forall i :: 0 <= i < |flat| && flat[i].id == Some(p) ==> i < k
    decreases k
  {
    if ParentIdOf(flat[k]) == Some(p) {
      forall i | 0 <= i < |flat| && flat[i].id == Some(p) ensures i < k {
        assert i < k;
      }
    } else {
      var j := ChainStep(flat, p, k);
      ReachesAfter(flat, p, j);
    }
  }

  /** The first layer is the direct children of p. */
  lemma UpToOne(flat: seq<Record>, p: string)
    ensures UpTo(flat, p, 1) == ChildrenOf(flat, Some(p))
  {
    assert Layer(flat, p, 0) == [Some(p)];
    assert Expand(flat, [Some(p)]) == ChildrenOf(flat, Some(p)) + Expand(flat, []);
  }

  lemma DescendantSound(flat: seq<Record>, p: string, k: nat)
    requires ParentsEarlier(flat) && k < |flat| && flat[k] in UpTo(flat, p, |flat| + 1)
    ensures Reaches(flat, k, p)
  {
    var g := UpToMember(flat, p, |flat| + 1, flat[k]);
    var k' := ExpandedReaches(flat, p, g, flat[k]);
    ReachesSameRecord(flat, p, k, k');
  }

  /** Equal records reach p together: their parents precede both. */
  lemma ReachesSameRecord(flat: seq<Record>, p: string, k: nat, k': nat)
    requires ParentsEarlier(flat) && k < |flat| && k' < |flat| && flat[k] == flat[k'] && Reaches(flat, k', p)
    ensures Reaches(flat, k, p)
  {
    if ParentIdOf(flat[k']) != Some(p) {
      var j := ChainStep(flat, p, k');
      assert j < k;
    }
  }

  lemma DescendantComplete(flat: seq<Record>, p: string, k: nat)
    requires ParentsEarlier(flat) && Reaches(flat, k, p)
    ensures flat[k] in UpTo(flat, p, |flat| + 1)
  {
    var g := ReachesExpanded(flat, p, k);
    UpToContains(flat, p, |flat| + 1, g, flat[k]);
  }

  /** findDescendants returns exactly the records whose parent chain reaches
      p, never p itself, with p's direct children, in sequence order, first. */
  lemma DescendantsAreReachers(flat: seq<Record>, p: string)
    requires ParentsEarlier(flat)
    ensures forall k :: 0 <= k < |flat| ==> (flat[k] in Descendants(flat, p) <==> Reaches(flat, k, p))
    ensures forall r :: r in Descendants(flat, p) ==> r in flat && r.id != Some(p)
    ensures ChildrenOf(flat, Some(p)) <= Descendants(flat, p)
  {
    var D := Descendants(flat, p);
    forall k | 0 <= k < |flat| ensures flat[k] in D <==> Reaches(flat, k, p) {
      if flat[k] in D { DescendantSound(flat, p, k); }
      if Reaches(flat, k, p) { DescendantComplete(flat, p, k); }
    }
    forall r | r in D ensures r in flat && r.id != Some(p) {
      var g := UpToMember(flat, p, |flat| + 1, r);
      var k := ExpandedReaches(flat, p, g, r);
      ReachesAfter(flat, p, k);
    }
    UpToPrefix(flat, p, 1, |flat| + 1);
    UpToOne(flat, p);
  }

  /** The records of `flat` whose level is `level`, in sequence order. */
  function AtLevel(flat: seq<Record>, level: Option<nat>): seq<Record>
  {
    if flat == [] then []
    else AtLevel(flat[..|flat| - 1], level) + (if flat[|flat| - 1].level == level then [flat[|flat| - 1]] else [])
  }

  lemma AtLevelSnoc(s: seq<Record>, x: Record, level: Option<nat>)
    ensures AtLevel(s + [x], level) == AtLevel(s, level) + (if x.level == level then [x] else [])
  {
    assert (s + [x])[..|s + [x]| - 1] == s;
  }

  /** A bucket keeps every record at its level, as often as it occurs, and
      nothing else. */
  lemma {:induction false} AtLevelIsFilter(flat: seq<Record>, level: Option<nat>)
    ensures forall x :: multiset(AtLevel(flat, level))[x] == if x.level == level then multiset(flat)[x] else 0
  {
    if flat != [] {
      var init := flat[..|flat| - 1];
      AtLevelIsFilter(init, level);
      assert flat == init + [flat[|flat| - 1]];
    }
  }

  /** The buckets after the first i records: the bucket of every level holds
      the records of that level in sequence order, and a bucket exists only
      once a record of its level has been met. */
  ghost predicate Grouped(flat: seq<Record>, i: nat, byLevel: map<Option<nat>, seq<Record>>)
    requires i <= |flat|
  {
    && (forall key :: AtLevel(flat[..i], key) == if key in byLevel then byLevel[key] else [])
    && (forall key :: key in byLevel ==> byLevel[key] != [])
  }

  /** Pushing record i onto the bucket of its level, created if absent. */
  lemma GroupStep(flat: seq<Record>, i: nat, before: map<Option<nat>, seq<Record>>,
                  mid: map<Option<nat>, seq<Record>>, after: map<Option<nat>, seq<Record>>)
    requires i < |flat| && Grouped(flat, i, before)
    requires mid == if flat[i].level in before then before else before[flat[i].level := []]
    requires after == mid[flat[i].level := mid[flat[i].level] + [flat[i]]]
    ensures Grouped(flat, i + 1, after)
  {
    forall key
      ensures AtLevel(flat[..i + 1], key) == if key in after then after[key] else []
      ensures key in after ==> after[key] != []
    {
      GroupKey(flat, i, before, mid, after, key);
    }
  }

  /** GroupStep for the bucket of one level. */
  lemma GroupKey(flat: seq<Record>, i: nat, before: map<Option<nat>, seq<Record>>,
                 mid: map<Option<nat>, seq<Record>>, after: map<Option<nat>, seq<Record>>, key: Option<nat>)
    requires i < |flat|
    requires AtLevel(flat[..i], key) == if key in before then before[key] else []
    requires key in before ==> before[key] != []
    requires mid == if flat[i].level in before then before else before[flat[i].level := []]
    requires after == mid[flat[i].level := mid[flat[i].level] + [flat[i]]]
    ensures AtLevel(flat[..i + 1], key) == if key in after then after[key] else []
    ensures key in after ==> after[key] != []
  {
    PushBucket(before, flat[i].level, flat[i], mid, after);
    assert flat[..i + 1] == flat[..i] + [flat[i]];
    AtLevelSnoc(flat[..i], flat[i], key);
  }

  /** Creating a missing bucket and then pushing onto it is one update. */
  lemma PushBucket<T, U>(before: map<T, seq<U>>, key: T, x: U, mid: map<T, seq<U>>, after: map<T, seq<U>>)
    requires mid == if key in before then before else before[key := []]
    requires after == mid[key := mid[key] + [x]]
    ensures after == before[key := (if key in before then before[key] else []) + [x]]
  {
  }

  /** A level has records exactly when some record carries it. */
  lemma {:induction false} AtLevelNonEmpty(flat: seq<Record>, level: Option<nat>)
    ensures AtLevel(flat, level) != [] <==> exists k :: 0 <= k < |flat| && flat[k].level == level
  {
    if flat != [] {
      var init := flat[..|flat| - 1];
      AtLevelNonEmpty(init, level);
      if exists k :: 0 <= k < |init| && init[k].level == level {
        var k :| 0 <= k < |init| && init[k].level == level;
        assert flat[k].level == level;
      }
      if exists k :: 0 <= k < |flat| && flat[k].level == level {
        var k :| 0 <= k < |flat| && flat[k].level == level;
        if k < |init| {
          assert init[k].level == level;
        }
      }
    }
  }

  /** The reduce that groups the flat records by their `level` field into an
      object of arrays: a bucket is created the first time its level is met
      and every record is pushed onto the bucket of its level. An absent
      level (the `undefined` key) is a bucket like any other. */
  method GroupByLevel(flat: seq<Record>) returns (byLevel: map<Option<nat>, seq<Record>>)
    ensures forall key :: key in byLevel <==> exists k :: 0 <= k < |flat| && flat[k].level == key
    ensures forall key :: key in byLevel ==> byLevel[key] == AtLevel(flat, key) && byLevel[key] != []
  {
    byLevel := map[];
    for i := 0 to |flat|
      invariant Grouped(flat, i, byLevel)
    {
      var item := flat[i];
      ghost var before := byLevel;
      if item.level !in byLevel {
        byLevel := byLevel[item.level := []];
      }
      ghost var mid := byLevel;
      byLevel := byLevel[item.level := byLevel[item.level] + [item]];
      GroupStep(flat, i, before, mid, byLevel);
    }
    assert flat[..|flat|] == flat;
    forall key
      ensures key in byLevel <==> exists k :: 0 <= k < |flat| && flat[k].level == key
    {
      AtLevelNonEmpty(flat, key);
    }
  }

  ghost predicate NoDuplicates<T>(ks: seq<T>)
  {
    forall i, j :: 0 <= i < j < |ks| ==> ks[i] != ks[j]
  }

  /** The buckets of the levels ks, concatenated in that order. */
  function Buckets(flat: seq<Record>, ks: seq<Option<nat>>): seq<Record>
  {
    if ks == [] then [] else AtLevel(flat, ks[0]) + Buckets(flat, ks[1..])
  }

  /** The per-level counts of the levels ks, added up. */
  function SumCounts(flat: seq<Record>, ks: seq<Option<nat>>): nat
  {
    if ks == [] then 0 else |AtLevel(flat, ks[0])| + SumCounts(flat, ks[1..])
  }

  lemma HeadNotInTail<T>(ks: seq<T>)
    requires NoDuplicates(ks) && ks != []
    ensures ks[0] !in ks[1..]
  {
    forall j | 0 <= j < |ks| - 1 ensures ks[1..][j] != ks[0] {
      assert ks[1..][j] == ks[j + 1];
    }
  }

  /** Appending x to the records adds one x to the buckets of ks exactly
      when ks lists x's level. */
  lemma {:induction false} BucketsSnoc(s: seq<Record>, x: Record, ks: seq<Option<nat>>, y: Record)
    requires NoDuplicates(ks)
    ensures multiset(Buckets(s + [x], ks))[y] == multiset(Buckets(s, ks))[y] + if y == x && x.level in ks then 1 else 0
  {
    if ks != [] {
      var tail := ks[1..];
      assert NoDuplicates(tail) by {
        forall i, j | 0 <= i < j < |tail| ensures tail[i] != tail[j] {
          assert tail[i] == ks[i + 1] && tail[j] == ks[j + 1];
        }
      }
      BucketsSnoc(s, x, tail, y);
      AtLevelSnoc(s, x, ks[0]);
      HeadNotInTail(ks);
      InHeadOrTail(ks, x.level);
      assert Buckets(s + [x], ks) == AtLevel(s + [x], ks[0]) + Buckets(s + [x], tail);
      assert Buckets(s, ks) == AtLevel(s, ks[0]) + Buckets(s, tail);
    }
  }

  lemma InHeadOrTail<T>(ks: seq<T>, v: T)
    requires ks != []
    ensures v in ks <==> v == ks[0] || v in ks[1..]
  {
    assert ks == [ks[0]] + ks[1..];
  }

  lemma {:induction false} SumCountsIsLength(flat: seq<Record>, ks: seq<Option<nat>>)
    ensures SumCounts(flat, ks) == |Buckets(flat, ks)|
  {
    if ks != [] {
      SumCountsIsLength(flat, ks[1..]);
    }
  }

  /** Grouping loses and duplicates nothing: when ks lists every level that
      occurs, once each (as Object.keys does), the buckets together are a
      permutation of the flat records and the printed counts add up to the
      number of records. */
  lemma {:induction false} BucketsPartition(flat: seq<Record>, ks: seq<Option<nat>>)
    requires NoDuplicates(ks)
    requires forall k :: 0 <= k < |flat| ==> flat[k].level in ks
    ensures multiset(Buckets(flat, ks)) == multiset(flat)
    ensures SumCounts(flat, ks) == |flat|
  {
    if flat == [] {
      assert forall key :: AtLevel([], key) == [];
      BucketsEmpty(ks);
    } else {
      var init := flat[..|flat| - 1];
      var last := flat[|flat| - 1];
      assert flat == init + [last];
      BucketsPartition(init, ks);
      forall y ensures multiset(Buckets(flat, ks))[y] == multiset(flat)[y] {
        BucketsSnoc(init, last, ks, y);
      }
    }
    SumCountsIsLength(flat, ks);
    assert |multiset(Buckets(flat, ks))| == |Buckets(flat, ks)|;
  }

  lemma {:induction false} BucketsEmpty(ks: seq<Option<nat>>)
    ensures Buckets([], ks) == []
  {
    if ks != [] {
      BucketsEmpty(ks[1..]);
    }
  }
}
