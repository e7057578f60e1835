/** What a linked flattening guarantees about its records: each copies its
    node, carries its depth, and names a parent that is an earlier record one
    level up; with present and unique ids the id-linked flattening is exactly
    the kind of sequence the queries expect. */
module Links {
  import opened Menu
  import opened PreOrderFacts
  import opened Queries

  /** Every node of the forest has an id and no two nodes share one. */
  ghost predicate UniqueIds(forest: seq<Node>)
  {
    var vs := Visits(forest, 1, None);
    && (forall k :: 0 <= k < |vs| ==> vs[k].node.id.Some?)
    && (forall i, j :: 0 <= i < j < |vs| ==> vs[i].node.id != vs[j].node.id)
  }

  /** The parent fields a style attaches for a parent whose record is `pr`. */
  function LinkTo(style: Style, pr: Record): Link
  {
    match style.link
    case NoParent => NoLink
    case ByLabel => ParentLabel(pr.caption)
    case ByIdAndLabel => ParentRef(pr.id, pr.caption)
  }

  /** The k-th record of a flattening copies the k-th node of the walk, has
      level Some(depth) exactly when the style records levels, has no parent
      fields at depth 1, and below depth 1 carries the parent fields of an
      earlier record, one level up, whose node has this node as a child. */
  lemma RecordShape(style: Style, forest: seq<Node>, k: nat)
    requires k < |PreOrder(style, forest)|
    ensures var rs := PreOrder(style, forest);
            var vs := Visits(forest, 1, None);
            && CopiesNode(rs[k], vs[k].node)
            && rs[k].level == (if style.levels then Some(vs[k].level) else None)
            && vs[k].level >= 1
            && (vs[k].level == 1 ==> rs[k].link == NoLink && vs[k].node in forest)
            && (vs[k].level > 1 ==>
                  exists j :: 0 <= j < k && vs[j].level + 1 == vs[k].level
                              && vs[k].node in vs[j].node.children
                              && rs[k].link == LinkTo(style, rs[j]))
  {
    var rs := PreOrder(style, forest);
    var vs := Visits(forest, 1, None);
    var j := ParentPrecedes(forest, 1, None, k);
    if vs[k].level > 1 {
      assert rs[j] == Emit(style, vs[j]);
      assert rs[k].link == LinkTo(style, rs[j]);
    }
  }

  /** With present and unique ids, the output of flattenMenuWithIds has every
      id present and unique, a parentId exactly on the non-root records, and
      every parentId naming an earlier record: the shape findDescendants
      needs to terminate. */
  lemma WithIdsIsWellLinked(forest: seq<Node>)
    requires UniqueIds(forest)
    ensures WellLinked(PreOrder(IdsStyle, forest))
    ensures ParentsEarlier(PreOrder(IdsStyle, forest))
    ensures forall k :: 0 <= k < |PreOrder(IdsStyle, forest)| ==>
              (ParentIdOf(PreOrder(IdsStyle, forest)[k]).Some? <==> PreOrder(IdsStyle, forest)[k].level != Some(1))
  {
    var rs := PreOrder(IdsStyle, forest);
    var vs := Visits(forest, 1, None);
    forall k | 0 <= k < |rs|
      ensures ParentIdOf(rs[k]).Some? ==> exists j :: 0 <= j < k && rs[j].id == ParentIdOf(rs[k])
      ensures ParentIdOf(rs[k]).Some? <==> rs[k].level != Some(1)
    {
      RecordShape(IdsStyle, forest, k);
      if vs[k].level > 1 {
        var j :| 0 <= j < k && vs[j].level + 1 == vs[k].level
                 && vs[k].node in vs[j].node.children && rs[k].link == LinkTo(IdsStyle, rs[j]);
        assert rs[j].id == vs[j].node.id;
      }
    }
    WellLinkedParentsEarlier(rs);
  }
}
