/** The data model of a navigation menu and the pre-order specification that
    every flattening strategy is measured against.

    A menu is an ordered forest of nodes. Each node has an optional `id`, a
    label (called `caption` here, because `label` is a reserved word in Dafny),
    any number of other scalar fields (`route`, `icon`, `badge`, ...) and an
    ordered list of children; an absent `children` field and an empty one are
    the same thing, a leaf. A flattened menu is a sequence of records: a node
    without its children, plus whatever a strategy adds (a `level`, a link to
    the parent). */
module Menu {

  datatype Option<T> = None | Some(value: T)

  /** The scalar values found in menu fields: strings, integers, booleans. */
  datatype Value = Str(s: string) | Num(n: int) | Flag(b: bool)

  /** Every field of a node other than `id`, `label` and `children`. */
  type Attrs = map<string, Value>

  datatype Node = Node(id: Option<string>, caption: string, attrs: Attrs, children: seq<Node>)

  /** The parent information a flattener attaches to a non-root record:
      none, `parent: <label>`, or `parentId: <id>, parentLabel: <label>`
      (`parentId` is undefined when the parent has no id). */
  datatype Link = NoLink | ParentLabel(parent: string) | ParentRef(parentId: Option<string>, parentLabel: string)

  /** A flat record: the node's own fields, an optional `level` and a link. */
  datatype Record = Record(id: Option<string>, caption: string, attrs: Attrs, level: Option<nat>, link: Link)

  datatype LinkStyle = NoParent | ByLabel | ByIdAndLabel

  /** What a flattener adds to the copy of each node. */
  datatype Style = Style(levels: bool, link: LinkStyle)

  /** flatMap, reduce and stack variants of flatten-menu.js */
  const PlainStyle := Style(false, NoParent)
  /** flattenMenu of flatten-menu.js */
  const LabelParentStyle := Style(false, ByLabel)
  /** flatMap, reduce and stack variants of every other file */
  const LevelStyle := Style(true, NoParent)
  /** flattenMenuWithLevels */
  const LevelLabelStyle := Style(true, ByLabel)
  /** flattenMenuWithIds and the performance tests' flattenMenuRecursive */
  const IdsStyle := Style(true, ByIdAndLabel)

  /** One step of a pre-order walk: the node, its level and its parent. */
  datatype Visit = Visit(node: Node, level: nat, parent: Option<Node>)

  /** The number of nodes in a forest. */
  function CountList(items: seq<Node>): nat
    decreases items
  {
    if items == [] then 0 else 1 + CountList(items[0].children) + CountList(items[1..])
  }

  /** The pre-order walk of `items`, whose members sit at `level` under
      `parent`: each node, then its descendants, then its later siblings. */
  function Visits(items: seq<Node>, level: nat, parent: Option<Node>): seq<Visit>
    decreases items
  {
    if items == [] then []
    else [Visit(items[0], level, parent)]
         + Visits(items[0].children, level + 1, Some(items[0]))
         + Visits(items[1..], level, parent)
  }

  /** The record a flattener of the given style makes for one visit: a copy of
      the node without `children`, with `level` and parent fields as the
      style asks. Roots get no parent fields. */
  function Emit(style: Style, v: Visit): Record
  {
    var link :=
      match v.parent
      case None => NoLink
      case Some(p) =>
        match style.link
        case NoParent => NoLink
        case ByLabel => ParentLabel(p.caption)
        case ByIdAndLabel => ParentRef(p.id, p.caption);
    Record(v.node.id, v.node.caption, v.node.attrs, if style.levels then Some(v.level) else None, link)
  }

  function Records(style: Style, vs: seq<Visit>): (rs: seq<Record>)
  {
    seq(|vs|, k requires 0 <= k < |vs| => Emit(style, vs[k]))
  }

  /** The specification of flattening: the records of the pre-order walk
      that starts at level 1 with no parent. */
  function PreOrder(style: Style, forest: seq<Node>): seq<Record>
  {
    Records(style, Visits(forest, 1, None))
  }

  function Reverse<T>(s: seq<T>): seq<T>
  {
    if s == [] then [] else Reverse(s[1..]) + [s[0]]
  }

  /** What the stack-based flatteners actually return: for each root, in
      input order, the pre-order of that root's tree reversed. */
  function IterOrder(style: Style, forest: seq<Node>): seq<Record>
  {
    if forest == [] then [] else Reverse(PreOrder(style, [forest[0]])) + IterOrder(style, forest[1..])
  }

  /** A record without its parent fields. */
  function Unlink(r: Record): Record
  {
    r.(link := NoLink)
  }

  function UnlinkAll(rs: seq<Record>): seq<Record>
  {
    seq(|rs|, k requires 0 <= k < |rs| => Unlink(rs[k]))
  }

  /** The node's own fields, as its record copies them. */
  predicate CopiesNode(r: Record, n: Node)
  {
    r.id == n.id && r.caption == n.caption && r.attrs == n.attrs
  }
}
