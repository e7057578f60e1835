/** The synthetic menus of the performance tests: createLargeMenu and
    createChildren (complete k-ary trees), createRealisticLargeMenu (the
    sample menu followed by fixed six-node sections) and createMenuWithDepth
    and createNestedChildren (trees with 2 to 6 children per node).

    `Math.random()` decides every `badge` and the child count of
    createNestedChildren; here each is an arbitrary value in the range the
    source's `Math.floor(Math.random() * m)` produces, chosen with `:|`. */
module Generators {
  import opened Menu
  import opened PreOrderFacts

  /** The decimal digits of n, as a template literal prints it. */
  function DecimalString(n: nat): (s: string)
    ensures |s| >= 1 && forall i :: 0 <= i < |s| ==> '0' <= s[i] <= '9'
  {
    if n < 10 then ["0123456789"[n]] else DecimalString(n / 10) + ["0123456789"[n % 10]]
  }

  /** The number a string of decimal digits denotes, as `parseInt` reads it. */
  function DigitsValue(s: string): nat
  {
    if s == [] then 0
    else
      var c := s[|s| - 1];
      DigitsValue(s[..|s| - 1]) * 10 + if '0' <= c <= '9' then c as int - '0' as int else 0
  }

  /** Reading back the printed digits gives the number again. */
  lemma {:induction false} DecimalRoundTrip(n: nat)
    ensures DigitsValue(DecimalString(n)) == n
  {
    var s := DecimalString(n);
    DigitChar(n % 10);
    if n < 10 {
      assert s == ["0123456789"[n % 10]];
      assert s[..0] == [];
    } else {
      var t := DecimalString(n / 10);
      DecimalRoundTrip(n / 10);
      assert s == t + ["0123456789"[n % 10]];
      assert s[..|s| - 1] == t && s[|s| - 1] == "0123456789"[n % 10];
      assert DigitsValue(s) == DigitsValue(t) * 10 + n % 10;
    }
  }

  /** The character printed for a digit d is the one whose code is d above '0'. */
  lemma DigitChar(d: nat)
    requires d < 10
    ensures '0' <= "0123456789"[d] <= '9' && "0123456789"[d] as int - '0' as int == d
  {
  }

  /** Distinct numbers print differently, and only 0 prints with a leading
      zero. */
  lemma {:induction false} DecimalStringCanonical(m: nat, n: nat)
    ensures DecimalString(m) == DecimalString(n) <==> m == n
    ensures DecimalString(n)[0] == '0' <==> n == 0
  {
    DecimalRoundTrip(m);
    DecimalRoundTrip(n);
    DecimalLeadingDigit(n);
  }

  lemma {:induction false} DecimalLeadingDigit(n: nat)
    ensures DecimalString(n)[0] == '0' <==> n == 0
  {
    if n >= 10 {
      DecimalLeadingDigit(n / 10);
    }
  }

  /** The `badge` field holds an integer in [0, bound). */
  ghost predicate BadgeBelow(attrs: Attrs, bound: nat)
  {
    "badge" in attrs && attrs["badge"].Num? && 0 <= attrs["badge"].n < bound
  }

  // ---------------------------------------------------------------------
  // createLargeMenu / createChildren

  /** The i-th child that createChildren builds at level c. */
  ghost predicate IsGeneratedChild(n: Node, c: nat, i: nat)
  {
    var tag := DecimalString(c) + "-" + DecimalString(i);
    && n.id == Some("child-" + tag)
    && n.caption == "Child " + tag
    && n.attrs.Keys == {"route", "badge"}
    && n.attrs["route"] == Str("child-" + tag)
    && BadgeBelow(n.attrs, 50)
  }

  /** The shape of createChildren(c, k, d): nothing when c >= d, otherwise
      exactly k children, each with the children of level c + 1. */
  ghost predicate KAry(children: seq<Node>, c: nat, k: nat, d: nat)
    decreases children
  {
    if c >= d then children == []
    else |children| == k && forall i :: 0 <= i < k ==> KAry(children[i].children, c + 1, k, d)
  }

  /** The fields of createChildren(c, k, d)'s nodes: the i-th child at every
      level c is the i-th generated child of that level. */
  ghost predicate GeneratedFields(children: seq<Node>, c: nat, d: nat)
    decreases children
  {
    c < d ==>
      forall i :: 0 <= i < |children| ==>
        IsGeneratedChild(children[i], c, i) && GeneratedFields(children[i].children, c + 1, d)
  }

  /** What createChildren(c, k, d) returns. */
  ghost predicate Complete(children: seq<Node>, c: nat, k: nat, d: nat)
  {
    KAry(children, c, k, d) && GeneratedFields(children, c, d)
  }

  /** The node createChildren builds as the i-th child at level c. */
  function GeneratedChild(c: nat, i: nat, badge: int, grandchildren: seq<Node>): (n: Node)
    requires 0 <= badge < 50
    ensures IsGeneratedChild(n, c, i) && n.children == grandchildren
  {
    var tag := DecimalString(c) + "-" + DecimalString(i);
    Node(Some("child-" + tag), "Child " + tag, map["route" := Str("child-" + tag), "badge" := Num(badge)], grandchildren)
  }

  /** Every child of a level-c list is the generated child of its index. */
  ghost predicate GeneratedRow(children: seq<Node>, c: nat)
  {
    forall j :: 0 <= j < |children| ==> IsGeneratedChild(children[j], c, j)
  }

  lemma GeneratedRowSnoc(children: seq<Node>, child: Node, c: nat)
    requires GeneratedRow(children, c) && IsGeneratedChild(child, c, |children|)
    ensures GeneratedRow(children + [child], c)
  {
    var s := children + [child];
    forall j | 0 <= j < |s| ensures IsGeneratedChild(s[j], c, j) {
      if j < |children| {
        assert s[j] == children[j];
      }
    }
  }

  method CreateChildren(c: nat, k: nat, d: nat) returns (children: seq<Node>)
    ensures Complete(children, c, k, d)
    decreases d - c
  {
    if c >= d {
      return [];
    }
    children := [];
    for i := 0 to k
      invariant |children| == i
      invariant GeneratedRow(children, c)
      invariant forall j :: 0 <= j < i ==> KAry(children[j].children, c + 1, k, d)
      invariant forall j :: 0 <= j < i ==> GeneratedFields(children[j].children, c + 1, d)
    {
      var badge: int :| 0 <= badge < 50;
      var grandchildren := CreateChildren(c + 1, k, d);
      var child := GeneratedChild(c, i, badge, grandchildren);
      GeneratedRowSnoc(children, child, c);
      children := children + [child];
    }
  }

  /** The i-th root of createLargeMenu(n, k, d). */
  ghost predicate IsLargeRoot(n: Node, i: nat, k: nat, d: nat)
  {
    && n.id == Some("item-" + DecimalString(i))
    && n.caption == "Item " + DecimalString(i)
    && n.attrs.Keys == {"route", "icon", "badge"}
    && n.attrs["route"] == Str("item-" + DecimalString(i))
    && n.attrs["icon"] == Str("\U{1F4E6}")
    && BadgeBelow(n.attrs, 100)
    && Complete(n.children, 1, k, d)
  }

  method CreateLargeMenu(n: nat, k: nat, d: nat) returns (menu: seq<Node>)
    ensures |menu| == n && forall i :: 0 <= i < n ==> IsLargeRoot(menu[i], i, k, d)
  {
    menu := [];
    for i := 0 to n
      invariant |menu| == i && LargeRoots(menu, k, d)
    {
      var badge: int :| 0 <= badge < 100;
      var children := CreateChildren(1, k, d);
      var item := LargeRoot(i, k, d, badge, children);
      LargeRootsSnoc(menu, item, k, d);
      menu := menu + [item];
    }
  }

  /** The root createLargeMenu builds at index i. */
  function LargeRoot(i: nat, k: nat, d: nat, badge: int, children: seq<Node>): (n: Node)
    requires 0 <= badge < 100 && Complete(children, 1, k, d)
    ensures IsLargeRoot(n, i, k, d)
  {
    Node(Some("item-" + DecimalString(i)), "Item " + DecimalString(i),
         map["route" := Str("item-" + DecimalString(i)), "icon" := Str("\U{1F4E6}"), "badge" := Num(badge)],
         children)
  }

  /** Every root of the list is the large-menu root of its index. */
  ghost predicate LargeRoots(menu: seq<Node>, k: nat, d: nat)
  {
    forall j :: 0 <= j < |menu| ==> IsLargeRoot(menu[j], j, k, d)
  }

  lemma LargeRootsSnoc(menu: seq<Node>, item: Node, k: nat, d: nat)
    requires LargeRoots(menu, k, d) && IsLargeRoot(item, |menu|, k, d)
    ensures LargeRoots(menu + [item], k, d)
  {
    var s := menu + [item];
    forall j | 0 <= j < |s| ensures IsLargeRoot(s[j], j, k, d) {
      if j < |menu| {
        assert s[j] == menu[j];
      }
    }
  }
  /** The roots of a large menu have pairwise distinct ids `item-<i>`. */
  lemma LargeRootIdsDistinct(menu: seq<Node>, k: nat, d: nat)
    requires forall i :: 0 <= i < |menu| ==> IsLargeRoot(menu[i], i, k, d)
    ensures forall i, j :: 0 <= i < j < |menu| ==> menu[i].id != menu[j].id
  {
    forall i, j | 0 <= i < j < |menu| ensures menu[i].id != menu[j].id {
      var a := "item-" + DecimalString(i);
      var b := "item-" + DecimalString(j);
      DecimalStringCanonical(i, j);
      assert a[5..] == DecimalString(i) && b[5..] == DecimalString(j);
    }
  }


  function Pow(k: nat, e: nat): nat
  {
    if e == 0 then 1 else k * Pow(k, e - 1)
  }

  /** 1 + k + ... + k^(m-1) */
  function SumPowers(k: nat, m: nat): nat
  {
    if m == 0 then 0 else SumPowers(k, m - 1) + Pow(k, m - 1)
  }

  /** The node count of a complete k-ary tree of m levels. */
  function TreeSize(k: nat, m: nat): nat
  {
    if m == 0 then 0 else 1 + k * TreeSize(k, m - 1)
  }

  lemma {:induction false} SumPowersStep(k: nat, m: nat)
    ensures SumPowers(k, m + 1) == 1 + k * SumPowers(k, m)
  {
    if m > 0 {
      SumPowersStep(k, m - 1);
      assert k * (SumPowers(k, m - 1) + Pow(k, m - 1)) == k * SumPowers(k, m - 1) + k * Pow(k, m - 1);
    }
  }

  /** A complete k-ary tree of m levels has 1 + k + ... + k^(m-1) nodes. */
  lemma {:induction false} TreeSizeIsGeometric(k: nat, m: nat)
    ensures TreeSize(k, m) == SumPowers(k, m)
  {
    if m > 0 {
      TreeSizeIsGeometric(k, m - 1);
      SumPowersStep(k, m - 1);
    }
  }

  /** A sibling list whose members all have subtrees of the same size m. */
  lemma {:induction false} CountUniform(items: seq<Node>, m: nat)
    requires forall i :: 0 <= i < |items| ==> CountList(items[i].children) == m
    ensures CountList(items) == |items| * (1 + m)
  {
    if items != [] {
      var rest := items[1..];
      forall i | 0 <= i < |rest| ensures CountList(rest[i].children) == m {
        assert rest[i] == items[i + 1];
      }
      CountUniform(rest, m);
      assert CountList(items) == 1 + m + CountList(rest);
      MulSucc(|rest|, 1 + m);
    }
  }

  lemma MulSucc(a: nat, b: nat)
    ensures (a + 1) * b == a * b + b
  {
  }

  /** createChildren(c, k, d) returns k * (1 + k + ... + k^(d-c-1)) nodes. */
  lemma {:induction false} CompleteCount(children: seq<Node>, c: nat, k: nat, d: nat)
    requires KAry(children, c, k, d)
    ensures CountList(children) == if c >= d then 0 else k * TreeSize(k, d - c)
    decreases d - c
  {
    if c < d {
      var m := k * TreeSize(k, d - c - 1);
      forall i | 0 <= i < |children| ensures CountList(children[i].children) == m {
        CompleteCount(children[i].children, c + 1, k, d);
      }
      CountUniform(children, m);
    }
  }

  /** The flattening of createLargeMenu(n, k, d), by any strategy, has
      n * (1 + k + ... + k^(d-1)) records (n when d = 0). Only the shape of
      the roots' children matters (IsLargeRoot implies it). */
  lemma LargeMenuSize(menu: seq<Node>, n: nat, k: nat, d: nat)
    requires |menu| == n && forall i :: 0 <= i < n ==> KAry(menu[i].children, 1, k, d)
    ensures CountList(menu) == n * (if d == 0 then 1 else SumPowers(k, d))
    ensures forall style :: |PreOrder(style, menu)| == CountList(menu)
  {
    var m := if d <= 1 then 0 else k * TreeSize(k, d - 1);
    forall i | 0 <= i < n ensures CountList(menu[i].children) == m {
      CompleteCount(menu[i].children, 1, k, d);
    }
    CountUniform(menu, m);
    TreeSizeIsGeometric(k, d);
    VisitsLength(menu, 1, None);
  }

  // ---------------------------------------------------------------------
  // Depth bounds, shared by both tree generators

  /** No path from a member of `items` down to a leaf has more than h nodes. */
  ghost predicate DepthAtMost(items: seq<Node>, h: nat)
    decreases items
  {
    forall i :: 0 <= i < |items| ==> h >= 1 && DepthAtMost(items[i].children, h - 1)
  }

  lemma {:induction false} VisitsDepth(items: seq<Node>, level: nat, parent: Option<Node>, h: nat)
    requires DepthAtMost(items, h)
    ensures forall v :: v in Visits(items, level, parent) ==> level <= v.level < level + h
    decreases items
  {
    if items != [] {
      VisitsDepth(items[0].children, level + 1, Some(items[0]), h - 1);
      assert DepthAtMost(items[1..], h) by {
        assert forall i :: 0 <= i < |items| - 1 ==> items[1..][i] == items[i + 1];
      }
      VisitsDepth(items[1..], level, parent, h);
    }
  }

  lemma {:induction false} CompleteDepth(children: seq<Node>, c: nat, k: nat, d: nat)
    requires KAry(children, c, k, d)
    ensures DepthAtMost(children, if c >= d then 0 else d - c)
    decreases d - c
  {
    if c < d {
      forall i | 0 <= i < |children| ensures DepthAtMost(children[i].children, d - c - 1) {
        CompleteDepth(children[i].children, c + 1, k, d);
      }
      DepthStep(children, d - c);
    }
  }

  /** A list is at most h deep when h >= 1 and every child list is at most
      h - 1 deep. */
  lemma DepthStep(items: seq<Node>, h: nat)
    requires h >= 1 && forall i :: 0 <= i < |items| ==> DepthAtMost(items[i].children, h - 1)
    ensures DepthAtMost(items, h)
  {
  }

  /** With at least one child per node, createChildren(c, k, d) reaches
      level d: its first child's first child's ... sits at depth d. */
  lemma {:induction false} CompleteReaches(children: seq<Node>, c: nat, k: nat, d: nat, parent: Option<Node>)
    requires KAry(children, c, k, d) && k >= 1 && c < d
    ensures exists v :: v in Visits(children, c + 1, parent) && v.level == d
    decreases d - c
  {
    var first := children[0];
    assert Visits(children, c + 1, parent)[0] == Visit(first, c + 1, parent);
    if c + 1 < d {
      CompleteReaches(first.children, c + 1, k, d, Some(first));
      var v :| v in Visits(first.children, c + 2, Some(first)) && v.level == d;
      assert v in Visits(children, c + 1, parent);
    }
  }

  /** Every record of the flattening of createLargeMenu(n, k, d), d >= 1, has
      a level between 1 and d, and level d occurs when there is a root and
      either one child per node or only one level. */
  lemma LargeMenuLevels(style: Style, menu: seq<Node>, n: nat, k: nat, d: nat)
    requires style.levels && d >= 1
    requires |menu| == n && forall i :: 0 <= i < n ==> KAry(menu[i].children, 1, k, d)
    ensures forall r :: r in PreOrder(style, menu) ==> r.level.Some? && 1 <= r.level.value <= d
    ensures n >= 1 && (k >= 1 || d == 1) ==> exists r :: r in PreOrder(style, menu) && r.level == Some(d)
  {
    forall i | 0 <= i < n ensures d >= 1 && DepthAtMost(menu[i].children, d - 1) {
      CompleteDepth(menu[i].children, 1, k, d);
    }
    VisitsDepth(menu, 1, None, d);
    var vs := Visits(menu, 1, None);
    forall r | r in PreOrder(style, menu) ensures r.level.Some? && 1 <= r.level.value <= d {
      var t :| 0 <= t < |vs| && PreOrder(style, menu)[t] == r;
      assert vs[t] in vs;
    }
    if n >= 1 && (k >= 1 || d == 1) {
      var v: Visit;
      if d == 1 {
        v := vs[0];
      } else {
        CompleteReaches(menu[0].children, 1, k, d, Some(menu[0]));
        v :| v in Visits(menu[0].children, 2, Some(menu[0])) && v.level == d;
      }
      assert v in vs;
      var t :| 0 <= t < |vs| && vs[t] == v;
      assert PreOrder(style, menu)[t].level == Some(d);
      assert PreOrder(style, menu)[t] in PreOrder(style, menu);
    }
  }

  // ---------------------------------------------------------------------
  // createRealisticLargeMenu

  /** A node without children, with an id, a label, a route and a badge. */
  ghost predicate IsRoutedLeaf(n: Node, id: string, caption: string, route: string, bound: nat)
  {
    && n.id == Some(id) && n.caption == caption
    && n.attrs.Keys == {"route", "badge"} && n.attrs["route"] == Str(route) && BadgeBelow(n.attrs, bound)
    && n.children == []
  }

  /** The i-th appended section: Overview, Details and Settings, the last
      with General and Advanced below it. */
  ghost predicate IsSection(n: Node, i: nat)
  {
    var t := DecimalString(i);
    var t1 := DecimalString(i + 1);
    && n.id == Some("section-" + t) && n.caption == "Section " + t1
    && n.attrs.Keys == {"icon", "badge"} && n.attrs["icon"] == Str("\U{1F4C1}") && BadgeBelow(n.attrs, 50)
    && |n.children| == 3
    && IsRoutedLeaf(n.children[0], "section-" + t + "-overview", "Overview " + t1, "section-" + t + ".overview", 20)
    && IsRoutedLeaf(n.children[1], "section-" + t + "-details", "Details " + t1, "section-" + t + ".details", 15)
    && var settings := n.children[2];
       && settings.id == Some("section-" + t + "-settings") && settings.caption == "Settings " + t1
       && settings.attrs.Keys == {"route", "badge"} && settings.attrs["route"] == Str("section-" + t + ".settings")
       && BadgeBelow(settings.attrs, 10)
       && settings.children == [
            Node(Some("section-" + t + "-general"), "General " + t1, map["route" := Str("section-" + t + ".settings.general")], []),
            Node(Some("section-" + t + "-advanced"), "Advanced " + t1, map["route" := Str("section-" + t + ".settings.advanced")], [])]
  }

  function RoutedLeaf(id: string, caption: string, route: string, badge: int): Node
  {
    Node(Some(id), caption, map["route" := Str(route), "badge" := Num(badge)], [])
  }

  /** Section i at position i, for every position. */
  ghost predicate AreSections(s: seq<Node>)
  {
    forall i :: 0 <= i < |s| ==> IsSection(s[i], i)
  }

  /** The section the loop of createRealisticLargeMenu builds at index i,
      with the badges it drew. */
  function Section(i: nat, b0: int, b1: int, b2: int, b3: int): (s: Node)
    requires 0 <= b0 < 50 && 0 <= b1 < 20 && 0 <= b2 < 15 && 0 <= b3 < 10
    ensures IsSection(s, i)
  {
    var t := DecimalString(i);
    var t1 := DecimalString(i + 1);
    var settings := Node(Some("section-" + t + "-settings"), "Settings " + t1,
                         map["route" := Str("section-" + t + ".settings"), "badge" := Num(b3)],
                         [Node(Some("section-" + t + "-general"), "General " + t1, map["route" := Str("section-" + t + ".settings.general")], []),
                          Node(Some("section-" + t + "-advanced"), "Advanced " + t1, map["route" := Str("section-" + t + ".settings.advanced")], [])]);
    Node(Some("section-" + t), "Section " + t1,
         map["icon" := Str("\U{1F4C1}"), "badge" := Num(b0)],
         [RoutedLeaf("section-" + t + "-overview", "Overview " + t1, "section-" + t + ".overview", b1),
          RoutedLeaf("section-" + t + "-details", "Details " + t1, "section-" + t + ".details", b2),
          settings])
  }

  lemma SectionsSnoc(original: seq<Node>, menu: seq<Node>, item: Node, i: nat)
    requires |menu| == |original| + i && menu[..|original|] == original && AreSections(menu[|original|..])
    requires IsSection(item, i)
    ensures |menu + [item]| == |original| + i + 1 && (menu + [item])[..|original|] == original
    ensures AreSections((menu + [item])[|original|..])
  {
    var A := menu[|original|..];
    var B := (menu + [item])[|original|..];
    assert (menu + [item])[..|original|] == menu[..|original|];
    assert B == A + [item];
    forall j | 0 <= j < |B| ensures IsSection(B[j], j) {
      if j < |A| {
        assert B[j] == A[j];
      } else {
        assert B[j] == item;
      }
    }
  }

  /** The sample menu (`original`) first, then n sections. */
  method CreateRealisticLargeMenu(original: seq<Node>, n: nat) returns (menu: seq<Node>)
    ensures |menu| == |original| + n && menu[..|original|] == original
    ensures AreSections(menu[|original|..])
  {
    menu := original;
    for i := 0 to n
      invariant |menu| == |original| + i && menu[..|original|] == original
      invariant AreSections(menu[|original|..])
    {
      var b0: int :| 0 <= b0 < 50;
      var b1: int :| 0 <= b1 < 20;
      var b2: int :| 0 <= b2 < 15;
      var b3: int :| 0 <= b3 < 10;
      var item := Section(i, b0, b1, b2, b3);
      SectionsSnoc(original, menu, item, i);
      menu := menu + [item];
    }
  }

  lemma CountAppend(a: seq<Node>, b: seq<Node>)
    ensures CountList(a + b) == CountList(a) + CountList(b)
  {
    VisitsAppend(a, b, 1, None);
    VisitsLength(a + b, 1, None);
    VisitsLength(a, 1, None);
    VisitsLength(b, 1, None);
  }

  /** A section and its five descendants. */
  lemma SectionCount(s: Node, i: nat)
    requires IsSection(s, i)
    ensures CountList(s.children) == 5
  {
    var ch := s.children;
    var settings := ch[2];
    assert settings.children[1..][1..] == [];
    assert CountList(settings.children[1..]) == 1;
    assert CountList(settings.children) == 2;
    assert ch[1..][1..][1..] == [];
    assert CountList(ch[1..][1..]) == 3;
    assert CountList(ch[1..]) == 4;
  }

  /** The flattening of createRealisticLargeMenu has the sample menu's node
      count plus six records per section. */
  lemma RealisticMenuSize(original: seq<Node>, n: nat, menu: seq<Node>)
    requires |menu| == |original| + n && menu[..|original|] == original
    requires AreSections(menu[|original|..])
    ensures CountList(menu) == CountList(original) + 6 * n
    ensures forall style :: |PreOrder(style, menu)| == CountList(menu)
  {
    var sections := menu[|original|..];
    assert menu == original + sections;
    CountAppend(original, sections);
    forall i | 0 <= i < |sections| ensures CountList(sections[i].children) == 5 {
      SectionCount(sections[i], i);
    }
    CountUniform(sections, 5);
    VisitsLength(menu, 1, None);
  }

  // ---------------------------------------------------------------------
  // createMenuWithDepth / createNestedChildren

  /** The i-th child that createNestedChildren builds at level c under root p. */
  ghost predicate IsNestedChild(n: Node, c: nat, p: nat, i: nat)
  {
    var tag := "depth-" + DecimalString(c) + "-" + DecimalString(p) + "-" + DecimalString(i);
    && n.id == Some(tag)
    && n.caption == "Level " + DecimalString(c) + " Child " + DecimalString(i + 1)
    && n.attrs.Keys == {"route", "badge"}
    && n.attrs["route"] == Str(tag)
    && BadgeBelow(n.attrs, 20)
  }

  /** The shape of createNestedChildren(c, d, p): nothing when c >= d,
      otherwise 2 to 6 children, each with the children of level c + 1. */
  ghost predicate Branching(children: seq<Node>, c: nat, d: nat)
    decreases children
  {
    if c >= d then children == []
    else 2 <= |children| <= 6 && forall i :: 0 <= i < |children| ==> Branching(children[i].children, c + 1, d)
  }

  /** The fields of createNestedChildren(c, d, p)'s nodes. */
  ghost predicate NestedFields(children: seq<Node>, c: nat, d: nat, p: nat)
    decreases children
  {
    c < d ==>
      forall i :: 0 <= i < |children| ==>
        IsNestedChild(children[i], c, p, i) && NestedFields(children[i].children, c + 1, d, p)
  }

  /** What createNestedChildren(c, d, p) returns. */
  ghost predicate Nested(children: seq<Node>, c: nat, d: nat, p: nat)
  {
    Branching(children, c, d) && NestedFields(children, c, d, p)
  }

  /** The node createNestedChildren builds as the i-th child at level c
      under root p. */
  function NestedChild(c: nat, p: nat, i: nat, badge: int, grandchildren: seq<Node>): (n: Node)
    requires 0 <= badge < 20
    ensures IsNestedChild(n, c, p, i) && n.children == grandchildren
  {
    var tag := "depth-" + DecimalString(c) + "-" + DecimalString(p) + "-" + DecimalString(i);
    Node(Some(tag), "Level " + DecimalString(c) + " Child " + DecimalString(i + 1),
         map["route" := Str(tag), "badge" := Num(badge)], grandchildren)
  }

  /** Every child of a level-c list is the generated child of its index. */
  ghost predicate NestedRow(children: seq<Node>, c: nat, p: nat)
  {
    forall j :: 0 <= j < |children| ==> IsNestedChild(children[j], c, p, j)
  }

  lemma NestedRowSnoc(children: seq<Node>, child: Node, c: nat, p: nat)
    requires NestedRow(children, c, p) && IsNestedChild(child, c, p, |children|)
    ensures NestedRow(children + [child], c, p)
  {
    var s := children + [child];
    forall j | 0 <= j < |s| ensures IsNestedChild(s[j], c, p, j) {
      if j < |children| {
        assert s[j] == children[j];
      }
    }
  }

  method CreateNestedChildren(c: nat, d: nat, p: nat) returns (children: seq<Node>)
    ensures Nested(children, c, d, p)
    decreases d - c
  {
    if c >= d {
      return [];
    }
    children := [];
    var childCount: int :| 2 <= childCount <= 6;
    for i := 0 to childCount
      invariant |children| == i
      invariant NestedRow(children, c, p)
      invariant forall j :: 0 <= j < i ==> Branching(children[j].children, c + 1, d)
      invariant forall j :: 0 <= j < i ==> NestedFields(children[j].children, c + 1, d, p)
    {
      var badge: int :| 0 <= badge < 20;
      var grandchildren := CreateNestedChildren(c + 1, d, p);
      var child := NestedChild(c, p, i, badge, grandchildren);
      NestedRowSnoc(children, child, c, p);
      children := children + [child];
    }
  }

  /** The i-th root of createMenuWithDepth(n, d). */
  ghost predicate IsDepthRoot(n: Node, i: nat, d: nat)
  {
    && n.id == Some("depth-item-" + DecimalString(i))
    && n.caption == "Depth Item " + DecimalString(i + 1)
    && n.attrs.Keys == {"icon", "badge"}
    && n.attrs["icon"] == Str("\U{1F333}")
    && BadgeBelow(n.attrs, 30)
    && Nested(n.children, 1, d, i)
  }

  method CreateMenuWithDepth(n: nat, d: nat) returns (menu: seq<Node>)
    ensures |menu| == n && forall i :: 0 <= i < n ==> IsDepthRoot(menu[i], i, d)
  {
    menu := [];
    for i := 0 to n
      invariant |menu| == i && DepthRoots(menu, d)
    {
      var badge: int :| 0 <= badge < 30;
      var children := CreateNestedChildren(1, d, i);
      var item := DepthRoot(i, d, badge, children);
      DepthRootsSnoc(menu, item, d);
      menu := menu + [item];
    }
  }

  /** The root createMenuWithDepth builds at index i. */
  function DepthRoot(i: nat, d: nat, badge: int, children: seq<Node>): (n: Node)
    requires 0 <= badge < 30 && Nested(children, 1, d, i)
    ensures IsDepthRoot(n, i, d)
  {
    Node(Some("depth-item-" + DecimalString(i)), "Depth Item " + DecimalString(i + 1),
         map["icon" := Str("\U{1F333}"), "badge" := Num(badge)], children)
  }

  /** Every root of the list is the depth root of its index. */
  ghost predicate DepthRoots(menu: seq<Node>, d: nat)
  {
    forall j :: 0 <= j < |menu| ==> IsDepthRoot(menu[j], j, d)
  }

  lemma DepthRootsSnoc(menu: seq<Node>, item: Node, d: nat)
    requires DepthRoots(menu, d) && IsDepthRoot(item, |menu|, d)
    ensures DepthRoots(menu + [item], d)
  {
    var s := menu + [item];
    forall j | 0 <= j < |s| ensures IsDepthRoot(s[j], j, d) {
      if j < |menu| {
        assert s[j] == menu[j];
      }
    }
  }

  lemma {:induction false} NestedDepth(children: seq<Node>, c: nat, d: nat)
    requires Branching(children, c, d)
    ensures DepthAtMost(children, if c >= d then 0 else d - c)
    decreases d - c
  {
    if c < d {
      forall i | 0 <= i < |children| ensures DepthAtMost(children[i].children, d - c - 1) {
        NestedDepth(children[i].children, c + 1, d);
      }
      DepthStep(children, d - c);
    }
  }

  lemma {:induction false} NestedReaches(children: seq<Node>, c: nat, d: nat, parent: Option<Node>)
    requires Branching(children, c, d) && c < d
    ensures exists v :: v in Visits(children, c + 1, parent) && v.level == d
    decreases d - c
  {
    var first := children[0];
    assert Visits(children, c + 1, parent)[0] == Visit(first, c + 1, parent);
    if c + 1 < d {
      NestedReaches(first.children, c + 1, d, Some(first));
      var v :| v in Visits(first.children, c + 2, Some(first)) && v.level == d;
      assert v in Visits(children, c + 1, parent);
    }
  }

  /** Levels in the flattening of createMenuWithDepth(n, d), d >= 1, never
      exceed d, and with a root, level d occurs. */
  lemma DepthMenuLevels(style: Style, menu: seq<Node>, n: nat, d: nat)
    requires style.levels && d >= 1
    requires |menu| == n && forall i :: 0 <= i < n ==> Branching(menu[i].children, 1, d)
    ensures forall r :: r in PreOrder(style, menu) ==> r.level.Some? && 1 <= r.level.value <= d
    ensures n >= 1 ==> exists r :: r in PreOrder(style, menu) && r.level == Some(d)
  {
    forall i | 0 <= i < n ensures d >= 1 && DepthAtMost(menu[i].children, d - 1) {
      NestedDepth(menu[i].children, 1, d);
    }
    VisitsDepth(menu, 1, None, d);
    var vs := Visits(menu, 1, None);
    forall r | r in PreOrder(style, menu) ensures r.level.Some? && 1 <= r.level.value <= d {
      var t :| 0 <= t < |vs| && PreOrder(style, menu)[t] == r;
      assert vs[t] in vs;
    }
    if n >= 1 {
      var v: Visit;
      if d == 1 {
        v := vs[0];
      } else {
        NestedReaches(menu[0].children, 1, d, Some(menu[0]));
        v :| v in Visits(menu[0].children, 2, Some(menu[0])) && v.level == d;
      }
      assert v in vs;
      var t :| 0 <= t < |vs| && vs[t] == v;
      assert PreOrder(style, menu)[t].level == Some(d);
      assert PreOrder(style, menu)[t] in PreOrder(style, menu);
    }
  }
}
