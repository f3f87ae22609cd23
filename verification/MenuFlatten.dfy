// Flattening a dbusmenu layout into the dock's menu list, through a growing buffer.
module MenuFlatten {
  import opened Wrappers

  const MAX_LEVEL: nat := 4
  const LABEL_MAX := 127

  // One property of a menu node; anything not understood is `Unknown`.
  datatype Prop =
    | Label(text: string)
    | Enabled(on: bool)
    | Visible(on: bool)
    | Type(name: string)
    | ChildrenDisplay(name: string)
    | Unknown

  // What hangs below a node: child structs, bare or inside a variant; variants holding something
  // else are skipped; any other type ends the list.
  datatype Child = Struct(inVariant: bool, node: Node) | WrappedOther | OtherType

  datatype Node = Node(id: int, props: seq<Prop>, children: seq<Child>)

  datatype Item = Item(id: int, caption: string, enabled: bool, separator: bool, level: nat, submenu: bool)

  function Truncated(s: string): string {
    if |s| <= LABEL_MAX then s else s[..LABEL_MAX]
  }

  function Applied(item: Item, p: Prop): Item {
    match p
    case Label(text) => item.(caption := Truncated(text))
    case Enabled(on) => item.(enabled := on)
    case Visible(on) => if on then item else item.(enabled := false, caption := "", separator := true)
    case Type(name) => if name == "separator" then item.(separator := true) else item
    case ChildrenDisplay(name) => if name == "submenu" then item.(submenu := true) else item
    case Unknown => item
  }

  function AppliedAll(item: Item, ps: seq<Prop>): Item {
    if ps == [] then item else Applied(AppliedAll(item, ps[..|ps| - 1]), ps[|ps| - 1])
  }

  lemma {:induction false} PropsKeepIdentity(item: Item, ps: seq<Prop>)
    ensures AppliedAll(item, ps).id == item.id && AppliedAll(item, ps).level == item.level
  {
    if ps != [] { PropsKeepIdentity(item, ps[..|ps| - 1]); }
  }

  function ItemOf(n: Node, level: nat): (item: Item)
    ensures item.id == n.id && item.level == level
  {
    PropsKeepIdentity(Item(n.id, "", true, false, level, false), n.props);
    AppliedAll(Item(n.id, "", true, false, level, false), n.props)
  }

  predicate Separates(p: Prop) {
    p == Type("separator") || p == Visible(false)
  }

  predicate Decides(p: Prop) {
    p.Enabled? || p == Visible(false)
  }

  // The last property that enables or disables, if any, has its way.
  ghost predicate EnabledBy(ps: seq<Prop>, enabled: bool) {
    || (enabled && forall i :: 0 <= i < |ps| ==> !Decides(ps[i]))
    || exists i :: 0 <= i < |ps| && Decides(ps[i]) && enabled == (ps[i] == Enabled(true))
         && forall j :: i < j < |ps| ==> !Decides(ps[j])
  }

  lemma {:induction false} AppliedSeparator(item: Item, ps: seq<Prop>)
    requires !item.separator
    ensures AppliedAll(item, ps).separator <==> exists i :: 0 <= i < |ps| && Separates(ps[i])
  {
    if ps != [] {
      var n := |ps| - 1;
      AppliedSeparator(item, ps[..n]);
      if exists i :: 0 <= i < n && Separates(ps[..n][i]) {
        var i :| 0 <= i < n && Separates(ps[..n][i]);
        assert Separates(ps[i]);
      }
      if exists i :: 0 <= i < n && Separates(ps[i]) {
        var i :| 0 <= i < n && Separates(ps[i]);
        assert Separates(ps[..n][i]);
      }
    }
  }

  lemma {:induction false} AppliedSubmenu(item: Item, ps: seq<Prop>)
    requires !item.submenu && item.caption == ""
    ensures var r := AppliedAll(item, ps);
      (r.submenu <==> ChildrenDisplay("submenu") in ps) && |r.caption| <= LABEL_MAX
  {
    if ps != [] {
      var n := |ps| - 1;
      AppliedSubmenu(item, ps[..n]);
      assert ps == ps[..n] + [ps[n]];
    }
  }

  lemma {:induction false} AppliedEnabled(item: Item, ps: seq<Prop>)
    requires item.enabled
    ensures EnabledBy(ps, AppliedAll(item, ps).enabled)
  {
    if ps != [] {
      var n := |ps| - 1;
      AppliedEnabled(item, ps[..n]);
      assert ps == ps[..n] + [ps[n]];
      EnabledSnoc(ps[..n], AppliedAll(item, ps[..n]).enabled, ps[n]);
    }
  }

  lemma EnabledSnoc(ps: seq<Prop>, enabled: bool, p: Prop)
    requires EnabledBy(ps, enabled)
    ensures EnabledBy(ps + [p], if Decides(p) then p == Enabled(true) else enabled)
  {
    var all := ps + [p];
    if Decides(p) {
      assert Decides(all[|ps|]);
    } else if exists i :: 0 <= i < |ps| && Decides(ps[i]) {
      var i :| 0 <= i < |ps| && Decides(ps[i]) && enabled == (ps[i] == Enabled(true))
        && forall j :: i < j < |ps| ==> !Decides(ps[j]);
      assert Decides(all[i]);
    }
  }

  predicate Captions(p: Prop) {
    p.Label? || p == Visible(false)
  }

  // What a captioning property puts in the buffer: as much of a label as fits, nothing if invisible.
  ghost predicate CaptionOf(p: Prop, caption: string) {
    if p.Label? then caption <= p.text && (caption == p.text || |caption| == LABEL_MAX) && |caption| <= LABEL_MAX
    else caption == ""
  }

  // The last label, or the last word on invisibility, counts; with neither the caption is empty.
  ghost predicate CaptionedBy(ps: seq<Prop>, caption: string) {
    || (caption == "" && forall i :: 0 <= i < |ps| ==> !Captions(ps[i]))
    || exists i :: 0 <= i < |ps| && Captions(ps[i]) && CaptionOf(ps[i], caption)
         && forall j :: i < j < |ps| ==> !Captions(ps[j])
  }

  lemma CaptionedSnoc(ps: seq<Prop>, caption: string, p: Prop, next: string)
    requires CaptionedBy(ps, caption)
    requires if Captions(p) then CaptionOf(p, next) else next == caption
    ensures CaptionedBy(ps + [p], next)
  {
    var all := ps + [p];
    if Captions(p) {
      assert Captions(all[|ps|]);
    } else if exists i :: 0 <= i < |ps| && Captions(ps[i]) {
      var i :| 0 <= i < |ps| && Captions(ps[i]) && CaptionOf(ps[i], caption)
        && forall j :: i < j < |ps| ==> !Captions(ps[j]);
      assert Captions(all[i]);
    }
  }

  lemma {:induction false} AppliedCaption(item: Item, ps: seq<Prop>)
    requires item.caption == ""
    ensures CaptionedBy(ps, AppliedAll(item, ps).caption)
  {
    if ps != [] {
      var n := |ps| - 1;
      var before := AppliedAll(item, ps[..n]);
      AppliedCaption(item, ps[..n]);
      assert ps == ps[..n] + [ps[n]];
      CaptionedSnoc(ps[..n], before.caption, ps[n], Applied(before, ps[n]).caption);
    }
  }

  // What a node's properties make of its item: separators and invisible nodes are separators, and
  // the last word on enabling and on the caption counts.
  lemma ItemMeaning(n: Node, level: nat)
    ensures var item := ItemOf(n, level);
      && (item.separator <==> exists i :: 0 <= i < |n.props| && Separates(n.props[i]))
      && (item.submenu <==> ChildrenDisplay("submenu") in n.props)
      && EnabledBy(n.props, item.enabled) && CaptionedBy(n.props, item.caption) && |item.caption| <= LABEL_MAX
  {
    AppliedSeparator(Item(n.id, "", true, false, level, false), n.props);
    AppliedSubmenu(Item(n.id, "", true, false, level, false), n.props);
    AppliedEnabled(Item(n.id, "", true, false, level, false), n.props);
    AppliedCaption(Item(n.id, "", true, false, level, false), n.props);
  }

  // ------------------------------------------------------------ the flat list

  function Flatten(n: Node, level: nat): seq<Item>
    decreases n, 1
  {
    if level > MAX_LEVEL then []
    else (if n.id != 0 then [ItemOf(n, level)] else []) + FlattenAll(n.children, level + 1)
  }

  function FlattenAll(cs: seq<Child>, level: nat): seq<Item>
    decreases cs, 0
  {
    if cs == [] then []
    else match cs[0]
      case OtherType => []
      case WrappedOther => FlattenAll(cs[1..], level)
      case Struct(_, n) => assert n < cs[0]; Flatten(n, level) + FlattenAll(cs[1..], level)
  }

  // A variant that holds something else is passed over, anything else ends the list.
  lemma {:induction false} ChildrenMeaning(a: seq<Child>, b: seq<Child>, level: nat)
    ensures FlattenAll(a + [WrappedOther] + b, level) == FlattenAll(a + b, level)
    ensures FlattenAll(a + [OtherType] + b, level) == FlattenAll(a, level)
    decreases |a|
  {
    var w, o := a + [WrappedOther] + b, a + [OtherType] + b;
    if a == [] {
      assert w[1..] == b == a + b;
    } else {
      ChildrenMeaning(a[1..], b, level);
      assert w[1..] == a[1..] + [WrappedOther] + b && o[1..] == a[1..] + [OtherType] + b;
      assert (a + b)[1..] == a[1..] + b;
    }
  }

  // ------------------------------------------------------------ level by level

  // The items, left to right, of the nodes `depth` below the given ones.
  function AtDepth(cs: seq<Child>, depth: nat, level: nat): seq<Item>
    decreases cs
  {
    if cs == [] then []
    else match cs[0]
      case OtherType => []
      case WrappedOther => AtDepth(cs[1..], depth, level)
      case Struct(_, n) =>
        assert n < cs[0];
        (if depth > 0 then AtDepth(n.children, depth - 1, level)
         else if n.id == 0 then [] else [ItemOf(n, level)])
        + AtDepth(cs[1..], depth, level)
  }

  function OfLevel(items: seq<Item>, level: nat): seq<Item> {
    if items == [] then []
    else (if items[0].level == level then [items[0]] else []) + OfLevel(items[1..], level)
  }

  lemma {:induction false} OfLevelConcat(a: seq<Item>, b: seq<Item>, level: nat)
    ensures OfLevel(a + b, level) == OfLevel(a, level) + OfLevel(b, level)
  {
    if a == [] {
      assert a + b == b;
    } else {
      assert (a + b)[1..] == a[1..] + b;
      OfLevelConcat(a[1..], b, level);
      Assoc(if a[0].level == level then [a[0]] else [], OfLevel(a[1..], level), OfLevel(b, level));
    }
  }

  // The flat list holds, for each depth up to the limit, exactly the nodes at that depth in
  // order, with the depth as their level - and nothing deeper.
  lemma {:induction false} FlattenByDepth(cs: seq<Child>, level: nat, d: nat)
    requires level <= MAX_LEVEL + 1
    ensures OfLevel(FlattenAll(cs, level), d)
         == if level <= d <= MAX_LEVEL then AtDepth(cs, d - level, d) else []
    decreases cs
  {
    if cs != [] {
      match cs[0] {
        case OtherType =>
        case WrappedOther => FlattenByDepth(cs[1..], level, d);
        case Struct(_, n) =>
          assert n < cs[0];
          FlattenByDepth(cs[1..], level, d);
          if level <= MAX_LEVEL {
            FlattenByDepth(n.children, level + 1, d);
          }
          NodeByDepth(n, level, d);
          OfLevelConcat(Flatten(n, level), FlattenAll(cs[1..], level), d);
      }
    }
  }

  lemma NodeByDepth(n: Node, level: nat, d: nat)
    requires level <= MAX_LEVEL ==>
      OfLevel(FlattenAll(n.children, level + 1), d)
          == if level + 1 <= d <= MAX_LEVEL then AtDepth(n.children, d - level - 1, d) else []
    ensures OfLevel(Flatten(n, level), d) ==
      if !(level <= d <= MAX_LEVEL) then []
      else if d > level then AtDepth(n.children, d - level - 1, d)
      else if n.id == 0 then [] else [ItemOf(n, level)]
  {
    if level <= MAX_LEVEL {
      var own := if n.id != 0 then [ItemOf(n, level)] else [];
      OfLevelConcat(own, FlattenAll(n.children, level + 1), d);
      assert own != [] ==> own[1..] == [];
    }
  }

  // ------------------------------------------------------------ rebuilding the forest

  datatype Tree = Tree(item: Item, kids: seq<Tree>)

  // The forest down to the deepest level shown.
  function Pruned(cs: seq<Child>, level: nat): seq<Tree>
    decreases cs
  {
    if cs == [] || level > MAX_LEVEL then []
    else match cs[0]
      case OtherType => []
      case WrappedOther => Pruned(cs[1..], level)
      case Struct(_, n) =>
        assert n < cs[0];
        [Tree(ItemOf(n, level), Pruned(n.children, level + 1))] + Pruned(cs[1..], level)
  }

  // Reads a forest at `level` off the front of a flat list.
  function Rebuild(items: seq<Item>, level: nat): (r: (seq<Tree>, seq<Item>))
    ensures |r.1| <= |items|
    decreases |items|
  {
    if items == [] || items[0].level != level then ([], items)
    else
      var (kids, rest) := Rebuild(items[1..], level + 1);
      var (trees, rest') := Rebuild(rest, level);
      ([Tree(items[0], kids)] + trees, rest')
  }

  // Every node that would be shown has a nonzero id.
  ghost predicate AllNamed(cs: seq<Child>, level: nat)
    decreases cs
  {
    if cs == [] || level > MAX_LEVEL then true
    else match cs[0]
      case OtherType => true
      case WrappedOther => AllNamed(cs[1..], level)
      case Struct(_, n) => assert n < cs[0]; n.id != 0 && AllNamed(n.children, level + 1) && AllNamed(cs[1..], level)
  }

  lemma {:induction false} RebuildInverts(cs: seq<Child>, level: nat, rest: seq<Item>, items: seq<Item>)
    requires AllNamed(cs, level) && level <= MAX_LEVEL + 1
    requires rest != [] ==> rest[0].level < level
    requires items == FlattenAll(cs, level) + rest
    ensures Rebuild(items, level) == (Pruned(cs, level), rest)
    decreases MAX_LEVEL + 1 - level, |cs|, 0
  {
    if cs == [] {
      assert items == rest;
    } else if level > MAX_LEVEL {
      NothingTooDeep(cs, level);
      assert items == rest;
    } else {
      match cs[0] {
        case OtherType => assert items == rest;
        case WrappedOther => RebuildInverts(cs[1..], level, rest, items);
        case Struct(_, n) =>
          assert n < cs[0];
          StructUnfold(cs, n, level, rest);
          StartsAtMost(cs[1..], level, rest);
          RebuildStruct(n.children, cs[1..], ItemOf(n, level), level, rest, items);
      }
    }
  }

  lemma StructUnfold(cs: seq<Child>, n: Node, level: nat, rest: seq<Item>)
    requires cs != [] && cs[0].Struct? && n == cs[0].node && n.id != 0 && level <= MAX_LEVEL
    ensures FlattenAll(cs, level) + rest
         == [ItemOf(n, level)] + (FlattenAll(n.children, level + 1) + (FlattenAll(cs[1..], level) + rest))
    ensures Pruned(cs, level) == [Tree(ItemOf(n, level), Pruned(n.children, level + 1))] + Pruned(cs[1..], level)
  {
    assert FlattenAll(cs, level) == [ItemOf(n, level)] + FlattenAll(n.children, level + 1) + FlattenAll(cs[1..], level);
  }

  // The head of `items` with the forests already read from below and after it.
  lemma RebuildNode(item: Item, below: seq<Item>, after: seq<Item>, items: seq<Item>, level: nat,
                    kids: seq<Tree>, trees: seq<Tree>, rest: seq<Item>)
    requires items == [item] + (below + after) && item.level == level
    requires Rebuild(below + after, level + 1) == (kids, after) && Rebuild(after, level) == (trees, rest)
    ensures Rebuild(items, level) == ([Tree(item, kids)] + trees, rest)
  {
    assert items[0] == item && items[1..] == below + after;
  }

  lemma {:induction false} RebuildStruct(children: seq<Child>, siblings: seq<Child>, item: Item, level: nat,
                                         rest: seq<Item>, items: seq<Item>)
    requires level <= MAX_LEVEL && item.level == level && (rest != [] ==> rest[0].level < level)
    requires AllNamed(children, level + 1) && AllNamed(siblings, level)
    requires var after := FlattenAll(siblings, level) + rest;
      && (after != [] ==> after[0].level <= level)
      && items == [item] + (FlattenAll(children, level + 1) + after)
    ensures Rebuild(items, level) == ([Tree(item, Pruned(children, level + 1))] + Pruned(siblings, level), rest)
    decreases MAX_LEVEL + 1 - level, |siblings|, 1
  {
    var below, after := FlattenAll(children, level + 1), FlattenAll(siblings, level) + rest;
    RebuildInverts(children, level + 1, after, below + after);
    RebuildInverts(siblings, level, rest, after);
    RebuildNode(item, below, after, items, level, Pruned(children, level + 1), Pruned(siblings, level), rest);
  }

  lemma {:induction false} NothingTooDeep(cs: seq<Child>, level: nat)
    requires level > MAX_LEVEL
    ensures FlattenAll(cs, level) == []
    decreases |cs|
  {
    if cs != [] { NothingTooDeep(cs[1..], level); }
  }

  // What follows a node's subtree starts no deeper than the node.
  lemma {:induction false} StartsAtMost(cs: seq<Child>, level: nat, rest: seq<Item>)
    requires AllNamed(cs, level) && level <= MAX_LEVEL && (rest != [] ==> rest[0].level < level)
    ensures var a := FlattenAll(cs, level) + rest; a != [] ==> a[0].level <= level
    decreases |cs|
  {
    if cs != [] {
      match cs[0] {
        case OtherType =>
        case WrappedOther => StartsAtMost(cs[1..], level, rest);
        case Struct(_, n) =>
      }
    }
  }

  // --- with an unnamed node the forest cannot be recovered

  ghost predicate TreesNamed(ts: seq<Tree>) {
    forall t :: t in ts ==> t.item.id != 0 && TreesNamed(t.kids)
  }

  ghost predicate Named(items: seq<Item>) {
    forall k :: 0 <= k < |items| ==> items[k].id != 0
  }

  lemma {:induction false} FlatIdsNonzero(cs: seq<Child>, level: nat)
    ensures Named(FlattenAll(cs, level))
    decreases cs
  {
    if cs != [] {
      match cs[0] {
        case OtherType =>
        case WrappedOther => FlatIdsNonzero(cs[1..], level);
        case Struct(_, n) =>
          assert n < cs[0];
          FlatIdsNonzero(cs[1..], level);
          FlatIdsNonzero(n.children, level + 1);
      }
    }
  }

  ghost predicate Tail(a: seq<Item>, b: seq<Item>) {
    |a| <= |b| && a == b[|b| - |a|..]
  }

  lemma TailOfTail(a: seq<Item>, b: seq<Item>, c: seq<Item>)
    requires Tail(a, b) && Tail(b, c)
    ensures Tail(a, c)
  {}

  // What is left over is a tail of the list.
  lemma {:induction false} RebuildLeavesTail(items: seq<Item>, level: nat)
    ensures Tail(Rebuild(items, level).1, items)
    decreases |items|
  {
    if items != [] && items[0].level == level {
      var (kids, rest) := Rebuild(items[1..], level + 1);
      RebuildLeavesTail(items[1..], level + 1);
      RebuildLeavesTail(rest, level);
      TailOfTail(rest, items[1..], items);
      TailOfTail(Rebuild(rest, level).1, rest, items);
    }
  }

  lemma {:induction false} RebuildNamed(items: seq<Item>, level: nat)
    requires Named(items)
    ensures TreesNamed(Rebuild(items, level).0)
    decreases |items|
  {
    if items != [] && items[0].level == level {
      var (kids, rest) := Rebuild(items[1..], level + 1);
      RebuildLeavesTail(items[1..], level + 1);
      RebuildNamed(items[1..], level + 1);
      RebuildNamed(rest, level);
      ConsNamed(Tree(items[0], kids), Rebuild(rest, level).0);
    }
  }

  lemma ConsNamed(t: Tree, ts: seq<Tree>)
    requires t.item.id != 0 && TreesNamed(t.kids) && TreesNamed(ts)
    ensures TreesNamed([t] + ts)
  {}

  lemma {:induction false} PrunedNamed(cs: seq<Child>, level: nat)
    requires TreesNamed(Pruned(cs, level))
    ensures AllNamed(cs, level)
    decreases cs
  {
    if cs != [] && level <= MAX_LEVEL {
      match cs[0] {
        case OtherType =>
        case WrappedOther => PrunedNamed(cs[1..], level);
        case Struct(_, n) =>
          assert n < cs[0];
          var ts := Pruned(cs, level);
          assert ts[0] in ts && ts[1..] == Pruned(cs[1..], level);
          assert forall t :: t in ts[1..] ==> t in ts;
          PrunedNamed(n.children, level + 1);
          PrunedNamed(cs[1..], level);
      }
    }
  }

  // The rebuild function inverts the flattening if and only if no shown node has id zero.
  lemma RebuildInvertsIffNamed(cs: seq<Child>)
    ensures Rebuild(FlattenAll(cs, 0), 0).0 == Pruned(cs, 0) <==> AllNamed(cs, 0)
  {
    if AllNamed(cs, 0) {
      RebuildInverts(cs, 0, [], FlattenAll(cs, 0));
    } else if Rebuild(FlattenAll(cs, 0), 0).0 == Pruned(cs, 0) {
      FlatIdsNonzero(cs, 0);
      RebuildNamed(FlattenAll(cs, 0), 0);
      PrunedNamed(cs, 0);
    }
  }

  // --- and no other function could do better

  // The same node with another item.
  function Disguised(n: Node): (m: Node)
    ensures m.id == n.id && m.children == n.children
    ensures forall level: nat :: ItemOf(m, level) != ItemOf(n, level)
  {
    var m := n.(props := if ItemOf(n, 0).separator then [] else [Type("separator")]);
    assert forall level: nat :: ItemOf(m, level).separator != ItemOf(n, level).separator by {
      forall level: nat ensures ItemOf(m, level).separator != ItemOf(n, level).separator {
        ItemMeaning(n, level);
        ItemMeaning(n, 0);
        ItemMeaning(m, level);
        assert m.props != [] ==> Separates(m.props[0]);
      }
    }
    m
  }

  // Whatever stands in an unnamed node's item leaves no trace: another layout, with other items
  // in its forest, flattens to the same list.
  lemma {:induction false} UnnamedIsLost(cs: seq<Child>, level: nat) returns (cs': seq<Child>)
    requires !AllNamed(cs, level)
    ensures FlattenAll(cs', level) == FlattenAll(cs, level) && Pruned(cs', level) != Pruned(cs, level)
    ensures !AllNamed(cs', level)
    decreases cs
  {
    var c, rest := cs[0], cs[1..];
    if c.WrappedOther? {
      var rest' := UnnamedIsLost(rest, level);
      cs' := [c] + rest';
      assert cs'[1..] == rest';
    } else {
      var n := c.node;
      assert n < c;
      if n.id == 0 {
        cs' := [c.(node := Disguised(n))] + rest;
        assert cs'[1..] == rest && Pruned(cs', level)[0].item != Pruned(cs, level)[0].item;
      } else if !AllNamed(n.children, level + 1) {
        var kids := UnnamedIsLost(n.children, level + 1);
        cs' := [c.(node := n.(children := kids))] + rest;
        assert cs'[1..] == rest && Pruned(cs', level)[0].kids != Pruned(cs, level)[0].kids;
      } else {
        var rest' := UnnamedIsLost(rest, level);
        cs' := [c] + rest';
        assert cs'[1..] == rest' && Pruned(cs', level)[1..] != Pruned(cs, level)[1..];
      }
    }
  }

  // The forests that a layout could have, going by its list and by whether it names every node.
  ghost predicate Determined(cs: seq<Child>) {
    forall ds :: FlattenAll(ds, 0) == FlattenAll(cs, 0) && (AllNamed(ds, 0) <==> AllNamed(cs, 0))
      ==> Pruned(ds, 0) == Pruned(cs, 0)
  }

  // The flat list determines the pruned forest, among layouts that alike name all shown nodes or
  // alike do not, if and only if the layout names them all.
  lemma DeterminedIffNamed(cs: seq<Child>)
    ensures Determined(cs) <==> AllNamed(cs, 0)
  {
    if AllNamed(cs, 0) {
      RebuildInvertsIffNamed(cs);
      forall ds | FlattenAll(ds, 0) == FlattenAll(cs, 0) && AllNamed(ds, 0) ensures Pruned(ds, 0) == Pruned(cs, 0) {
        RebuildInvertsIffNamed(ds);
      }
    } else {
      var ds := UnnamedIsLost(cs, 0);
    }
  }

  // An unnamed node without children can be put in front of any layout, and the list is the same.
  lemma UnnamedLeafLeavesNoTrace(cs: seq<Child>)
    ensures var ds := [Struct(false, Node(0, [], []))] + cs;
      FlattenAll(ds, 0) == FlattenAll(cs, 0) && |Pruned(ds, 0)| == |Pruned(cs, 0)| + 1
  {
    var n := Node(0, [], []);
    var ds := [Struct(false, n)] + cs;
    assert Flatten(n, 0) == [] && ds[1..] == cs;
  }

  // ------------------------------------------------------------ the parser

  const BLANK := Item(0, "", false, false, 0, false)

  // A buffer that starts at eight items and doubles.
  class MenuBuilder {
    var items: array<Item>
    var count: nat
    var cap: nat

    ghost predicate Valid()
      reads this
    {
      cap == items.Length && count <= cap
    }

    ghost function Contents(): seq<Item>
      reads this, items
      requires Valid()
    {
      items[..count]
    }

    constructor ()
      ensures Valid() && Contents() == [] && fresh(items)
    {
      items := new Item[0];
      count, cap := 0, 0;
    }

    method Push(item: Item)
      requires Valid()
      modifies this, items
      ensures Valid() && Contents() == old(Contents()) + [item]
      ensures items == old(items) || fresh(items)
      ensures cap == if old(cap) == 0 then 8 else if old(count) >= old(cap) then 2 * old(cap) else old(cap)
    {
      if cap == 0 {
        cap := 8;
        items := new Item[cap](_ => BLANK);
      } else if count >= cap {
        cap := cap * 2;
        var bigger := new Item[cap](_ => BLANK);
        forall i | 0 <= i < count {
          bigger[i] := items[i];
        }
        items := bigger;
      }
      items[count] := item;
      count := count + 1;
    }
  }

  method ParseProps(n: Node, level: nat) returns (item: Item)
    ensures item == ItemOf(n, level)
  {
    item := Item(n.id, "", true, false, level, false);
    ghost var blank := item;
    for i := 0 to |n.props|
      invariant item == AppliedAll(blank, n.props[..i])
    {
      var p := n.props[i];
      assert n.props[..i + 1][..i] == n.props[..i];
      match p {
        case Label(text) => item := item.(caption := Truncated(text));
        case Enabled(on) => item := item.(enabled := on);
        case Visible(on) =>
          if !on {
            item := item.(enabled := false, caption := "", separator := true);
          }
        case Type(name) =>
          if name == "separator" {
            item := item.(separator := true);
          }
        case ChildrenDisplay(name) =>
          if name == "submenu" {
            item := item.(submenu := true);
          }
        case Unknown =>
      }
    }
    assert n.props[..|n.props|] == n.props;
  }

  method ParseNode(n: Node, level: nat, b: MenuBuilder)
    requires b.Valid()
    modifies b, b.items
    ensures b.Valid() && b.Contents() == old(b.Contents()) + Flatten(n, level)
    ensures b.items == old(b.items) || fresh(b.items)
    decreases n, 1
  {
    if level > MAX_LEVEL {
      return;
    }
    var item := ParseProps(n, level);
    if n.id != 0 {
      b.Push(item);
    }
    assert b.Contents() == old(b.Contents()) + if n.id != 0 then [item] else [];
    ParseChildren(n.children, level + 1, b);
  }

  method ParseChildren(cs: seq<Child>, level: nat, b: MenuBuilder)
    requires b.Valid()
    modifies b, b.items
    ensures b.Valid() && b.Contents() == old(b.Contents()) + FlattenAll(cs, level)
    ensures b.items == old(b.items) || fresh(b.items)
    decreases cs, 0
  {
    var i := 0;
    ghost var target := b.Contents() + FlattenAll(cs, level);
    assert cs[0..] == cs;
    while i < |cs| && !cs[i].OtherType?
      invariant i <= |cs| && b.Valid() && (b.items == old(b.items) || fresh(b.items))
      invariant b.Contents() + FlattenAll(cs[i..], level) == target
    {
      ghost var before := b.Contents();
      assert cs[i..][0] == cs[i] && cs[i..][1..] == cs[i + 1..];
      if cs[i].Struct? {
        assert cs[i].node < cs[i];
        ParseNode(cs[i].node, level, b);
        assert before + (Flatten(cs[i].node, level) + FlattenAll(cs[i + 1..], level))
            == b.Contents() + FlattenAll(cs[i + 1..], level);
      }
      i := i + 1;
    }
    assert FlattenAll(cs[i..], level) == [];
  }

  // The whole layout: nothing to show counts as a failure.
  method FetchMenu(layout: seq<Child>) returns (r: Option<seq<Item>>)
    ensures r == if FlattenAll(layout, 0) == [] then None else Some(FlattenAll(layout, 0))
  {
    var b := new MenuBuilder();
    ParseChildren(layout, 0, b);
    assert b.Contents() == FlattenAll(layout, 0);
    if b.count == 0 {
      return None;
    }
    return Some(b.items[..b.count]);
  }
}
