// Where the dock draws its launchers and tray icons, and what the pointer hits.  Drawing and
// hit-testing compute positions separately; here they are shown to agree.
module DockLayout {
  import opened Text

  const ICON_PX := 48
  const LABEL_HEIGHT := 24
  const LABEL_GAP := 14
  const ROW_GAP := 10
  const INFO_LINES := 3
  const INFO_LINE_HEIGHT := 14
  const INFO_LINE_GAP := 4
  const INFO_TOP_GAP := 10
  const INFO_MAX_WIDTH := 220
  const TRAY_ICON := 24
  const TRAY_SPACING := 3
  const TRAY_PAD := 10

  datatype Rect = Rect(x: int, y: int, w: int, h: int)

  predicate Inside(r: Rect, x: int, y: int) {
    r.x <= x < r.x + r.w && r.y <= y < r.y + r.h
  }

  // ------------------------------------------------------------ categories

  // Two categories are the same for strcasecmp exactly when they fold to the same string; this is
  // the order of strcasecmp on folded strings.
  predicate AtMost(a: string, b: string) {
    a == "" || (b != "" && (a[0] < b[0] || (a[0] == b[0] && AtMost(a[1..], b[1..]))))
  }

  lemma {:induction false} AtMostAntisymmetric(a: string, b: string)
    requires AtMost(a, b) && AtMost(b, a)
    ensures a == b
  {
    if a != "" && b != "" {
      AtMostAntisymmetric(a[1..], b[1..]);
      assert a == [a[0]] + a[1..] && b == [b[0]] + b[1..];
    }
  }

  // The launchers' categories after the sort.
  ghost predicate Sorted(cats: seq<string>) {
    forall i, j :: 0 <= i <= j < |cats| ==> AtMost(Lower(cats[i]), Lower(cats[j]))
  }

  predicate SameRow(cats: seq<string>, i: int)
    requires 0 < i < |cats|
  {
    Lower(cats[i]) == Lower(cats[i - 1])
  }

  function Row(cats: seq<string>, i: nat): (r: nat)
    requires i < |cats|
    ensures r <= i
  {
    if i == 0 then 0 else Row(cats, i - 1) + if SameRow(cats, i) then 0 else 1
  }

  function Col(cats: seq<string>, i: nat): (c: nat)
    requires i < |cats|
    ensures c <= i
  {
    if i == 0 || !SameRow(cats, i) then 0 else Col(cats, i - 1) + 1
  }

  lemma {:induction false} RowMonotone(cats: seq<string>, i: nat, j: nat)
    requires i <= j < |cats|
    ensures Row(cats, i) <= Row(cats, j)
    ensures Row(cats, i) == Row(cats, j) ==>
      Lower(cats[i]) == Lower(cats[j]) && Col(cats, j) == Col(cats, i) + (j - i)
    decreases j
  {
    if i < j {
      RowMonotone(cats, i, j - 1);
    }
  }

  lemma {:induction false} SortedRunIsOneRow(cats: seq<string>, i: nat, j: nat)
    requires Sorted(cats) && i <= j < |cats| && Lower(cats[i]) == Lower(cats[j])
    ensures Row(cats, i) == Row(cats, j)
    decreases j
  {
    if i < j {
      assert AtMost(Lower(cats[i]), Lower(cats[j - 1])) && AtMost(Lower(cats[j - 1]), Lower(cats[j]));
      AtMostAntisymmetric(Lower(cats[i]), Lower(cats[j - 1]));
      SortedRunIsOneRow(cats, i, j - 1);
    }
  }

  // After the sort each category, ignoring case, is exactly one row.
  lemma RowsAreCategories(cats: seq<string>, i: nat, j: nat)
    requires Sorted(cats) && i < |cats| && j < |cats|
    ensures Row(cats, i) == Row(cats, j) <==> Lower(cats[i]) == Lower(cats[j])
  {
    if i <= j {
      RowMonotone(cats, i, j);
      if Lower(cats[i]) == Lower(cats[j]) { SortedRunIsOneRow(cats, i, j); }
    } else {
      RowMonotone(cats, j, i);
      if Lower(cats[i]) == Lower(cats[j]) { SortedRunIsOneRow(cats, j, i); }
    }
  }

  // ------------------------------------------------------------ the widest row

  ghost predicate IsWidest(cats: seq<string>, m: nat) {
    && (forall i :: 0 <= i < |cats| ==> Col(cats, i) + 1 <= m)
    && m >= 1
    && (cats != [] ==> exists i :: 0 <= i < |cats| && Col(cats, i) + 1 == m)
  }

  // The source compares each category with the first of its run; the run's members agree.
  method MaxLaunchersPerCategory(cats: seq<string>) returns (max: nat)
    ensures IsWidest(cats, max)
    ensures cats == [] ==> max == 1
  {
    if |cats| == 0 {
      return 1;
    }
    max := 1;
    var current, currentCat := 0, cats[0];
    ghost var widest := 0;
    for i := 0 to |cats|
      invariant i == 0 ==> current == 0
      invariant i > 0 ==> current == Col(cats, i - 1) + 1 && Lower(currentCat) == Lower(cats[i - 1])
      invariant max >= 1 && 0 <= widest <= i && (max > 1 ==> widest < i && Col(cats, widest) + 1 == max)
      invariant forall k :: 0 <= k < i ==> Col(cats, k) + 1 <= if max > current then max else current
    {
      if i == 0 || Lower(cats[i]) != Lower(currentCat) {
        if current > max {
          max := current;
          widest := i - 1;
        }
        currentCat := cats[i];
        current := 1;
      } else {
        current := current + 1;
      }
    }
    if current > max {
      max := current;
      widest := |cats| - 1;
    }
    assert max == 1 ==> Col(cats, 0) + 1 == max;
  }

  // ------------------------------------------------------------ launcher rectangles

  // Where launcher `i` goes.
  function LauncherRect(cats: seq<string>, i: nat, padding: int, spacing: int): Rect
    requires i < |cats|
  {
    Rect(padding + Col(cats, i) * (ICON_PX + spacing), RowTop(padding, spacing, Row(cats, i)), ICON_PX, ICON_PX)
  }

  function FirstTop(padding: int): int {
    padding + INFO_LINES * (INFO_LINE_HEIGHT + INFO_LINE_GAP) + INFO_TOP_GAP + LABEL_HEIGHT + LABEL_GAP
  }

  function RowTop(padding: int, spacing: int, row: nat): int {
    FirstTop(padding) + row * (ICON_PX + spacing + ROW_GAP + LABEL_HEIGHT + LABEL_GAP)
  }

  lemma Step(n: nat, d: int)
    ensures (n + 1) * d == n * d + d
  {}

  method DrawLaunchers(cats: seq<string>, padding: int, spacing: int, rects: array<Rect>)
    requires rects.Length == |cats|
    modifies rects
    ensures forall i :: 0 <= i < |cats| ==> rects[i] == LauncherRect(cats, i, padding, spacing)
  {
    var x, infoY := padding, padding;
    for line := 0 to INFO_LINES
      invariant infoY == padding + line * (INFO_LINE_HEIGHT + INFO_LINE_GAP)
    {
      infoY := infoY + INFO_LINE_HEIGHT + INFO_LINE_GAP;
    }
    var y := infoY + INFO_TOP_GAP;
    var i := 0;
    ghost var row := 0;
    while i < |cats|
      invariant 0 <= i <= |cats|
      invariant y == RowTop(padding, spacing, row) - LABEL_HEIGHT - LABEL_GAP
      invariant 0 < i < |cats| ==> !SameRow(cats, i) && row == Row(cats, i - 1) + 1
      invariant i == 0 ==> row == 0
      invariant forall k :: 0 <= k < i ==> rects[k] == LauncherRect(cats, k, padding, spacing)
    {
      var start, key := i, cats[i];
      assert Row(cats, start) == row && Col(cats, start) == 0;
      while i < |cats| && Lower(cats[i]) == Lower(key)
        invariant start <= i <= |cats| && (i == start ==> key == cats[i])
        invariant forall k :: start <= k < i ==>
          Lower(cats[k]) == Lower(key) && Row(cats, k) == row && Col(cats, k) == k - start
        decreases |cats| - i
      {
        i := i + 1;
      }
      var count := i - start;
      y := y + LABEL_HEIGHT + LABEL_GAP;
      DrawRow(cats, start, count, row, x, y, padding, spacing, rects);
      y := y + ICON_PX + spacing + ROW_GAP;
      Step(row, ICON_PX + spacing + ROW_GAP + LABEL_HEIGHT + LABEL_GAP);
      row := row + 1;
    }
  }

  // The launchers of one category, side by side.
  method DrawRow(cats: seq<string>, start: nat, count: nat, ghost row: nat, x: int, y: int,
                 padding: int, spacing: int, rects: array<Rect>)
    requires rects.Length == |cats| && start + count <= |cats|
    requires x == padding && y == RowTop(padding, spacing, row)
    requires forall k :: start <= k < start + count ==> Row(cats, k) == row && Col(cats, k) == k - start
    modifies rects
    ensures forall k :: 0 <= k < |cats| ==>
      rects[k] == if start <= k < start + count then LauncherRect(cats, k, padding, spacing) else old(rects[k])
  {
    var rowX := x;
    for j := 0 to count
      invariant rowX == padding + j * (ICON_PX + spacing)
      invariant forall k :: 0 <= k < |cats| ==>
        rects[k] == if start <= k < start + j then LauncherRect(cats, k, padding, spacing) else old(rects[k])
    {
      rects[start + j] := Rect(rowX, y, ICON_PX, ICON_PX);
      Step(j, ICON_PX + spacing);
      rowX := rowX + ICON_PX + spacing;
    }
  }

  lemma {:induction false} Gap(m: nat, n: nat, d: int)
    requires m < n && d >= 0
    ensures m * d + d <= n * d
    decreases n
  {
    Step(n - 1, d);
    if m + 1 < n { Gap(m, n - 1, d); }
  }

  // No point lies in two rectangles.
  lemma RectsDisjoint(cats: seq<string>, i: nat, j: nat, padding: int, spacing: int, x: int, y: int)
    requires i < j < |cats| && spacing >= 0
    ensures !(Inside(LauncherRect(cats, i, padding, spacing), x, y)
        && Inside(LauncherRect(cats, j, padding, spacing), x, y))
  {
    RowMonotone(cats, i, j);
    if Row(cats, i) < Row(cats, j) {
      Gap(Row(cats, i), Row(cats, j), ICON_PX + spacing + ROW_GAP + LABEL_HEIGHT + LABEL_GAP);
    } else {
      Gap(Col(cats, i), Col(cats, j), ICON_PX + spacing);
    }
  }

  // Step by step: the first icon is below the information lines and its category's label; the next
  // one stands beside it, or, with the next category, at the left again, below its own label.
  lemma RectsStepByStep(cats: seq<string>, i: nat, padding: int, spacing: int)
    requires i < |cats|
    ensures var r := LauncherRect(cats, i, padding, spacing);
      r.w == r.h == ICON_PX &&
      if i == 0 then
        && r.x == padding
        && r.y == padding + INFO_LINES * (INFO_LINE_HEIGHT + INFO_LINE_GAP) + INFO_TOP_GAP + LABEL_HEIGHT + LABEL_GAP
      else
        var p := LauncherRect(cats, i - 1, padding, spacing);
        if Lower(cats[i]) == Lower(cats[i - 1]) then r.x == p.x + p.w + spacing && r.y == p.y
        else r.x == padding && r.y == p.y + p.h + spacing + ROW_GAP + LABEL_HEIGHT + LABEL_GAP
  {
    if i > 0 {
      Step(Col(cats, i - 1), ICON_PX + spacing);
      Step(Row(cats, i - 1), ICON_PX + spacing + ROW_GAP + LABEL_HEIGHT + LABEL_GAP);
    }
  }

  // ------------------------------------------------------------ geometry

  function Max(a: int, b: int): int {
    if a > b then a else b
  }

  function TrayWidth(icons: nat): int {
    if icons == 0 then 0 else icons * TRAY_ICON + (icons - 1) * TRAY_SPACING
  }

  // `labelLen` and `infoLen` are the longest category label and system information line.
  function PanelWidth(widest: nat, labelLen: nat, infoLen: nat, trayIcons: nat, padding: int, spacing: int): (w: int)
    ensures w - 2 * padding >= INFO_MAX_WIDTH && w - 2 * padding >= TrayWidth(trayIcons)
    ensures w - 2 * padding >= labelLen * 9 + 8 && w - 2 * padding >= infoLen * 7 + 8
    ensures var row := widest * ICON_PX + (widest - 1) * spacing;
      w - 2 * padding >= row
      && w - 2 * padding in {INFO_MAX_WIDTH, row, TrayWidth(trayIcons), labelLen * 9 + 8, infoLen * 7 + 8}
  {
    var rowW := widest * ICON_PX + (widest - 1) * spacing;
    var content := Max(Max(Max(rowW, labelLen * 9 + 8), infoLen * 7 + 8), TrayWidth(trayIcons));
    padding * 2 + Max(INFO_MAX_WIDTH, content)
  }

  // All rectangles lie between the paddings.
  lemma RectsWithinPadding(cats: seq<string>, i: nat, widest: nat, labelLen: nat, infoLen: nat, trayIcons: nat,
                           padding: int, spacing: int)
    requires i < |cats| && IsWidest(cats, widest) && spacing >= 0
    ensures var r := LauncherRect(cats, i, padding, spacing);
      padding <= r.x && r.x + r.w <= PanelWidth(widest, labelLen, infoLen, trayIcons, padding, spacing) - padding
  {
    var c := Col(cats, i);
    if c + 1 < widest {
      Gap(c, widest - 1, ICON_PX + spacing);
    }
    assert widest * ICON_PX + (widest - 1) * spacing == (widest - 1) * (ICON_PX + spacing) + ICON_PX;
    assert c * (ICON_PX + spacing) >= 0;
  }

  // ------------------------------------------------------------ hit testing

  method HitTestLauncher(rects: seq<Rect>, x: int, y: int) returns (hit: int)
    ensures -1 <= hit < |rects|
    ensures hit >= 0 ==> Inside(rects[hit], x, y) && forall i :: 0 <= i < hit ==> !Inside(rects[i], x, y)
    ensures hit == -1 ==> forall i :: 0 <= i < |rects| ==> !Inside(rects[i], x, y)
  {
    for i := 0 to |rects|
      invariant forall k :: 0 <= k < i ==> !Inside(rects[k], x, y)
    {
      var r := rects[i];
      if x >= r.x && x < r.x + r.w && y >= r.y && y < r.y + r.h {
        return i;
      }
    }
    return -1;
  }

  // On what was drawn, hit-testing answers `i` exactly for the points of rectangle `i`.
  method HitDrawn(cats: seq<string>, padding: int, spacing: int, rects: array<Rect>, x: int, y: int) returns (hit: int)
    requires rects.Length == |cats| && spacing >= 0
    modifies rects
    ensures forall i :: 0 <= i < |cats| ==> (hit == i <==> Inside(LauncherRect(cats, i, padding, spacing), x, y))
    ensures -1 <= hit < |cats|
  {
    DrawLaunchers(cats, padding, spacing, rects);
    hit := HitTestLauncher(rects[..], x, y);
    forall i | 0 <= i < |cats|
      ensures hit == i <==> Inside(LauncherRect(cats, i, padding, spacing), x, y)
    {
      if hit >= 0 && hit != i {
        if hit < i {
          RectsDisjoint(cats, hit, i, padding, spacing, x, y);
        } else {
          RectsDisjoint(cats, i, hit, padding, spacing, x, y);
        }
      }
    }
  }

  // ------------------------------------------------------------ the tray

  datatype Tray = Tray(count: nat, size: int, gap: int, x: int, y: int, embeddedX: int)

  // Icons at the given places form one evenly spaced row.
  ghost predicate OneRow(row: seq<int>) {
    forall k :: 0 <= k < |row| ==> row[k] == row[0] + k * (TRAY_ICON + TRAY_SPACING)
  }

  // Where there is room for its cart, the tray ends at the padding of the right and bottom edges.
  predicate AtBottomRight(t: Tray, icons: nat, panelW: int, panelH: int, padding: int) {
    && (panelW >= padding + TrayWidth(icons) + 2 * TRAY_PAD ==>
          t.embeddedX + TrayWidth(icons) + TRAY_PAD + padding == panelW)
    && (panelH >= Max(padding, 2) + TRAY_ICON + 2 * TRAY_PAD ==>
          t.y + TRAY_ICON + TRAY_PAD + Max(padding, 2) == panelH)
  }

  // Where the tray goes: the embedding window's left edge, and the first item icon's.
  method PlaceTray(items: nat, embedded: nat, panelW: int, panelH: int, padding: int) returns (t: Tray)
    requires padding >= 0 && panelH >= 0 && items + embedded > 0
    requires panelW >= 2 * padding + TrayWidth(items + embedded)  // geometry recalculated for these counts
    ensures t.count == items && t.size == TRAY_ICON && t.gap == TRAY_SPACING
    ensures items > 0 ==> t.x == t.embeddedX + embedded * (TRAY_ICON + TRAY_SPACING)
    ensures 0 <= t.embeddedX && t.embeddedX + TrayWidth(items + embedded) <= panelW
    ensures 0 <= t.y && (t.y + TRAY_ICON <= panelH || panelH < TRAY_ICON)
    ensures AtBottomRight(t, items + embedded, panelW, panelH, padding)
  {
    var trayCount := items + embedded;
    var bottomGap := if padding > 2 then padding else 2;
    var size, gap := TRAY_ICON, TRAY_SPACING;
    var total := trayCount * size;
    if trayCount > 1 {
      total := total + (trayCount - 1) * TRAY_SPACING;
    }
    var cartW, cartH := total + TRAY_PAD * 2, size + TRAY_PAD * 2;
    var cartX, cartY := panelW - padding - cartW, panelH - bottomGap - cartH;
    if cartX < 0 {
      cartX := 0;
    }
    if cartY < 0 {
      cartY := 0;
    }
    if cartX + cartW > panelW {
      cartW := panelW - cartX;
    }
    if cartY + cartH > panelH {
      cartH := panelH - cartY;
    }
    var trayY := cartY + TRAY_PAD;
    if trayY < 0 {
      trayY := 0;
    }
    if trayY + size > panelH {
      trayY := panelH - size;
      if trayY < 0 {
        trayY := 0;
      }
    }
    var contentW := trayCount * size + (trayCount - 1) * gap;
    assert cartW >= contentW;  // so C's truncating division halves a non-negative number
    var startX := cartX + (cartW - contentW) / 2;
    if startX < 0 {
      startX := 0;
    }
    if startX + contentW > panelW {
      startX := panelW - contentW;
      if startX < 0 {
        startX := 0;
      }
    }
    var embeddedW := 0;
    if embedded > 0 {
      embeddedW := embedded * size + (embedded - 1) * gap;
    }
    var trayX := startX + embeddedW;
    if embedded > 0 && items > 0 {
      trayX := trayX + gap;
    }
    t := Tray(items, size, gap, trayX, trayY, startX);
  }

  // The embedding window's own layout: icon `i` at the same stride, from its left edge.
  method LayoutEmbedded(count: nat, gap: int) returns (xs: seq<int>, width: int)
    ensures |xs| == count
    ensures forall i :: 0 <= i < count ==> xs[i] == i * (TRAY_ICON + if gap > 0 then gap else TRAY_SPACING)
    ensures count > 0 ==> width == xs[count - 1] + TRAY_ICON
  {
    var size := TRAY_ICON;
    var step := if gap > 0 then gap else TRAY_SPACING;
    xs, width := [], 0;
    if count == 0 {
      return;
    }
    width := count * size + (count - 1) * step;
    var x := 0;
    for i := 0 to count
      invariant |xs| == i && x == i * (size + step)
      invariant forall k :: 0 <= k < i ==> xs[k] == k * (size + step)
    {
      xs := xs + [x];
      Step(i, size + step);
      x := x + size + step;
    }
    assert (count - 1) * (size + step) + size == count * size + (count - 1) * step;
  }

  // The item icons, drawn one after the other.
  method DrawItems(x: int, size: int, gap: int, items: nat) returns (xs: seq<int>)
    ensures |xs| == items && forall i :: 0 <= i < items ==> xs[i] == x + i * (size + gap)
  {
    var tx := x;
    xs := [];
    for i := 0 to items
      invariant |xs| == i && tx == x + i * (size + gap)
      invariant forall k :: 0 <= k < i ==> xs[k] == x + k * (size + gap)
    {
      xs := xs + [tx];
      Step(i, size + gap);
      tx := tx + size + gap;
    }
  }

  // What is drawn of the tray: the embedded icons where their window and its own layout put them,
  // then the item icons.  Together they form one row inside the panel.
  method DrawTray(items: nat, embedded: nat, panelW: int, panelH: int, padding: int)
    returns (t: Tray, embeddedXs: seq<int>, itemXs: seq<int>)
    requires padding >= 0 && panelH >= 0
    requires panelW >= 2 * padding + TrayWidth(items + embedded)
    ensures |embeddedXs| == embedded && |itemXs| == items
    ensures OneRow(embeddedXs + itemXs)
    ensures forall k :: 0 <= k < items + embedded ==>
      0 <= (embeddedXs + itemXs)[k] && (embeddedXs + itemXs)[k] + TRAY_ICON <= panelW
    ensures items + embedded == 0 ==> t == Tray(0, 0, 0, 0, 0, 0)
    ensures items > 0 ==>
      && t.count == items && t.size == TRAY_ICON && t.gap == TRAY_SPACING && t.x == itemXs[0]
      && 0 <= t.y && (t.y + TRAY_ICON <= panelH || panelH < TRAY_ICON)
    ensures items == 0 ==> t.count == 0
    ensures items + embedded > 0 ==>
      AtBottomRight(t, items + embedded, panelW, panelH, padding) && t.embeddedX == (embeddedXs + itemXs)[0]
  {
    if items + embedded == 0 {
      return Tray(0, 0, 0, 0, 0, 0), [], [];
    }
    t := PlaceTray(items, embedded, panelW, panelH, padding);
    itemXs := DrawItems(t.x, t.size, t.gap, items);
    var offsets, _ := LayoutEmbedded(embedded, t.gap);
    embeddedXs := seq(embedded, k requires 0 <= k < embedded => t.embeddedX + offsets[k]);
    RowOfBoth(embeddedXs, itemXs, t.embeddedX, panelW);
  }

  // Two stretches of the same stride, the second starting where the first would go on.
  lemma RowOfBoth(embeddedXs: seq<int>, itemXs: seq<int>, start: int, panelW: int)
    requires forall k :: 0 <= k < |embeddedXs| ==> embeddedXs[k] == start + k * (TRAY_ICON + TRAY_SPACING)
    requires forall k :: 0 <= k < |itemXs| ==>
      itemXs[k] == start + |embeddedXs| * (TRAY_ICON + TRAY_SPACING) + k * (TRAY_ICON + TRAY_SPACING)
    requires 0 <= start && start + TrayWidth(|embeddedXs| + |itemXs|) <= panelW
    ensures var row := embeddedXs + itemXs;
      OneRow(row) && forall k :: 0 <= k < |row| ==> 0 <= row[k] && row[k] + TRAY_ICON <= panelW
  {
    var row := embeddedXs + itemXs;
    forall k | 0 <= k < |row|
      ensures row[k] == start + k * (TRAY_ICON + TRAY_SPACING) && 0 <= row[k] && row[k] + TRAY_ICON <= panelW
    {
    }
  }

  predicate OnTrayIcon(t: Tray, i: int, x: int, y: int) {
    0 <= i < t.count
    && t.x + i * (t.size + t.gap) <= x < t.x + i * (t.size + t.gap) + t.size
    && t.y <= y <= t.y + t.size
  }

  // The answer is `i` exactly on icon `i`, whose bottom line counts as inside.
  method HitTestTray(t: Tray, x: int, y: int) returns (hit: int)
    requires t.count > 0 ==> t.size == TRAY_ICON && t.gap == TRAY_SPACING
    ensures forall i :: 0 <= i < t.count ==> (hit == i <==> OnTrayIcon(t, i, x, y))
    ensures -1 <= hit < t.count
  {
    if t.count == 0 || t.size <= 0 {
      return -1;
    }
    var spacing := if t.gap > 0 then t.gap else 3;
    var top, left := t.y, t.x;
    var bottom := top + t.size;
    var right := left + t.count * t.size + (t.count - 1) * spacing;
    if x < left || x > right || y < top || y > bottom {
      return -1;
    }
    var relX := x - left;
    var stride := t.size + spacing;
    var idx, inside := relX / stride, relX % stride;
    if idx < 0 || idx >= t.count || inside >= t.size {
      return -1;
    }
    return idx;
  }

  // The centre of icon `i` relative to the dock, where its menu is anchored.
  function TrayAnchor(t: Tray, i: nat): (int, int)
    requires t.size > 0
  {
    var spacing := if t.gap > 0 then t.gap else 3;
    (t.x + i * (t.size + spacing) + t.size / 2, t.y + t.size / 2)
  }

  // The point is on an icon drawn at `iconX`; its bottom line counts.
  predicate OnIcon(iconX: int, iconY: int, x: int, y: int) {
    iconX <= x < iconX + TRAY_ICON && iconY <= y <= iconY + TRAY_ICON
  }

  // On what was drawn, hit-testing answers `i` exactly on the span of item icon `i`.
  method HitDrawnTray(items: nat, embedded: nat, panelW: int, panelH: int, padding: int, x: int, y: int)
    returns (hit: int, t: Tray, itemXs: seq<int>)
    requires padding >= 0 && panelH >= 0 && panelW >= 2 * padding + TrayWidth(items + embedded)
    ensures |itemXs| == items && -1 <= hit < items
    ensures forall i :: 0 <= i < items ==> (hit == i <==> OnIcon(itemXs[i], t.y, x, y))
  {
    var embeddedXs: seq<int>;
    t, embeddedXs, itemXs := DrawTray(items, embedded, panelW, panelH, padding);
    hit := HitTestTray(t, x, y);
    ItemsOfRow(embeddedXs, itemXs);
    forall i | 0 <= i < items
      ensures hit == i <==> OnIcon(itemXs[i], t.y, x, y)
    {
      assert itemXs[i] == itemXs[0] + i * (TRAY_ICON + TRAY_SPACING) == t.x + i * (t.size + t.gap);
      assert OnTrayIcon(t, i, x, y) <==> OnIcon(itemXs[i], t.y, x, y);
    }
  }

  lemma ItemsOfRow(embeddedXs: seq<int>, itemXs: seq<int>)
    requires OneRow(embeddedXs + itemXs)
    ensures OneRow(itemXs)
  {
    var row, n := embeddedXs + itemXs, |embeddedXs|;
    forall k | 0 <= k < |itemXs| ensures itemXs[k] == itemXs[0] + k * (TRAY_ICON + TRAY_SPACING) {
      assert itemXs[k] == row[n + k] && itemXs[0] == row[n];
    }
  }

  // A menu is anchored at the centre of its icon as drawn, and a click there hits that icon.
  method HitAnchor(items: nat, embedded: nat, panelW: int, panelH: int, padding: int, i: nat)
    returns (hit: int, x: int, y: int, t: Tray, itemXs: seq<int>)
    requires padding >= 0 && panelH >= 0 && panelW >= 2 * padding + TrayWidth(items + embedded)
    requires i < items
    ensures hit == i && |itemXs| == items
    ensures 2 * x == itemXs[i] + (itemXs[i] + TRAY_ICON) && 2 * y == t.y + (t.y + TRAY_ICON)
  {
    var embeddedXs: seq<int>;
    t, embeddedXs, itemXs := DrawTray(items, embedded, panelW, panelH, padding);
    var anchor := TrayAnchor(t, i);
    x, y := anchor.0, anchor.1;
    hit := HitTestTray(t, x, y);
    ItemsOfRow(embeddedXs, itemXs);
    assert itemXs[i] == itemXs[0] + i * (TRAY_ICON + TRAY_SPACING);
    assert OnTrayIcon(t, i, x, y);
  }

  // Icons of a row do not overlap.
  lemma TrayIconsApart(row: seq<int>, j: nat, k: nat)
    requires OneRow(row) && j < k < |row|
    ensures row[j] + TRAY_ICON + TRAY_SPACING <= row[k]
  {
    assert row[j] == row[0] + j * (TRAY_ICON + TRAY_SPACING) && row[k] == row[0] + k * (TRAY_ICON + TRAY_SPACING);
  }
}
