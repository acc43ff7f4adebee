/** The configuration screens: which nodes are shown, on which screen, and at what depth. */
module Kconfig {

  datatype Item = Menu | Comment | Symbol | Choice | Unknown

  /** `prompted`: there is a prompt and its condition holds. `selectable`: the symbol or choice is
      visible by itself. */
  datatype Node = Node(item: Item, prompted: bool, selectable: bool, menuconfig: bool, children: seq<Node>)

  /** A place in the tree: the child to take at each level. */
  type Path = seq<nat>

  datatype Row = Row(path: Path, depth: nat)

  /** A symbol or choice that is not visible itself surfaces when something below it is. */
  predicate Visible(node: Node) {
    node.prompted
    && (node.item.Symbol? || node.item.Choice? ==>
          node.selectable || exists i :: 0 <= i < |node.children| && Visible(node.children[i]))
  }

  /** The loop behind the second half of that. */
  method HasVisibleChild(node: Node) returns (found: bool)
    ensures found <==> exists i :: 0 <= i < |node.children| && Visible(node.children[i])
  {
    for i := 0 to |node.children|
      invariant forall k :: 0 <= k < i ==> !Visible(node.children[k])
    {
      if Visible(node.children[i]) {
        return true;
      }
    }
    found := false;
  }

  /** Whether the node is a screen of its own. */
  predicate Enterable(node: Node) {
    node.item.Menu? || (!node.item.Choice? && node.menuconfig && node.children != [])
  }

  /** Whether the node's children are shown indented below it. */
  predicate Flattened(node: Node) {
    node.children != [] && !node.item.Menu? && !node.menuconfig && !node.item.Choice?
  }

  /** What one screen shows: the children of `node` from the `i`th on, and below. */
  function Rows(node: Node, base: Path, depth: nat, i: nat): seq<Row>
    requires i <= |node.children|
    decreases node, |node.children| - i
  {
    if i == |node.children| then []
    else
      var child := node.children[i];
      (if !Visible(child) then []
       else [Row(base + [i], depth)]
            + (if Flattened(child) then Rows(child, base + [i], depth + 1, 0) else []))
      + Rows(node, base, depth, i + 1)
  }

  /** The screen as it is collected, row by row. */
  method Collect(node: Node, base: Path, depth: nat, rows: seq<Row>) returns (collected: seq<Row>)
    ensures collected == rows + Rows(node, base, depth, 0)
    decreases node
  {
    collected := rows;
    assert rows + Rows(node, base, depth, 0) == collected + Rows(node, base, depth, 0);
    for i := 0 to |node.children|
      invariant collected + Rows(node, base, depth, i) == rows + Rows(node, base, depth, 0)
    {
      var child := node.children[i];
      ghost var before := collected;
      if Visible(child) {
        collected := collected + [Row(base + [i], depth)];
        if Flattened(child) {
          collected := Collect(child, base + [i], depth + 1, collected);
        }
      }
      assert collected + Rows(node, base, depth, i + 1) == before + Rows(node, base, depth, i);
    }
  }

  // ---- places in the tree ----

  predicate Exists(node: Node, path: Path) {
    path == [] || (path[0] < |node.children| && Exists(node.children[path[0]], path[1..]))
  }

  function At(node: Node, path: Path): Node
    requires Exists(node, path)
  {
    if path == [] then node else At(node.children[path[0]], path[1..])
  }

  lemma {:induction false} ExistsConcat(node: Node, a: Path, b: Path)
    requires Exists(node, a)
    ensures Exists(node, a + b) <==> Exists(At(node, a), b)
    ensures Exists(node, a + b) ==> At(node, a + b) == At(At(node, a), b)
  {
    if a == [] {
      assert a + b == b;
    } else {
      assert (a + b)[1..] == a[1..] + b;
      ExistsConcat(node.children[a[0]], a[1..], b);
    }
  }

  /** Every place on the way to a place exists too. */
  lemma {:induction false} PrefixExists(node: Node, path: Path, k: nat)
    requires Exists(node, path) && k <= |path|
    ensures Exists(node, path[..k])
    ensures 0 < k ==> path[..k][1..] == path[1..][..k - 1]
  {
    if k > 0 {
      assert path[..k][1..] == path[1..][..k - 1];
      PrefixExists(node.children[path[0]], path[1..], k - 1);
    }
  }

  function Above(node: Node, path: Path, k: nat): Node
    requires Exists(node, path) && k <= |path|
  {
    PrefixExists(node, path, k);
    At(node, path[..k])
  }

  /** `path` leads from `node` to something shown on its screen. */
  predicate Listed(node: Node, path: Path) {
    && path != [] && path[0] < |node.children|
    && Visible(node.children[path[0]])
    && (|path| > 1 ==> Flattened(node.children[path[0]]) && Listed(node.children[path[0]], path[1..]))
  }

  lemma {:induction false} ListedIff(node: Node, path: Path)
    requires Exists(node, path) && path != []
    ensures Listed(node, path) <==>
      && Visible(At(node, path))
      && forall k :: 0 < k < |path| ==> Visible(Above(node, path, k)) && Flattened(Above(node, path, k))
  {
    var child := node.children[path[0]];
    if |path| == 1 {
      assert path[1..] == [];
    } else {
      ListedIff(child, path[1..]);
      forall k | 0 < k < |path|
        ensures Above(node, path, k) == Above(child, path[1..], k - 1)
      {
        PrefixExists(node, path, k);
      }
      assert Above(child, path[1..], 0) == child by {
        assert path[1..][..0] == [];
      }
      assert Above(node, path, 1) == child;
      forall k | 0 < k < |path| - 1
        ensures Above(child, path[1..], k) == Above(node, path, k + 1)
      {
      }
    }
  }

  // ---- when a node is visible ----

  /** A way down that makes a node visible: prompts all the way, symbols or choices on the way, and at
      the end something that is visible by itself. */
  ghost predicate Surfaces(node: Node, path: Path) {
    && Exists(node, path)
    && (forall k :: 0 <= k <= |path| ==> Above(node, path, k).prompted)
    && (forall k :: 0 <= k < |path| ==> Above(node, path, k).item == Symbol || Above(node, path, k).item == Choice)
    && (At(node, path).item in {Menu, Comment, Unknown} || At(node, path).selectable)
  }

  /** The places on a way down, seen from one level further down. */
  lemma {:induction false} AboveChild(node: Node, path: Path, k: nat)
    requires Exists(node, path) && 0 < k <= |path|
    ensures Exists(node.children[path[0]], path[1..])
    ensures Above(node, path, k) == Above(node.children[path[0]], path[1..], k - 1)
  {
    PrefixExists(node, path, k);
  }

  lemma {:induction false} SurfacesVisible(node: Node, path: Path)
    requires Surfaces(node, path)
    ensures Visible(node)
    decreases |path|
  {
    assert Above(node, path, 0) == node;
    if path != [] {
      var child := node.children[path[0]];
      forall k | 0 <= k <= |path| - 1
        ensures Above(child, path[1..], k) == Above(node, path, k + 1)
      {
        AboveChild(node, path, k + 1);
      }
      SurfacesVisible(child, path[1..]);
    }
  }

  lemma {:induction false} VisibleSurfaces(node: Node) returns (path: Path)
    requires Visible(node)
    ensures Surfaces(node, path)
    decreases node
  {
    if node.item.Menu? || node.item.Comment? || node.item.Unknown? || node.selectable {
      path := [];
      assert Above(node, path, 0) == node;
    } else {
      var i: nat :| i < |node.children| && Visible(node.children[i]);
      var rest := VisibleSurfaces(node.children[i]);
      path := [i] + rest;
      assert path[1..] == rest;
      assert Above(node, path, 0) == node;
      forall k | 0 < k <= |path|
        ensures Above(node, path, k) == Above(node.children[i], rest, k - 1)
      {
        AboveChild(node, path, k);
      }
    }
  }

  /** A node is shown exactly if its prompt is, and it is a menu or a comment, or selectable, or
      something like that surfaces through symbols and choices below it. */
  lemma {:induction false} VisibleIff(node: Node)
    ensures Visible(node) <==> exists path :: Surfaces(node, path)
  {
    if Visible(node) {
      var path := VisibleSurfaces(node);
    }
    if exists path :: Surfaces(node, path) {
      var path :| Surfaces(node, path);
      SurfacesVisible(node, path);
    }
  }

  // ---- what a screen shows ----

  /** `row` stands for a node listed below `node`, under its `i`th child or a later one. */
  predicate RowFits(node: Node, base: Path, depth: nat, i: nat, row: Row) {
    && |row.path| > |base| && row.path[..|base|] == base
    && Listed(node, row.path[|base|..])
    && row.path[|base|] >= i
    && row.depth == depth + |row.path| - |base| - 1
  }

  lemma DropMore<T>(s: seq<T>, n: nat)
    requires n < |s|
    ensures s[n..][1..] == s[n + 1..] && s[n..][0] == s[n] && s[..n + 1] == s[..n] + [s[n]]
  {
  }

  lemma PrefixSplit(base: Path, i: nat, path: Path)
    ensures |path| > |base| && path[..|base|] == base && path[|base|] == i
      <==> |path| >= |base| + 1 && path[..|base| + 1] == base + [i]
  {
    if |path| > |base| {
      DropMore(path, |base|);
    }
  }

  /** Under one child: its own row, or one below it if it is flattened. */
  lemma RowUnder(node: Node, base: Path, depth: nat, i: nat, row: Row)
    requires i < |node.children|
    ensures var child := node.children[i];
      RowFits(node, base, depth, i, row) <==>
        || (Visible(child) && row == Row(base + [i], depth))
        || (Visible(child) && Flattened(child) && RowFits(child, base + [i], depth + 1, 0, row))
        || RowFits(node, base, depth, i + 1, row)
  {
    var child := node.children[i];
    PrefixSplit(base, i, row.path);
    hide Visible, Flattened;
    if |row.path| > |base| && row.path[..|base|] == base {
      DropMore(row.path, |base|);
      if |row.path| == |base| + 1 {
        assert row.path[|base|..] == [row.path[|base|]];
        assert row.path == base + [row.path[|base|]];
      }
    }
  }

  lemma {:induction false} RowsIff(node: Node, base: Path, depth: nat, i: nat, row: Row)
    requires i <= |node.children|
    ensures row in Rows(node, base, depth, i) <==> RowFits(node, base, depth, i, row)
    decreases node, |node.children| - i
  {
    if i < |node.children| {
      var child := node.children[i];
      RowUnder(node, base, depth, i, row);
      RowsIff(node, base, depth, i + 1, row);
      if Flattened(child) {
        RowsIff(child, base + [i], depth + 1, 0, row);
      }
      hide RowFits, Visible, Flattened;
    }
  }

  /** Rows differ by their paths. */
  ghost predicate Once(rows: seq<Row>) {
    forall a, b :: 0 <= a < b < |rows| ==> rows[a].path != rows[b].path
  }

  lemma OnceConcat(a: seq<Row>, b: seq<Row>)
    requires Once(a) && Once(b)
    requires forall i, k :: 0 <= i < |a| && 0 <= k < |b| ==> a[i].path != b[k].path
    ensures Once(a + b)
  {
  }

  /** Every row of these has `i` or more, or just `i`, at place `n` of its path. */
  ghost predicate PathsAt(rows: seq<Row>, n: nat, i: nat, only: bool) {
    forall k :: 0 <= k < |rows| ==>
      |rows[k].path| > n && rows[k].path[n] >= i && (only ==> rows[k].path[n] == i && |rows[k].path| > n + 1)
  }

  lemma {:induction false} RowsPaths(node: Node, base: Path, depth: nat, i: nat)
    requires i <= |node.children|
    ensures PathsAt(Rows(node, base, depth, i), |base|, i, false)
  {
    var rows := Rows(node, base, depth, i);
    forall k | 0 <= k < |rows|
      ensures |rows[k].path| > |base| && rows[k].path[|base|] >= i
    {
      RowsIff(node, base, depth, i, rows[k]);
    }
  }

  /** In the order of the tree: above what is below it, and before what comes later. */
  ghost predicate Earlier(p: Path, q: Path, k: nat) {
    k <= |p| && k < |q| && p[..k] == q[..k] && (k == |p| || p[k] < q[k])
  }

  ghost predicate InOrder(rows: seq<Row>) {
    forall a, b :: 0 <= a < b < |rows| ==> Comes(rows[a].path, rows[b].path)
  }

  ghost predicate Comes(p: Path, q: Path) {
    exists k :: Earlier(p, q, k)
  }

  lemma InOrderConcat(a: seq<Row>, b: seq<Row>, n: nat)
    requires InOrder(a) && InOrder(b)
    requires forall i, k :: 0 <= i < |a| && 0 <= k < |b| ==> Earlier(a[i].path, b[k].path, n)
    ensures InOrder(a + b)
  {
    var rows := a + b;
    forall i, k | 0 <= i < k < |rows| ensures Comes(rows[i].path, rows[k].path) {
      if k < |a| {
        assert rows[i] == a[i] && rows[k] == a[k];
      } else if i < |a| {
        assert Earlier(rows[i].path, rows[k].path, n);
      } else {
        assert rows[i] == b[i - |a|] && rows[k] == b[k - |a|];
      }
    }
  }

  lemma {:induction false} RowsUnderBase(node: Node, base: Path, depth: nat, i: nat)
    requires i <= |node.children|
    ensures forall k :: 0 <= k < |Rows(node, base, depth, i)| ==>
      var path := Rows(node, base, depth, i)[k].path;
      |path| > |base| && path[..|base|] == base && path[|base|] >= i
  {
    var rows := Rows(node, base, depth, i);
    forall k | 0 <= k < |rows|
      ensures var path := rows[k].path; |path| > |base| && path[..|base|] == base && path[|base|] >= i
    {
      RowsIff(node, base, depth, i, rows[k]);
    }
  }

  /** The rows of a screen stand in the order of the tree. */
  lemma {:induction false} RowsInOrder(node: Node, base: Path, depth: nat, i: nat)
    requires i <= |node.children|
    ensures InOrder(Rows(node, base, depth, i))
    decreases node, |node.children| - i
  {
    if i < |node.children| {
      var child := node.children[i];
      var own, later := base + [i], Rows(node, base, depth, i + 1);
      RowsInOrder(node, base, depth, i + 1);
      RowsUnderBase(node, base, depth, i + 1);
      if Visible(child) {
        var head := [Row(own, depth)];
        assert own[..|base|] == base && own[|base|] == i;
        if Flattened(child) {
          var below := Rows(child, own, depth + 1, 0);
          RowsInOrder(child, own, depth + 1, 0);
          RowsUnderBase(child, own, depth + 1, 0);
          hide Visible, Flattened;
          forall k | 0 <= k < |below|
            ensures below[k].path[..|base|] == base && below[k].path[|base|] == i
          {
            assert below[k].path[..|own|][..|base|] == below[k].path[..|base|];
            assert below[k].path[..|own|][|base|] == i;
          }
          assert Rows(node, base, depth, i) == head + below + later;
          hide Rows;
          InOrderConcat(head, below, |own|);
          InOrderConcat(head + below, later, |base|);
        } else {
          assert Rows(node, base, depth, i) == head + [] + later;
          assert head + [] + later == head + later;
          hide Rows, Visible;
          InOrderConcat(head, later, |base|);
        }
      } else {
        assert Rows(node, base, depth, i) == [] + later;
        assert [] + later == later;
      }
    }
  }

  lemma {:induction false} RowsBelowPaths(child: Node, base: Path, depth: nat, i: nat)
    ensures PathsAt(Rows(child, base + [i], depth, 0), |base|, i, true)
  {
    var rows := Rows(child, base + [i], depth, 0);
    forall k | 0 <= k < |rows|
      ensures |rows[k].path| > |base| + 1 && rows[k].path[|base|] == i
    {
      RowsIff(child, base + [i], depth, 0, rows[k]);
      PrefixSplit(base, i, rows[k].path);
    }
  }

  lemma OnceTogether(base: Path, depth: nat, i: nat, below: seq<Row>, rest: seq<Row>)
    requires Once(below) && Once(rest) && PathsAt(below, |base|, i, true) && PathsAt(rest, |base|, i + 1, false)
    ensures Once([Row(base + [i], depth)] + below + rest)
  {
    OnceConcat([Row(base + [i], depth)], below);
    OnceConcat([Row(base + [i], depth)] + below, rest);
  }

  lemma {:induction false} RowsOnce(node: Node, base: Path, depth: nat, i: nat)
    requires i <= |node.children|
    ensures Once(Rows(node, base, depth, i))
    decreases node, |node.children| - i
  {
    if i < |node.children| {
      var child := node.children[i];
      var rest := Rows(node, base, depth, i + 1);
      var below := if Flattened(child) then Rows(child, base + [i], depth + 1, 0) else [];
      RowsOnce(node, base, depth, i + 1);
      RowsPaths(node, base, depth, i + 1);
      if Flattened(child) {
        RowsOnce(child, base + [i], depth + 1, 0);
        RowsBelowPaths(child, base, depth + 1, i);
      }
      OnceTogether(base, depth, i, below, rest);
      assert [] + rest == rest;
      hide Once, PathsAt, Flattened, Visible;
    }
  }

  // ---- every visible node on exactly one screen ----

  /** The top menu, or a node that can be entered. */
  predicate IsScreen(root: Node, path: Path) {
    path == [] || (Exists(root, path) && Enterable(At(root, path)))
  }

  function Screen(root: Node, path: Path): seq<Row>
    requires Exists(root, path)
  {
    Rows(At(root, path), path, 0, 0)
  }

  /** The node and all its ancestors are visible, and no ancestor is a choice. */
  predicate InSight(root: Node, path: Path) {
    && Exists(root, path) && path != []
    && Visible(At(root, path))
    && forall k :: 0 < k < |path| ==> Visible(Above(root, path, k)) && !Above(root, path, k).item.Choice?
  }

  /** The screen a place belongs to: the nearest ancestor that can be entered. */
  function Home(root: Node, path: Path, k: nat): (home: Path)
    requires Exists(root, path) && k <= |path|
    ensures |home| <= k && home == path[..|home|]
    ensures home == [] || Enterable(Above(root, path, |home|))
    ensures forall j :: |home| < j <= k ==> !Enterable(Above(root, path, j))
  {
    if k == 0 || Enterable(Above(root, path, k)) then path[..k] else Home(root, path, k - 1)
  }

  /** An ancestor has children, so it is a choice, whose children are shown nowhere, or a screen,
      or flattened, and only one of these. */
  lemma {:induction false} AncestorHasChildren(root: Node, path: Path, k: nat)
    requires Exists(root, path) && k < |path|
    ensures var node := Above(root, path, k);
      && node.children != []
      && (node.item.Choice? || Enterable(node) || Flattened(node))
      && !(node.item.Choice? && (Enterable(node) || Flattened(node))) && !(Enterable(node) && Flattened(node))
  {
    PrefixExists(root, path, k);
    assert path[..k] + path[k..] == path;
    ExistsConcat(root, path[..k], path[k..]);
  }

  /** Below a screen, a node in sight is listed exactly if nothing in between can be entered. */
  lemma {:induction false} ListedFromScreen(root: Node, path: Path, s: Path)
    requires InSight(root, path) && |s| < |path| && s == path[..|s|] && Exists(root, s)
    ensures Listed(At(root, s), path[|s|..]) <==> forall k :: |s| < k < |path| ==> !Enterable(Above(root, path, k))
  {
    var r := path[|s|..];
    assert s + r == path;
    ExistsConcat(root, s, r);
    ListedIff(At(root, s), r);
    forall k | 0 < k < |r|
      ensures Above(At(root, s), r, k) == Above(root, path, |s| + k)
    {
      assert path[..|s| + k] == s + r[..k];
      PrefixExists(root, path, |s| + k);
      ExistsConcat(root, s, r[..k]);
    }
    forall k | |s| < k < |path|
      ensures Above(At(root, s), r, k - |s|) == Above(root, path, k)
    {
    }
    forall k | |s| < k < |path|
      ensures Enterable(Above(root, path, k)) <==> !Flattened(Above(root, path, k))
    {
      AncestorHasChildren(root, path, k);
    }
    hide Listed, Enterable, Flattened, Visible, At;
  }

  /** Every node in sight has exactly one row on exactly one screen: that of its nearest ancestor
      that can be entered, or the top menu, indented by the number of ancestors in between. */
  lemma {:induction false} ScreensCover(root: Node, path: Path, s: Path, depth: nat)
    requires InSight(root, path) && IsScreen(root, s) && Exists(root, s)
    ensures Row(path, depth) in Screen(root, s)
      <==> s == Home(root, path, |path| - 1) && depth == |path| - |s| - 1
    ensures Once(Screen(root, s))
  {
    RowsOnce(At(root, s), s, 0, 0);
    RowsIff(At(root, s), s, 0, 0, Row(path, depth));
    var home := Home(root, path, |path| - 1);
    if |s| < |path| && s == path[..|s|] {
      ListedFromScreen(root, path, s);
      assert s != [] ==> Enterable(Above(root, path, |s|));
      assert |s| < |home| ==> Enterable(Above(root, path, |home|));
    }
    hide Listed, Enterable, Visible;
  }

  /** No node in sight is shown twice, wherever one looks. */
  lemma {:induction false} ScreensDoNotOverlap(root: Node, path: Path, s: Path, t: Path, a: nat, b: nat)
    requires InSight(root, path) && IsScreen(root, s) && IsScreen(root, t) && Exists(root, s) && Exists(root, t)
    requires Row(path, a) in Screen(root, s) && Row(path, b) in Screen(root, t)
    ensures s == t && a == b
  {
    hide Screen, Home, InSight, IsScreen;
    ScreensCover(root, path, s, a);
    ScreensCover(root, path, t, b);
  }

  /** And a screen whose own node is in sight shows only nodes in sight. */
  lemma {:induction false} OnlyInSight(root: Node, s: Path, row: Row)
    requires IsScreen(root, s) && Exists(root, s) && (s == [] || InSight(root, s)) && row in Screen(root, s)
    requires s != [] ==> !At(root, s).item.Choice?
    ensures InSight(root, row.path)
  {
    var path := row.path;
    RowsIff(At(root, s), s, 0, 0, row);
    var r := path[|s|..];
    assert path == s + r;
    ListedExists(At(root, s), r);
    ExistsConcat(root, s, r);
    ListedIff(At(root, s), r);
    forall k | 0 < k < |path|
      ensures Visible(Above(root, path, k)) && !Above(root, path, k).item.Choice?
    {
      if k < |s| {
        assert path[..k] == s[..k];
        assert Above(root, path, k) == Above(root, s, k);
      } else if k == |s| {
        assert path[..k] == s;
      } else {
        assert path[..k] == s + r[..k - |s|];
        PrefixExists(At(root, s), r, k - |s|);
        ExistsConcat(root, s, r[..k - |s|]);
        assert Above(root, path, k) == Above(At(root, s), r, k - |s|);
      }
    }
  }

  /** What is above a selectable symbol surfaces through it, or by itself. */
  lemma {:induction false} AncestorsVisible(root: Node, path: Path, k: nat)
    requires Exists(root, path) && k <= |path|
    requires At(root, path).prompted && At(root, path).selectable
    requires forall i :: k <= i < |path| ==> Above(root, path, i).prompted
    ensures Visible(Above(root, path, k))
    decreases |path| - k
  {
    assert path[..|path|] == path;
    if k < |path| {
      AncestorsVisible(root, path, k + 1);
      PrefixExists(root, path, k + 1);
      assert path[..k + 1] == path[..k] + [path[k]];
      PrefixExists(root, path, k);
      ExistsConcat(root, path[..k], [path[k]]);
      assert Above(root, path, k + 1) == Above(root, path, k).children[path[k]] by {
        assert [path[k]][1..] == [];
      }
    }
  }

  /** In the fields of the tree: a prompted, selectable symbol below prompted nodes that are no choices
      has exactly one row. It is on the screen of the nearest menu or menuconfig above it, or on the
      top one, indented by the number of nodes in between. */
  lemma {:induction false} SymbolHasOneRow(root: Node, path: Path, h: nat, s: Path, depth: nat)
    requires Exists(root, path) && h < |path| && Exists(root, s)
    requires At(root, path).item == Symbol && At(root, path).prompted && At(root, path).selectable
    requires forall k :: 0 < k < |path| ==> Above(root, path, k).prompted && Above(root, path, k).item != Choice
    requires h > 0 ==> Above(root, path, h).item == Menu || Above(root, path, h).menuconfig
    requires forall k :: h < k < |path| ==> Above(root, path, k).item != Menu && !Above(root, path, k).menuconfig
    requires s == [] || At(root, s).item == Menu
      || (At(root, s).item != Choice && At(root, s).menuconfig && At(root, s).children != [])
    ensures Row(path, depth) in Rows(At(root, s), s, 0, 0) <==> s == path[..h] && depth == |path| - h - 1
    ensures Once(Rows(At(root, s), s, 0, 0))
  {
    forall k | 0 < k < |path| ensures Visible(Above(root, path, k)) {
      AncestorsVisible(root, path, k);
    }
    forall k | 0 < k < |path| ensures Above(root, path, k).children != [] {
      AncestorHasChildren(root, path, k);
    }
    assert InSight(root, path);
    ScreensCover(root, path, s, depth);
    HomeIs(root, path, |path| - 1, h);
  }

  lemma {:induction false} HomeIs(root: Node, path: Path, k: nat, h: nat)
    requires Exists(root, path) && h <= k <= |path|
    requires h > 0 ==> Enterable(Above(root, path, h))
    requires forall j :: h < j <= k ==> !Enterable(Above(root, path, j))
    ensures Home(root, path, k) == path[..h]
    decreases k
  {
    hide Enterable;
    if k > h {
      HomeIs(root, path, k - 1, h);
    }
  }

  lemma {:induction false} ListedExists(node: Node, path: Path)
    requires Listed(node, path)
    ensures Exists(node, path)
  {
    if |path| > 1 {
      ListedExists(node.children[path[0]], path[1..]);
    } else {
      assert path[1..] == [];
    }
  }
}
