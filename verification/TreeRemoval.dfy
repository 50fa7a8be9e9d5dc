/** Removing a tree on Windows: handles are marked for deletion, children before their parents, and
 *  every handle is closed once however the removal ends. */
module TreeRemoval {
  import opened Basics
  import opened TreeWalk

  /** The way from the root to a node, by the positions of the names in their directories. */
  type Path = seq<nat>

  function Paths(t: Tree, p: Path): set<Path> {
    {p} + if t.Dir? then ChildPaths(t.children, p, 0) else {}
  }

  function ChildPaths(ts: seq<Tree>, p: Path, k: nat): set<Path> {
    if ts == [] then {} else Paths(ts[0], p + [k]) + ChildPaths(ts[1..], p, k + 1)
  }

  lemma {:induction false} PathsExtend(t: Tree, p: Path, x: Path)
    requires x in Paths(t, p)
    ensures p <= x
  {
    if t.Dir? && x != p {
      ChildPathsExtend(t.children, p, 0, x);
    }
  }

  lemma {:induction false} ChildPathsExtend(ts: seq<Tree>, p: Path, k: nat, x: Path)
    requires x in ChildPaths(ts, p, k)
    ensures |x| > |p| && p <= x && k <= x[|p|] < k + |ts|
  {
    if x in Paths(ts[0], p + [k]) {
      PathsExtend(ts[0], p + [k], x);
      assert (p + [k])[..|p|] == p && x[..|p| + 1] == p + [k];
      assert x[|p|] == k && x[..|p|] == p;
    } else {
      ChildPathsExtend(ts[1..], p, k + 1, x);
    }
  }

  /** An entry of the stack, or a child that has been opened and not yet dealt with. */
  datatype Item = Item(tree: Tree, path: Path, handle: nat, visited: bool)

  /** What is still to be marked on account of an item. */
  function Due(i: Item): set<Path> {
    if i.visited then {i.path} else Paths(i.tree, i.path)
  }

  function AllDue(items: seq<Item>): set<Path> {
    if items == [] then {} else AllDue(items[..|items| - 1]) + Due(items[|items| - 1])
  }

  /** Nothing that is due earlier lies at or below a later item, and nothing is due twice. */
  ghost predicate Nested(items: seq<Item>) {
    forall i, j, x :: 0 <= i < j < |items| && x in Due(items[i]) ==> !(items[j].path <= x)
  }

  lemma {:induction false} DueOf(items: seq<Item>, x: Path)
    ensures x in AllDue(items) <==> exists i :: 0 <= i < |items| && x in Due(items[i])
  {
    if items != [] {
      var n := |items| - 1;
      DueOf(items[..n], x);
      if i :| 0 <= i < |items| && x in Due(items[i]) {
        assert i == n || items[..n][i] == items[i];
      }
      if i :| 0 <= i < n && x in Due(items[..n][i]) {
        assert items[i] == items[..n][i];
      }
    }
  }

  lemma DuePush(items: seq<Item>, i: Item)
    ensures AllDue(items + [i]) == AllDue(items) + Due(i)
  {
    assert (items + [i])[..|items|] == items;
  }

  // ---------------------------------------------------------------- the order of the marks

  /** Everything below a marked node was marked before it, and nothing is marked twice. */
  ghost predicate ChildrenFirst(all: set<Path>, marks: seq<Path>) {
    && (forall i, x :: 0 <= i < |marks| && x in all && marks[i] < x ==> x in marks[..i])
    && (forall i, j :: 0 <= i < j < |marks| ==> marks[i] != marks[j])
  }

  ghost predicate Progress(all: set<Path>, marks: seq<Path>, due: set<Path>) {
    && ChildrenFirst(all, marks) && (forall x :: x in marks ==> x !in due)
    && forall x :: x in all <==> x in marks || x in due
  }

  lemma MarkOne(all: set<Path>, marks: seq<Path>, due: set<Path>, p: Path)
    requires Progress(all, marks, due) && p in due
    requires forall x :: x in due && x != p ==> !(p <= x)
    ensures Progress(all, marks + [p], due - {p})
  {
    var after := marks + [p];
    assert after[..|marks|] == marks;
    forall i, x | 0 <= i < |after| && x in all && after[i] < x ensures x in after[..i] {
      if i < |marks| {
        assert after[..i] == marks[..i] && after[i] == marks[i];
      }
    }
  }

  // ---------------------------------------------------------------- expanding a directory

  function Opened(ts: seq<Tree>, p: Path, handles: seq<nat>): seq<Item>
    requires |handles| <= |ts|
  {
    seq(|handles|, k requires 0 <= k < |handles| => Item(ts[k], p + [k], handles[k], false))
  }

  lemma {:induction false} ChildPathAt(ts: seq<Tree>, p: Path, k: nat, x: Path)
    ensures x in ChildPaths(ts, p, k) <==> exists j :: 0 <= j < |ts| && x in Paths(ts[j], p + [k + j])
    decreases |ts|
  {
    if ts != [] {
      ChildPathAt(ts[1..], p, k + 1, x);
      if j :| 0 <= j < |ts| && x in Paths(ts[j], p + [k + j]) {
        assert j > 0 ==> ts[1..][j - 1] == ts[j] && p + [k + 1 + (j - 1)] == p + [k + j];
      }
      if j :| 0 <= j < |ts| - 1 && x in Paths(ts[1..][j], p + [k + 1 + j]) {
        assert ts[j + 1] == ts[1..][j] && p + [k + (j + 1)] == p + [k + 1 + j];
      }
    }
  }

  lemma ItemExtends(i: Item, x: Path)
    requires x in Due(i)
    ensures i.path <= x
  {
    if !i.visited {
      PathsExtend(i.tree, i.path, x);
    }
  }

  lemma SameSibling(p: Path, j: nat, k: nat, x: Path)
    requires p + [j] <= x && p + [k] <= x
    ensures j == k
  {
    assert x[|p|] == (p + [j])[|p|] == (p + [k])[|p|];
  }

  /** Sibling subtrees have nothing in common. */
  lemma SiblingsApart(p: Path, j: nat, k: nat, x: Path)
    requires j != k && p + [j] <= x
    ensures !(p + [k] <= x)
  {
    if p + [k] <= x {
      SameSibling(p, j, k, x);
    }
  }

  /** A directory gives way to itself, visited, and its opened children. */
  function Expanded(stack: seq<Item>, handles: seq<nat>): seq<Item>
    requires stack != [] && stack[|stack| - 1].tree.Dir? && |handles| == |stack[|stack| - 1].tree.children|
  {
    var top := stack[|stack| - 1];
    stack[..|stack| - 1] + [top.(visited := true)] + Opened(top.tree.children, top.path, handles)
  }

  lemma StillDue(stack: seq<Item>, handles: seq<nat>, i: nat, x: Path)
    requires stack != [] && stack[|stack| - 1].tree.Dir? && |handles| == |stack[|stack| - 1].tree.children|
    requires !stack[|stack| - 1].visited && i < |stack| && x in Due(stack[i])
    ensures exists k :: 0 <= k < |Expanded(stack, handles)| && x in Due(Expanded(stack, handles)[k])
  {
    var n, top, e := |stack| - 1, stack[|stack| - 1], Expanded(stack, handles);
    if i < n {
      assert e[i] == stack[i];
    } else if x == top.path {
      assert e[n] == top.(visited := true);
    } else {
      ChildPathAt(top.tree.children, top.path, 0, x);
      var j :| 0 <= j < |top.tree.children| && x in Paths(top.tree.children[j], top.path + [0 + j]);
      assert e[n + 1 + j] == Item(top.tree.children[j], top.path + [j], handles[j], false);
    }
  }

  lemma WasDue(stack: seq<Item>, handles: seq<nat>, i: nat, x: Path)
    requires stack != [] && stack[|stack| - 1].tree.Dir? && |handles| == |stack[|stack| - 1].tree.children|
    requires !stack[|stack| - 1].visited && i < |Expanded(stack, handles)| && x in Due(Expanded(stack, handles)[i])
    ensures exists k :: 0 <= k < |stack| && x in Due(stack[k])
  {
    var n, top, e := |stack| - 1, stack[|stack| - 1], Expanded(stack, handles);
    if i < n {
      assert e[i] == stack[i];
    } else {
      if i > n {
        assert e[i] == Item(top.tree.children[i - n - 1], top.path + [i - n - 1], handles[i - n - 1], false);
        assert x in Paths(top.tree.children[i - n - 1], top.path + [0 + (i - n - 1)]);
        ChildPathAt(top.tree.children, top.path, 0, x);
      }
      assert x in Due(stack[n]);
    }
  }

  lemma ExpandedDue(stack: seq<Item>, handles: seq<nat>)
    requires stack != [] && stack[|stack| - 1].tree.Dir? && |handles| == |stack[|stack| - 1].tree.children|
    requires !stack[|stack| - 1].visited
    ensures AllDue(Expanded(stack, handles)) == AllDue(stack)
  {
    var e := Expanded(stack, handles);
    forall x ensures x in AllDue(e) <==> x in AllDue(stack) {
      DueOf(e, x);
      DueOf(stack, x);
      if i :| 0 <= i < |e| && x in Due(e[i]) {
        WasDue(stack, handles, i, x);
      }
      if i :| 0 <= i < |stack| && x in Due(stack[i]) {
        StillDue(stack, handles, i, x);
      }
    }
    SameSet(AllDue(e), AllDue(stack));
  }

  lemma ExpandedNested(stack: seq<Item>, handles: seq<nat>)
    requires stack != [] && stack[|stack| - 1].tree.Dir? && |handles| == |stack[|stack| - 1].tree.children|
    requires Nested(stack)
    ensures Nested(Expanded(stack, handles))
  {
    var n, top := |stack| - 1, stack[|stack| - 1];
    var e := Expanded(stack, handles);
    forall i, j, x | 0 <= i < j < |e| && x in Due(e[i]) ensures !(e[j].path <= x) {
      if i < n {
        assert e[i] == stack[i] && !(top.path <= x);
        assert top.path <= e[j].path || j < n;
        if j < n {
          assert e[j] == stack[j];
        } else {
          PrefixThrough(top.path, e[j].path, x);
        }
      } else if i == n {
        assert x == top.path && |e[j].path| > |x|;
      } else {
        ItemExtends(e[i], x);
        SiblingsApart(top.path, i - n - 1, j - n - 1, x);
      }
    }
  }

  lemma PrefixOfPrefix(p: Path, q: Path, x: Path)
    requires p <= q <= x
    ensures p <= x
  {
    assert x[..|q|][..|p|] == x[..|p|];
  }

  lemma PrefixThrough(p: Path, q: Path, x: Path)
    requires p <= q && !(p <= x)
    ensures !(q <= x)
  {
    if q <= x {
      PrefixOfPrefix(p, q, x);
    }
  }

  // ---------------------------------------------------------------- counting

  function ItemEntries(items: seq<Item>): nat {
    if items == [] then 0
    else
      var last := items[|items| - 1];
      ItemEntries(items[..|items| - 1]) + if last.visited then 0 else Entries(last.tree)
  }

  predicate ItemSafe(items: seq<Item>) {
    items == [] || (ItemSafe(items[..|items| - 1]) && (items[|items| - 1].visited || Safe(items[|items| - 1].tree)))
  }

  function Weight(items: seq<Item>): nat {
    if items == [] then 0
    else
      var last := items[|items| - 1];
      Weight(items[..|items| - 1]) + if last.visited then 1 else 2 + 2 * Entries(last.tree)
  }

  lemma LastItem(items: seq<Item>, i: Item)
    ensures ItemEntries(items + [i]) == ItemEntries(items) + if i.visited then 0 else Entries(i.tree)
    ensures ItemSafe(items + [i]) <==> ItemSafe(items) && (i.visited || Safe(i.tree))
    ensures Weight(items + [i]) == Weight(items) + if i.visited then 1 else 2 + 2 * Entries(i.tree)
  {
    assert (items + [i])[..|items|] == items;
  }

  lemma {:induction false} OpenedAdds(stack: seq<Item>, ts: seq<Tree>, p: Path, handles: seq<nat>)
    requires |handles| == |ts|
    ensures var e := stack + Opened(ts, p, handles);
      && ItemEntries(e) + |ts| == ItemEntries(stack) + AllEntries(ts)
      && (ItemSafe(e) <==> ItemSafe(stack) && AllSafe(ts))
      && Weight(e) == Weight(stack) + 2 * AllEntries(ts)
    decreases |ts|
  {
    var kids := Opened(ts, p, handles);
    if ts == [] {
      assert stack + kids == stack;
    } else {
      var n := |ts| - 1;
      OpenedAdds(stack, ts[..n], p, handles[..n]);
      assert kids == Opened(ts[..n], p, handles[..n]) + [kids[n]];
      assert stack + kids == stack + Opened(ts[..n], p, handles[..n]) + [kids[n]];
      LastItem(stack + Opened(ts[..n], p, handles[..n]), kids[n]);
      LastTree(ts);
    }
  }

  lemma {:induction false} LastTree(ts: seq<Tree>)
    requires ts != []
    ensures AllEntries(ts) == AllEntries(ts[..|ts| - 1]) + 1 + Entries(ts[|ts| - 1])
    ensures AllSafe(ts) <==> AllSafe(ts[..|ts| - 1]) && Safe(ts[|ts| - 1])
  {
    if |ts| == 1 {
      assert ts[..0] == [] && ts[1..] == [];
    } else {
      LastTree(ts[1..]);
      assert ts[1..][..|ts| - 2] == ts[..|ts| - 1][1..];
      assert ts[1..][|ts| - 2] == ts[|ts| - 1];
    }
  }

  /** What expanding a directory does to the counts. */
  lemma ExpandedCounts(stack: seq<Item>, handles: seq<nat>)
    requires stack != [] && stack[|stack| - 1].tree.Dir? && |handles| == |stack[|stack| - 1].tree.children|
    requires !stack[|stack| - 1].visited
    ensures var ts := stack[|stack| - 1].tree.children; var e := Expanded(stack, handles);
      && ItemEntries(e) + |ts| == ItemEntries(stack)
      && (ItemSafe(e) <==> ItemSafe(stack))
      && Weight(e) < Weight(stack)
  {
    var n, top := |stack| - 1, stack[|stack| - 1];
    assert stack == stack[..n] + [top];
    LastItem(stack[..n], top);
    LastItem(stack[..n], top.(visited := true));
    OpenedAdds(stack[..n] + [top.(visited := true)], top.tree.children, top.path, handles);
    OneDir(top.tree);
  }

  // ---------------------------------------------------------------- the handles that are owned

  /** Each item has a handle of its own, and there are no others. */
  predicate Owns(owned: set<nat>, items: seq<Item>) {
    && |owned| == |items|
    && (forall i :: 0 <= i < |items| ==> items[i].handle in owned)
    && forall i, j :: 0 <= i < j < |items| ==> items[i].handle != items[j].handle
  }

  /** One new handle for each child. */
  ghost predicate Added(hs: seq<nat>, owned: set<nat>, after: set<nat>) {
    && owned <= after && |after| == |owned| + |hs|
    && (forall k :: 0 <= k < |hs| ==> hs[k] in after && hs[k] !in owned)
    && forall j, k :: 0 <= j < k < |hs| ==> hs[j] != hs[k]
  }

  lemma AddOne(hs: seq<nat>, owned: set<nat>, after: set<nat>, h: nat)
    requires Added(hs, owned, after) && h !in after
    ensures Added(hs + [h], owned, after + {h})
  {
  }

  lemma ExpandedOwns(stack: seq<Item>, hs: seq<nat>, owned: set<nat>, after: set<nat>)
    requires stack != [] && stack[|stack| - 1].tree.Dir? && |hs| == |stack[|stack| - 1].tree.children|
    requires Owns(owned, stack) && Added(hs, owned, after)
    ensures Owns(after, Expanded(stack, hs))
  {
    var n, e := |stack|, Expanded(stack, hs);
    forall i | 0 <= i < |e| ensures e[i].handle == if i < n then stack[i].handle else hs[i - n] {}
  }

  lemma DropOwned(owned: set<nat>, front: seq<Item>, i: Item, rest: seq<Item>)
    requires Owns(owned, front + [i] + rest)
    ensures i.handle in owned && Owns(owned - {i.handle}, front + rest)
  {
    var n, all, fewer := |front|, front + [i] + rest, front + rest;
    assert all[n] == i;
    forall k | 0 <= k < |fewer| ensures fewer[k] == all[if k < n then k else k + 1] {}
  }

  // ---------------------------------------------------------------- dropping a marked item

  function Share(i: Item): nat {
    if i.visited then 1 else 2 + 2 * Entries(i.tree)
  }

  /** A marked item leaves the due paths, and the counts of what is left do not change. */
  lemma {:induction false} DropMarked(front: seq<Item>, i: Item, rest: seq<Item>)
    requires i.visited || i.tree.File?
    ensures var all, fewer := front + [i] + rest, front + rest;
      && AllDue(all) == AllDue(fewer) + {i.path} && ItemEntries(all) == ItemEntries(fewer)
      && (ItemSafe(all) <==> ItemSafe(fewer)) && Weight(all) == Weight(fewer) + Share(i)
  {
    if rest == [] {
      assert front + [i] + rest == front + [i] && front + rest == front;
      DuePush(front, i);
      LastItem(front, i);
    } else {
      var n := |rest| - 1;
      DropMarked(front, i, rest[..n]);
      assert front + [i] + rest == (front + [i] + rest[..n]) + [rest[n]];
      assert front + rest == (front + rest[..n]) + [rest[n]];
      DuePush(front + [i] + rest[..n], rest[n]);
      DuePush(front + rest[..n], rest[n]);
      LastItem(front + [i] + rest[..n], rest[n]);
      LastItem(front + rest[..n], rest[n]);
    }
  }

  predicate AsLong(i: Item, rest: seq<Item>) {
    forall k :: 0 <= k < |rest| ==> |rest[k].path| == |i.path|
  }

  lemma DropNested(front: seq<Item>, i: Item, rest: seq<Item>)
    requires Nested(front + [i] + rest) && (i.visited || i.tree.File?) && AsLong(i, rest)
    ensures Nested(front + rest)
    ensures forall x :: x in AllDue(front + rest) ==> !(i.path <= x)
  {
    var n, all, fewer := |front|, front + [i] + rest, front + rest;
    forall k | 0 <= k < |fewer| ensures fewer[k] == all[if k < n then k else k + 1] {}
    assert all[n] == i;
    forall x | x in AllDue(fewer) ensures !(i.path <= x) {
      DueOf(fewer, x);
      var k :| 0 <= k < |fewer| && x in Due(fewer[k]);
      if k >= n {
        assert all[k + 1] == rest[k - n] && i.path in Due(i);
        ItemExtends(rest[k - n], x);
        assert rest[k - n].path != i.path;
      }
    }
  }

  /** Marking one item that has nothing left below it. */
  lemma DropProgress(everything: set<Path>, marks: seq<Path>, front: seq<Item>, i: Item, rest: seq<Item>)
    requires Progress(everything, marks, AllDue(front + [i] + rest))
    requires Nested(front + [i] + rest) && (i.visited || i.tree.File?) && AsLong(i, rest)
    ensures Progress(everything, marks + [i.path], AllDue(front + rest)) && Nested(front + rest)
    ensures i.path in everything
  {
    DropMarked(front, i, rest);
    DropNested(front, i, rest);
    MarkOne(everything, marks, AllDue(front + [i] + rest), i.path);
    assert i.path <= i.path && AllDue(front + [i] + rest) - {i.path} == AllDue(front + rest);
  }

  // ---------------------------------------------------------------- the whole removal

  predicate AllDirs(items: seq<Item>) {
    forall i :: 0 <= i < |items| ==> items[i].tree.Dir?
  }

  lemma {:induction false} SafeIsPlain(ts: seq<Tree>)
    ensures AllSafe(ts) ==> AllPlain(ts)
  {
    if AllSafe(ts) && ts != [] {
      SafeIsPlain(ts[1..]);
      forall k | 0 <= k < |ts| ensures Plain(ts[k]) {
        if k == 0 {
          assert Safe(ts[0]);
        } else {
          assert Plain(ts[1..][k - 1]);
        }
      }
    }
  }

  /** What the items still to be dealt with say about the tree, the marks and the handles. */
  ghost predicate Removing(root: Tree, marks: seq<Path>, items: seq<Item>, count: nat) {
    && Progress(Paths(root, []), marks, AllDue(items)) && Nested(items)
    && count + ItemEntries(items) == Entries(root) && (ItemSafe(items) <==> Safe(root))
  }

  /** Nothing stands in the way of removing the tree. */
  ghost predicate Removable(root: Tree, maxEntries: nat, stuck: set<Path>) {
    root.Dir? && Safe(root) && Entries(root) <= maxEntries && Paths(root, []) !! stuck
  }

  lemma Expand(root: Tree, marks: seq<Path>, stack: seq<Item>, count: nat, hs: seq<nat>)
    requires Removing(root, marks, stack, count)
    requires stack != [] && stack[|stack| - 1].tree.Dir? && |hs| == |stack[|stack| - 1].tree.children|
    requires !stack[|stack| - 1].visited
    ensures Removing(root, marks, Expanded(stack, hs), count + |hs|) && Weight(Expanded(stack, hs)) < Weight(stack)
  {
    ExpandedDue(stack, hs);
    ExpandedNested(stack, hs);
    ExpandedCounts(stack, hs);
  }

  lemma Drop(root: Tree, marks: seq<Path>, front: seq<Item>, i: Item, rest: seq<Item>, count: nat)
    requires Removing(root, marks, front + [i] + rest, count) && (i.visited || i.tree.File?) && AsLong(i, rest)
    ensures Removing(root, marks + [i.path], front + rest, count) && i.path in Paths(root, [])
    ensures Weight(front + rest) < Weight(front + [i] + rest)
  {
    DropProgress(Paths(root, []), marks, front, i, rest);
    DropMarked(front, i, rest);
  }

  /** A directory that cannot be opened up keeps the tree from being removed. */
  lemma CannotExpand(root: Tree, marks: seq<Path>, stack: seq<Item>, count: nat, maxEntries: nat)
    requires Removing(root, marks, stack, count) && stack != []
    requires var top := stack[|stack| - 1];
      && top.tree.Dir? && !top.visited && (count + |top.tree.children| > maxEntries || !AllPlain(top.tree.children))
    ensures !(Safe(root) && Entries(root) <= maxEntries)
  {
    var top := stack[|stack| - 1];
    OneDir(top.tree);
    SafeIsPlain(top.tree.children);
    AtLeastOneEach(top.tree.children);
  }

  lemma {:induction false} AtLeastOneEach(ts: seq<Tree>)
    ensures AllEntries(ts) >= |ts|
  {
    if ts != [] {
      AtLeastOneEach(ts[1..]);
    }
  }

  // ---------------------------------------------------------------- one step of the removal

  /** Opened children waiting to be placed. */
  ghost predicate Waiting(kids: seq<Item>) {
    && (forall k :: 0 <= k < |kids| ==> !kids[k].visited && Plain(kids[k].tree))
    && forall j, k :: 0 <= j < k < |kids| ==> |kids[j].path| == |kids[k].path|
  }

  ghost predicate Unstuck(marks: seq<Path>, stuck: set<Path>) {
    forall x :: x in marks ==> x !in stuck
  }

  ghost predicate Placing(
    root: Tree, stack: seq<Item>, kids: seq<Item>, marks: seq<Path>, count: nat, owned: set<nat>, stuck: set<Path>) {
    && AllDirs(stack) && Waiting(kids) && Unstuck(marks, stuck)
    && Owns(owned, stack + kids) && Removing(root, marks, stack + kids, count)
  }

  /** Between two entries of the stack: nothing is waiting to be placed. */
  ghost predicate Ready(root: Tree, stack: seq<Item>, marks: seq<Path>, count: nat, owned: set<nat>, stuck: set<Path>) {
    && AllDirs(stack) && Unstuck(marks, stuck) && Owns(owned, stack) && Removing(root, marks, stack, count)
  }

  lemma WaitingTail(kids: seq<Item>)
    requires Waiting(kids) && kids != []
    ensures Waiting(kids[1..]) && AsLong(kids[0], kids[1..])
  {
  }

  lemma MarkUnstuck(marks: seq<Path>, p: Path, stuck: set<Path>)
    requires Unstuck(marks, stuck) && p !in stuck
    ensures Unstuck(marks + [p], stuck)
  {
  }

  lemma Alone(i: Item)
    ensures AllDue([i]) == Due(i) && Nested([i]) && Owns({i.handle}, [i])
    ensures ItemEntries([i]) == if i.visited then 0 else Entries(i.tree)
    ensures ItemSafe([i]) <==> i.visited || Safe(i.tree)
  {
    assert [] + [i] == [i];
    DuePush([], i);
    LastItem([], i);
  }

  lemma NothingMarked(all: set<Path>)
    ensures Progress(all, [], all)
  {
  }

  lemma Begin(root: Tree, handle: nat, stuck: set<Path>)
    requires root.Dir?
    ensures Ready(root, [Item(root, [], handle, false)], [], 0, {handle}, stuck)
  {
    var i := Item(root, [], handle, false);
    Alone(i);
    NothingMarked(Paths(root, []));
  }

  lemma PlaceDir(
    root: Tree, stack: seq<Item>, kids: seq<Item>, marks: seq<Path>, count: nat, owned: set<nat>, stuck: set<Path>)
    requires Placing(root, stack, kids, marks, count, owned, stuck) && kids != [] && kids[0].tree.Dir?
    ensures Placing(root, stack + [kids[0]], kids[1..], marks, count, owned, stuck)
    ensures stack + [kids[0]] + kids[1..] == stack + kids
  {
    assert stack + [kids[0]] + kids[1..] == stack + kids;
  }

  lemma PlaceFile(
    root: Tree, stack: seq<Item>, kids: seq<Item>, marks: seq<Path>, count: nat, owned: set<nat>, stuck: set<Path>)
    requires Placing(root, stack, kids, marks, count, owned, stuck) && kids != [] && !kids[0].tree.Dir?
    ensures kids[0].handle in owned && kids[0].path in Paths(root, [])
    ensures kids[0].path !in stuck
      ==> Placing(root, stack, kids[1..], marks + [kids[0].path], count, owned - {kids[0].handle}, stuck)
    ensures Weight(stack + kids[1..]) < Weight(stack + kids)
  {
    var kid := kids[0];
    assert stack + kids == stack + [kid] + kids[1..];
    WaitingTail(kids);
    DropOwned(owned, stack, kid, kids[1..]);
    Drop(root, marks, stack, kid, kids[1..], count);
    if kid.path !in stuck {
      MarkUnstuck(marks, kid.path, stuck);
    }
  }

  lemma DropLast(root: Tree, marks: seq<Path>, rest: seq<Item>, top: Item, count: nat, owned: set<nat>)
    requires Removing(root, marks, rest + [top], count) && top.visited && Owns(owned, rest + [top])
    ensures Removing(root, marks + [top.path], rest, count) && top.path in Paths(root, [])
    ensures Weight(rest) < Weight(rest + [top])
    ensures top.handle in owned && Owns(owned - {top.handle}, rest)
  {
    assert rest + [top] + [] == rest + [top] && rest + [] == rest;
    DropOwned(owned, rest, top, []);
    Drop(root, marks, rest, top, [], count);
  }

  lemma FinishTop(root: Tree, rest: seq<Item>, top: Item, marks: seq<Path>, count: nat, owned: set<nat>, stuck: set<Path>)
    requires Ready(root, rest + [top], marks, count, owned, stuck) && top.visited
    ensures top.handle in owned && top.path in Paths(root, [])
    ensures top.path !in stuck ==> Ready(root, rest, marks + [top.path], count, owned - {top.handle}, stuck)
    ensures Weight(rest) < Weight(rest + [top])
  {
    FewerDirs(rest, top);
    DropLast(root, marks, rest, top, count, owned);
    if top.path !in stuck {
      MarkUnstuck(marks, top.path, stuck);
    }
  }

  lemma FewerDirs(rest: seq<Item>, top: Item)
    requires AllDirs(rest + [top])
    ensures AllDirs(rest)
  {
    forall i | 0 <= i < |rest| ensures rest[i].tree.Dir? {
      assert (rest + [top])[i] == rest[i];
    }
  }

  /** When nothing is left waiting, the stack is ready for its next entry. */
  lemma AllPlaced(root: Tree, stack: seq<Item>, marks: seq<Path>, count: nat, owned: set<nat>, stuck: set<Path>)
    requires Placing(root, stack, [], marks, count, owned, stuck)
    ensures Ready(root, stack, marks, count, owned, stuck) && stack + [] == stack
  {
    assert stack + [] == stack;
  }

  lemma StartPlacing(
    root: Tree, stack: seq<Item>, marks: seq<Path>, count: nat, owned: set<nat>, stuck: set<Path>, hs: seq<nat>, after: set<nat>)
    requires Ready(root, stack, marks, count, owned, stuck) && stack != [] && !stack[|stack| - 1].visited
    requires var ts := stack[|stack| - 1].tree.children; |hs| == |ts| && AllPlain(ts) && Added(hs, owned, after)
    ensures var top := stack[|stack| - 1];
      var under := stack[..|stack| - 1] + [top.(visited := true)];
      var kids := Opened(top.tree.children, top.path, hs);
      && Placing(root, under, kids, marks, count + |hs|, after, stuck)
      && Weight(under + kids) < Weight(stack)
  {
    Expand(root, marks, stack, count, hs);
    ExpandedOwns(stack, hs, owned, after);
  }

  lemma AllMarked(root: Tree, marks: seq<Path>, count: nat, owned: set<nat>, stuck: set<Path>)
    requires root.Dir? && Ready(root, [], marks, count, owned, stuck)
    ensures (forall x :: x in marks <==> x in Paths(root, [])) && Safe(root) && Paths(root, []) !! stuck
    ensures owned == {} && count == Entries(root)
  {

  }

  /** `WindowsRegistryIO`, over the handles of the process. `stuck` are the paths that the system
   *  refuses to mark. */
  class WindowsTreeIO {
    const handles: Handles

    constructor ()
      ensures fresh(handles) && handles.open == {} && handles.Valid()
    {
      handles := new Handles();
    }

    /** Others' handles are untouched, and the rest of the open ones are owned here. */
    ghost predicate Owning(base: set<nat>, owned: set<nat>)
      reads this, handles
    {
      handles.Valid() && base !! owned && handles.open == base + owned
    }

    /** Opens the names of one directory, until one of them is refused. */
    method OpenChildren(ts: seq<Tree>, count: nat, maxEntries: nat, owned: set<nat>, ghost base: set<nat>)
      returns (ok: bool, hs: seq<nat>, owned': set<nat>, count': nat)
      requires Owning(base, owned) && count <= maxEntries
      modifies handles
      ensures Owning(base, owned')
      ensures ok <==> count + |ts| <= maxEntries && AllPlain(ts)
      ensures ok ==> |hs| == |ts| && count' == count + |ts| && Added(hs, owned, owned')
    {
      ok, hs, owned', count' := true, [], owned, count;
      for k := 0 to |ts|
        invariant Owning(base, owned') && |hs| == k && Added(hs, owned, owned')
        invariant ok && count' == count + k <= maxEntries && AllPlain(ts[..k])
      {
        count' := count' + 1;
        if count' > maxEntries || !Plain(ts[k]) {
          return false, hs, owned', count';
        }
        var h := handles.Open();
        AddOne(hs, owned, owned', h);
        hs, owned' := hs + [h], owned' + {h};
      }
      assert ts[..|ts|] == ts;
    }

    /** Marks one handle and closes it, whether or not it could be marked. */
    method MarkAndClose(i: Item, marks: seq<Path>, owned: set<nat>, stuck: set<Path>, ghost base: set<nat>)
      returns (ok: bool, marks': seq<Path>, owned': set<nat>)
      requires Owning(base, owned) && i.handle in owned
      modifies handles
      ensures owned' == owned - {i.handle} && Owning(base, owned')
      ensures ok == (i.path !in stuck) && marks' == if ok then marks + [i.path] else marks
    {
      ok := i.path !in stuck;
      marks' := if ok then marks + [i.path] else marks;
      handles.Close(i.handle);
      owned' := owned - {i.handle};
    }

    /** The opened children: directories go on the stack, files are marked at once. */
    method PlaceChildren(
      root: Tree, kids: seq<Item>, stack: seq<Item>, marks: seq<Path>, count: nat, owned: set<nat>,
      stuck: set<Path>, ghost base: set<nat>)
      returns (ok: bool, stack': seq<Item>, marks': seq<Path>, owned': set<nat>)
      requires Owning(base, owned) && Placing(root, stack, kids, marks, count, owned, stuck)
      modifies handles
      ensures Owning(base, owned') && ChildrenFirst(Paths(root, []), marks')
      ensures ok ==> Ready(root, stack', marks', count, owned', stuck) && Weight(stack') <= Weight(stack + kids)
      ensures !ok ==> !(Paths(root, []) !! stuck)
    {
      ok, stack', marks', owned' := true, stack, marks, owned;
      var left := kids;
      while left != []
        invariant ok && Owning(base, owned') && Placing(root, stack', left, marks', count, owned', stuck)
        invariant Weight(stack' + left) <= Weight(stack + kids)
        decreases |left|
      {
        var kid := left[0];
        if kid.tree.Dir? {
          PlaceDir(root, stack', left, marks', count, owned', stuck);
          stack' := stack' + [kid];
        } else {
          PlaceFile(root, stack', left, marks', count, owned', stuck);
          ok, marks', owned' := MarkAndClose(kid, marks', owned', stuck, base);
          if !ok {
            return;
          }
        }
        left := left[1..];
      }
      AllPlaced(root, stack', marks', count, owned', stuck);
    }

    /** Closes what is still owned, as the last `finally` does. */
    method CloseOwned(owned: set<nat>, ghost base: set<nat>)
      requires Owning(base, owned)
      modifies handles
      ensures handles.Valid() && handles.open == base
    {
      var left := owned;
      while left != {}
        invariant Owning(base, left)
        decreases |left|
      {
        var h :| h in left;
        handles.Close(h);
        left := left - {h};
      }
    }

    /** The first visit of a directory: it stays on the stack, and its children are opened and placed. */
    method OpenUp(
      root: Tree, stack: seq<Item>, marks: seq<Path>, count: nat, owned: set<nat>, maxEntries: nat,
      stuck: set<Path>, ghost base: set<nat>)
      returns (ok: bool, stack': seq<Item>, marks': seq<Path>, count': nat, owned': set<nat>)
      requires stack != [] && !stack[|stack| - 1].visited && count <= maxEntries
      requires Owning(base, owned) && Ready(root, stack, marks, count, owned, stuck)
      modifies handles
      ensures Owning(base, owned') && ChildrenFirst(Paths(root, []), marks')
      ensures ok ==> Ready(root, stack', marks', count', owned', stuck) && count' <= maxEntries
      ensures ok ==> Weight(stack') < Weight(stack)
      ensures !ok ==> !Removable(root, maxEntries, stuck)
    {
      var top, rest := stack[|stack| - 1], stack[..|stack| - 1];
      var hs: seq<nat>;
      ok, hs, owned', count' := OpenChildren(top.tree.children, count, maxEntries, owned, base);
      if !ok {
        CannotExpand(root, marks, stack, count, maxEntries);
        return false, stack, marks, count', owned';
      }
      StartPlacing(root, stack, marks, count, owned, stuck, hs, owned');
      var kids := Opened(top.tree.children, top.path, hs);
      ok, stack', marks', owned' := PlaceChildren(
        root, kids, rest + [top.(visited := true)], marks, count', owned', stuck, base);
    }

    /** The second visit: the directory is marked. */
    method MarkTop(
      root: Tree, stack: seq<Item>, marks: seq<Path>, count: nat, owned: set<nat>, stuck: set<Path>, ghost base: set<nat>)
      returns (ok: bool, stack': seq<Item>, marks': seq<Path>, owned': set<nat>)
      requires stack != [] && stack[|stack| - 1].visited
      requires Owning(base, owned) && Ready(root, stack, marks, count, owned, stuck)
      modifies handles
      ensures Owning(base, owned') && ChildrenFirst(Paths(root, []), marks')
      ensures ok ==> Ready(root, stack', marks', count, owned', stuck) && Weight(stack') < Weight(stack)
      ensures !ok ==> !(Paths(root, []) !! stuck)
    {
      var top, rest := stack[|stack| - 1], stack[..|stack| - 1];
      assert stack == rest + [top];
      FinishTop(root, rest, top, marks, count, owned, stuck);
      stack' := rest;
      ok, marks', owned' := MarkAndClose(top, marks, owned, stuck, base);
    }

    /** `secure_remove_tree`: it succeeds exactly when the tree is a safe directory within the limit and
     *  nothing in it is stuck. However it ends, children were marked before their parents and no handle
     *  stays open; when it succeeds, each path of the tree has been marked once. */
    method SecureRemoveTree(root: Tree, maxEntries: nat, stuck: set<Path>) returns (ok: bool, marks: seq<Path>)
      requires handles.Valid()
      modifies handles
      ensures handles.Valid() && handles.open == old(handles.open)
      ensures ok <==> Removable(root, maxEntries, stuck)
      ensures ChildrenFirst(Paths(root, []), marks)
      ensures ok ==> forall x :: x in marks <==> x in Paths(root, [])
    {
      ok, marks := root.Dir?, [];
      if !ok {
        return;
      }
      ghost var base := handles.open;
      var handle := handles.Open();
      var owned, stack, count: nat := {handle}, [Item(root, [], handle, false)], 0;
      Begin(root, handle, stuck);
      while stack != []
        invariant ok && Owning(base, owned) && Ready(root, stack, marks, count, owned, stuck) && count <= maxEntries
        decreases Weight(stack)
      {
        if stack[|stack| - 1].visited {
          ok, stack, marks, owned := MarkTop(root, stack, marks, count, owned, stuck, base);
        } else {
          ok, stack, marks, count, owned := OpenUp(root, stack, marks, count, owned, maxEntries, stuck, base);
        }
        if !ok {
          CloseOwned(owned, base);
          return;
        }
      }
      AllMarked(root, marks, count, owned, stuck);
      CloseOwned(owned, base);
    }
  }
}
