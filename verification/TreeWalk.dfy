/** Walking a directory tree with an explicit stack: the size is the recursive one, every handle is
 *  closed exactly once, and removal marks children before parents. */
module TreeWalk {
  import opened Basics

  /** A name in a directory. `Locked` cannot be opened; `Swapped` turns out to be something else once
   *  it is open; the metadata of `Blind` cannot be read once it is open. */
  datatype Tree =
    | File(size: nat)
    | Dir(children: seq<Tree>)
    | Link
    | Special
    | Locked
    | Swapped
    | BlindFile
    | BlindDir

  // ---------------------------------------------------------------- the recursive definitions

  predicate Safe(t: Tree) {
    match t
    case File(_) => true
    case Dir(children) => AllSafe(children)
    case _ => false
  }

  predicate AllSafe(ts: seq<Tree>) {
    ts == [] || (Safe(ts[0]) && AllSafe(ts[1..]))
  }

  function Bytes(t: Tree): nat {
    match t
    case File(size) => size
    case Dir(children) => AllBytes(children)
    case _ => 0
  }

  function AllBytes(ts: seq<Tree>): nat {
    if ts == [] then 0 else Bytes(ts[0]) + AllBytes(ts[1..])
  }

  /** The names below a directory, at any depth. */
  function Entries(t: Tree): nat {
    if t.Dir? then AllEntries(t.children) else 0
  }

  function AllEntries(ts: seq<Tree>): nat {
    if ts == [] then 0 else 1 + Entries(ts[0]) + AllEntries(ts[1..])
  }

  predicate Within(t: Tree, maxEntries: nat, maxBytes: nat) {
    Entries(t) <= maxEntries && Bytes(t) <= maxBytes
  }

  predicate HasBlindDir(t: Tree) {
    t.BlindDir? || (t.Dir? && AnyBlindDir(t.children))
  }

  predicate AnyBlindDir(ts: seq<Tree>) {
    ts != [] && (HasBlindDir(ts[0]) || AnyBlindDir(ts[1..]))
  }

  predicate Plain(t: Tree) {
    t.File? || t.Dir?
  }

  predicate AllPlain(ts: seq<Tree>) {
    forall k :: 0 <= k < |ts| ==> Plain(ts[k])
  }

  lemma OneDir(t: Tree)
    requires t.Dir?
    ensures Entries(t) == AllEntries(t.children) && Bytes(t) == AllBytes(t.children)
    ensures (Safe(t) <==> AllSafe(t.children)) && (HasBlindDir(t) <==> AnyBlindDir(t.children))
  {
  }

  // ---------------------------------------------------------------- the order of a walk

  /** The names below a directory in the order in which a stack visits them: its own names, then what
   *  is below the last directory among them, and what is below the first at the end. */
  function Order(t: Tree): seq<Tree> {
    if t.Dir? then t.children + Below(t.children) else []
  }

  function Below(ts: seq<Tree>): seq<Tree> {
    if ts == [] then [] else Below(ts[1..]) + Order(ts[0])
  }

  function SizeOf(t: Tree): nat {
    if t.File? then t.size else 0
  }

  function Sum(ts: seq<Tree>): nat {
    if ts == [] then 0 else Sum(ts[..|ts| - 1]) + SizeOf(ts[|ts| - 1])
  }

  lemma {:induction false} SumConcat(a: seq<Tree>, b: seq<Tree>)
    ensures Sum(a + b) == Sum(a) + Sum(b)
    decreases |b|
  {
    if b == [] {
      assert a + b == a;
    } else {
      var n := |b| - 1;
      assert (a + b)[..|a + b| - 1] == a + b[..n] && (a + b)[|a + b| - 1] == b[n];
      SumConcat(a, b[..n]);
    }
  }

  lemma SumOne(t: Tree)
    ensures Sum([t]) == SizeOf(t)
  {
    assert [t][..0] == [];
  }

  /** The order lists what the recursive definitions count. */
  lemma {:induction false} OrderOfTree(t: Tree)
    requires t.Dir?
    ensures |Order(t)| == Entries(t) && Sum(Order(t)) == Bytes(t)
    ensures (AllPlain(Order(t)) <==> Safe(t)) && (BlindDir in Order(t) <==> HasBlindDir(t))
  {
    OrderOfTrees(t.children);
    SumConcat(t.children, Below(t.children));
    PlainConcat(t.children, Below(t.children));
  }

  lemma {:induction false} OrderOfTrees(ts: seq<Tree>)
    ensures |ts| + |Below(ts)| == AllEntries(ts) && Sum(ts) + Sum(Below(ts)) == AllBytes(ts)
    ensures AllPlain(ts) && AllPlain(Below(ts)) <==> AllSafe(ts)
    ensures BlindDir in ts || BlindDir in Below(ts) <==> AnyBlindDir(ts)
  {
    if ts != [] {
      OrderOfTrees(ts[1..]);
      FirstAndRest(ts);
      SumConcat(Below(ts[1..]), Order(ts[0]));
      PlainConcat(Below(ts[1..]), Order(ts[0]));
      if ts[0].Dir? {
        OrderOfTree(ts[0]);
      }
    }
  }

  lemma FirstAndRest(ts: seq<Tree>)
    requires ts != []
    ensures Sum(ts) == SizeOf(ts[0]) + Sum(ts[1..])
    ensures AllPlain(ts) <==> Plain(ts[0]) && AllPlain(ts[1..])
    ensures BlindDir in ts <==> ts[0] == BlindDir || BlindDir in ts[1..]
  {
    assert ts == [ts[0]] + ts[1..];
    SumConcat([ts[0]], ts[1..]);
    SumOne(ts[0]);
    PlainConcat([ts[0]], ts[1..]);
  }

  lemma PlainConcat(a: seq<Tree>, b: seq<Tree>)
    ensures AllPlain(a + b) <==> AllPlain(a) && AllPlain(b)
  {
    if AllPlain(a + b) {
      forall k | 0 <= k < |a| ensures Plain(a[k]) {
        assert (a + b)[k] == a[k];
      }
      forall k | 0 <= k < |b| ensures Plain(b[k]) {
        assert (a + b)[|a| + k] == b[k];
      }
    }
  }

  /** `x` is the tree or somewhere in it. */
  ghost predicate Holds(t: Tree, x: Tree)
    decreases t
  {
    x == t || (t.Dir? && exists k :: 0 <= k < |t.children| && Holds(t.children[k], x))
  }

  lemma {:induction false} AllSafeIff(ts: seq<Tree>)
    ensures AllSafe(ts) <==> forall k :: 0 <= k < |ts| ==> Safe(ts[k])
  {
    if ts != [] {
      AllSafeIff(ts[1..]);
      assert forall k :: 0 <= k < |ts| - 1 ==> ts[1..][k] == ts[k + 1];
      assert forall k :: 1 <= k < |ts| ==> ts[1..][k - 1] == ts[k];
    }
  }

  /** A tree is safe exactly when it holds nothing but files and directories, at any depth: no link, no
   *  special file, and nothing that cannot be opened, is swapped or is blind. */
  lemma {:induction false} SafeIff(t: Tree)
    ensures Safe(t) <==> forall x :: Holds(t, x) ==> x.File? || x.Dir?
  {
    if t.Dir? {
      AllSafeIff(t.children);
      forall k | 0 <= k < |t.children| ensures Safe(t.children[k]) <==> forall x :: Holds(t.children[k], x) ==> x.File? || x.Dir? {
        SafeIff(t.children[k]);
      }
    } else {
      assert Holds(t, t);
    }
  }

  // ---------------------------------------------------------------- where a walk stops

  /** Nothing stands in the way of the first `n` names. */
  ghost predicate Clear(order: seq<Tree>, n: nat, maxEntries: nat, maxBytes: nat) {
    n <= |order| && n <= maxEntries && AllPlain(order[..n]) && Sum(order[..n]) <= maxBytes
  }

  /** The walk stops at this name. */
  ghost predicate StopsAt(order: seq<Tree>, k: nat, maxEntries: nat, maxBytes: nat) {
    k < |order| && Clear(order, k, maxEntries, maxBytes) && !Clear(order, k + 1, maxEntries, maxBytes)
  }

  lemma ClearBefore(order: seq<Tree>, j: nat, k: nat, maxEntries: nat, maxBytes: nat)
    requires j <= k && Clear(order, k, maxEntries, maxBytes)
    ensures Clear(order, j, maxEntries, maxBytes)
  {
    assert order[..k] == order[..j] + order[j..k];
    PlainConcat(order[..j], order[j..k]);
    SumConcat(order[..j], order[j..k]);
  }

  lemma OneStop(order: seq<Tree>, j: nat, k: nat, maxEntries: nat, maxBytes: nat)
    requires StopsAt(order, j, maxEntries, maxBytes) && StopsAt(order, k, maxEntries, maxBytes)
    ensures j == k
  {
    if j < k {
      ClearBefore(order, j + 1, k, maxEntries, maxBytes);
    } else if k < j {
      ClearBefore(order, k + 1, j, maxEntries, maxBytes);
    }
  }

  /** The walk of a tree stops at a directory whose metadata cannot be read once it is open. */
  ghost predicate Leaks(root: Tree, maxEntries: nat, maxBytes: nat) {
    root.Dir? && exists k: nat :: StopsAt(Order(root), k, maxEntries, maxBytes) && k < maxEntries && Order(root)[k].BlindDir?
  }

  /** It stops at a limit. */
  ghost predicate Exceeds(root: Tree, maxEntries: nat, maxBytes: nat) {
    root.Dir? && exists k: nat :: StopsAt(Order(root), k, maxEntries, maxBytes) && (k >= maxEntries || Order(root)[k].File?)
  }

  /** Only files, directories, and directories whose metadata cannot be read. */
  predicate OnlyBlind(t: Tree) {
    forall k :: 0 <= k < |Order(t)| ==> Plain(Order(t)[k]) || Order(t)[k].BlindDir?
  }

  /** When nothing else can go wrong, the walk leaks exactly when there is such a directory. */
  lemma LeaksIffBlind(root: Tree, maxEntries: nat, maxBytes: nat)
    requires root.Dir? && OnlyBlind(root) && Within(root, maxEntries, maxBytes)
    ensures Leaks(root, maxEntries, maxBytes) <==> HasBlindDir(root)
  {
    if HasBlindDir(root) {
      OrderOfTree(root);
      var i: nat :| i < |Order(root)| && Order(root)[i] == BlindDir;
      var k := FirstOdd(Order(root), i);
      OddStops(Order(root), k, maxEntries, maxBytes);
    }
    if Leaks(root, maxEntries, maxBytes) {
      LeakIsBlind(root, maxEntries, maxBytes);
    }
  }

  lemma OddStops(order: seq<Tree>, k: nat, maxEntries: nat, maxBytes: nat)
    requires k < |order| <= maxEntries && Sum(order) <= maxBytes && !Plain(order[k]) && AllPlain(order[..k])
    ensures StopsAt(order, k, maxEntries, maxBytes)
  {
    assert order == order[..k] + order[k..];
    SumConcat(order[..k], order[k..]);
    assert order[..k + 1][k] == order[k];
  }

  lemma LeakIsBlind(root: Tree, maxEntries: nat, maxBytes: nat)
    requires Leaks(root, maxEntries, maxBytes)
    ensures HasBlindDir(root)
  {
    OrderOfTree(root);
    var k: nat :| StopsAt(Order(root), k, maxEntries, maxBytes) && k < maxEntries && Order(root)[k].BlindDir?;
    assert Order(root)[k] in Order(root);
  }

  lemma {:induction false} FirstOdd(order: seq<Tree>, i: nat) returns (k: nat)
    requires i < |order| && !Plain(order[i])
    ensures k <= i && !Plain(order[k]) && AllPlain(order[..k])
  {
    if j: nat :| j < i && !Plain(order[j]) {
      k := FirstOdd(order, j);
    } else {
      k := i;
    }
  }

  /** The smallest tree whose walk leaks. */
  lemma BlindChildLeaks(maxEntries: nat, maxBytes: nat)
    requires maxEntries > 0
    ensures Leaks(Dir([BlindDir]), maxEntries, maxBytes)
  {
    var root := Dir([BlindDir]);
    assert Below([BlindDir]) == Below([]) + Order(BlindDir) == [] && Order(root) == [BlindDir];
    assert Order(root)[..1] == [BlindDir] && !Plain(Order(root)[..1][0]) && Order(root)[..0] == [];
    assert StopsAt(Order(root), 0, maxEntries, maxBytes);
  }

  // ---------------------------------------------------------------- handles

  /** The process's open handles. Closing demands that the handle is open, so nothing is closed twice. */
  class Handles {
    var open: set<nat>
    var next: nat

    constructor ()
      ensures open == {} && Valid()
    {
      open, next := {}, 0;
    }

    ghost predicate Valid()
      reads this
    {
      forall h :: h in open ==> h < next
    }

    method Open() returns (h: nat)
      requires Valid()
      modifies this
      ensures Valid() && h !in old(open) && h == old(next) < next && open == old(open) + {h}
    {
      h := next;
      open, next := open + {h}, next + 1;
    }

    method Close(h: nat)
      requires Valid() && h in open
      modifies this`open
      ensures Valid() && open == old(open) - {h}
    {
      open := open - {h};
    }
  }

  datatype Frame = Frame(tree: Tree, handle: nat)

  /** What is still to be visited below the directories of a stack. */
  function StackOrder(stack: seq<Frame>): seq<Tree> {
    if stack == [] then [] else Order(stack[|stack| - 1].tree) + StackOrder(stack[..|stack| - 1])
  }

  function StackHandles(stack: seq<Frame>): set<nat> {
    set i | 0 <= i < |stack| :: stack[i].handle
  }

  predicate Distinct(stack: seq<Frame>) {
    forall i, j :: 0 <= i < j < |stack| ==> stack[i].handle != stack[j].handle
  }

  datatype Outcome = Size(bytes: nat) | Unsafe | TooLarge

  /** In the middle of a walk: what has been seen, what is left of the current directory, and what lies
   *  below all of these and the stack make up the order of the tree, and nothing stood in the way. */
  ghost predicate OnTheWay(
    root: Tree, seen: seq<Tree>, left: seq<Tree>, stack: seq<Frame>, count: nat, total: nat, maxEntries: nat, maxBytes: nat) {
    && (forall i :: 0 <= i < |stack| ==> stack[i].tree.Dir?)
    && seen + (left + Below(left) + StackOrder(stack)) == Order(root)
    && count == |seen| && total == Sum(seen) && Clear(Order(root), |seen|, maxEntries, maxBytes)
  }

  /** Why a walk stopped, and whether it left a handle open. */
  ghost predicate StoppedFor(stop: Outcome, lost: bool, root: Tree, maxEntries: nat, maxBytes: nat) {
    exists k: nat :: StopsAt(Order(root), k, maxEntries, maxBytes) && StopIs(stop, lost, Order(root)[k], k, maxEntries)
  }

  predicate StopIs(stop: Outcome, lost: bool, at: Tree, k: nat, maxEntries: nat) {
    && stop == (if k >= maxEntries || at.File? then TooLarge else Unsafe)
    && lost == (k < maxEntries && at.BlindDir?)
  }

  lemma StartWalk(root: Tree, handle: nat, maxEntries: nat, maxBytes: nat)
    requires root.Dir?
    ensures OnTheWay(root, [], [], [Frame(root, handle)], 0, 0, maxEntries, maxBytes)
    ensures StackHandles([Frame(root, handle)]) == {handle}
  {
    var s := [Frame(root, handle)];
    assert s[..|s| - 1] == [] && StackOrder(s) == Order(root) + StackOrder([]);
    assert Order(root)[..0] == [];
    HandlesPush([], Frame(root, handle));
    assert StackHandles([]) == {} && [] + [Frame(root, handle)] == s;
  }

  /** The next directory is taken off the stack. */
  lemma PopFrame(root: Tree, seen: seq<Tree>, stack: seq<Frame>, count: nat, total: nat, maxEntries: nat, maxBytes: nat)
    requires OnTheWay(root, seen, [], stack, count, total, maxEntries, maxBytes) && stack != []
    ensures var top := stack[|stack| - 1];
      OnTheWay(root, seen, top.tree.children, stack[..|stack| - 1], count, total, maxEntries, maxBytes)
  {
    var ts, rest := stack[|stack| - 1].tree.children, stack[..|stack| - 1];
    assert [] + Below([]) + StackOrder(stack) == ts + Below(ts) + StackOrder(rest);
  }

  /** The next name of the directory. */
  lemma NextName(
    root: Tree, seen: seq<Tree>, left: seq<Tree>, stack: seq<Frame>, count: nat, total: nat, maxEntries: nat, maxBytes: nat)
    requires OnTheWay(root, seen, left, stack, count, total, maxEntries, maxBytes) && left != []
    ensures |seen| < |Order(root)| && Order(root)[|seen|] == left[0]
    ensures Order(root)[..|seen| + 1] == seen + [left[0]] && Sum(seen + [left[0]]) == total + SizeOf(left[0])
    ensures AllPlain(seen + [left[0]]) <==> Plain(left[0])
    ensures !Clear(Order(root), |seen| + 1, maxEntries, maxBytes) ==> StopsAt(Order(root), |seen|, maxEntries, maxBytes)
  {
    var all := seen + (left + Below(left) + StackOrder(stack));
    assert all[..|seen|] == seen && all[..|seen| + 1] == seen + [left[0]];
    SumConcat(seen, [left[0]]);
    SumOne(left[0]);
    PlainConcat(seen, [left[0]]);
    assert AllPlain([left[0]]) <==> Plain([left[0]][0]);
  }

  lemma PassFile(
    root: Tree, seen: seq<Tree>, left: seq<Tree>, stack: seq<Frame>, count: nat, total: nat, maxEntries: nat, maxBytes: nat)
    requires OnTheWay(root, seen, left, stack, count, total, maxEntries, maxBytes) && left != [] && left[0].File?
    requires count < maxEntries && total + left[0].size <= maxBytes
    ensures OnTheWay(root, seen + [left[0]], left[1..], stack, count + 1, total + left[0].size, maxEntries, maxBytes)
  {
    NextName(root, seen, left, stack, count, total, maxEntries, maxBytes);
    assert Below(left) == Below(left[1..]) + [] == Below(left[1..]);
    MoveOn(seen, left, Below(left), StackOrder(stack));
  }

  lemma PassDir(
    root: Tree, seen: seq<Tree>, left: seq<Tree>, stack: seq<Frame>, count: nat, total: nat, maxEntries: nat, maxBytes: nat, h: nat)
    requires OnTheWay(root, seen, left, stack, count, total, maxEntries, maxBytes) && left != [] && left[0].Dir?
    requires count < maxEntries
    ensures OnTheWay(root, seen + [left[0]], left[1..], stack + [Frame(left[0], h)], count + 1, total, maxEntries, maxBytes)
  {
    NextName(root, seen, left, stack, count, total, maxEntries, maxBytes);
    var pushed := stack + [Frame(left[0], h)];
    assert pushed[..|pushed| - 1] == stack && StackOrder(pushed) == Order(left[0]) + StackOrder(stack);
    MoveOn(seen, left, Below(left), StackOrder(stack));
    assert Below(left) + StackOrder(stack) == Below(left[1..]) + StackOrder(pushed);
    assert left[1..] + Below(left) + StackOrder(stack) == left[1..] + Below(left[1..]) + StackOrder(pushed);
  }

  lemma MoveOn(seen: seq<Tree>, left: seq<Tree>, below: seq<Tree>, rest: seq<Tree>)
    requires left != []
    ensures seen + (left + below + rest) == seen + [left[0]] + (left[1..] + below + rest)
  {
    assert left == [left[0]] + left[1..];
    assert left + below + rest == [left[0]] + (left[1..] + below + rest);
  }

  /** The walk stops at the next name. */
  lemma StopHere(
    root: Tree, seen: seq<Tree>, left: seq<Tree>, stack: seq<Frame>, count: nat, total: nat, maxEntries: nat, maxBytes: nat,
    stop: Outcome, lost: bool)
    requires OnTheWay(root, seen, left, stack, count, total, maxEntries, maxBytes) && left != []
    requires count >= maxEntries || !Plain(left[0]) || total + SizeOf(left[0]) > maxBytes
    requires StopIs(stop, lost, left[0], count, maxEntries)
    ensures StoppedFor(stop, lost, root, maxEntries, maxBytes)
  {
    NextName(root, seen, left, stack, count, total, maxEntries, maxBytes);
    assert StopsAt(Order(root), count, maxEntries, maxBytes) && Order(root)[count] == left[0];
  }

  /** A walk that has seen everything. */
  lemma WalkedThrough(root: Tree, seen: seq<Tree>, count: nat, total: nat, maxEntries: nat, maxBytes: nat)
    requires root.Dir? && OnTheWay(root, seen, [], [], count, total, maxEntries, maxBytes)
    ensures Safe(root) && Within(root, maxEntries, maxBytes) && total == Bytes(root)
    ensures !Leaks(root, maxEntries, maxBytes) && !Exceeds(root, maxEntries, maxBytes)
  {
    var order := Order(root);
    assert seen == order == order[..|order|];
    OrderOfTree(root);
    forall k: nat ensures !StopsAt(order, k, maxEntries, maxBytes) {
      if StopsAt(order, k, maxEntries, maxBytes) {
        ClearBefore(order, k + 1, |order|, maxEntries, maxBytes);
      }
    }
  }

  /** A walk that has stopped, and what that says about the tree. */
  lemma WalkStopped(root: Tree, stop: Outcome, lost: bool, maxEntries: nat, maxBytes: nat)
    requires root.Dir? && StoppedFor(stop, lost, root, maxEntries, maxBytes)
    ensures !stop.Size? && !(Safe(root) && Within(root, maxEntries, maxBytes))
    ensures (lost <==> Leaks(root, maxEntries, maxBytes)) && (stop.TooLarge? <==> Exceeds(root, maxEntries, maxBytes))
  {
    var order := Order(root);
    var k: nat :| StopsAt(order, k, maxEntries, maxBytes) && StopIs(stop, lost, order[k], k, maxEntries);
    OrderOfTree(root);
    if Safe(root) && Within(root, maxEntries, maxBytes) {
      assert order == order[..|order|];
      ClearBefore(order, k + 1, |order|, maxEntries, maxBytes);
    }
    forall j: nat | StopsAt(order, j, maxEntries, maxBytes) ensures j == k {
      OneStop(order, j, k, maxEntries, maxBytes);
    }
  }

  lemma HandlesPush(stack: seq<Frame>, f: Frame)
    ensures StackHandles(stack + [f]) == StackHandles(stack) + {f.handle}
  {
    var pushed := stack + [f];
    assert pushed[|stack|] == f;
    forall h | h in StackHandles(stack) ensures h in StackHandles(pushed) {
      var i :| 0 <= i < |stack| && stack[i].handle == h;
      assert pushed[i].handle == h;
    }
  }

  lemma HandlesPop(stack: seq<Frame>)
    requires stack != [] && Distinct(stack)
    ensures StackHandles(stack[..|stack| - 1]) == StackHandles(stack) - {stack[|stack| - 1].handle}
    ensures stack[|stack| - 1].handle in StackHandles(stack)
  {
    var n := |stack| - 1;
    HandlesPush(stack[..n], stack[n]);
    assert stack == stack[..n] + [stack[n]];
    forall i | 0 <= i < n ensures stack[..n][i].handle != stack[n].handle {}
  }

  /** The open handles are those of others and the ones on the stack. */
  predicate Accounted(open: set<nat>, base: set<nat>, stack: seq<Frame>) {
    Distinct(stack) && base !! StackHandles(stack) && open == base + StackHandles(stack)
  }

  /** And one more that nobody will close. */
  ghost predicate OneLost(open: set<nat>, base: set<nat>, stack: seq<Frame>) {
    Distinct(stack) && base !! StackHandles(stack)
    && exists h :: h !in base && h !in StackHandles(stack) && open == base + StackHandles(stack) + {h}
  }

  ghost predicate Settled(lost: bool, open: set<nat>, base: set<nat>, stack: seq<Frame>) {
    if lost then OneLost(open, base, stack) else Accounted(open, base, stack)
  }

  /** One handle that was kept apart is closed. */
  lemma SettledWithout(lost: bool, open: set<nat>, base: set<nat>, h: nat, stack: seq<Frame>)
    requires Settled(lost, open, base + {h}, stack) && h !in base
    ensures h in open && Settled(lost, open - {h}, base, stack)
  {
    if lost {
      var x :| x !in base + {h} && x !in StackHandles(stack) && open == base + {h} + StackHandles(stack) + {x};
      assert open - {h} == base + StackHandles(stack) + {x};
    } else {
      assert open - {h} == base + StackHandles(stack);
    }
  }

  /** Files and directories are walked with a stack of open directory handles. */
  class TreeIO {
    const handles: Handles

    constructor ()
      ensures fresh(handles) && handles.open == {} && handles.Valid()
    {
      handles := new Handles();
    }

    /** One name of the directory being scanned. A directory whose metadata cannot be read has been
     *  opened by then, outside any guard that would close it. */
    method Visit(entry: Tree, stack: seq<Frame>, total: nat, maxBytes: nat, ghost base: set<nat>)
      returns (stop: Option<Outcome>, stack': seq<Frame>, total': nat)
      requires handles.Valid() && Accounted(handles.open, base, stack)
      modifies handles
      ensures handles.Valid() && Settled(entry.BlindDir?, handles.open, base, stack')
      ensures stop.None? <==> entry.Dir? || (entry.File? && total + SizeOf(entry) <= maxBytes)
      ensures stop.None? ==> total' == total + SizeOf(entry)
      ensures stop.None? ==> if entry.Dir? then exists h :: stack' == stack + [Frame(entry, h)] else stack' == stack
      ensures stop.Some? ==> stop.value == if entry.File? then TooLarge else Unsafe
    {
      stop, stack', total' := None, stack, total;
      match entry {
        case Link => stop := Some(Unsafe);
        case Special => stop := Some(Unsafe);
        case Locked => stop := Some(Unsafe);
        case Dir(_) =>
          var child := handles.Open();
          stack' := stack + [Frame(entry, child)];
          HandlesPush(stack, Frame(entry, child));
        case Swapped =>
          var child := handles.Open();
          handles.Close(child);
          stop := Some(Unsafe);
        case BlindDir =>
          var child := handles.Open();
          assert handles.open == base + StackHandles(stack) + {child};
          stop := Some(Unsafe);
        case BlindFile =>
          var child := handles.Open();
          handles.Close(child);
          stop := Some(Unsafe);
        case File(size) =>
          var child := handles.Open();
          total' := total + size;
          handles.Close(child);
          if total' > maxBytes {
            stop := Some(TooLarge);
          }
      }
    }

    /** The names of one directory, one after the other. */
    method Scan(
      root: Tree, children: seq<Tree>, stack: seq<Frame>, count: nat, total: nat, maxEntries: nat, maxBytes: nat,
      ghost seen: seq<Tree>, ghost base: set<nat>)
      returns (stop: Option<Outcome>, stack': seq<Frame>, count': nat, total': nat, ghost seen': seq<Tree>, ghost lost: bool)
      requires handles.Valid() && Accounted(handles.open, base, stack)
      requires OnTheWay(root, seen, children, stack, count, total, maxEntries, maxBytes)
      modifies handles
      ensures handles.Valid() && Settled(lost, handles.open, base, stack')
      ensures stop.None? ==> !lost && OnTheWay(root, seen', [], stack', count', total', maxEntries, maxBytes)
      ensures stop.None? ==> |stack'| + count <= |stack| + count'
      ensures stop.Some? ==> StoppedFor(stop.value, lost, root, maxEntries, maxBytes)
    {
      stop, stack', count', total', seen', lost := None, stack, count, total, seen, false;
      for k := 0 to |children|
        invariant stop.None? && !lost && handles.Valid() && Accounted(handles.open, base, stack')
        invariant OnTheWay(root, seen', children[k..], stack', count', total', maxEntries, maxBytes)
        invariant |stack'| + count <= |stack| + count'
      {
        var entry := children[k];
        ghost var left, before, sum := children[k..], stack', total';
        assert left[0] == entry && left[1..] == children[k + 1..];
        if count' + 1 > maxEntries {
          StopHere(root, seen', left, before, count', sum, maxEntries, maxBytes, TooLarge, false);
          return Some(TooLarge), stack', count' + 1, total', seen', false;
        }
        stop, stack', total' := Visit(entry, stack', total', maxBytes, base);
        count' := count' + 1;
        if stop.Some? {
          lost := entry.BlindDir?;
          StopHere(root, seen', left, before, count' - 1, sum, maxEntries, maxBytes, stop.value, lost);
          return;
        }
        OneEntry(root, seen', left, before, count' - 1, sum, maxEntries, maxBytes, stack', total');
        seen' := seen' + [entry];
      }
      assert children[|children|..] == [];
    }

    lemma OneEntry(
      root: Tree, seen: seq<Tree>, left: seq<Tree>, stack: seq<Frame>, count: nat, total: nat, maxEntries: nat, maxBytes: nat,
      stack': seq<Frame>, total': nat)
      requires OnTheWay(root, seen, left, stack, count, total, maxEntries, maxBytes) && left != [] && count < maxEntries
      requires Plain(left[0]) && total' == total + SizeOf(left[0]) && (left[0].File? ==> total' <= maxBytes)
      requires if left[0].Dir? then exists h :: stack' == stack + [Frame(left[0], h)] else stack' == stack
      ensures OnTheWay(root, seen + [left[0]], left[1..], stack', count + 1, total', maxEntries, maxBytes)
    {
      if left[0].Dir? {
        var h :| stack' == stack + [Frame(left[0], h)];
        PassDir(root, seen, left, stack, count, total, maxEntries, maxBytes, h);
      } else {
        PassFile(root, seen, left, stack, count, total, maxEntries, maxBytes);
      }
    }

    /** Closes what is left on the stack, as the last `finally` does. */
    method CloseAll(stack: seq<Frame>)
      requires handles.Valid() && Distinct(stack) && StackHandles(stack) <= handles.open
      modifies handles`open
      ensures handles.Valid() && handles.open == old(handles.open) - StackHandles(stack)
    {
      var left := stack;
      while left != []
        invariant handles.Valid() && Distinct(left) && StackHandles(left) <= handles.open
        invariant handles.open - StackHandles(left) == old(handles.open) - StackHandles(stack)
        decreases |left|
      {
        HandlesPop(left);
        handles.Close(left[|left| - 1].handle);
        left := left[..|left| - 1];
      }
      assert StackHandles([]) == {};
    }

    /** The end of a walk that has stopped: nothing stays open but a handle that has been lost. */
    method GiveUp(stack: seq<Frame>, ghost lost: bool, ghost base: set<nat>)
      requires handles.Valid() && Settled(lost, handles.open, base, stack)
      modifies handles`open
      ensures handles.Valid() && (handles.open == base <==> !lost)
      ensures lost ==> exists h :: h !in base && handles.open == base + {h}
    {
      ghost var before := handles.open;
      CloseAll(stack);
      if lost {
        ghost var h :| h !in base && h !in StackHandles(stack) && before == base + StackHandles(stack) + {h};
        assert h in handles.open && handles.open == base + {h};
      } else {
        assert handles.open == base;
      }
    }

    /** One directory of the stack: its handle is closed however its scan ends. */
    method VisitTop(
      root: Tree, stack: seq<Frame>, count: nat, total: nat, maxEntries: nat, maxBytes: nat, ghost seen: seq<Tree>, ghost base: set<nat>)
      returns (stop: Option<Outcome>, stack': seq<Frame>, count': nat, total': nat, ghost seen': seq<Tree>, ghost lost: bool)
      requires stack != [] && handles.Valid() && Accounted(handles.open, base, stack)
      requires OnTheWay(root, seen, [], stack, count, total, maxEntries, maxBytes)
      modifies handles
      ensures handles.Valid() && Settled(lost, handles.open, base, stack')
      ensures stop.None? ==> !lost && OnTheWay(root, seen', [], stack', count', total', maxEntries, maxBytes)
      ensures stop.None? ==> |stack'| + count + 1 <= |stack| + count'
      ensures stop.Some? ==> StoppedFor(stop.value, lost, root, maxEntries, maxBytes)
    {
      var top, rest := stack[|stack| - 1], stack[..|stack| - 1];
      HandlesPop(stack);
      PopFrame(root, seen, stack, count, total, maxEntries, maxBytes);
      assert Accounted(handles.open, base + {top.handle}, rest);
      stop, stack', count', total', seen', lost := Scan(
        root, top.tree.children, rest, count, total, maxEntries, maxBytes, seen, base + {top.handle});
      SettledWithout(lost, handles.open, base, top.handle, stack');
      handles.Close(top.handle);
    }

    /** `secure_tree_size`: the recursive size, exactly when the tree is a safe directory within the
     *  limits. However it ends, every handle it opened has been closed once, exactly unless the walk
     *  stops at a directory whose metadata cannot be read: then one handle stays open. */
    method SecureTreeSize(root: Tree, maxEntries: nat, maxBytes: nat) returns (outcome: Outcome)
      requires handles.Valid()
      modifies handles
      ensures handles.Valid()
      ensures outcome.Size? <==> root.Dir? && Safe(root) && Within(root, maxEntries, maxBytes)
      ensures outcome.Size? ==> outcome.bytes == Bytes(root)
      ensures outcome.TooLarge? <==> Exceeds(root, maxEntries, maxBytes)
      ensures handles.open == old(handles.open) <==> !Leaks(root, maxEntries, maxBytes)
      ensures Leaks(root, maxEntries, maxBytes)
        ==> exists h :: h !in old(handles.open) && handles.open == old(handles.open) + {h}
    {
      if !root.Dir? {
        return Unsafe;
      }
      ghost var base := handles.open;
      var handle := handles.Open();
      var stack := [Frame(root, handle)];
      var count: nat, total: nat, stop: Option<Outcome> := 0, 0, None;
      ghost var seen: seq<Tree>, lost := [], false;
      StartWalk(root, handle, maxEntries, maxBytes);
      while stack != []
        invariant handles.Valid() && stop.None? && Accounted(handles.open, base, stack)
        invariant OnTheWay(root, seen, [], stack, count, total, maxEntries, maxBytes)
        decreases |Order(root)| - count + |stack|
      {
        stop, stack, count, total, seen, lost := VisitTop(root, stack, count, total, maxEntries, maxBytes, seen, base);
        if stop.Some? {
          WalkStopped(root, stop.value, lost, maxEntries, maxBytes);
          GiveUp(stack, lost, base);
          return stop.value;
        }
      }
      WalkedThrough(root, seen, count, total, maxEntries, maxBytes);
      outcome := Size(total);
    }
  }
}
