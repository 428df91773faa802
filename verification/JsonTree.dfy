/** The explicit-stack JSON check of the wire protocol (`_validate_json_tree`) over a heap of
    containers that may be shared and may form cycles. */
module JsonTree {

  const MAX_DEPTH: nat := 256

  /** Non-container values, as far as the check distinguishes them. */
  datatype Leaf = NullLeaf | TextLeaf | IntLeaf | BoolLeaf | FloatLeaf(finite: bool) | Unsupported

  datatype Value = Scalar(leaf: Leaf) | Container(id: nat)

  datatype Key = TextKey(text: string) | OtherKey

  /** A Python dict or list; `Container(id)` refers to one by identity. */
  datatype Node = Dict(entries: seq<(Key, Value)>) | List(items: seq<Value>)

  type Heap = map<nat, Node>

  predicate LeafAccepted(l: Leaf) {
    !l.Unsupported? && (l.FloatLeaf? ==> l.finite)
  }

  function Values(entries: seq<(Key, Value)>): (r: seq<Value>)
    ensures |r| == |entries| && forall i | 0 <= i < |r| :: r[i] == entries[i].1
  {
    if entries == [] then [] else Values(entries[..|entries| - 1]) + [entries[|entries| - 1].1]
  }

  function Children(heap: Heap, id: nat): seq<Value>
    requires id in heap
  {
    Items(heap[id])
  }

  function Items(n: Node): seq<Value> {
    match n
    case Dict(entries) => Values(entries)
    case List(items) => items
  }

  predicate KeysAreText(n: Node) {
    n.Dict? ==> forall i | 0 <= i < |n.entries| :: n.entries[i].0.TextKey?
  }

  predicate InHeap(heap: Heap, v: Value) {
    v.Container? ==> v.id in heap
  }

  ghost predicate Closed(heap: Heap) {
    forall id | id in heap :: forall i | 0 <= i < |Children(heap, id)| :: InHeap(heap, Children(heap, id)[i])
  }

  /** The specification: unfolded from `depth` on, the value is a finite tree no deeper than the
      limit, with text keys and valid leaves only. */
  ghost predicate Unfolds(heap: Heap, v: Value, depth: nat)
    decreases MAX_DEPTH + 1 - depth
  {
    && depth <= MAX_DEPTH
    && match v
       case Scalar(leaf) => LeafAccepted(leaf)
       case Container(id) =>
         && id in heap
         && KeysAreText(heap[id])
         && forall i | 0 <= i < |Children(heap, id)| :: Unfolds(heap, Children(heap, id)[i], depth + 1)
  }

  // ----- cycles -----

  /** A chain of `n` containment steps. */
  ghost predicate Path(heap: Heap, from: nat, to: nat, n: nat)
    decreases n
  {
    if n == 0 then from == to
    else exists mid :: mid in heap && Path(heap, from, mid, n - 1) && Container(to) in Children(heap, mid)
  }

  lemma {:induction false} UnfoldsAlong(heap: Heap, from: nat, to: nat, n: nat, depth: nat)
    requires Unfolds(heap, Container(from), depth) && Path(heap, from, to, n)
    ensures Unfolds(heap, Container(to), depth + n)
    decreases n
  {
    if n != 0 {
      var mid :| mid in heap && Path(heap, from, mid, n - 1) && Container(to) in Children(heap, mid);
      UnfoldsAlong(heap, from, mid, n - 1, depth);
      var i :| 0 <= i < |Children(heap, mid)| && Children(heap, mid)[i] == Container(to);
    }
  }

  /** A container inside itself does not unfold to a finite tree of any depth. */
  lemma {:induction false} CycleNeverUnfolds(heap: Heap, id: nat, n: nat, depth: nat)
    requires 0 < n && Path(heap, id, id, n)
    ensures !Unfolds(heap, Container(id), depth)
    decreases MAX_DEPTH + 1 - depth
  {
    if Unfolds(heap, Container(id), depth) {
      UnfoldsAlong(heap, id, id, n, depth);
      CycleNeverUnfolds(heap, id, n, depth + n);
    }
  }

  // ----- the stack -----

  datatype Frame = Frame(value: Value, leaving: bool, depth: nat)

  /** The innermost container that is being visited. */
  function Innermost(stack: seq<Frame>): (r: int)
    ensures -1 <= r < |stack| && (0 <= r ==> stack[r].leaving)
  {
    if stack == [] then -1
    else if stack[|stack| - 1].leaving then |stack| - 1
    else Innermost(stack[..|stack| - 1])
  }

  /** The containers whose leave marker is on the stack. */
  function Active(stack: seq<Frame>): set<nat> {
    if stack == [] then {}
    else
      var top := stack[|stack| - 1];
      Active(stack[..|stack| - 1]) + (if top.leaving && top.value.Container? then {top.value.id} else {})
  }

  /** Every entry is a child of the innermost container below it, one level deeper; markers are for
      distinct containers. */
  ghost predicate Stacked(heap: Heap, stack: seq<Frame>) {
    stack == [] ||
    var top, below := stack[|stack| - 1], stack[..|stack| - 1];
    && Stacked(heap, below)
    && InHeap(heap, top.value)
    && (top.leaving ==> top.value.Container? && top.value.id !in Active(below))
    && var parent := Innermost(below);
       0 <= parent ==>
         && below[parent].value.Container? && below[parent].value.id in heap
         && top.value in Children(heap, below[parent].value.id)
         && top.depth == below[parent].depth + 1
  }

  /** Everything still to be visited unfolds. */
  ghost predicate PendingUnfold(heap: Heap, stack: seq<Frame>) {
    forall i | 0 <= i < |stack| && !stack[i].leaving :: Unfolds(heap, stack[i].value, stack[i].depth)
  }

  lemma {:induction false} ActiveReachesInnermost(heap: Heap, stack: seq<Frame>, id: nat) returns (n: nat)
    requires Stacked(heap, stack) && id in Active(stack)
    ensures 0 <= Innermost(stack) && stack[Innermost(stack)].value.Container?
    ensures Path(heap, id, stack[Innermost(stack)].value.id, n)
  {
    var top, below := stack[|stack| - 1], stack[..|stack| - 1];
    if top.leaving && top.value.id == id {
      n := 0;
    } else {
      n := ActiveReachesInnermost(heap, below, id);
      if top.leaving {
        n := n + 1;
      }
    }
  }

  /** A container met again while it is being visited is on a cycle. */
  lemma MetAgainNeverUnfolds(heap: Heap, stack: seq<Frame>)
    requires stack != [] && Stacked(heap, stack)
    requires !stack[|stack| - 1].leaving && stack[|stack| - 1].value.Container?
    requires stack[|stack| - 1].value.id in Active(stack[..|stack| - 1])
    ensures !PendingUnfold(heap, stack)
  {
    var top, below := stack[|stack| - 1], stack[..|stack| - 1];
    var id := top.value.id;
    var n := ActiveReachesInnermost(heap, below, id);
    assert Path(heap, id, id, n + 1);
    CycleNeverUnfolds(heap, id, n + 1, top.depth);
  }

  // ----- the work left, for termination -----

  function Weight(heap: Heap, v: Value, depth: nat): nat
    decreases MAX_DEPTH + 1 - depth, 0
  {
    if v.Scalar? || MAX_DEPTH < depth || v.id !in heap then 1
    else 2 + WeightAll(heap, Children(heap, v.id), depth + 1)
  }

  function WeightAll(heap: Heap, vs: seq<Value>, depth: nat): nat
    decreases MAX_DEPTH + 1 - depth, 1 + |vs|
  {
    if vs == [] || MAX_DEPTH + 1 < depth then 0
    else WeightAll(heap, vs[..|vs| - 1], depth) + Weight(heap, vs[|vs| - 1], depth)
  }

  function StackWeight(heap: Heap, stack: seq<Frame>): nat {
    if stack == [] then 0
    else
      var top := stack[|stack| - 1];
      StackWeight(heap, stack[..|stack| - 1]) + (if top.leaving then 1 else Weight(heap, top.value, top.depth))
  }

  /** The entries pushed for the children of one container. */
  function Frames(vs: seq<Value>, depth: nat): (r: seq<Frame>)
    ensures |r| == |vs|
    ensures forall i | 0 <= i < |r| :: r[i] == Frame(vs[i], false, depth)
  {
    if vs == [] then [] else Frames(vs[..|vs| - 1], depth) + [Frame(vs[|vs| - 1], false, depth)]
  }

  lemma {:induction false} PushedChildren(heap: Heap, base: seq<Frame>, vs: seq<Value>, depth: nat)
    requires Stacked(heap, base) && base != [] && base[|base| - 1].leaving && depth <= MAX_DEPTH + 1
    requires base[|base| - 1].value.Container? && base[|base| - 1].value.id in heap
    requires depth == base[|base| - 1].depth + 1
    requires forall i | 0 <= i < |vs| :: InHeap(heap, vs[i]) && vs[i] in Children(heap, base[|base| - 1].value.id)
    ensures Stacked(heap, base + Frames(vs, depth))
    ensures Active(base + Frames(vs, depth)) == Active(base)
    ensures Innermost(base + Frames(vs, depth)) == |base| - 1
    ensures StackWeight(heap, base + Frames(vs, depth)) == StackWeight(heap, base) + WeightAll(heap, vs, depth)
  {
    var all := base + Frames(vs, depth);
    if vs == [] {
      assert all == base;
    } else {
      var before := vs[..|vs| - 1];
      PushedChildren(heap, base, before, depth);
      assert all[..|all| - 1] == base + Frames(before, depth);
      assert all[|all| - 1] == Frame(vs[|vs| - 1], false, depth);
    }
  }

  /** Pushing one frame. */
  lemma Pushed(heap: Heap, base: seq<Frame>, f: Frame)
    ensures (base + [f])[..|base + [f]| - 1] == base
    ensures (base + [f])[|base + [f]| - 1] == f
  {
  }

  /** Replacing a visited container by its marker and its children keeps what is left to show. */
  lemma PendingAfterEntering(heap: Heap, below: seq<Frame>, id: nat, depth: nat)
    requires id in heap && depth <= MAX_DEPTH
    requires KeysAreText(heap[id])
    ensures PendingUnfold(heap, below + [Frame(Container(id), false, depth)])
       <==> PendingUnfold(heap, below + [Frame(Container(id), true, depth)]
                                      + Frames(Children(heap, id), depth + 1))
  {
    var before := below + [Frame(Container(id), false, depth)];
    var base := below + [Frame(Container(id), true, depth)];
    var after := base + Frames(Children(heap, id), depth + 1);
    var n := |below|;
    if PendingUnfold(heap, after) {
      forall i | 0 <= i < |Children(heap, id)| ensures Unfolds(heap, Children(heap, id)[i], depth + 1) {
        assert after[n + 1 + i] == Frame(Children(heap, id)[i], false, depth + 1);
      }
      forall i | 0 <= i < |before| && !before[i].leaving
        ensures Unfolds(heap, before[i].value, before[i].depth)
      {
        if i < n {
          assert after[i] == before[i];
        }
      }
    }
    if PendingUnfold(heap, before) {
      assert before[n] == Frame(Container(id), false, depth);
      assert Unfolds(heap, Container(id), depth);
      forall i | 0 <= i < |after| && !after[i].leaving
        ensures Unfolds(heap, after[i].value, after[i].depth)
      {
        if i < n {
          assert after[i] == before[i];
        } else {
          assert after[i] == Frame(Children(heap, id)[i - n - 1], false, depth + 1);
        }
      }
    }
  }

  lemma PendingSplit(heap: Heap, below: seq<Frame>, f: Frame)
    ensures PendingUnfold(heap, below + [f])
       <==> PendingUnfold(heap, below) && (f.leaving || Unfolds(heap, f.value, f.depth))
  {
    var all := below + [f];
    if PendingUnfold(heap, all) {
      assert all[|below|] == f;
      forall i | 0 <= i < |below| && !below[i].leaving ensures Unfolds(heap, below[i].value, below[i].depth) {
        assert all[i] == below[i];
      }
    }
  }

  /** `_validate_json_tree`: accepts exactly the values that unfold to a bounded, well-keyed tree. */
  method ValidateTree(heap: Heap, root: Value) returns (accepted: bool)
    requires Closed(heap) && InHeap(heap, root)
    ensures accepted <==> Unfolds(heap, root, 0)
  {
    var active: set<nat> := {};
    var stack := [Frame(root, false, 0)];
    RootStacked(heap, root);
    hide Unfolds, Stacked, PendingUnfold, Active, StackWeight, Weight, WeightAll, Frames, Values;
    while stack != []
      invariant Stacked(heap, stack)
      invariant active == Active(stack)
      invariant PendingUnfold(heap, stack) <==> Unfolds(heap, root, 0)
      decreases StackWeight(heap, stack)
    {
      ghost var whole := stack;
      var current := stack[|stack| - 1];
      stack := stack[..|stack| - 1];
      assert whole == stack + [current];
      Popped(heap, stack, current);
      PendingSplit(heap, stack, current);
      if current.leaving {
        active := active - {current.value.id};
        continue;
      }
      if MAX_DEPTH < current.depth {
        TooDeep(heap, current.value, current.depth);
        return false;
      }
      match current.value {
        case Container(id) =>
          if id in active {
            MetAgainNeverUnfolds(heap, whole);
            return false;
          }
          active := active + {id};
          var entered: bool;
          stack, entered := PushContainer(heap, stack, id, current.depth);
          if !entered {
            BadKeyNeverUnfolds(heap, id, current.depth);
            return false;
          }
        case Scalar(leaf) =>
          LeafUnfolds(heap, leaf, current.depth);
          if !LeafAccepted(leaf) {
            return false;
          }
      }
    }
    NothingPending(heap);
    accepted := true;
  }

  lemma RootStacked(heap: Heap, root: Value)
    requires InHeap(heap, root)
    ensures Stacked(heap, [Frame(root, false, 0)]) && Active([Frame(root, false, 0)]) == {}
    ensures PendingUnfold(heap, [Frame(root, false, 0)]) <==> Unfolds(heap, root, 0)
  {
    var stack := [Frame(root, false, 0)];
    assert stack[..0] == [] && [] + stack == stack;
    PendingSplit(heap, [], stack[0]);
  }

  lemma NothingPending(heap: Heap)
    ensures PendingUnfold(heap, [])
  {
  }

  lemma TooDeep(heap: Heap, v: Value, depth: nat)
    requires MAX_DEPTH < depth
    ensures !Unfolds(heap, v, depth)
  {
  }

  lemma LeafUnfolds(heap: Heap, leaf: Leaf, depth: nat)
    requires depth <= MAX_DEPTH
    ensures Unfolds(heap, Scalar(leaf), depth) <==> LeafAccepted(leaf)
  {
  }

  lemma BadKeyNeverUnfolds(heap: Heap, id: nat, depth: nat)
    requires id in heap && !KeysAreText(heap[id])
    ensures !Unfolds(heap, Container(id), depth)
  {
  }

  lemma Popped(heap: Heap, below: seq<Frame>, top: Frame)
    requires Stacked(heap, below + [top])
    ensures Stacked(heap, below) && InHeap(heap, top.value)
    ensures top.leaving ==> top.value.Container? && Active(below) == Active(below + [top]) - {top.value.id}
    ensures !top.leaving ==> Active(below) == Active(below + [top])
    ensures StackWeight(heap, below) < StackWeight(heap, below + [top])
    ensures !top.leaving && top.depth <= MAX_DEPTH && top.value.Container? ==>
              StackWeight(heap, below + [top])
              == StackWeight(heap, below) + 2 + WeightAll(heap, Children(heap, top.value.id), top.depth + 1)
  {
    Pushed(heap, below, top);
  }

  /** The marker of a container just entered. */
  lemma Entered(heap: Heap, below: seq<Frame>, id: nat, depth: nat)
    requires Stacked(heap, below + [Frame(Container(id), false, depth)]) && id !in Active(below)
    ensures Stacked(heap, below + [Frame(Container(id), true, depth)])
    ensures Active(below + [Frame(Container(id), true, depth)]) == Active(below) + {id}
    ensures StackWeight(heap, below + [Frame(Container(id), true, depth)]) == StackWeight(heap, below) + 1
  {
    Pushed(heap, below, Frame(Container(id), false, depth));
    Pushed(heap, below, Frame(Container(id), true, depth));
  }

  /** Entering a dict or a list: its marker, then its items. */
  method PushContainer(heap: Heap, below: seq<Frame>, id: nat, depth: nat)
    returns (stack: seq<Frame>, accepted: bool)
    requires Closed(heap) && id in heap && depth <= MAX_DEPTH
    requires Stacked(heap, below + [Frame(Container(id), false, depth)]) && id !in Active(below)
    ensures accepted <==> KeysAreText(heap[id])
    ensures accepted ==>
              && Stacked(heap, stack) && Active(stack) == Active(below) + {id}
              && (PendingUnfold(heap, stack) <==> PendingUnfold(heap, below + [Frame(Container(id), false, depth)]))
              && StackWeight(heap, stack)
                 == StackWeight(heap, below) + 1 + WeightAll(heap, Children(heap, id), depth + 1)
  {
    Entered(heap, below, id, depth);
    ghost var base := below + [Frame(Container(id), true, depth)];
    Pushed(heap, below, Frame(Container(id), true, depth));
    stack, accepted := PushItems(below + [Frame(Container(id), true, depth)], heap[id], depth + 1);
    if accepted {
      ChildrenInHeap(heap, id);
      PushedChildren(heap, base, Children(heap, id), depth + 1);
      PendingAfterEntering(heap, below, id, depth);
      hide Unfolds, Stacked, PendingUnfold, Active, StackWeight, Weight, WeightAll;
    }
  }

  lemma ChildrenInHeap(heap: Heap, id: nat)
    requires Closed(heap) && id in heap
    ensures forall i | 0 <= i < |Children(heap, id)| ::
              InHeap(heap, Children(heap, id)[i]) && Children(heap, id)[i] in Children(heap, id)
  {
  }

  /** The items of one container, on top of its marker; a key that is not text stops it. */
  method PushItems(base: seq<Frame>, n: Node, depth: nat) returns (stack: seq<Frame>, accepted: bool)
    ensures accepted <==> KeysAreText(n)
    ensures accepted ==> stack == base + Frames(Items(n), depth)
  {
    match n {
      case Dict(entries) =>
        stack := base;
        var i := 0;
        assert base + [] == base;
        hide Frames, Values;
        NoFrames(depth);
        while i < |entries|
          invariant 0 <= i <= |entries|
          invariant stack == base + Frames(Values(entries[..i]), depth)
          invariant forall k | 0 <= k < i :: entries[k].0.TextKey?
        {
          if !entries[i].0.TextKey? {
            return [], false;
          }
          stack := stack + [Frame(entries[i].1, false, depth)];
          ValuesSnoc(base, entries, i, depth);
          i := i + 1;
        }
        assert entries[..i] == entries;
      case List(items) =>
        stack := base + Frames(items, depth);
    }
    accepted := true;
  }

  lemma NoFrames(depth: nat)
    ensures Frames(Values([]), depth) == []
  {
  }

  lemma ValuesSnoc(base: seq<Frame>, entries: seq<(Key, Value)>, i: nat, depth: nat)
    requires i < |entries|
    ensures base + Frames(Values(entries[..i + 1]), depth)
         == base + Frames(Values(entries[..i]), depth) + [Frame(entries[i].1, false, depth)]
  {
    assert Values(entries[..i + 1]) == Values(entries[..i]) + [entries[i].1];
    assert Frames(Values(entries[..i + 1]), depth)
        == Frames(Values(entries[..i]), depth) + [Frame(entries[i].1, false, depth)];
  }
}
