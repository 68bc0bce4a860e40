/**
 * What the discovery walk of array_coercion.c computes for the input it is
 * mostly given: lists nested to one depth, with equal lengths at every
 * level, and elements that are neither sequences nor arrays.  For such an
 * input a successful walk reports the nesting as the shape and fills the
 * coercion cache with every list, each before the lists it contains.
 */
module DiscoveryNesting {
  import opened Wrappers
  import opened Coercion
  import opened ShapeUpdate
  import opened DiscoverySteps
  import opened Discovery
  import TypeRegistry

  /** The extents of a nested list, read along its first items: its length,
      then the extents of its first item. */
  function NestShape(obj: Node): seq<nat> {
    match obj
    case List(items) => [|items|] + (if items == [] then [] else NestShape(items[0]))
    case _ => []
  }

  /** Lists of equal-shaped rectangular items, down to plain elements. */
  predicate Rectangular(obj: Node) {
    match obj
    case Leaf(_, _) => true
    case List(items) =>
      forall j :: 0 <= j < |items| ==> Rectangular(items[j]) && NestShape(items[j]) == NestShape(items[0])
    case _ => false
  }

  /** The cache entry of a list. */
  function ListEntry(obj: Node): CacheEntry
    requires obj.List?
  {
    CacheEntry(obj, ConvSeq(obj.items), true)
  }

  /** Every list of the input in pre-order: a list, then the lists inside
      its items, item by item. */
  function PreOrder(obj: Node): seq<CacheEntry>
    decreases obj, 1
  {
    if obj.List? then [ListEntry(obj)] + PreOrderItems(obj, 0) else []
  }

  /** The lists inside the items of `parent` from item `i` on. */
  function PreOrderItems(parent: Node, i: nat): seq<CacheEntry>
    requires parent.List? && i <= |parent.items|
    decreases parent, 0, |parent.items| - i
  {
    if i == |parent.items| then [] else PreOrder(parent.items[i]) + PreOrderItems(parent, i + 1)
  }

  /** No element of the dimensions `curr ..` contradicts the extents `s`. */
  predicate Fits(shape: seq<int>, curr: nat, s: seq<nat>) {
    curr + |s| <= |shape| && forall k :: 0 <= k < |s| ==> Compatible(shape[curr + k], s[k])
  }

  /** `shape` with the extents `s` written from dimension `curr` on. */
  function Placed(shape: seq<int>, curr: nat, s: seq<nat>): seq<int>
    requires curr + |s| <= |shape|
  {
    seq(|shape|, k requires 0 <= k < |shape| => if curr <= k < curr + |s| then s[k - curr] else shape[k])
  }

  /** The registry does not make lists scalars: `list` maps to no DType. */
  predicate ListNotScalar(reg: Registry) {
    !(ListType in TypeRegistry.Entries(reg) && TypeRegistry.Entries(reg)[ListType].WeakDType?)
  }

  /** Every element is a plain object (no `np.generic`, no Python scalar)
      whose type the registry does not know. */
  predicate PlainLeaves(obj: Node, reg: Registry) {
    match obj
    case Leaf(t, legacy) => legacy == PlainObject(None) && t !in TypeRegistry.Entries(reg)
    case List(items) => forall j :: 0 <= j < |items| ==> PlainLeaves(items[j], reg)
    case _ => false
  }

  lemma {:induction false} PlainLeavesShrink(obj: Node, reg: Registry, reg2: Registry)
    requires PlainLeaves(obj, reg) && TypeRegistry.Shrinks(reg2, reg)
    ensures PlainLeaves(obj, reg2)
    decreases obj
  {
    if obj.List? {
      forall j | 0 <= j < |obj.items| ensures PlainLeaves(obj.items[j], reg2) {
        PlainLeavesShrink(obj.items[j], reg, reg2);
      }
    }
  }

  /** What a walk of a node expecting extents `s` at depth `curr`, towards
      the total depth `depth`, starts from: the extents fit, the dimension
      right below them is still open unless it is the limit, and nothing
      has yet been found ragged. */
  predicate Entry(call: Call, curr: nat, s: seq<nat>, depth: nat, maxDims: int, st: State) {
    && call.fixed.None?
    && curr + |s| == depth && depth <= maxDims <= |st.shape|
    && Fits(st.shape, curr, s)
    && (maxDims == depth || st.shape[depth] == -1)
    && !st.flags.ragged && !st.flags.reachedMaxDims
    && ListNotScalar(st.registry)
  }

  /** What a successful walk leaves: the limit is the total depth, the extents
      are in place, the cache has grown by `entries`, and nothing is ragged. */
  predicate Exit(st: State, curr: nat, s: seq<nat>, depth: nat, entries: seq<CacheEntry>, r: Step) {
    && curr + |s| <= |st.shape|
    && r.maxDims == depth
    && r.st.shape == Placed(st.shape, curr, s)
    && r.st.cache == st.cache + entries
    && !r.st.flags.ragged && !r.st.flags.reachedMaxDims
    && ListNotScalar(r.st.registry) && TypeRegistry.Shrinks(r.st.registry, st.registry)
  }

  // ---------------------------------------------------------------------
  // one unfolding of the walk at a time

  lemma RecursiveClassifies(call: Call, obj: Node, curr: nat, maxDims: int, st: State)
    requires !obj.Str? && curr <= |st.shape| && maxDims <= |st.shape|
    ensures var c := DiscoverFromPyobject(call.env, st.registry, obj, call.fixed);
            Recursive(call, obj, curr, maxDims, st) ==
              if c.result.Err? then Err(c.result.error)
              else Visit(call, obj, curr, maxDims, st.(registry := c.registry), c.result.value)
  {
  }

  /** An element is handled as a scalar, whatever it was classified as. */
  lemma VisitLeaf(call: Call, obj: Node, curr: nat, maxDims: int, st: State, dtype: Option<DTypeId>)
    requires obj.Leaf? && curr <= |st.shape| && maxDims <= |st.shape|
    ensures Visit(call, obj, curr, maxDims, st, dtype) ==
              HandleScalar(call, obj, curr, maxDims, st, call.fixed, call.requested, dtype)
  {
    if dtype.None? {
      assert Visit(call, obj, curr, maxDims, st, dtype) == VisitOther(call, obj, curr, maxDims, st);
      assert !IsSequence(obj, st.flags);
    }
  }

  /** A list that is no scalar, above the limit, is entered as a sequence. */
  lemma VisitList(call: Call, obj: Node, curr: nat, maxDims: int, st: State)
    requires obj.List? && curr < maxDims <= |st.shape| && curr <= |st.shape|
    ensures Visit(call, obj, curr, maxDims, st, None) == SequenceBranch(call, obj, obj.items, curr, maxDims, st)
  {
    assert Visit(call, obj, curr, maxDims, st, None) == VisitOther(call, obj, curr, maxDims, st);
    assert IsSequence(obj, st.flags);
  }

  lemma SequenceSteps(call: Call, obj: Node, items: seq<Node>, curr: nat, maxDims: int, st: State)
    requires curr <= |st.shape| && maxDims <= |st.shape|
    ensures var e := SeqEntered(call, obj, items, curr, maxDims, st);
            SequenceBranch(call, obj, items, curr, maxDims, st) ==
              if !e.0.ok then Ok(Step(e.0.maxNdim, e.1))
              else if |items| == 0 then Ok(Step(curr + 1, e.1))
              else Items(call, items, 0, curr + 1, maxDims, e.1)
  {
  }

  lemma ItemsStep(call: Call, items: seq<Node>, i: nat, depth: nat, maxDims: int, st: State)
    requires 1 <= depth <= |st.shape| && maxDims <= |st.shape| && i < |items|
    ensures var w := Recursive(call, items[i], depth, maxDims, st);
            Items(call, items, i, depth, maxDims, st) ==
              if w.Err? then Err(w.error)
              else if w.value.maxDims < 0 then Err(NoExceptionSet)
              else Items(call, items, i + 1, depth, w.value.maxDims, w.value.st)
  {
  }

  // ---------------------------------------------------------------------
  // the walk of a rectangular input

  /** A successful walk of a rectangular input visits it as nested lists:
      its extents become the shape, its lists the cache, in pre-order. */
  lemma {:induction false} WalkNest(call: Call, obj: Node, curr: nat, depth: nat, maxDims: int, st: State)
    requires Rectangular(obj) && Entry(call, curr, NestShape(obj), depth, maxDims, st)
    ensures var r := Recursive(call, obj, curr, maxDims, st);
            r.Ok? ==> Exit(st, curr, NestShape(obj), depth, PreOrder(obj), r.value)
    ensures PlainLeaves(obj, st.registry) ==> Recursive(call, obj, curr, maxDims, st).Ok?
    decreases obj, 3
  {
    if obj.Leaf? {
      LeafNest(call, obj, curr, depth, maxDims, st);
    } else {
      var st1 := ListClassified(call, obj, curr, maxDims, st);
      SequenceNest(call, obj, curr, depth, maxDims, st, st1);
    }
  }

  /** An element ends the dimensions at the total depth and changes neither
      the shape nor the cache. */
  lemma LeafNest(call: Call, obj: Node, curr: nat, depth: nat, maxDims: int, st: State)
    requires obj.Leaf? && Entry(call, curr, [], depth, maxDims, st)
    ensures var r := Recursive(call, obj, curr, maxDims, st);
            r.Ok? ==> Exit(st, curr, [], depth, [], r.value)
    ensures PlainLeaves(obj, st.registry) ==> Recursive(call, obj, curr, maxDims, st).Ok?
  {
    var c := DiscoverFromPyobject(call.env, st.registry, obj, call.fixed);
    RecursiveClassifies(call, obj, curr, maxDims, st);
    if PlainLeaves(obj, st.registry) {
      assert c.result == Ok(None);
    }
    if c.result.Ok? {
      var st1 := st.(registry := c.registry);
      VisitLeaf(call, obj, curr, maxDims, st1, c.result.value);
      var h := HandleScalar(call, obj, curr, maxDims, st1, call.fixed, call.requested, c.result.value);
      if h.Ok? {
        LeafExit(st, st1, curr, depth, maxDims, h.value);
      }
    }
  }

  lemma LeafExit(st: State, st1: State, curr: nat, depth: nat, maxDims: int, h: Step)
    requires curr == depth && depth <= maxDims <= |st.shape| && (maxDims == depth || st.shape[depth] == -1)
    requires st1 == st.(registry := st1.registry) && TypeRegistry.Shrinks(st1.registry, st.registry)
    requires !st.flags.ragged && !st.flags.reachedMaxDims && ListNotScalar(st.registry)
    requires h.maxDims == curr && h.st.flags.ragged == st1.flags.ragged
    requires h.st.flags.reachedMaxDims == st1.flags.reachedMaxDims
    requires h.st.shape == st1.shape && h.st.cache == st1.cache && h.st.registry == st1.registry
    ensures Exit(st, curr, [], depth, [], h)
  {
    assert Placed(st.shape, curr, []) == st.shape;
    assert st.cache + [] == st.cache;
  }

  /** A list is not a scalar: it is classified as none, and the registry
      only loses entries on the way. */
  lemma ListClassified(call: Call, obj: Node, curr: nat, maxDims: int, st: State) returns (st1: State)
    requires obj.List? && call.fixed.None? && ListNotScalar(st.registry)
    requires curr < maxDims <= |st.shape|
    ensures st1 == st.(registry := st1.registry) && ListNotScalar(st1.registry)
    ensures TypeRegistry.Shrinks(st1.registry, st.registry)
    ensures Recursive(call, obj, curr, maxDims, st) == SequenceBranch(call, obj, obj.items, curr, maxDims, st1)
  {
    var c := DiscoverFromPyobject(call.env, st.registry, obj, call.fixed);
    assert c.result == Ok(None);
    st1 := st.(registry := c.registry);
    RecursiveClassifies(call, obj, curr, maxDims, st);
    VisitList(call, obj, curr, maxDims, st1);
  }

  /** The sequence step of a rectangular list: it fits, so its length is
      written and its items are walked one level deeper. */
  lemma SequenceNest(call: Call, obj: Node, curr: nat, depth: nat, maxDims: int, st: State, st1: State)
    requires obj.List? && Rectangular(obj) && Entry(call, curr, NestShape(obj), depth, maxDims, st)
    requires st1 == st.(registry := st1.registry) && ListNotScalar(st1.registry)
    requires TypeRegistry.Shrinks(st1.registry, st.registry)
    ensures var r := SequenceBranch(call, obj, obj.items, curr, maxDims, st1);
            r.Ok? ==> Exit(st, curr, NestShape(obj), depth, PreOrder(obj), r.value)
    ensures PlainLeaves(obj, st.registry) ==> SequenceBranch(call, obj, obj.items, curr, maxDims, st1).Ok?
    decreases obj, 2
  {
    var items := obj.items;
    var s := NestShape(obj);
    var sub := if items == [] then [] else NestShape(items[0]);
    assert s == [|items|] + sub;
    var st2 := LengthWritten(call, obj, curr, maxDims, st, st1, s, sub);
    SequenceSteps(call, obj, items, curr, maxDims, st1);
    if items == [] {
      EmptyListExit(obj, st, st2, curr, s, depth);
    } else {
      if PlainLeaves(obj, st.registry) {
        PlainLeavesShrink(obj, st.registry, st2.registry);
      }
      ItemsFromLength(call, obj, curr, depth, maxDims, st, st2, s, sub);
    }
  }

  lemma EmptyListExit(obj: Node, st: State, st2: State, curr: nat, s: seq<nat>, depth: nat)
    requires obj.List? && obj.items == [] && s == [0] && curr + 1 == depth <= |st.shape| == |st2.shape|
    requires st2.cache == st.cache + [ListEntry(obj)]
    requires !st2.flags.ragged && !st2.flags.reachedMaxDims && ListNotScalar(st2.registry)
    requires TypeRegistry.Shrinks(st2.registry, st.registry)
    requires forall k :: 0 <= k < |st.shape| ==> st2.shape[k] == (if k == curr then 0 else st.shape[k])
    ensures Exit(st, curr, s, depth, PreOrder(obj), Step(curr + 1, st2))
  {
    PlacedOne(st.shape, st2.shape, curr, s);
    assert PreOrder(obj) == [ListEntry(obj)] + PreOrderItems(obj, 0);
  }

  /** The items of a non-empty rectangular list, walked from the state its
      length left. */
  lemma ItemsFromLength(call: Call, obj: Node, curr: nat, depth: nat, maxDims: int, st: State, st2: State,
                        s: seq<nat>, sub: seq<nat>)
    requires obj.List? && obj.items != [] && Rectangular(obj) && sub == NestShape(obj.items[0])
    requires s == [|obj.items|] + sub && Entry(call, curr, s, depth, maxDims, st)
    requires st2 == st.(shape := st2.shape, cache := st.cache + [ListEntry(obj)], registry := st2.registry)
    requires ListNotScalar(st2.registry) && TypeRegistry.Shrinks(st2.registry, st.registry) && |st2.shape| == |st.shape|
    requires forall k :: 0 <= k < |st.shape| ==> st2.shape[k] == (if k == curr then |obj.items| else st.shape[k])
    ensures var r := Items(call, obj.items, 0, curr + 1, maxDims, st2);
            r.Ok? ==> Exit(st, curr, s, depth, PreOrder(obj), r.value)
    ensures PlainLeaves(obj, st2.registry) ==> Items(call, obj.items, 0, curr + 1, maxDims, st2).Ok?
    decreases obj, 1
  {
    EnterItems(st, st2, curr, s, sub, |obj.items|);
    ItemsNest(call, obj, 0, curr + 1, depth, maxDims, st2);
    var r := Items(call, obj.items, 0, curr + 1, maxDims, st2);
    if r.Ok? {
      ListExit(obj, st, st2, r.value, curr, s, sub, depth);
    }
  }

  lemma ListExit(obj: Node, st: State, st2: State, r: Step, curr: nat, s: seq<nat>, sub: seq<nat>, depth: nat)
    requires obj.List? && s == [|obj.items|] + sub && curr + |s| <= |st.shape| == |st2.shape|
    requires st2.cache == st.cache + [ListEntry(obj)] && TypeRegistry.Shrinks(st2.registry, st.registry)
    requires forall k :: 0 <= k < |st.shape| ==> st2.shape[k] == (if k == curr then |obj.items| else st.shape[k])
    requires Exit(st2, curr + 1, sub, depth, PreOrderItems(obj, 0), r)
    ensures Exit(st, curr, s, depth, PreOrder(obj), r)
  {
    PlacedAfter(st.shape, st2.shape, r.st.shape, curr, s, sub);
    assert r.st.cache == st.cache + PreOrder(obj);
    TypeRegistry.ShrinksTransitive(r.st.registry, st2.registry, st.registry);
  }

  /** Entering a rectangular list succeeds: its length goes into dimension
      `curr` and its entry into the cache. */
  lemma LengthWritten(call: Call, obj: Node, curr: nat, maxDims: int, st: State, st1: State, s: seq<nat>, sub: seq<nat>)
    returns (st2: State)
    requires obj.List? && s == [|obj.items|] + sub && Fits(st.shape, curr, s) && curr + |s| <= maxDims <= |st.shape|
    requires st1 == st.(registry := st1.registry)
    ensures var e := SeqEntered(call, obj, obj.items, curr, maxDims, st1);
            e.0.ok && st2 == e.1
    ensures st2 == st1.(shape := st2.shape, cache := st.cache + [ListEntry(obj)])
    ensures |st2.shape| == |st.shape|
    ensures forall k :: 0 <= k < |st.shape| ==> st2.shape[k] == (if k == curr then |obj.items| else st.shape[k])
  {
    var e := SeqEntered(call, obj, obj.items, curr, maxDims, st1);
    UpdateShapeSucceeds(curr, maxDims, st1.shape, [|obj.items|], true, call.variant);
    assert Compatible(st.shape[curr + 0], s[0]);
    st2 := e.1;
  }

  lemma PlacedOne(shape: seq<int>, shape2: seq<int>, curr: nat, s: seq<nat>)
    requires |s| == 1 && curr + 1 <= |shape| == |shape2|
    requires forall k :: 0 <= k < |shape| ==> shape2[k] == (if k == curr then s[0] else shape[k])
    ensures shape2 == Placed(shape, curr, s)
  {
  }

  /** The state after the length is written fits the items' extents. */
  lemma EnterItems(st: State, st2: State, curr: nat, s: seq<nat>, sub: seq<nat>, n: nat)
    requires s == [n] + sub && Fits(st.shape, curr, s) && |st2.shape| == |st.shape|
    requires forall k :: 0 <= k < |st.shape| ==> st2.shape[k] == (if k == curr then n else st.shape[k])
    ensures Fits(st2.shape, curr + 1, sub)
  {
    forall k | 0 <= k < |sub| ensures Compatible(st2.shape[curr + 1 + k], sub[k]) {
      assert Compatible(st.shape[curr + (k + 1)], s[k + 1]);
    }
  }

  lemma PlacedAfter(shape: seq<int>, shape2: seq<int>, shape3: seq<int>, curr: nat, s: seq<nat>, sub: seq<nat>)
    requires |s| >= 1 && s == [s[0]] + sub && curr + |s| <= |shape| == |shape2|
    requires forall k :: 0 <= k < |shape| ==> shape2[k] == (if k == curr then s[0] else shape[k])
    requires shape3 == Placed(shape2, curr + 1, sub)
    ensures shape3 == Placed(shape, curr, s)
  {
    forall k | 0 <= k < |shape| ensures shape3[k] == Placed(shape, curr, s)[k] {
      if curr < k < curr + |s| {
        assert s[k - curr] == sub[k - (curr + 1)];
      }
    }
  }

  /** The loop over the items of a rectangular list from item `i` on: each
      item is walked to the total depth, and their lists are cached in turn. */
  lemma {:induction false} ItemsNest(call: Call, parent: Node, i: nat, curr: nat, depth: nat, maxDims: int, st: State)
    requires parent.List? && Rectangular(parent) && 1 <= curr && i <= |parent.items|
    requires parent.items != [] && Entry(call, curr, NestShape(parent.items[0]), depth, maxDims, st)
    requires 0 < i ==> maxDims == depth && st.shape == Placed(st.shape, curr, NestShape(parent.items[0]))
    ensures var r := Items(call, parent.items, i, curr, maxDims, st);
            r.Ok? ==> Exit(st, curr, NestShape(parent.items[0]), depth, PreOrderItems(parent, i), r.value)
    ensures PlainLeaves(parent, st.registry) ==> Items(call, parent.items, i, curr, maxDims, st).Ok?
    decreases parent, 0, |parent.items| - i
  {
    var items := parent.items;
    var s := NestShape(items[0]);
    if i == |items| {
      assert Items(call, items, i, curr, maxDims, st) == Ok(Step(maxDims, st));
      assert PreOrderItems(parent, i) == [];
      assert st.cache + [] == st.cache;
    } else {
      assert Rectangular(items[i]) && NestShape(items[i]) == s;
      WalkNest(call, items[i], curr, depth, maxDims, st);
      ItemsStep(call, items, i, curr, maxDims, st);
      var w := Recursive(call, items[i], curr, maxDims, st);
      if w.Ok? {
        var st2 := w.value.st;
        PlacedTwice(st.shape, curr, s);
        PlacedFits(st.shape, curr, s, depth, maxDims);
        if PlainLeaves(parent, st.registry) {
          PlainLeavesShrink(parent, st.registry, st2.registry);
        }
        ItemsNest(call, parent, i + 1, curr, depth, depth, st2);
        var r := Items(call, items, i + 1, curr, depth, st2);
        if r.Ok? {
          ItemsExit(st, st2, r.value, curr, s, depth, PreOrder(items[i]), PreOrderItems(parent, i + 1));
          assert PreOrderItems(parent, i) == PreOrder(items[i]) + PreOrderItems(parent, i + 1);
        }
      }
    }
  }

  lemma ItemsExit(st: State, st2: State, r: Step, curr: nat, s: seq<nat>, depth: nat,
                  first: seq<CacheEntry>, rest: seq<CacheEntry>)
    requires curr + |s| <= |st.shape|
    requires st2.shape == Placed(st.shape, curr, s) && st2.cache == st.cache + first
    requires Exit(st2, curr, s, depth, rest, r)
    requires Placed(Placed(st.shape, curr, s), curr, s) == Placed(st.shape, curr, s)
    requires TypeRegistry.Shrinks(st2.registry, st.registry)
    ensures Exit(st, curr, s, depth, first + rest, r)
  {
    TypeRegistry.ShrinksTransitive(r.st.registry, st2.registry, st.registry);
    assert st.cache + first + rest == st.cache + (first + rest);
  }

  lemma PlacedTwice(shape: seq<int>, curr: nat, s: seq<nat>)
    requires curr + |s| <= |shape|
    ensures Placed(Placed(shape, curr, s), curr, s) == Placed(shape, curr, s)
  {
  }

  /** Once the extents are in place they fit, and the dimension below them
      is untouched. */
  lemma PlacedFits(shape: seq<int>, curr: nat, s: seq<nat>, depth: nat, maxDims: int)
    requires curr + |s| == depth && depth <= maxDims <= |shape|
    requires maxDims == depth || shape[depth] == -1
    ensures Fits(Placed(shape, curr, s), curr, s)
    ensures depth < |shape| ==> Placed(shape, curr, s)[depth] == shape[depth]
  {
    var p := Placed(shape, curr, s);
    forall k | 0 <= k < |s| ensures Compatible(p[curr + k], s[k]) {
      assert p[curr + k] == s[k];
    }
  }

  /** A rectangular input no deeper than the dimension limit, discovered
      without a dtype: the walk makes it exactly as many dimensions as it is
      deep, with its extents as the shape, caches all of its lists in
      pre-order, and finds nothing ragged, so nothing is warned. */
  lemma {:induction false} DiscoversNesting(env: Env, reg: Registry, obj: Node, maxDims: nat, variant: Variant)
    requires maxDims <= MaxDims && Rectangular(obj) && |NestShape(obj)| <= maxDims && ListNotScalar(reg)
    ensures var r := DiscoverDTypeAndShape(env, reg, obj, maxDims, None, None, variant);
            r.result.Ok? ==>
              var d := r.result.value;
              && d.ndim == |NestShape(obj)|
              && (forall k :: 0 <= k < d.ndim ==> d.shape[k] == NestShape(obj)[k])
              && d.cache == PreOrder(obj)
              && !d.flags.ragged && !d.warned
    ensures PlainLeaves(obj, reg) ==> DiscoverDTypeAndShape(env, reg, obj, maxDims, None, None, variant).result.Ok?
  {
    var s := NestShape(obj);
    var st0 := State(seq(maxDims, _ => -1), None, [], InitialFlags(None), reg);
    var call := Call(env, None, None, variant);
    assert Fits(st0.shape, 0, s);
    WalkNest(call, obj, 0, |s|, maxDims, st0);
    DiscoverIsWalk(env, reg, obj, maxDims, variant, st0, call);
    var walk := Recursive(call, obj, 0, maxDims, st0);
    if walk.Ok? {
      FinishNest(call, obj, maxDims, st0, walk.value, s, PreOrder(obj));
    }
  }

  lemma DiscoverIsWalk(env: Env, reg: Registry, obj: Node, maxDims: nat, variant: Variant, st0: State, call: Call)
    requires maxDims <= MaxDims
    requires st0 == State(seq(maxDims, _ => -1), None, [], InitialFlags(None), reg)
    requires call == Call(env, None, None, variant)
    ensures var walk := Recursive(call, obj, 0, maxDims, st0);
            var r := DiscoverDTypeAndShape(env, reg, obj, maxDims, None, None, variant);
            && (walk.Err? ==> r.result.Err?)
            && (walk.Ok? && walk.value.maxDims >= 0 ==> r == Finish(call, obj, maxDims, st0, walk.value))
  {
  }

  /** Nothing ragged and no fixed DType: the walk's findings are the result. */
  lemma FinishNest(call: Call, obj: Node, maxDims: nat, st0: State, w: Step, s: seq<nat>, entries: seq<CacheEntry>)
    requires call.fixed.None? && call.requested.None? && st0.cache == [] && |s| <= maxDims == |st0.shape|
    requires Exit(st0, 0, s, |s|, entries, w)
    ensures var r := Finish(call, obj, maxDims, st0, w);
            && r.result.Ok?
            && r.result.value.ndim == |s|
            && (forall k :: 0 <= k < |s| ==> r.result.value.shape[k] == s[k])
            && r.result.value.cache == entries
            && !r.result.value.flags.ragged && !r.result.value.warned
  {
    assert [] + entries == entries;
    assert forall k :: 0 <= k < |s| ==> Placed(st0.shape, 0, s)[k] == s[k];
  }
}
