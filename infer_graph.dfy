/**
 * The values of the inference graph. Abstract values (`AVal`, here cells)
 * and types (`Prim`, `Obj`, `Fn`, `Arr` and scopes) live in two arenas and
 * refer to each other by index; a constraint is a value naming the cells and
 * types it acts on. This module holds the pure side of the graph's
 * operations: the weight rule of `addType`, the memo of `getInstance`, the
 * prototype-chain lookup of `hasProp`, leaving a prototype's subscriber list,
 * and the filters the purge applies.
 */
module InferGraph {
  import opened JsText
  import opened InferTables

  /** Something with a `propagate` method: `ANull`, an `AVal` or a type. */
  datatype Val = VNull | VCell(cell: nat) | VType(ty: nat)

  /** Something with an `addType` method: `ANull`, an `AVal`, or a constraint with the origin current when it was made. */
  datatype Target = TNull | TCell(cell: nat) | TCon(con: Con, origin: Option<string>)

  /** The constraint kinds, each with the fields its constructor takes. */
  datatype Con =
    | PropIsSubset(prop: string, target: Target)
    | PropHasSubset(prop: string, source: Val, originNode: Option<Node>)
    | ForAllProps(callback: nat)
    | IsCallee(self: Val, args: seq<Val>, retval: Target)
    | HasMethodCall(propName: string, args: seq<Val>, retval: Target)
    | IsCtor(target: Target)
    | IsProto(ctor: Option<nat>, target: Target)
    | FnPrototype(fn: nat)
    | IsAdded(other: Val, target: Target)
    | IfObj(target: Target)
    | AutoInstance(target: Target)
    | Muffle(inner: Target, weight: nat)

  /** An entry of `onNewProp`: an object that inherits from this one, or a callback of code outside the model. */
  datatype Handler = HObj(obj: nat) | HFn(callback: nat)

  /** An entry of `instances`. */
  datatype Instance = Instance(ctor: Option<nat>, instance: nat)

  /**
   * An `AVal`: its types, its forward edges (`null` until the first
   * `propagate`), its weight, its memo of property cells, its origin and
   * origin node, the purge generation that last visited it (0: none) and the
   * `maybePurge` mark.
   */
  datatype Cell = Cell(
    types: seq<nat>, forward: Option<seq<Target>>, maxWeight: nat, props: Option<map<string, nat>>,
    origin: Option<string>, originNode: Option<Node>, gen: nat, maybePurge: bool)

  const EmptyCell := Cell([], None, 0, None, None, None, 0, false)

  /** What distinguishes the type variants; a scope is an object with a `prev`. */
  datatype Kind = PrimK | ObjK | ArrK | FnK(self: Val, args: seq<Val>, argNames: seq<string>, retval: Val, arguments: Val)

  /** A type. A primitive uses only `kind`, `name` and `proto`. */
  datatype TypeRec = TypeRec(
    kind: Kind, name: Option<string>, proto: Option<nat>, props: map<string, nat>,
    maybeProps: Option<map<string, nat>>, onNewProp: Option<seq<Handler>>, instances: Option<seq<Instance>>,
    hasCtor: Option<nat>, prev: Option<nat>, origin: Option<string>, originNode: Option<Node>, gen: nat)

  /** `instanceof Obj`: everything but a primitive. */
  predicate IsObj(t: TypeRec) {
    !t.kind.PrimK?
  }

  /** An entry of the worklist: a type to deliver to a target, its weight and the depth it was queued at. */
  datatype Item = Item(ty: nat, target: Target, weight: nat, depth: nat)

  /** A call of a callback subscriber, which the model records instead of running. */
  datatype Call = Call(callback: nat, prop: string, cell: nat, local: bool)

  /** How many subscribers one `broadcastProp` tells at most. */
  const MaxSubscribers: nat := 1_000_000

  /** Every subscriber is a callback. */
  predicate AllCallbacks(hs: seq<Handler>) {
    forall i :: 0 <= i < |hs| ==> hs[i].HFn?
  }

  /** The calls telling each callback of `hs`, in order, of one property. */
  function CallsOf(hs: seq<Handler>, prop: string, cell: nat, local: bool): (r: seq<Call>)
    requires AllCallbacks(hs)
    ensures |r| == |hs|
    ensures forall i :: 0 <= i < |hs| ==> r[i] == Call(hs[i].callback, prop, cell, local)
  {
    seq(|hs|, i requires 0 <= i < |hs| => Call(hs[i].callback, prop, cell, local))
  }

  /** Telling one more callback appends its call. */
  lemma CallsOfStep(hs: seq<Handler>, i: nat, prop: string, cell: nat, local: bool)
    requires AllCallbacks(hs) && i < |hs|
    ensures AllCallbacks(hs[..i]) && AllCallbacks(hs[..i + 1])
    ensures CallsOf(hs[..i + 1], prop, cell, local) == CallsOf(hs[..i], prop, cell, local) + [Call(hs[i].callback, prop, cell, local)]
  {
  }

  predicate NoDup<T(==)>(s: seq<T>) {
    forall i, j :: 0 <= i < j < |s| ==> s[i] != s[j]
  }

  // ----- The weight rule of `addType` -------------------------------------------------

  /** Whether `addType(t, w)` records `t`: a higher weight, or the same weight and a new type. */
  predicate Records(cell: Cell, t: nat, w: nat) {
    cell.maxWeight < EffectiveWeight(w) || (cell.maxWeight == EffectiveWeight(w) && t !in cell.types)
  }

  /** The cell after `addType(t, w)`. */
  function AddedCell(cell: Cell, t: nat, w: nat): (r: Cell)
    ensures cell.maxWeight < EffectiveWeight(w) ==> r.types == [t] && r.maxWeight == EffectiveWeight(w)
    ensures cell.maxWeight == EffectiveWeight(w) && t !in cell.types ==> r.types == cell.types + [t]
    ensures !Records(cell, t, w) ==> r == cell
    ensures Records(cell, t, w) ==> r.maxWeight == EffectiveWeight(w) && t in r.types
    ensures r == cell.(types := r.types, maxWeight := r.maxWeight)
    ensures NoDup(cell.types) ==> NoDup(r.types)
  {
    var w' := EffectiveWeight(w);
    if cell.maxWeight < w' then cell.(types := [t], maxWeight := w')
    else if cell.maxWeight > w' || t in cell.types then cell
    else cell.(types := cell.types + [t])
  }

  /** A missing weight is the default weight 100. */
  lemma AddDefaultWeight(cell: Cell, t: nat)
    ensures AddedCell(cell, t, 0) == AddedCell(cell, t, WgDefault)
  {
  }

  /** Adding the same type twice at the same weight is adding it once. */
  lemma AddIdempotent(cell: Cell, t: nat, w: nat)
    ensures AddedCell(AddedCell(cell, t, w), t, w) == AddedCell(cell, t, w)
  {
  }

  /** The weight of a cell never goes down, and a lower weight is ignored. */
  lemma AddNeverLowers(cell: Cell, t: nat, w: nat)
    ensures AddedCell(cell, t, w).maxWeight >= cell.maxWeight
    ensures EffectiveWeight(w) < cell.maxWeight ==> AddedCell(cell, t, w) == cell
  {
  }

  /** Two additions give the same set of types and weight in either order. */
  lemma AddOrderIrrelevant(cell: Cell, a: nat, wa: nat, b: nat, wb: nat)
    ensures var r1 := AddedCell(AddedCell(cell, a, wa), b, wb);
            var r2 := AddedCell(AddedCell(cell, b, wb), a, wa);
            r1.maxWeight == r2.maxWeight && (set x | x in r1.types) == (set x | x in r2.types)
  {
  }

  // ----- The memo of `getInstance` ---------------------------------------------------

  /** The instance recorded for `ctor`, searching from `i` on. */
  function FindInstance(insts: seq<Instance>, ctor: Option<nat>, i: nat): (r: Option<nat>)
    ensures r.Some? ==> exists k :: i <= k < |insts| && insts[k] == Instance(ctor, r.value)
    ensures r.None? ==> forall k :: i <= k < |insts| ==> insts[k].ctor != ctor
    decreases |insts| - i
  {
    if i >= |insts| then None
    else if insts[i].ctor == ctor then Some(insts[i].instance)
    else FindInstance(insts, ctor, i + 1)
  }

  predicate UniqueCtors(insts: seq<Instance>) {
    forall i, j :: 0 <= i < j < |insts| ==> insts[i].ctor != insts[j].ctor
  }

  /**
   * Recording a new instance for a constructor that has none keeps one entry
   * per constructor, makes the lookup find it, and changes no other lookup.
   */
  lemma {:induction false} InstanceRecorded(insts: seq<Instance>, ctor: Option<nat>, x: nat, i: nat)
    requires UniqueCtors(insts) && FindInstance(insts, ctor, 0).None? && i <= |insts|
    ensures UniqueCtors(insts + [Instance(ctor, x)])
    ensures FindInstance(insts + [Instance(ctor, x)], ctor, i) == Some(x)
    ensures forall c :: c != ctor ==> FindInstance(insts + [Instance(ctor, x)], c, i) == FindInstance(insts, c, i)
    decreases |insts| - i
  {
    var ext := insts + [Instance(ctor, x)];
    if i < |insts| {
      InstanceRecorded(insts, ctor, x, i + 1);
      assert ext[i] == insts[i];
    } else {
      assert ext[i] == Instance(ctor, x);
    }
  }

  // ----- Names of new objects --------------------------------------------------------

  /** `/^(.*)\.prototype$/.exec(name)[1]`: the part before a final `.prototype`. */
  function ProtoPrefix(name: string): (r: Option<string>)
    ensures r.Some? <==> EndsWith(name, ".prototype")
    ensures r.Some? ==> r.value + ".prototype" == name
  {
    if EndsWith(name, ".prototype") then Some(name[..|name| - 10]) else None
  }

  /** The prefix of `X.prototype` is `X`. */
  lemma ProtoPrefixOf(x: string)
    ensures ProtoPrefix(x + ".prototype") == Some(x)
  {
    assert (x + ".prototype")[|x|..] == ".prototype";
    assert (x + ".prototype")[..|x|] == x;
  }

  /** A string that JavaScript reads as true: defined and non-empty. */
  predicate Truthy(s: Option<string>) {
    s.Some? && s.value != ""
  }

  /** The `proto` argument of the `Obj` constructor: `null`, `true` (for `Object.prototype`) or an object. */
  datatype ProtoArg = NoProto | DefaultProto | ProtoObj(obj: nat)

  /**
   * The name `new Obj(proto, name)` gives: without a name of its own, a
   * non-function object whose `proto` argument is an object named
   * `X.prototype` is named `X`. The `true` argument has no name, so it never
   * gives one.
   */
  function ObjName(argName: Option<string>, name: Option<string>, isFn: bool): (r: Option<string>)
    ensures Truthy(name) || isFn || !Truthy(argName) ==> r == name
    ensures !Truthy(name) && !isFn && Truthy(argName) && EndsWith(argName.value, ".prototype") ==>
      r.Some? && r.value + ".prototype" == argName.value
    ensures !EndsWith(if argName.Some? then argName.value else "", ".prototype") ==> r == name
  {
    if !isFn && !Truthy(name) && Truthy(argName) then
      match ProtoPrefix(argName.value)
      case Some(n) => Some(n)
      case None => name
    else name
  }

  // ----- `hasProp` ---------------------------------------------------------------------

  /** The own property `prop` of type `o`. */
  function OwnProp(types: seq<TypeRec>, o: nat, prop: string): Option<nat> {
    if o < |types| && prop in types[o].props then Some(types[o].props[prop]) else None
  }

  /**
   * `hasProp(prop)`: the own property, else that of the nearest type up the
   * `proto` chain. A `proto` link that is not to an earlier type ends the
   * walk; every type the model makes links only to earlier ones.
   */
  function ChainLookup(types: seq<TypeRec>, o: nat, prop: string): (r: Option<nat>)
    ensures OwnProp(types, o, prop).Some? ==> r == OwnProp(types, o, prop)
    ensures r.Some? ==> exists q :: 0 <= q <= o && q < |types| && OwnProp(types, q, prop) == r
    decreases o
  {
    if o >= |types| then None
    else if prop in types[o].props then Some(types[o].props[prop])
    else match types[o].proto
      case None => None
      case Some(p) => if p < o then ChainLookup(types, p, prop) else None
  }

  /** A lookup only depends on the properties and links of the type and the types before it. */
  lemma {:induction false} ChainLookupFrame(types: seq<TypeRec>, types': seq<TypeRec>, o: nat, prop: string)
    requires o < |types| && o < |types'|
    requires forall i :: 0 <= i <= o ==> types'[i].props == types[i].props && types'[i].proto == types[i].proto
    ensures ChainLookup(types', o, prop) == ChainLookup(types, o, prop)
    decreases o
  {
    if prop !in types[o].props && types[o].proto.Some? && types[o].proto.value < o {
      ChainLookupFrame(types, types', types[o].proto.value, prop);
    }
  }

  // ----- Leaving a prototype's subscriber list ------------------------------------------

  /** `b` is `a` with at most `maybeProps` and `onNewProp` changed. */
  predicate Kept(a: TypeRec, b: TypeRec) {
    b == a.(maybeProps := b.maybeProps, onNewProp := b.onNewProp)
  }

  /**
   * `maybeUnregProtoPropHandler()` on type `o`: an empty placeholder map
   * becomes `null`; then, unless the type has placeholders or subscribers of
   * its own, it leaves its prototype's subscriber list.
   */
  function MaybeUnreg(types: seq<TypeRec>, o: nat): (r: seq<TypeRec>)
    ensures |r| == |types|
    ensures forall i :: 0 <= i < |r| ==> Kept(types[i], r[i])
    ensures forall i :: o < i < |r| ==> r[i] == types[i]
    ensures o < |types| && types[o].maybeProps.Some? && |types[o].maybeProps.value| > 0 ==> r == types
    ensures forall i :: 0 <= i < |r| ==> r[i].maybeProps == types[i].maybeProps || r[i].maybeProps.None?
    decreases o, 0
  {
    if o >= |types| then types
    else
      var t := types[o];
      if t.maybeProps.Some? && |t.maybeProps.value| > 0 then types
      else
        var types1 := if t.maybeProps.Some? then types[o := t.(maybeProps := None)] else types;
        if t.proto.None? || (t.onNewProp.Some? && |t.onNewProp.value| > 0) then types1
        else if t.proto.value < o then Unreg(types1, t.proto.value, o)
        else types1
  }

  /** `unregPropHandler(handler)` on type `p`: removes the first `handler` from its subscribers, then the same check on `p`. */
  function Unreg(types: seq<TypeRec>, p: nat, h: nat): (r: seq<TypeRec>)
    ensures |r| == |types|
    ensures forall i :: 0 <= i < |r| ==> Kept(types[i], r[i])
    ensures forall i :: p < i < |r| ==> r[i] == types[i]
    ensures forall i :: 0 <= i < |r| ==> r[i].maybeProps == types[i].maybeProps || r[i].maybeProps.None?
    decreases p, 1
  {
    if p >= |types| then types
    else
      var t := types[p];
      var types1 := if t.onNewProp.Some? then types[p := t.(onNewProp := Some(RemoveFirst(t.onNewProp.value, HObj(h))))] else types;
      MaybeUnreg(types1, p)
  }

  /**
   * An object with no placeholders and no subscribers leaves its
   * prototype's subscriber list, once, and nothing changes below it.
   */
  lemma UnregLeavesProto(types: seq<TypeRec>, o: nat)
    requires o < |types| && types[o].proto.Some? && types[o].proto.value < o
    requires types[o].maybeProps.None? || types[o].maybeProps == Some(map[])
    requires types[o].onNewProp.None? || types[o].onNewProp == Some([])
    requires types[types[o].proto.value].onNewProp.Some?
    ensures var p := types[o].proto.value;
            MaybeUnreg(types, o)[p].onNewProp == Some(RemoveFirst(types[p].onNewProp.value, HObj(o)))
    ensures MaybeUnreg(types, o)[o] == types[o].(maybeProps := None)
  {
    var t := types[o];
    var p := t.proto.value;
    var types1 := if t.maybeProps.Some? then types[o := t.(maybeProps := None)] else types;
    assert MaybeUnreg(types, o) == Unreg(types1, p, o);
    var tp := types1[p];
    var types2 := types1[p := tp.(onNewProp := Some(RemoveFirst(tp.onNewProp.value, HObj(o))))];
    assert Unreg(types1, p, o) == MaybeUnreg(types2, p);
    assert MaybeUnreg(types2, p)[p].onNewProp == types2[p].onNewProp by {
      MaybeUnregKeepsSubscribers(types2, p);
    }
  }

  /** The check on `p` itself changes only `p`'s placeholder map, and its ancestors. */
  lemma MaybeUnregKeepsSubscribers(types: seq<TypeRec>, p: nat)
    requires p < |types|
    ensures MaybeUnreg(types, p)[p].onNewProp == types[p].onNewProp
  {
    var t := types[p];
    if !(t.maybeProps.Some? && |t.maybeProps.value| > 0) {
      var types1 := if t.maybeProps.Some? then types[p := t.(maybeProps := None)] else types;
      if !(t.proto.None? || (t.onNewProp.Some? && |t.onNewProp.value| > 0)) && t.proto.value < p {
        assert Unreg(types1, t.proto.value, p)[p] == types1[p];
      }
    }
  }

  // ----- The purge --------------------------------------------------------------------

  /** `test(type, type.originNode)` on the type at `t`; an index outside the arena never matches. */
  predicate TypeMatches(p: Pred, types: seq<TypeRec>, t: nat) {
    t < |types| && Test(p, types[t].origin, types[t].originNode)
  }

  /** The types of `ts` that do not match, in order. */
  function KeptTypes(p: Pred, types: seq<TypeRec>, ts: seq<nat>): (r: seq<nat>)
    ensures |r| <= |ts|
    decreases |ts|
  {
    if ts == [] then []
    else
      var init := KeptTypes(p, types, ts[..|ts| - 1]);
      var last := ts[|ts| - 1];
      if TypeMatches(p, types, last) then init else init + [last]
  }

  /** Exactly the types that do not match are kept, and no duplicate appears. */
  lemma {:induction false} KeptTypesMeaning(p: Pred, types: seq<TypeRec>, ts: seq<nat>)
    ensures var r := KeptTypes(p, types, ts);
      && (forall k :: 0 <= k < |r| ==> r[k] in ts && !TypeMatches(p, types, r[k]))
      && (forall k :: 0 <= k < |ts| && !TypeMatches(p, types, ts[k]) ==> ts[k] in r)
      && (NoDup(ts) ==> NoDup(r))
    decreases |ts|
  {
    if ts != [] {
      var init := ts[..|ts| - 1];
      KeptTypesMeaning(p, types, init);
      assert forall k :: 0 <= k < |init| ==> init[k] == ts[k];
      assert ts == init + [ts[|ts| - 1]];
    }
  }

  /** The origin `test(f)` reads from a forward edge. */
  function TargetOrigin(cells: seq<Cell>, f: Target): Option<string> {
    match f
    case TNull => None
    case TCell(c) => if c < |cells| then cells[c].origin else None
    case TCon(_, origin) => origin
  }

  /** `test(f)` on a forward edge: called without a position, so a predicate with a range never matches. */
  predicate TargetMatches(p: Pred, cells: seq<Cell>, f: Target) {
    Test(p, TargetOrigin(cells, f), None)
  }

  /** The forward edges of `fs` that do not match, in order. */
  function KeptForward(p: Pred, cells: seq<Cell>, fs: seq<Target>): (r: seq<Target>)
    ensures |r| <= |fs|
    decreases |fs|
  {
    if fs == [] then []
    else
      var init := KeptForward(p, cells, fs[..|fs| - 1]);
      var last := fs[|fs| - 1];
      if TargetMatches(p, cells, last) then init else init + [last]
  }

  /**
   * Exactly the edges that do not match are kept; a predicate with a range
   * removes none, since the edges are checked without a position.
   */
  lemma {:induction false} KeptForwardMeaning(p: Pred, cells: seq<Cell>, fs: seq<Target>)
    ensures var r := KeptForward(p, cells, fs);
      && (forall k :: 0 <= k < |r| ==> r[k] in fs && !TargetMatches(p, cells, r[k]))
      && (forall k :: 0 <= k < |fs| && !TargetMatches(p, cells, fs[k]) ==> fs[k] in r)
      && (p.range.Some? ==> r == fs)
    decreases |fs|
  {
    if fs != [] {
      var init := fs[..|fs| - 1];
      KeptForwardMeaning(p, cells, init);
      assert forall k :: 0 <= k < |init| ==> init[k] == fs[k];
      assert fs == init + [fs[|fs| - 1]];
    }
  }

  /** The test `markVariablesDefinedBy` applies as written: the position passed is `prop.name`, which an `AVal` does not have. */
  predicate MarkTestAsWritten(p: Pred, cell: Cell): (r: bool)
    ensures r ==> p.range.None?
    ensures p.range.None? ==> (r <==> MarkTest(p, cell))
  {
    Test(p, cell.origin, None)
  }

  /** The intended test: the cell's origin node is the position. */
  predicate MarkTest(p: Pred, cell: Cell) {
    Test(p, cell.origin, cell.originNode)
  }

  /** As written, a range never marks a variable, whatever its origin and node. */
  lemma MarkAsWrittenIgnoresRange(origins: Origins, start: int, end: int, cell: Cell)
    ensures !MarkTestAsWritten(MakePredicate(origins, start, Some(end)), cell)
  {
  }

  /** For instance a variable of `a.js` defined at 10–20, with the range 0–100 of `a.js`. */
  lemma MarkAsWrittenMisses()
    ensures var cell := EmptyCell.(origin := Some("a.js"), originNode := Some(Node(10, 20)));
            var p := MakePredicate(One("a.js"), 0, Some(100));
            !MarkTestAsWritten(p, cell) && MarkTest(p, cell)
  {
  }

  /** The intended test marks exactly the variables of the origins whose node lies in the range. */
  lemma MarkTestMeaning(origins: Origins, start: int, end: Option<int>, cell: Cell)
    ensures end.None? ==> (MarkTest(MakePredicate(origins, start, end), cell) <==> Accepts(origins, cell.origin))
    ensures end.Some? ==> (MarkTest(MakePredicate(origins, start, end), cell) <==>
      cell.originNode.Some? && cell.originNode.value.start >= start && cell.originNode.value.end <= end.value
      && Accepts(origins, cell.origin))
  {
    if end.None? {
      PredicateByOrigin(origins, start, cell.origin, cell.originNode);
    } else {
      PredicateByRange(origins, start, end.value, cell.origin, cell.originNode);
    }
  }

  /** `purgeMarkedVariables` on one scope: the variables whose cells are marked are deleted. */
  function Unmarked(props: map<string, nat>, cells: seq<Cell>): (r: map<string, nat>)
    ensures forall k :: k in r <==> k in props && !(props[k] < |cells| && cells[props[k]].maybePurge)
    ensures forall k :: k in r ==> r[k] == props[k]
  {
    map k | k in props && !(props[k] < |cells| && cells[props[k]].maybePurge) :: props[k]
  }

  /** Whether a forward edge of `fs` matches. */
  function AnyMatches(p: Pred, cells: seq<Cell>, fs: seq<Target>): bool
    decreases |fs|
  {
    fs != [] && (AnyMatches(p, cells, fs[..|fs| - 1]) || TargetMatches(p, cells, fs[|fs| - 1]))
  }

  lemma {:induction false} AnyMatchesMeaning(p: Pred, cells: seq<Cell>, fs: seq<Target>)
    ensures AnyMatches(p, cells, fs) <==> exists k :: 0 <= k < |fs| && TargetMatches(p, cells, fs[k])
    decreases |fs|
  {
    if fs != [] {
      var init := fs[..|fs| - 1];
      AnyMatchesMeaning(p, cells, init);
      assert forall k :: 0 <= k < |init| ==> init[k] == fs[k];
    }
  }

  /**
   * A cell after `AVal.purge`: the matching types and forward edges are
   * removed, a removed edge clears the memo of property cells, and the cell
   * carries the generation. `types` and `cells` are read for origins only.
   */
  function PurgedCell(p: Pred, types: seq<TypeRec>, cells: seq<Cell>, cell: Cell, g: nat): (r: Cell)
    ensures r.gen == g
    ensures |r.types| <= |cell.types| && (r.forward.Some? <==> cell.forward.Some?)
    ensures r.maxWeight == cell.maxWeight && r.origin == cell.origin && r.originNode == cell.originNode
    ensures r.maybePurge == cell.maybePurge && (r.props.Some? ==> r.props == cell.props)
  {
    var fs := Forward(cell);
    cell.(types := KeptTypes(p, types, cell.types),
          forward := if cell.forward.Some? then Some(KeptForward(p, cells, fs)) else None,
          props := if AnyMatches(p, cells, fs) then None else cell.props,
          gen := g)
  }

  /**
   * A purged cell keeps exactly the types and forward edges that do not
   * match, loses its memo when an edge went, and changes nothing else.
   */
  lemma PurgedCellMeaning(p: Pred, types: seq<TypeRec>, cells: seq<Cell>, cell: Cell, g: nat)
    ensures var r := PurgedCell(p, types, cells, cell, g);
      && r == cell.(types := r.types, forward := r.forward, props := r.props, gen := g)
      && (forall k :: 0 <= k < |r.types| ==> r.types[k] in cell.types && !TypeMatches(p, types, r.types[k]))
      && (forall k :: 0 <= k < |cell.types| && !TypeMatches(p, types, cell.types[k]) ==> cell.types[k] in r.types)
      && (r.forward.Some? <==> cell.forward.Some?)
      && (forall k :: 0 <= k < |Forward(r)| ==> Forward(r)[k] in Forward(cell) && !TargetMatches(p, cells, Forward(r)[k]))
      && (forall k :: 0 <= k < |Forward(cell)| && !TargetMatches(p, cells, Forward(cell)[k]) ==> Forward(cell)[k] in Forward(r))
      && ((exists k :: 0 <= k < |Forward(cell)| && TargetMatches(p, cells, Forward(cell)[k])) ==> r.props.None?)
      && ((forall k :: 0 <= k < |Forward(cell)| ==> !TargetMatches(p, cells, Forward(cell)[k])) ==> r.props == cell.props)
  {
    AnyMatchesMeaning(p, cells, Forward(cell));
    KeptTypesMeaning(p, types, cell.types);
    KeptForwardMeaning(p, cells, Forward(cell));
  }

  /** The purge reads the origins of cells and the origins and origin nodes of types, and changes none of them. */
  predicate SameTags(c0: seq<Cell>, t0: seq<TypeRec>, cells: seq<Cell>, types: seq<TypeRec>) {
    && |c0| == |cells| && |t0| == |types|
    && (forall i :: 0 <= i < |cells| ==> cells[i].origin == c0[i].origin)
    && (forall i :: 0 <= i < |types| ==> types[i].origin == t0[i].origin && types[i].originNode == t0[i].originNode)
  }

  /**
   * From `(ca, ta)` to `(cb, tb)` during a purge of generation `g`: a cell
   * or type that changes had not been visited; a cell becomes its purged
   * form, a type only takes the generation.
   */
  predicate PurgeStep(p: Pred, g: nat, c0: seq<Cell>, t0: seq<TypeRec>,
                      ca: seq<Cell>, ta: seq<TypeRec>, cb: seq<Cell>, tb: seq<TypeRec>) {
    && |cb| == |ca| && |tb| == |ta|
    && (forall i :: 0 <= i < |ca| ==> cb[i] == ca[i] || (ca[i].gen != g && cb[i] == PurgedCell(p, t0, c0, ca[i], g)))
    && (forall i :: 0 <= i < |ta| ==> tb[i] == ta[i] || (ta[i].gen != g && tb[i] == ta[i].(gen := g)))
  }

  /** Two steps of a purge are one. */
  lemma PurgeStepTrans(p: Pred, g: nat, c0: seq<Cell>, t0: seq<TypeRec>,
                       ca: seq<Cell>, ta: seq<TypeRec>, cb: seq<Cell>, tb: seq<TypeRec>, cc: seq<Cell>, tc: seq<TypeRec>)
    requires PurgeStep(p, g, c0, t0, ca, ta, cb, tb) && PurgeStep(p, g, c0, t0, cb, tb, cc, tc)
    ensures PurgeStep(p, g, c0, t0, ca, ta, cc, tc)
  {
    forall i | 0 <= i < |ca|
      ensures cc[i] == ca[i] || (ca[i].gen != g && cc[i] == PurgedCell(p, t0, c0, ca[i], g))
    {
      assert cb[i] == ca[i] || (ca[i].gen != g && cb[i] == PurgedCell(p, t0, c0, ca[i], g));
      assert cc[i] == cb[i] || (cb[i].gen != g && cc[i] == PurgedCell(p, t0, c0, cb[i], g));
    }
    forall i | 0 <= i < |ta|
      ensures tc[i] == ta[i] || (ta[i].gen != g && tc[i] == ta[i].(gen := g))
    {
      assert tb[i] == ta[i] || (ta[i].gen != g && tb[i] == ta[i].(gen := g));
      assert tc[i] == tb[i] || (tb[i].gen != g && tc[i] == tb[i].(gen := g));
    }
  }

  /**
   * The end of `AVal.purge` on cell `c`: from the state where `c` was only
   * marked, writing its purged form is a purge step from before the mark.
   */
  lemma PurgeStepFinish(p: Pred, g: nat, c0: seq<Cell>, t0: seq<TypeRec>,
                        ca: seq<Cell>, ta: seq<TypeRec>, cb: seq<Cell>, tb: seq<TypeRec>, c: nat,
                        kept: seq<nat>, fkept: seq<Target>, removed: bool)
    requires c < |ca| && ca[c].gen != g && c < |cb| && cb[c] == ca[c].(gen := g)
    requires PurgeStep(p, g, c0, t0, ca[c := ca[c].(gen := g)], ta, cb, tb) && SameTags(c0, t0, cb, tb)
    requires kept == KeptTypes(p, t0, ca[c].types) && fkept == KeptForward(p, c0, Forward(ca[c]))
    requires removed == AnyMatches(p, c0, Forward(ca[c]))
    ensures var v := ca[c].(types := kept, forward := if ca[c].forward.Some? then Some(fkept) else None,
                            props := if removed then None else ca[c].props, gen := g);
      && v == PurgedCell(p, t0, c0, ca[c], g)
      && PurgeStep(p, g, c0, t0, ca, ta, cb[c := v], tb) && SameTags(c0, t0, cb[c := v], tb)
  {
    var v := ca[c].(types := kept, forward := if ca[c].forward.Some? then Some(fkept) else None,
                    props := if removed then None else ca[c].props, gen := g);
    assert v == PurgedCell(p, t0, c0, ca[c], g);
    var m := ca[c := ca[c].(gen := g)];
    forall i | 0 <= i < |ca|
      ensures cb[c := v][i] == ca[i] || (ca[i].gen != g && cb[c := v][i] == PurgedCell(p, t0, c0, ca[i], g))
    {
      if i != c {
        assert m[i] == ca[i];
      }
    }
  }

  /** A purge step keeps each cell's types free of duplicates and each type well formed. */
  lemma PurgeStepKeepsArena(p: Pred, g: nat, c0: seq<Cell>, t0: seq<TypeRec>,
                            ca: seq<Cell>, ta: seq<TypeRec>, cb: seq<Cell>, tb: seq<TypeRec>)
    requires PurgeStep(p, g, c0, t0, ca, ta, cb, tb)
    requires forall i :: 0 <= i < |ca| ==> NoDup(ca[i].types)
    requires forall i :: 0 <= i < |ta| ==> TypeWf(ta[i], i)
    ensures forall i :: 0 <= i < |cb| ==> NoDup(cb[i].types)
    ensures forall i :: 0 <= i < |tb| ==> TypeWf(tb[i], i)
  {
    forall i | 0 <= i < |cb|
      ensures NoDup(cb[i].types)
    {
      if cb[i] != ca[i] {
        assert NoDup(ca[i].types);
        assert cb[i].types == KeptTypes(p, t0, ca[i].types);
        KeptTypesMeaning(p, t0, ca[i].types);
      }
    }
    forall i | 0 <= i < |tb|
      ensures TypeWf(tb[i], i)
    {
      assert TypeWf(ta[i], i);
    }
  }

  /** The cells and types a purge of generation `g` has not visited. */
  function UnvisitedCells(cells: seq<Cell>, g: nat): set<nat> {
    set i | 0 <= i < |cells| && cells[i].gen != g
  }

  function UnvisitedTypes(types: seq<TypeRec>, g: nat): set<nat> {
    set i | 0 <= i < |types| && types[i].gen != g
  }

  /** What the purge's recursion is measured by. */
  function Unvisited(cells: seq<Cell>, types: seq<TypeRec>, g: nat): nat {
    |UnvisitedCells(cells, g)| + |UnvisitedTypes(types, g)|
  }

  lemma {:induction false} SubsetCard(a: set<nat>, b: set<nat>)
    requires a <= b
    ensures |a| <= |b|
    decreases |b|
  {
    if a != {} {
      var x :| x in a;
      assert b == (b - {x}) + {x};
      assert a == (a - {x}) + {x};
      SubsetCard(a - {x}, b - {x});
    }
  }

  /** A purge step visits and never forgets. */
  lemma PurgeStepLowers(p: Pred, g: nat, c0: seq<Cell>, t0: seq<TypeRec>,
                        ca: seq<Cell>, ta: seq<TypeRec>, cb: seq<Cell>, tb: seq<TypeRec>)
    requires PurgeStep(p, g, c0, t0, ca, ta, cb, tb)
    ensures Unvisited(cb, tb, g) <= Unvisited(ca, ta, g)
  {
    assert UnvisitedCells(cb, g) <= UnvisitedCells(ca, g);
    assert UnvisitedTypes(tb, g) <= UnvisitedTypes(ta, g);
    SubsetCard(UnvisitedCells(cb, g), UnvisitedCells(ca, g));
    SubsetCard(UnvisitedTypes(tb, g), UnvisitedTypes(ta, g));
  }

  /** Marking an unvisited cell leaves one fewer to visit. */
  lemma MarkCellLowers(cells: seq<Cell>, types: seq<TypeRec>, c: nat, g: nat)
    requires c < |cells| && cells[c].gen != g
    ensures Unvisited(cells[c := cells[c].(gen := g)], types, g) < Unvisited(cells, types, g)
  {
    var before := UnvisitedCells(cells, g);
    var after := UnvisitedCells(cells[c := cells[c].(gen := g)], g);
    assert after == before - {c};
    assert before == after + {c};
  }

  /** Marking an unvisited type leaves one fewer to visit. */
  lemma MarkTypeLowers(cells: seq<Cell>, types: seq<TypeRec>, t: nat, g: nat)
    requires t < |types| && types[t].gen != g
    ensures Unvisited(cells, types[t := types[t].(gen := g)], g) < Unvisited(cells, types, g)
  {
    var before := UnvisitedTypes(types, g);
    var after := UnvisitedTypes(types[t := types[t].(gen := g)], g);
    assert after == before - {t};
    assert before == after + {t};
  }

  /** The registry after `purgeTypes`: every list loses the objects that match. */
  function PurgedRegistry(p: Pred, types: seq<TypeRec>, registry: map<string, seq<nat>>): (r: map<string, seq<nat>>)
    ensures r.Keys == registry.Keys
  {
    map k | k in registry :: KeptTypes(p, types, registry[k])
  }

  /** After the purge every list names exactly the objects of its old list that do not match. */
  lemma PurgedRegistryMeaning(p: Pred, types: seq<TypeRec>, registry: map<string, seq<nat>>, k: string)
    requires k in registry
    ensures var r := PurgedRegistry(p, types, registry);
      && (forall j :: 0 <= j < |r[k]| ==> r[k][j] in registry[k] && !TypeMatches(p, types, r[k][j]))
      && (forall j :: 0 <= j < |registry[k]| && !TypeMatches(p, types, registry[k][j]) ==> registry[k][j] in r[k])
  {
    KeptTypesMeaning(p, types, registry[k]);
  }

  // ----- Marking variables ------------------------------------------------------------

  /** The cells of the variables of the scopes from `s` outwards. */
  function ChainVars(types: seq<TypeRec>, s: nat): (r: set<nat>)
    ensures forall x :: x in ScopeChain(types, s) ==> types[x].props.Values <= r
    decreases s
  {
    if s >= |types| then {}
    else types[s].props.Values + (match types[s].prev
                                  case Some(q) => if q < s then ChainVars(types, q) else {}
                                  case None => {})
  }

  /** A cell after `markVariablesDefinedBy`, when it is a variable of the chain (`isVar`). */
  function MarkedCell(p: Pred, cell: Cell, isVar: bool): (r: Cell)
    ensures r == cell.(maybePurge := r.maybePurge)
    ensures r.maybePurge <==> cell.maybePurge || (isVar && MarkTest(p, cell))
  {
    if isVar && MarkTest(p, cell) then cell.(maybePurge := true) else cell
  }

  /** Marking twice is marking once for both reasons: the mark does not change what the test reads. */
  lemma MarkedCellTwice(p: Pred, cell: Cell, a: bool, b: bool)
    ensures MarkedCell(p, MarkedCell(p, cell, a), b) == MarkedCell(p, cell, a || b)
  {
  }

  // ----- Well-formed arenas ----------------------------------------------------------------

  /**
   * The links of the type at index `i` point to earlier types, a scope's
   * prototype is its enclosing scope, and each constructor has at most one
   * instance.
   */
  predicate TypeWf(t: TypeRec, i: nat) {
    && (t.proto.Some? ==> t.proto.value < i)
    && (t.prev.Some? ==> t.proto == t.prev)
    && (t.instances.Some? ==> UniqueCtors(t.instances.value))
  }

  /** The memo of a cell's property cells (`this.props`, empty while `null`). */
  function Memo(cell: Cell): map<string, nat> {
    if cell.props.Some? then cell.props.value else map[]
  }

  /** `v` as the target of `propagate`: propagating to `ANull` or to a type does nothing. */
  function AsTarget(v: Val): (r: Target)
    ensures Size(r) == 1
    ensures r.TCell? <==> v.VCell?
    ensures r.TCell? ==> r.cell == v.cell
  {
    match v
    case VCell(c) => TCell(c)
    case _ => TNull
  }

  /** `registerProp(prop, obj)`: `obj` is appended to the objects listed under `prop`. */
  function Registered(reg: map<string, seq<nat>>, prop: string, o: nat): (r: map<string, seq<nat>>)
    ensures r.Keys == reg.Keys + {prop}
    ensures |r[prop]| == (if prop in reg then |reg[prop]| else 0) + 1 && r[prop][|r[prop]| - 1] == o
    ensures prop in reg ==> reg[prop] <= r[prop]
    ensures forall k :: k in reg && k != prop ==> r[k] == reg[k]
  {
    reg[prop := (if prop in reg then reg[prop] else []) + [o]]
  }

  /** The worklist after `add` is called for each of `items`, at depth `d`: an item is dropped once the bound is reached. */
  function Enqueued(q: seq<Item>, d: nat, items: seq<Item>): (r: seq<Item>)
    ensures QueueOk(q) ==> QueueOk(r)
    ensures Appended(q, r, d)
    ensures |r| <= |q| + |items|
    ensures !CanEnqueue(d, |q|) ==> r == q
    decreases |items|
  {
    if items == [] then q
    else if CanEnqueue(d, |q|) then Enqueued(q + [items[0].(depth := d)], d, items[1..])
    else Enqueued(q, d, items[1..])
  }

  /** A worklist with room for all items keeps every one, in order. */
  lemma {:induction false} EnqueuedAll(q: seq<Item>, d: nat, items: seq<Item>)
    requires CanEnqueue(d, |q| + |items|)
    ensures Enqueued(q, d, items) == q + seq(|items|, k requires 0 <= k < |items| => items[k].(depth := d))
    decreases |items|
  {
    if items != [] {
      EnqueuedAll(q + [items[0].(depth := d)], d, items[1..]);
      var rest := items[1..];
      assert seq(|items|, k requires 0 <= k < |items| => items[k].(depth := d))
          == [items[0].(depth := d)] + seq(|rest|, k requires 0 <= k < |rest| => rest[k].(depth := d));
    }
  }

  // ----- Functions and scopes -----------------------------------------------------------------

  predicate IsFnAt(types: seq<TypeRec>, t: nat) {
    t < |types| && types[t].kind.FnK?
  }

  /** `getFunctionType()`: the last function among the types `ts`. */
  function LastFn(types: seq<TypeRec>, ts: seq<nat>): (r: Option<nat>)
    ensures r.Some? ==> r.value in ts && IsFnAt(types, r.value)
    ensures r.None? ==> forall k :: 0 <= k < |ts| ==> !IsFnAt(types, ts[k])
    decreases |ts|
  {
    if ts == [] then None
    else if IsFnAt(types, ts[|ts| - 1]) then Some(ts[|ts| - 1])
    else
      assert forall k :: 0 <= k < |ts| - 1 ==> ts[..|ts| - 1][k] == ts[k];
      LastFn(types, ts[..|ts| - 1])
  }

  /** No function follows the one `LastFn` picks. */
  lemma {:induction false} LastFnIsLast(types: seq<TypeRec>, ts: seq<nat>, k: nat)
    requires k < |ts| && IsFnAt(types, ts[k])
    ensures LastFn(types, ts).Some?
    ensures exists j :: k <= j < |ts| && ts[j] == LastFn(types, ts).value
    decreases |ts|
  {
    if k < |ts| - 1 && !IsFnAt(types, ts[|ts| - 1]) {
      var init := ts[..|ts| - 1];
      assert init[k] == ts[k];
      LastFnIsLast(types, init, k);
      var j :| k <= j < |init| && init[j] == LastFn(types, init).value;
      assert ts[j] == init[j];
    }
  }

  /** The scopes from `s` outwards, following `prev`. */
  function ScopeChain(types: seq<TypeRec>, s: nat): (r: set<nat>)
    ensures forall x :: x in r ==> x <= s && x < |types|
    ensures s < |types| ==> s in r
    decreases s
  {
    if s >= |types| then {}
    else {s} + (match types[s].prev
                case Some(q) => if q < s then ScopeChain(types, q) else {}
                case None => {})
  }

  /** The scope where `defVar(name)` stops: the first one defining `name`, or the outermost one. */
  function VarHome(types: seq<TypeRec>, s: nat, name: string): (h: nat)
    ensures h <= s
    decreases s
  {
    if s >= |types| || name in types[s].props || types[s].prev.None? then s
    else match types[s].proto
      case Some(p) => if p < s then VarHome(types, p, name) else s
      case None => s
  }

  /**
   * In well-formed arenas the walk of `defVar` stops at a scope that has the
   * name or has no enclosing scope, and what it finds is what a lookup
   * along the prototype chain from `s` finds.
   */
  lemma {:induction false} VarHomeMeaning(types: seq<TypeRec>, s: nat, name: string)
    requires s < |types| && forall i :: 0 <= i < |types| ==> TypeWf(types[i], i)
    ensures var h := VarHome(types, s, name);
            h < |types| && (name in types[h].props || types[h].prev.None?)
    ensures ChainLookup(types, s, name) == ChainLookup(types, VarHome(types, s, name), name)
    decreases s
  {
    if name !in types[s].props && types[s].prev.Some? {
      assert TypeWf(types[s], s);
      VarHomeMeaning(types, types[s].proto.value, name);
    }
  }

  /** Leaving a subscriber list keeps every type well formed. */
  lemma KeptWf(types: seq<TypeRec>, r: seq<TypeRec>)
    requires |r| == |types| && forall i :: 0 <= i < |r| ==> Kept(types[i], r[i])
    requires forall i :: 0 <= i < |types| ==> TypeWf(types[i], i)
    ensures forall i :: 0 <= i < |r| ==> TypeWf(r[i], i)
  {
    forall i | 0 <= i < |r|
      ensures TypeWf(r[i], i)
    {
      assert Kept(types[i], r[i]) && TypeWf(types[i], i);
    }
  }

  // ----- Helpers of the class's contracts --------------------------------------------

  /** The placeholder cell `maybeProps[prop]` of type `o`. */
  function Placeholder(types: seq<TypeRec>, o: nat, prop: string): Option<nat> {
    if o < |types| && types[o].maybeProps.Some? && prop in types[o].maybeProps.value
    then Some(types[o].maybeProps.value[prop]) else None
  }

  /** What `Obj.getProp` finds without creating anything: a property up the chain, else a placeholder. */
  function KnownProp(types: seq<TypeRec>, o: nat, prop: string): (r: Option<nat>)
    ensures ChainLookup(types, o, prop).Some? ==> r == ChainLookup(types, o, prop)
    ensures r.None? <==> ChainLookup(types, o, prop).None? && Placeholder(types, o, prop).None?
  {
    if ChainLookup(types, o, prop).Some? then ChainLookup(types, o, prop) else Placeholder(types, o, prop)
  }

  /** The cells after `defProp` finds the existing property `c`: it takes the origin node if it had none. */
  function Noted(cells: seq<Cell>, c: nat, node: Option<Node>): (r: seq<Cell>)
    ensures |r| == |cells|
    ensures forall i :: 0 <= i < |r| && i != c ==> r[i] == cells[i]
    ensures c < |r| ==> r[c] == cells[c].(originNode := r[c].originNode)
    ensures c < |r| && cells[c].originNode.Some? ==> r[c] == cells[c]
    ensures node.None? ==> r == cells
  {
    if node.Some? && c < |cells| && cells[c].originNode.None? then cells[c := cells[c].(originNode := node)] else cells
  }

  /** The forward edges of a cell, empty while `null`. */
  function Forward(cell: Cell): seq<Target> {
    if cell.forward.Some? then cell.forward.value else []
  }

  /** The items `addType(t, w)` queues: `t` to each forward edge. */
  function Deliveries(t: nat, fs: seq<Target>, w: nat): (r: seq<Item>)
    ensures |r| == |fs|
    ensures forall k :: 0 <= k < |r| ==> r[k] == Item(t, fs[k], w, 0)
  {
    seq(|fs|, k requires 0 <= k < |fs| => Item(t, fs[k], w, 0))
  }

  /** The items `propagate(f)` queues: each known type to `f`, at the cell's weight. */
  function Feeds(ts: seq<nat>, f: Target, w: nat): (r: seq<Item>)
    ensures |r| == |ts|
    ensures forall k :: 0 <= k < |r| ==> r[k] == Item(ts[k], f, w, 0)
  {
    seq(|ts|, k requires 0 <= k < |ts| => Item(ts[k], f, w, 0))
  }

  /** `propagate(target, weight)` wraps the target when the weight is below the default. */
  function Muffled(target: Target, w: nat, origin: Option<string>): (r: Target)
    ensures 0 < w < WgDefault ==> r == TCon(Muffle(target, w), origin)
    ensures w == 0 || w >= WgDefault ==> r == target
  {
    if 0 < w < WgDefault then TCon(Muffle(target, w), origin) else target
  }

  /**
   * `Math.min(weight, this.weight)` in `Muffle.addType`. A missing weight
   * (0 here) makes `Math.min` give `NaN`, which `addType` replaces by the
   * default weight.
   */
  function MuffleWeight(w: nat, cap: nat): (r: nat)
    ensures w == 0 ==> EffectiveWeight(r) == WgDefault
    ensures w > 0 ==> r <= w && r <= cap && (r == w || r == cap)
  {
    if w == 0 then 0 else if w < cap then w else cap
  }

  /** `hasType(t)` on a value: a cell that holds `t`, or the type `t` itself. */
  predicate ValHasType(cells: seq<Cell>, v: Val, t: nat) {
    match v
    case VNull => false
    case VCell(c) => c < |cells| && t in cells[c].types
    case VType(x) => x == t
  }

  // ----- Sizes and the worklist ----------------------------------------------------------

  /** A measure of a target that every constraint's inner targets are below. */
  function Size(t: Target): (r: nat)
    ensures r >= 1
  {
    match t
    case TNull => 1
    case TCell(_) => 1
    case TCon(c, _) => ConSize(c)
  }

  function ConSize(c: Con): (r: nat)
    ensures r >= 1
  {
    match c
    case PropIsSubset(_, t) => Size(t) + 1
    case PropHasSubset(_, _, _) => 2
    case ForAllProps(_) => 1
    case IsCallee(_, _, t) => Size(t) + 2
    case HasMethodCall(_, _, t) => Size(t) + 3
    case IsCtor(t) => Size(t) + 2
    case IsProto(_, t) => Size(t) + 1
    case FnPrototype(_) => 1
    case IsAdded(_, t) => Size(t) + 1
    case IfObj(t) => Size(t) + 1
    case AutoInstance(t) => Size(t) + 1
    case Muffle(t, _) => Size(t) + 1
  }

  /** Every item of the worklist passed the bound when it was queued, as the `k`-th item. */
  predicate QueueOk(q: seq<Item>) {
    forall k :: 0 <= k < |q| ==> CanEnqueue(q[k].depth, k)
  }

  /** `q` is `q0` with items of depth `d` appended. */
  predicate Appended(q0: seq<Item>, q: seq<Item>, d: nat) {
    q0 <= q && forall k :: |q0| <= k < |q| ==> q[k].depth == d
  }

  /** A worklist that passed the bound holds at most 50000 items, all below depth 20. */
  lemma QueueBound(q: seq<Item>)
    requires QueueOk(q)
    ensures |q| <= 50000
    ensures forall k :: 0 <= k < |q| ==> q[k].depth < 20
  {
    if q != [] {
      EnqueueBound(q[|q| - 1].depth, |q| - 1);
    }
    forall k | 0 <= k < |q|
      ensures q[k].depth < 20
    {
      EnqueueBound(q[k].depth, k);
    }
  }
}
