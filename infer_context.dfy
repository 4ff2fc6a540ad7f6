/**
 * The inference context (`Context` and the `cx` it installs): the arenas of
 * cells and types, the property registry, the current origin, the purge
 * generation and the worklist, with every operation of the graph that
 * changes them. Calling a constraint's `addType`, an `AVal`'s `propagate`
 * and the objects' property operations are methods of the context because
 * each of them can change any part of the graph.
 */
module Infer {
  import opened JsText
  import opened InferTables
  import opened InferGraph

  // The built-in types, in the order the context makes them.
  const ObjectProto: nat := 0
  const TopScope: nat := 1
  const ArrayProto: nat := 2
  const FunctionProto: nat := 3
  const RegExpProto: nat := 4
  const StringProto: nat := 5
  const NumberProto: nat := 6
  const BooleanProto: nat := 7
  const Str: nat := 8
  const Bool: nat := 9
  const Num: nat := 10
  const Builtins: nat := 11

  /** How deep a chain of `onProtoProp` notifications may nest; the recursion of the source is unbounded. */
  const NotifyFuel: nat := 64

  /** A primitive type: `new Prim(proto, name)`. */
  function Primitive(proto: nat, name: string): TypeRec {
    TypeRec(PrimK, Some(name), Some(proto), map[], None, None, None, None, None, None, None, 0)
  }

  /** The name of the `proto` argument of `new Obj(proto, name)`. */
  function ArgName(types: seq<TypeRec>, arg: ProtoArg): Option<string> {
    match arg
    case ProtoObj(p) => if p < |types| then types[p].name else None
    case _ => None
  }

  /** The prototype link `new Obj(proto, name)` sets: `true` stands for `Object.prototype`. */
  function ArgProto(types: seq<TypeRec>, arg: ProtoArg): Option<nat> {
    match arg
    case NoProto => None
    case DefaultProto => Some(ObjectProto)
    case ProtoObj(p) => if p < |types| then Some(p) else None
  }

  /** The record `new Obj(proto, name)` makes, for an object of the given kind, with the given origin. */
  function NewRecord(types: seq<TypeRec>, kind: Kind, arg: ProtoArg, name: Option<string>, origin: Option<string>): TypeRec {
    TypeRec(kind, ObjName(ArgName(types, arg), name, kind.FnK?), ArgProto(types, arg), map[],
            None, None, None, None, None, origin, None, 0)
  }

  /** A new object never has a name it was not given, except `X` for a prototype named `X.prototype`. */
  lemma NewRecordName(types: seq<TypeRec>, p: nat, x: string)
    requires p < |types| && types[p].name == Some(x + ".prototype")
    ensures NewRecord(types, ObjK, ProtoObj(p), None, None).name == Some(x)
    ensures NewRecord(types, ObjK, DefaultProto, None, None).name == None
    ensures NewRecord(types, FnK(VNull, [], [], VNull, VNull), ProtoObj(p), None, None).name == None
  {
    ProtoPrefixOf(x);
  }

  /** `Prim.getProp(prop)`: the property up the chain from the primitive's prototype, else `ANull`. */
  function PrimProp(types: seq<TypeRec>, t: nat, prop: string): Val
    requires t < |types|
  {
    match types[t].proto
    case None => VNull
    case Some(p) => match ChainLookup(types, p, prop)
      case Some(c) => VCell(c)
      case None => VNull
  }

  /**
   * What `getProp(prop)` on type `t` finds without making anything: a
   * primitive's answer, or a property up an object's chain.
   */
  function FoundProp(types: seq<TypeRec>, t: nat, prop: string): Option<Val> {
    if t >= |types| then None
    else if types[t].kind.PrimK? then Some(PrimProp(types, t, prop))
    else if ChainLookup(types, t, prop).Some? then Some(VCell(ChainLookup(types, t, prop).value))
    else None
  }

  /** The cells that `defProp(prop)` on type `t` can hand back without making one, its own property or its placeholder, are cells of `cells`. */
  predicate PropCellsIn(cells: seq<Cell>, types: seq<TypeRec>, t: nat, prop: string) {
    && (OwnProp(types, t, prop).Some? ==> OwnProp(types, t, prop).value < |cells|)
    && (Placeholder(types, t, prop).Some? ==> Placeholder(types, t, prop).value < |cells|)
  }

  /** Leaving placeholders and subscriber lists does not change what `getProp` finds. */
  lemma FoundPropKept(types: seq<TypeRec>, types': seq<TypeRec>, t: nat, prop: string)
    requires |types| == |types'| && forall i :: 0 <= i < |types| ==> Kept(types[i], types'[i])
    ensures FoundProp(types', t, prop) == FoundProp(types, t, prop)
  {
    if t < |types| {
      ChainLookupFrame(types, types', t, prop);
      var p := types[t].proto;
      if p.Some? && p.value < |types| {
        ChainLookupFrame(types, types', p.value, prop);
      }
    }
  }

  /** `b` has every entry of `a`, with the same value. */
  predicate MapGrows<K>(a: map<K, nat>, b: map<K, nat>) {
    forall k :: k in a ==> k in b && b[k] == a[k]
  }

  /** The kind, name and links of a type never change once it is made, and it never loses an own property. */
  predicate Stable(a: TypeRec, b: TypeRec) {
    a.kind == b.kind && a.name == b.name && a.proto == b.proto && a.prev == b.prev && MapGrows(a.props, b.props)
  }

  /**
   * A cell's weight never drops, at the same weight its types are only
   * appended to, and its forward edges and its memo of property cells only
   * grow.
   */
  predicate CellStable(a: Cell, b: Cell) {
    && (a.maxWeight < b.maxWeight || (a.maxWeight == b.maxWeight && a.types <= b.types))
    && Forward(a) <= Forward(b)
    && MapGrows(Memo(a), Memo(b))
  }

  /** The registry lists only grow. */
  predicate RegistryGrows(a: map<string, seq<nat>>, b: map<string, seq<nat>>) {
    forall k :: k in a ==> k in b && a[k] <= b[k]
  }

  /**
   * Cell `i` of `c0` is stable in `c1`. `Grew` quantifies over this
   * predicate, so the solver only looks at the cells a proof names.
   */
  predicate CellKeptAt(c0: seq<Cell>, c1: seq<Cell>, i: nat) {
    i < |c0| && i < |c1| && CellStable(c0[i], c1[i])
  }

  /** Type `i` of `t0` is stable in `t1`, as `CellKeptAt`. */
  predicate TypeKeptAt(t0: seq<TypeRec>, t1: seq<TypeRec>, i: nat) {
    i < |t0| && i < |t1| && Stable(t0[i], t1[i])
  }

  /**
   * From the arenas, registry and calls `c0`, `t0`, `r0`, `k0` to `c1`, `t1`,
   * `r1`, `k1` nothing was lost: the arenas only grew, every type and cell
   * is stable, the registry lists and the calls only grew.
   */
  predicate Grew(c0: seq<Cell>, t0: seq<TypeRec>, r0: map<string, seq<nat>>, k0: seq<Call>,
                 c1: seq<Cell>, t1: seq<TypeRec>, r1: map<string, seq<nat>>, k1: seq<Call>) {
    && |c0| <= |c1| && |t0| <= |t1|
    && (forall i :: 0 <= i < |t0| ==> TypeKeptAt(t0, t1, i))
    && (forall i :: 0 <= i < |c0| ==> CellKeptAt(c0, c1, i))
    && RegistryGrows(r0, r1) && k0 <= k1
  }

  /** `Grew` from its quantified form. */
  lemma GrewIntro(c0: seq<Cell>, t0: seq<TypeRec>, r0: map<string, seq<nat>>, k0: seq<Call>,
                  c1: seq<Cell>, t1: seq<TypeRec>, r1: map<string, seq<nat>>, k1: seq<Call>)
    requires |c0| <= |c1| && |t0| <= |t1|
    requires forall i :: 0 <= i < |t0| ==> Stable(t0[i], t1[i])
    requires forall i :: 0 <= i < |c0| ==> CellStable(c0[i], c1[i])
    requires RegistryGrows(r0, r1) && k0 <= k1
    ensures Grew(c0, t0, r0, k0, c1, t1, r1, k1)
  {
    forall i | 0 <= i < |t0|
      ensures TypeKeptAt(t0, t1, i)
    {
    }
    forall i | 0 <= i < |c0|
      ensures CellKeptAt(c0, c1, i)
    {
    }
  }

  /** A cell that was there before is stable after. */
  lemma GrewCellAt(c0: seq<Cell>, t0: seq<TypeRec>, r0: map<string, seq<nat>>, k0: seq<Call>,
                   c1: seq<Cell>, t1: seq<TypeRec>, r1: map<string, seq<nat>>, k1: seq<Call>, i: nat)
    requires Grew(c0, t0, r0, k0, c1, t1, r1, k1) && i < |c0|
    ensures i < |c1| && CellStable(c0[i], c1[i])
  {
    assert CellKeptAt(c0, c1, i);
  }

  /** A type that was there before is stable after. */
  lemma GrewTypeAt(c0: seq<Cell>, t0: seq<TypeRec>, r0: map<string, seq<nat>>, k0: seq<Call>,
                   c1: seq<Cell>, t1: seq<TypeRec>, r1: map<string, seq<nat>>, k1: seq<Call>, i: nat)
    requires Grew(c0, t0, r0, k0, c1, t1, r1, k1) && i < |t0|
    ensures i < |t1| && Stable(t0[i], t1[i])
  {
    assert TypeKeptAt(t0, t1, i);
  }

  lemma GrewRefl(c: seq<Cell>, t: seq<TypeRec>, r: map<string, seq<nat>>, k: seq<Call>)
    ensures Grew(c, t, r, k, c, t, r, k)
  {
    GrewIntro(c, t, r, k, c, t, r, k);
  }

  lemma GrewTrans(c0: seq<Cell>, t0: seq<TypeRec>, r0: map<string, seq<nat>>, k0: seq<Call>,
                  c1: seq<Cell>, t1: seq<TypeRec>, r1: map<string, seq<nat>>, k1: seq<Call>,
                  c2: seq<Cell>, t2: seq<TypeRec>, r2: map<string, seq<nat>>, k2: seq<Call>)
    requires Grew(c0, t0, r0, k0, c1, t1, r1, k1) && Grew(c1, t1, r1, k1, c2, t2, r2, k2)
    ensures Grew(c0, t0, r0, k0, c2, t2, r2, k2)
  {
    forall i | 0 <= i < |c0|
      ensures CellStable(c0[i], c2[i])
    {
      GrewCellAt(c0, t0, r0, k0, c1, t1, r1, k1, i);
      GrewCellAt(c1, t1, r1, k1, c2, t2, r2, k2, i);
    }
    forall i | 0 <= i < |t0|
      ensures Stable(t0[i], t2[i])
    {
      GrewTypeAt(c0, t0, r0, k0, c1, t1, r1, k1, i);
      GrewTypeAt(c1, t1, r1, k1, c2, t2, r2, k2, i);
    }
    GrewIntro(c0, t0, r0, k0, c2, t2, r2, k2);
  }

  /** One cell replaced by a stable successor, or one type by a stable one, loses nothing. */
  lemma GrewCell(c: seq<Cell>, t: seq<TypeRec>, r: map<string, seq<nat>>, k: seq<Call>, i: nat, cell: Cell)
    requires i < |c| && CellStable(c[i], cell)
    ensures Grew(c, t, r, k, c[i := cell], t, r, k)
  {
    GrewIntro(c, t, r, k, c[i := cell], t, r, k);
  }

  lemma GrewType(c: seq<Cell>, t: seq<TypeRec>, r: map<string, seq<nat>>, k: seq<Call>, i: nat, rec: TypeRec)
    requires i < |t| && Stable(t[i], rec)
    ensures Grew(c, t, r, k, c, t[i := rec], r, k)
  {
    GrewIntro(c, t, r, k, c, t[i := rec], r, k);
  }

  /** Appending a cell or a type, registering an object or recording a call loses nothing. */
  lemma GrewAppend(c: seq<Cell>, t: seq<TypeRec>, r: map<string, seq<nat>>, k: seq<Call>,
                   c': seq<Cell>, t': seq<TypeRec>, r': map<string, seq<nat>>, k': seq<Call>)
    requires c <= c' && t <= t' && RegistryGrows(r, r') && k <= k'
    ensures Grew(c, t, r, k, c', t', r', k')
  {
    GrewIntro(c, t, r, k, c', t', r', k');
  }

  /** The cell holds `t` as `addType(t, w)` leaves it, unless a heavier type displaced it. */
  predicate Holds(cell: Cell, t: nat, w: nat) {
    cell.maxWeight > EffectiveWeight(w) || (cell.maxWeight == EffectiveWeight(w) && t in cell.types)
  }

  /** An edge added at the end of a list is in every list that extends it. */
  lemma EdgeKept(fs: seq<Target>, f: Target, gs: seq<Target>)
    requires fs + [f] <= gs
    ensures f in gs
  {
    assert gs[|fs|] == f;
  }

  /** What a cell holds it keeps holding. */
  lemma HoldsStable(a: Cell, b: Cell, t: nat, w: nat)
    requires Holds(a, t, w) && CellStable(a, b)
    ensures Holds(b, t, w)
  {
  }

  /** A cell target is a cell of the arena. */
  predicate TargetIn(cells: seq<Cell>, target: Target) {
    target.TCell? ==> target.cell < |cells|
  }

  /** A cell value and a cell target are cells of the arena. */
  predicate InRange(cells: seq<Cell>, v: Val, target: Target) {
    (v.VCell? ==> v.cell < |cells|) && TargetIn(cells, target)
  }

  /** What `target.addType(t, w)` leaves behind: a cell target holds the type. A constraint leaves its own trace, stated by its reaction. */
  predicate Received(cells: seq<Cell>, target: Target, t: nat, w: nat) {
    target.TCell? ==> target.cell < |cells| && Holds(cells[target.cell], t, w)
  }

  /**
   * What `v.propagate(target, w)` leaves behind: a cell has the edge (muffled
   * below the default weight), a type was received by the target.
   */
  predicate Fed(cells: seq<Cell>, v: Val, target: Target, w: nat, origin: Option<string>) {
    match v
    case VNull => true
    case VCell(c) => target.TNull? || (c < |cells| && Muffled(target, w, origin) in Forward(cells[c]))
    case VType(x) => Received(cells, target, x, w)
  }

  /** What was fed stays fed while nothing is lost. */
  lemma FedKept(c0: seq<Cell>, t0: seq<TypeRec>, r0: map<string, seq<nat>>, k0: seq<Call>,
                c1: seq<Cell>, t1: seq<TypeRec>, r1: map<string, seq<nat>>, k1: seq<Call>,
                v: Val, target: Target, w: nat, origin: Option<string>)
    requires Grew(c0, t0, r0, k0, c1, t1, r1, k1) && Fed(c0, v, target, w, origin)
    ensures Fed(c1, v, target, w, origin)
  {
    match v
    case VNull =>
    case VCell(c) =>
      if !target.TNull? {
        GrewCellAt(c0, t0, r0, k0, c1, t1, r1, k1, c);
        var f := Muffled(target, w, origin);
        var i :| 0 <= i < |Forward(c0[c])| && Forward(c0[c])[i] == f;
        assert Forward(c1[c])[i] == f;
      }
    case VType(x) =>
      if target.TCell? {
        GrewCellAt(c0, t0, r0, k0, c1, t1, r1, k1, target.cell);
        HoldsStable(c0[target.cell], c1[target.cell], x, w);
      }
  }

  /** What was received stays received while nothing is lost. */
  lemma ReceivedKept(c0: seq<Cell>, t0: seq<TypeRec>, r0: map<string, seq<nat>>, k0: seq<Call>,
                     c1: seq<Cell>, t1: seq<TypeRec>, r1: map<string, seq<nat>>, k1: seq<Call>,
                     target: Target, t: nat, w: nat)
    requires Grew(c0, t0, r0, k0, c1, t1, r1, k1) && Received(c0, target, t, w)
    ensures Received(c1, target, t, w)
  {
    FedKept(c0, t0, r0, k0, c1, t1, r1, k1, VType(t), target, w, None);
  }

  /** `addType` loses nothing of the cell and leaves it holding the type. */
  lemma AddedCellStable(cell: Cell, t: nat, w: nat)
    ensures CellStable(cell, AddedCell(cell, t, w)) && Holds(AddedCell(cell, t, w), t, w)
  {
  }

  /** The constraints whose `addType` ignores anything but an object. */
  predicate NeedsObject(c: Con) {
    c.PropHasSubset? || c.ForAllProps? || c.IsProto? || c.FnPrototype? || c.IfObj? || c.AutoInstance?
  }

  /** The constraints whose `addType` ignores anything but a function. */
  predicate NeedsFunction(c: Con) {
    c.IsCallee? || c.IsCtor?
  }

  /** The keys and values of `props`, each marked `local`. */
  method Entries(props: map<string, nat>, local: bool) returns (es: seq<(string, nat, bool)>)
    ensures forall k :: k in props ==> (k, props[k], local) in es
    ensures forall e :: e in es ==> e.0 in props && props[e.0] == e.1 && e.2 == local
  {
    es := [];
    var keys := props.Keys;
    while keys != {}
      invariant keys <= props.Keys
      invariant forall k :: k in props && k !in keys ==> (k, props[k], local) in es
      invariant forall e :: e in es ==> e.0 in props && props[e.0] == e.1 && e.2 == local
      decreases keys
    {
      var k :| k in keys;
      es := es + [(k, props[k], local)];
      keys := keys - {k};
    }
  }

  class Context {
    /** The abstract values (`AVal`). */
    var cells: seq<Cell>
    /** The types; the first `Builtins` are the built-in prototypes, the top scope and the primitives. */
    var types: seq<TypeRec>
    /** `cx.props`: for each property name, the objects other than scopes that defined it, in order. */
    var registry: map<string, seq<nat>>
    var curOrigin: Option<string>
    var purgeGen: nat
    /** Whether a worklist is running (`cx.workList` is set), its items, and the depth `add` queues at. */
    var inWork: bool
    var queue: seq<Item>
    var depth: nat
    /** The calls of callback subscribers, in order: code outside the model runs them. */
    var calls: seq<Call>

    ghost predicate Wf()
      reads this
    {
      && |types| >= Builtins
      && (forall i :: 0 <= i < |cells| ==> NoDup(cells[i].types))
      && (forall i :: 0 <= i < |types| ==> TypeWf(types[i], i))
    }

    ghost predicate Valid()
      reads this
    {
      Wf() && QueueOk(queue) && (!inWork ==> queue == [] && depth == 0)
    }

    /**
     * What every operation of the graph keeps: validity, whether a worklist
     * runs and its depth, a worklist that only grows at that depth, arenas
     * that only grow, types that keep their kind, name, links and
     * properties, cells that keep their weight, types, edges and memo as
     * `CellStable` says, registry lists and recorded calls that only grow,
     * the origin and the purge generation.
     */
    twostate predicate Cascade()
      reads this
    {
      && Valid() && inWork == old(inWork) && depth == old(depth) && Appended(old(queue), queue, depth)
      && Grew(old(cells), old(types), old(registry), old(calls), cells, types, registry, calls)
      && curOrigin == old(curOrigin) && purgeGen == old(purgeGen)
    }

    /**
     * `new Context()` without definitions: `Object.prototype`, the top scope,
     * the other built-in prototypes and the three primitives, made while the
     * origin is `ecma5`; then the origin is cleared.
     */
    constructor ()
      ensures Valid() && !inWork && queue == [] && calls == [] && cells == [] && registry == map[]
      ensures curOrigin.None? && purgeGen == 0 && |types| == Builtins
      ensures types[ObjectProto].proto.None? && types[ObjectProto].name == Some("Object.prototype")
      ensures types[TopScope].proto == Some(ObjectProto) && types[TopScope].prev.None? && types[TopScope].name == Some("<top>")
      ensures forall i :: ArrayProto <= i <= BooleanProto ==> types[i].kind.ObjK? && types[i].proto == Some(ObjectProto)
      ensures types[Str] == Primitive(StringProto, "string") && types[Bool] == Primitive(BooleanProto, "bool")
      ensures types[Num] == Primitive(NumberProto, "number")
      ensures forall i :: 0 <= i < Str ==> types[i].props == map[] && types[i].origin == Some("ecma5")
    {
      var o := TypeRec(ObjK, None, None, map[], None, None, None, None, None, Some("ecma5"), None, 0);
      cells := [];
      types := [
        o.(name := Some("Object.prototype")),
        o.(proto := Some(ObjectProto), name := Some("<top>")),
        o.(proto := Some(ObjectProto), name := Some("Array.prototype")),
        o.(proto := Some(ObjectProto), name := Some("Function.prototype")),
        o.(proto := Some(ObjectProto), name := Some("RegExp.prototype")),
        o.(proto := Some(ObjectProto), name := Some("String.prototype")),
        o.(proto := Some(ObjectProto), name := Some("Number.prototype")),
        o.(proto := Some(ObjectProto), name := Some("Boolean.prototype")),
        Primitive(StringProto, "string"), Primitive(BooleanProto, "bool"), Primitive(NumberProto, "number")];
      registry := map[];
      curOrigin := None;
      purgeGen := 0;
      inWork := false;
      queue := [];
      depth := 0;
      calls := [];
    }

    // ----- Making cells and types ---------------------------------------------------------

    /** `new AVal()`. */
    method NewCell() returns (c: nat)
      requires Wf()
      modifies this`cells
      ensures Wf() && c == old(|cells|) && cells == old(cells) + [EmptyCell]
      ensures Grew(old(cells), types, registry, calls, cells, types, registry, calls)
    {
      c := |cells|;
      cells := cells + [EmptyCell];
    }

    /** `new Obj(proto, name)` (also for an array or a scope, by `kind`), with the current origin. */
    method NewObj(kind: Kind, arg: ProtoArg, name: Option<string>) returns (o: nat)
      requires Wf()
      modifies this`types
      ensures Wf() && o == old(|types|) && types == old(types) + [NewRecord(old(types), kind, arg, name, curOrigin)]
      ensures Grew(cells, old(types), registry, calls, cells, types, registry, calls)
    {
      o := |types|;
      types := types + [NewRecord(types, kind, arg, name, curOrigin)];
    }

    /** `new Fn(name, self, args, argNames, retval)`: an object inheriting from `Function.prototype`. */
    method NewFn(name: Option<string>, self: Val, args: seq<Val>, argNames: seq<string>, retval: Val) returns (f: nat)
      requires Wf()
      modifies this`types
      ensures Wf() && f == old(|types|) && |types| == f + 1 && types[..f] == old(types)
      ensures types[f].kind == FnK(self, args, argNames, retval, VNull) && types[f].name == name
      ensures types[f].proto == Some(FunctionProto) && types[f].props == map[] && types[f].origin == curOrigin
    {
      f := NewObj(FnK(self, args, argNames, retval, VNull), ProtoObj(FunctionProto), name);
    }

    /** `new Scope(prev)`: an object whose prototype and `prev` are the enclosing scope, or `Object.prototype` at the top. */
    method NewScope(prev: Option<nat>) returns (s: nat)
      requires Wf() && (prev.Some? ==> prev.value < |types|)
      modifies this`types
      ensures Wf() && s == old(|types|) && |types| == s + 1 && types[..s] == old(types)
      ensures types[s].prev == prev && types[s].proto == (if prev.Some? then prev else Some(ObjectProto))
      ensures types[s].kind.ObjK? && types[s].props == map[]
    {
      var arg := if prev.Some? then ProtoObj(prev.value) else DefaultProto;
      s := NewObj(ObjK, arg, None);
      types := types[s := types[s].(prev := prev)];
    }

    /** `registerProp(prop, obj)`. */
    method RegisterProp(prop: string, o: nat)
      modifies this`registry
      ensures registry == Registered(old(registry), prop, o)
    {
      var list := if prop in registry then registry[prop] else [];
      registry := registry[prop := list + [o]];
    }

    // ----- The worklist ---------------------------------------------------------------------

    /** `add` called for each of `items`: each is queued at the current depth while the bound allows. */
    method AddAll(items: seq<Item>)
      requires QueueOk(queue)
      modifies this`queue
      ensures queue == Enqueued(old(queue), depth, items) && QueueOk(queue)
    {
      var i := 0;
      while i < |items|
        invariant 0 <= i <= |items|
        invariant Enqueued(queue, depth, items[i..]) == Enqueued(old(queue), depth, items)
      {
        assert items[i..][1..] == items[i + 1..];
        if CanEnqueue(depth, |queue|) {
          queue := queue + [items[i].(depth := depth)];
        }
        i := i + 1;
      }
    }

    /**
     * `withWorklist(f)`, where `f` adds `items`: inside a running worklist
     * they are queued; otherwise a worklist starts with them and runs until
     * it is empty.
     */
    method Run(items: seq<Item>)
      requires Valid()
      modifies this
      ensures Cascade()
      ensures old(inWork) ==> queue == Enqueued(old(queue), depth, items)
      ensures old(inWork) ==> cells == old(cells) && types == old(types) && registry == old(registry) && calls == old(calls)
      decreases if inWork then 0 else 1, 1, 0, 0, 0
    {
      if inWork {
        AddAll(items);
      } else {
        inWork := true;
        AddAll(items);
        ghost var processed, parent := Drain();
      }
    }

    /**
     * The loop of `withWorklist`: the items are delivered in order, and what
     * a delivery queues is one level deeper than the item delivered. The
     * ghost results are every item processed and the index of the item whose
     * delivery queued it (-1 for the first ones).
     */
    method Drain() returns (ghost processed: seq<Item>, ghost parent: seq<int>)
      requires Wf() && inWork && depth == 0 && QueueOk(queue)
      requires forall k :: 0 <= k < |queue| ==> queue[k].depth == 0
      modifies this
      ensures Valid() && !inWork
      ensures Grew(old(cells), old(types), old(registry), old(calls), cells, types, registry, calls)
      ensures curOrigin == old(curOrigin) && purgeGen == old(purgeGen)
      ensures old(queue) <= processed && |processed| <= 50000 && |parent| == |processed|
      ensures forall k :: 0 <= k < |processed| ==>
        (k < old(|queue|) && parent[k] == -1 && processed[k].depth == 0)
        || (0 <= parent[k] < k && processed[k].depth == processed[parent[k]].depth + 1)
      decreases 1, 0, 0, 0, 0
    {
      parent := seq(|queue|, k => -1);
      GrewRefl(cells, types, registry, calls);
      var i := 0;
      while i < |queue|
        invariant inWork && Wf() && QueueOk(queue) && i <= |queue|
        invariant old(queue) <= queue && |parent| == |queue|
        invariant forall k :: 0 <= k < |queue| ==>
          (k < old(|queue|) && parent[k] == -1 && queue[k].depth == 0)
          || (0 <= parent[k] < k && queue[k].depth == queue[parent[k]].depth + 1)
        invariant Grew(old(cells), old(types), old(registry), old(calls), cells, types, registry, calls)
        invariant curOrigin == old(curOrigin) && purgeGen == old(purgeGen)
        decreases 50000 - i
      {
        QueueBound(queue);
        var it := queue[i];
        depth := it.depth + 1;
        ghost var q0 := queue;
        ghost var c1, t1, r1, k1 := cells, types, registry, calls;
        TargetAddType(it.target, it.ty, it.weight);
        GrewTrans(old(cells), old(types), old(registry), old(calls), c1, t1, r1, k1, cells, types, registry, calls);
        parent := parent + seq(|queue| - |q0|, _ => i);
        i := i + 1;
      }
      QueueBound(queue);
      processed := queue;
      inWork := false;
      queue := [];
      depth := 0;
    }

    // ----- Abstract values ------------------------------------------------------------------

    /** `AVal.addType(t, w)`: the weight rule, then `t` goes to every forward edge at the effective weight. */
    method CellAddType(c: nat, t: nat, w: nat)
      requires Valid()
      modifies this
      ensures Cascade()
      ensures c >= old(|cells|) || !Records(old(cells)[c], t, w) ==> unchanged(this)
      ensures c < old(|cells|) ==> Holds(cells[c], t, w)
      ensures old(inWork) && c < old(|cells|) ==>
        && cells == old(cells)[c := AddedCell(old(cells)[c], t, w)]
        && types == old(types) && registry == old(registry) && calls == old(calls)
        && queue == Enqueued(old(queue), depth,
             if Records(old(cells)[c], t, w) && old(cells)[c].forward.Some?
             then Deliveries(t, Forward(old(cells)[c]), EffectiveWeight(w)) else [])
      decreases if inWork then 0 else 1, 2, 0, 0, 0
    {
      if c >= |cells| || !Records(cells[c], t, w) {
        if c < |cells| {
          AddedCellStable(cells[c], t, w);
        }
        return;
      }
      var cell := cells[c];
      AddedCellStable(cell, t, w);
      GrewCell(cells, types, registry, calls, c, AddedCell(cell, t, w));
      cells := cells[c := AddedCell(cell, t, w)];
      if cell.forward.Some? {
        ghost var c1, t1, r1, k1 := cells, types, registry, calls;
        Run(Deliveries(t, cell.forward.value, EffectiveWeight(w)));
        GrewTrans(old(cells), old(types), old(registry), old(calls), c1, t1, r1, k1, cells, types, registry, calls);
        GrewCellAt(c1, t1, r1, k1, cells, types, registry, calls, c);
        HoldsStable(c1[c], cells[c], t, w);
      }
    }

    /**
     * `AVal.propagate(target, w)`: `ANull` is ignored; a weight below the
     * default wraps the target in a `Muffle`; the edge is recorded and every
     * known type goes along it at the cell's weight.
     */
    method CellPropagate(c: nat, target: Target, w: nat)
      requires Valid()
      modifies this
      ensures Cascade()
      ensures c >= old(|cells|) || target.TNull? ==> unchanged(this)
      ensures c < old(|cells|) && !target.TNull? ==> Forward(old(cells)[c]) + [Muffled(target, w, curOrigin)] <= Forward(cells[c])
      ensures old(inWork) && c < old(|cells|) && !target.TNull? ==>
        var f := Muffled(target, w, curOrigin);
        && cells == old(cells)[c := old(cells)[c].(forward := Some(Forward(old(cells)[c]) + [f]))]
        && types == old(types) && registry == old(registry) && calls == old(calls)
        && queue == Enqueued(old(queue), depth, Feeds(old(cells)[c].types, f, old(cells)[c].maxWeight))
      decreases if inWork then 0 else 1, 2, 0, 0, 0
    {
      if c >= |cells| || target.TNull? {
        return;
      }
      var f := Muffled(target, w, curOrigin);
      var cell := cells[c];
      GrewCell(cells, types, registry, calls, c, cell.(forward := Some(Forward(cell) + [f])));
      cells := cells[c := cell.(forward := Some(Forward(cell) + [f]))];
      if |cell.types| > 0 {
        ghost var c1, t1, r1, k1 := cells, types, registry, calls;
        Run(Feeds(cell.types, f, cell.maxWeight));
        GrewTrans(old(cells), old(types), old(registry), old(calls), c1, t1, r1, k1, cells, types, registry, calls);
        GrewCellAt(c1, t1, r1, k1, cells, types, registry, calls, c);
      }
    }

    /**
     * `AVal.getProp(prop)`: `ANull` for `__proto__` and `✖`; the memoised
     * cell; or a new cell, memoised, fed by a `PropIsSubset` edge.
     */
    method CellGetProp(c: nat, prop: string) returns (r: Val)
      requires Valid()
      modifies this
      ensures Cascade() && !r.VType?
      ensures prop == "__proto__" || prop == "✖" || c >= old(|cells|) ==> r == VNull && unchanged(this)
      ensures c < old(|cells|) && prop != "__proto__" && prop != "✖" && prop in Memo(old(cells)[c]) ==>
        r == VCell(Memo(old(cells)[c])[prop]) && unchanged(this)
      ensures c < old(|cells|) && prop != "__proto__" && prop != "✖" && prop !in Memo(old(cells)[c]) ==>
        r == VCell(old(|cells|))
      ensures c < old(|cells|) && prop != "__proto__" && prop != "✖" ==>
        r.VCell? && prop in Memo(cells[c]) && Memo(cells[c])[prop] == r.cell
      ensures old(inWork) && c < old(|cells|) && prop != "__proto__" && prop != "✖" && prop !in Memo(old(cells)[c]) ==>
        && |cells| == old(|cells|) + 1 && cells[r.cell] == EmptyCell
        && cells[c] == old(cells)[c].(props := Some(Memo(old(cells)[c])[prop := r.cell]),
                                     forward := Some(Forward(old(cells)[c]) + [TCon(PropIsSubset(prop, TCell(r.cell)), curOrigin)]))
      decreases if inWork then 0 else 1, 3, 0, 0, 0
    {
      if prop == "__proto__" || prop == "✖" || c >= |cells| {
        return VNull;
      }
      var memo := Memo(cells[c]);
      if prop in memo {
        return VCell(memo[prop]);
      }
      var found := NewCell();
      GrewCell(cells, types, registry, calls, c, cells[c].(props := Some(memo[prop := found])));
      cells := cells[c := cells[c].(props := Some(memo[prop := found]))];
      ghost var c1, t1, r1, k1 := cells, types, registry, calls;
      CellPropagate(c, TCon(PropIsSubset(prop, TCell(found)), curOrigin), 0);
      GrewTrans(old(cells), old(types), old(registry), old(calls), c1, t1, r1, k1, cells, types, registry, calls);
      GrewCellAt(c1, t1, r1, k1, cells, types, registry, calls, c);
      r := VCell(found);
    }

    /** Two `getProp` calls for the same name on the same cell, outside or inside a worklist, give the same value. */
    method GetPropRepeats(c: nat, prop: string) returns (a: Val, b: Val)
      requires Valid()
      modifies this
      ensures Cascade() && a == b
    {
      a := CellGetProp(c, prop);
      b := CellGetProp(c, prop);
    }

    /** `AVal.forAllProps(cb)`: a `ForAllProps` edge. */
    method CellForAllProps(c: nat, cb: nat)
      requires Valid()
      modifies this
      ensures Cascade()
      ensures c >= old(|cells|) ==> unchanged(this)
      ensures c < old(|cells|) ==> Forward(old(cells)[c]) + [TCon(ForAllProps(cb), curOrigin)] <= Forward(cells[c])
      ensures old(inWork) && c < old(|cells|) ==>
        cells == old(cells)[c := old(cells)[c].(forward := Some(Forward(old(cells)[c]) + [TCon(ForAllProps(cb), curOrigin)]))]
      decreases if inWork then 0 else 1, 3, 0, 0, 0
    {
      CellPropagate(c, TCon(ForAllProps(cb), curOrigin), 0);
    }

    /** `AVal.getFunctionType()`: the last function among the cell's types. */
    method GetFunctionType(c: nat) returns (r: Option<nat>)
      ensures c >= |cells| ==> r.None?
      ensures c < |cells| ==> r == LastFn(types, cells[c].types)
    {
      if c >= |cells| {
        return None;
      }
      var ts := cells[c].types;
      var i := |ts|;
      assert ts[..i] == ts;
      while i > 0
        invariant 0 <= i <= |ts|
        invariant LastFn(types, ts) == LastFn(types, ts[..i])
      {
        if IsFnAt(types, ts[i - 1]) {
          return Some(ts[i - 1]);
        }
        assert ts[..i][..i - 1] == ts[..i - 1];
        i := i - 1;
      }
      return None;
    }

    /** The summary of a type that `canonicalType` looks at; `getProp('<i>')` of an array is read without making a placeholder. */
    function Summarize(t: nat): Summary
      reads this
    {
      if t >= |types| then SObj(false)
      else match types[t].kind
        case PrimK => SPrim(if types[t].name.Some? then types[t].name.value else "")
        case ArrK => SArr(match OwnProp(types, t, "<i>")
                          case Some(e) => !(e < |cells| && |cells[e].types| > 0)
                          case None => true)
        case FnK(_, args, _, retval, _) => SFn(Filled(args), !ValEmpty(retval))
        case ObjK => SObj(Truthy(types[t].name))
    }

    /** `isEmpty()` on a value. */
    predicate ValEmpty(v: Val)
      reads this
    {
      match v
      case VNull => true
      case VCell(c) => !(c < |cells| && |cells[c].types| > 0)
      case VType(_) => false
    }

    /** The number of arguments whose values are not empty. */
    function Filled(args: seq<Val>): nat
      reads this
      decreases |args|
    {
      if args == [] then 0 else Filled(args[..|args| - 1]) + (if ValEmpty(args[|args| - 1]) then 0 else 1)
    }

    function Summaries(ts: seq<nat>): (r: seq<Summary>)
      reads this
      ensures |r| == |ts| && forall k :: 0 <= k < |ts| ==> r[k] == Summarize(ts[k])
    {
      seq(|ts|, k requires 0 <= k < |ts| reads this => Summarize(ts[k]))
    }

    /**
     * `AVal.getType(false)`: nothing for an empty cell, the only type, or the
     * type `canonicalType` picks: one of several of the same kind (and the
     * same primitive), with a score no other beats.
     */
    method GetType(c: nat) returns (r: Option<nat>)
      ensures c >= |cells| || cells[c].types == [] ==> r.None?
      ensures c < |cells| && |cells[c].types| == 1 ==> r == Some(cells[c].types[0])
      ensures r.Some? ==> c < |cells| && r.value in cells[c].types
      ensures c < |cells| && |cells[c].types| > 1 && r.Some? ==>
        SameKind(Summaries(cells[c].types)) && PrimsAgree(Summaries(cells[c].types))
      ensures c < |cells| && |cells[c].types| > 1 && SameKind(Summaries(cells[c].types)) && PrimsAgree(Summaries(cells[c].types)) ==>
        r.Some?
      ensures c < |cells| && |cells[c].types| > 1 && r.Some? ==>
        forall k :: 0 <= k < |cells[c].types| ==> Score(Summarize(cells[c].types[k])) <= Score(Summarize(r.value))
    {
      if c >= |cells| || cells[c].types == [] {
        return None;
      }
      var ts := cells[c].types;
      if |ts| == 1 {
        return Some(ts[0]);
      }
      var idx := CanonicalType(Summaries(ts));
      if idx.Some? {
        r := Some(ts[idx.value]);
      } else {
        r := None;
      }
    }

    // ----- Objects: lookups and instances ---------------------------------------------------

    /** `Obj.hasProp(prop, searchProto)`: the own property, or, searching, the nearest one up the chain. */
    method HasProp(o: nat, prop: string, searchProto: bool) returns (r: Option<nat>)
      ensures searchProto ==> r == ChainLookup(types, o, prop)
      ensures !searchProto ==> r == OwnProp(types, o, prop)
    {
      if o >= |types| {
        return None;
      }
      r := OwnProp(types, o, prop);
      if !searchProto {
        return;
      }
      var cur: nat := o;
      var p := types[o].proto;
      while r.None? && p.Some? && p.value < cur
        invariant cur < |types| && p == types[cur].proto && r == OwnProp(types, cur, prop)
        invariant r.Some? ==> ChainLookup(types, o, prop) == r
        invariant r.None? ==> ChainLookup(types, o, prop) == ChainLookup(types, cur, prop)
        decreases cur
      {
        cur := p.value;
        r := OwnProp(types, cur, prop);
        p := types[cur].proto;
      }
    }

    /**
     * `getInstance(obj, ctor)`: the instance memoised for the constructor (by
     * default the object's `hasCtor`), or a new object inheriting from `obj`,
     * named after the constructor, with `obj`'s origin, which is memoised.
     */
    method GetInstance(o: nat, ctor: Option<nat>) returns (r: nat)
      requires Wf() && o < |types|
      modifies this`types
      ensures Wf()
      ensures var c := if ctor.Some? then ctor else old(types[o]).hasCtor;
              var insts := if old(types[o]).instances.Some? then old(types[o]).instances.value else [];
              && (FindInstance(insts, c, 0).Some? ==> r == FindInstance(insts, c, 0).value && types == old(types))
              && (FindInstance(insts, c, 0).None? ==>
                    && r == old(|types|)
                    && types == old(types)[o := old(types[o]).(instances := Some(insts + [Instance(c, r)]))]
                       + [NewRecord(old(types), ObjK, ProtoObj(o),
                                    if c.Some? && c.value < old(|types|) then old(types[c.value]).name else None,
                                    old(types[o]).origin)])
              && types[o].instances.Some? && FindInstance(types[o].instances.value, c, 0) == Some(r)
    {
      var t := types[o];
      var c := if ctor.Some? then ctor else t.hasCtor;
      var insts := if t.instances.Some? then t.instances.value else [];
      var i := 0;
      while i < |insts|
        invariant 0 <= i <= |insts|
        invariant FindInstance(insts, c, 0) == FindInstance(insts, c, i)
      {
        if insts[i].ctor == c {
          return insts[i].instance;
        }
        i := i + 1;
      }
      var name := if c.Some? && c.value < |types| then types[c.value].name else None;
      r := |types|;
      InstanceRecorded(insts, c, r, 0);
      types := types[o := t.(instances := Some(insts + [Instance(c, r)]))]
               + [NewRecord(types, ObjK, ProtoObj(o), name, t.origin)];
    }

    /** The own properties of `o` and then of each type up its chain, the own ones marked local. */
    method ChainEntries(o: nat) returns (es: seq<(string, nat, bool)>)
      requires o < |types|
      ensures forall k :: k in types[o].props ==> (k, types[o].props[k], true) in es
      ensures forall e :: e in es && e.2 ==> e.0 in types[o].props && types[o].props[e.0] == e.1
    {
      es := Entries(types[o].props, true);
      var cur: nat := o;
      var p := types[o].proto;
      while p.Some? && p.value < cur
        invariant cur < |types| && p == types[cur].proto
        invariant forall k :: k in types[o].props ==> (k, types[o].props[k], true) in es
        invariant forall e :: e in es && e.2 ==> e.0 in types[o].props && types[o].props[e.0] == e.1
        decreases cur
      {
        cur := p.value;
        var more := Entries(types[cur].props, false);
        es := es + more;
        p := types[cur].proto;
      }
    }

    // ----- Objects: defining properties ---------------------------------------------------

    /**
     * `delete this.maybeProps[prop]` and `maybeUnregProtoPropHandler()`: the
     * placeholder for the name is taken out, and an object left with no
     * placeholders and no subscribers leaves its prototype's subscribers.
     */
    method TakePlaceholder(o: nat, prop: string) returns (ph: Option<nat>)
      requires Wf() && o < |types|
      modifies this`types
      ensures Wf() && |types| == old(|types|)
      ensures ph == Placeholder(old(types), o, prop) && Placeholder(types, o, prop).None?
      ensures forall i :: 0 <= i < |types| ==> Kept(old(types[i]), types[i])
      ensures Grew(cells, old(types), registry, calls, cells, types, registry, calls)
      ensures ph.None? ==> types == old(types)
    {
      ph := Placeholder(types, o, prop);
      if ph.Some? {
        var t := types[o];
        var types1 := types[o := t.(maybeProps := Some(t.maybeProps.value - {prop}))];
        types := MaybeUnreg(types1, o);
        KeptWf(types1, types);
        forall i | 0 <= i < |types|
          ensures Stable(old(types[i]), types[i])
        {
          assert Kept(old(types[i]), types[i]);
        }
      }
    }

    /**
     * The part of `Obj.defProp` on the object itself. An own property is
     * returned, taking `originNode` if it had none; `__proto__` and `✖` give
     * `ANull`; otherwise the name gets a property (see `AddOwn`).
     */
    method DefineOwn(o: nat, prop: string, originNode: Option<Node>) returns (r: Val, isNew: bool)
      requires Wf()
      modifies this`cells, this`types, this`registry
      ensures Wf() && |types| == old(|types|)
      ensures Grew(old(cells), old(types), old(registry), calls, cells, types, registry, calls)
      ensures o >= old(|types|) ==> r == VNull && !isNew && unchanged(this)
      ensures OwnProp(old(types), o, prop).Some? ==>
        && r == VCell(OwnProp(old(types), o, prop).value) && !isNew
        && cells == Noted(old(cells), r.cell, originNode) && types == old(types) && registry == old(registry)
      ensures OwnProp(old(types), o, prop).Some? && originNode.None? ==> unchanged(this)
      ensures o < old(|types|) && OwnProp(old(types), o, prop).None? && (prop == "__proto__" || prop == "✖") ==>
        r == VNull && !isNew && unchanged(this)
      ensures o < old(|types|) && OwnProp(old(types), o, prop).None? && prop != "__proto__" && prop != "✖" ==>
        isNew && r.VCell? && r.cell == (if Placeholder(old(types), o, prop).Some? then Placeholder(old(types), o, prop).value else old(|cells|))
      ensures o < old(|types|) && prop != "__proto__" && prop != "✖" ==> r.VCell? && OwnProp(types, o, prop) == Some(r.cell)
      ensures registry == (if isNew && old(types[o]).prev.None? then Registered(old(registry), prop, o) else old(registry))
      ensures isNew && Placeholder(old(types), o, prop).None? ==> |cells| == old(|cells|) + 1
    {
      if o >= |types| {
        return VNull, false;
      }
      if prop in types[o].props {
        var f := types[o].props[prop];
        if originNode.Some? {
          cells := Noted(cells, f, originNode);
        }
        return VCell(f), false;
      }
      if prop == "__proto__" || prop == "✖" {
        return VNull, false;
      }
      var av := AddOwn(o, prop, originNode);
      return VCell(av), true;
    }

    /**
     * A new own property: the placeholder for the name, taken out, or a new
     * cell, with the given origin node and the current origin; an object
     * that is not a scope is listed under the name.
     */
    method AddOwn(o: nat, prop: string, originNode: Option<Node>) returns (av: nat)
      requires Wf() && o < |types| && prop !in types[o].props
      modifies this`cells, this`types, this`registry
      ensures Wf() && |types| == old(|types|)
      ensures Grew(old(cells), old(types), old(registry), calls, cells, types, registry, calls)
      ensures types[o].props == old(types[o]).props[prop := av] && Placeholder(types, o, prop).None?
      ensures Placeholder(old(types), o, prop).Some? ==> av == Placeholder(old(types), o, prop).value && |cells| == old(|cells|)
      ensures Placeholder(old(types), o, prop).None? ==> av == old(|cells|) && |cells| == old(|cells|) + 1
      ensures av < |cells| ==> cells[av].originNode == originNode && cells[av].origin == curOrigin
      ensures registry == (if old(types[o]).prev.None? then Registered(old(registry), prop, o) else old(registry))
    {
      var prev := types[o].prev;
      var ph := TakePlaceholder(o, prop);
      if ph.Some? {
        av := ph.value;
      } else {
        av := NewCell();
      }
      PutProp(o, prop, av);
      if av < |cells| {
        MarkCell(av, originNode);
      }
      if prev.None? {
        RegisterProp(prop, o);
      }
    }

    /** `this.props[prop] = av`. */
    method PutProp(o: nat, prop: string, av: nat)
      requires Wf() && o < |types| && prop !in types[o].props
      modifies this`types
      ensures Wf() && types == old(types)[o := old(types[o]).(props := old(types[o]).props[prop := av])]
      ensures Grew(cells, old(types), registry, calls, cells, types, registry, calls)
    {
      GrewType(cells, types, registry, calls, o, types[o].(props := types[o].props[prop := av]));
      types := types[o := types[o].(props := types[o].props[prop := av])];
    }

    /** The new property cell `av` takes the origin node and the current origin. */
    method MarkCell(av: nat, originNode: Option<Node>)
      requires Wf() && av < |cells|
      modifies this`cells
      ensures Wf() && cells == old(cells)[av := old(cells[av]).(originNode := originNode, origin := curOrigin)]
      ensures Grew(old(cells), types, registry, calls, cells, types, registry, calls)
    {
      GrewCell(cells, types, registry, calls, av, cells[av].(originNode := originNode, origin := curOrigin));
      cells := cells[av := cells[av].(originNode := originNode, origin := curOrigin)];
    }

    // ----- Objects: the notification group -------------------------------------------------
    //
    // These methods call each other through the subscriber lists. A chain of
    // `onProtoProp` notifications spends one unit of `fuel` per object.

    /** One subscriber told of a property: an object's `onProtoProp`, or a callback the model records. */
    method NotifyHandler(h: Handler, prop: string, cell: nat, local: bool, fuel: nat)
      requires Valid()
      modifies this
      ensures Cascade()
      ensures h.HFn? ==>
        && calls == old(calls) + [Call(h.callback, prop, cell, local)]
        && cells == old(cells) && types == old(types) && registry == old(registry) && queue == old(queue)
      ensures h.HObj? && fuel == 0 ==> unchanged(this)
      decreases if inWork then 0 else 1, 4, fuel, 0, 0
    {
      match h
      case HObj(x) =>
        if fuel > 0 {
          OnProtoProp(x, prop, cell, fuel - 1);
        }
      case HFn(f) =>
        calls := calls + [Call(f, prop, cell, local)];
    }

    /**
     * `broadcastProp(prop, val, local)` after the registration: the
     * subscriber list is read afresh on every turn, so a subscriber that
     * joins while the news passes on is told as well (at most
     * `MaxSubscribers` are told). When every subscriber is a callback, each
     * is called once, in order, and nothing else changes.
     */
    method BroadcastProp(o: nat, prop: string, cell: nat, local: bool, fuel: nat)
      requires Valid()
      modifies this
      ensures Cascade()
      ensures o >= old(|types|) || old(types[o]).onNewProp.None? ==> unchanged(this)
      ensures o < old(|types|) && old(types[o]).onNewProp.Some? && AllCallbacks(old(types[o]).onNewProp.value)
              && |old(types[o]).onNewProp.value| <= MaxSubscribers ==>
        && calls == old(calls) + CallsOf(old(types[o]).onNewProp.value, prop, cell, local)
        && cells == old(cells) && types == old(types) && registry == old(registry) && queue == old(queue)
      decreases if inWork then 0 else 1, 4, fuel, 1, 0
    {
      if o >= |types| || types[o].onNewProp.None? {
        return;
      }
      ghost var hs0 := types[o].onNewProp.value;
      GrewRefl(cells, types, registry, calls);
      var i := 0;
      while i < MaxSubscribers && o < |types| && types[o].onNewProp.Some? && i < |types[o].onNewProp.value|
        invariant Valid() && inWork == old(inWork) && depth == old(depth) && Appended(old(queue), queue, depth)
        invariant Grew(old(cells), old(types), old(registry), old(calls), cells, types, registry, calls)
        invariant curOrigin == old(curOrigin) && purgeGen == old(purgeGen)
        invariant AllCallbacks(hs0) ==>
          && i <= |hs0| && calls == old(calls) + CallsOf(hs0[..i], prop, cell, local)
          && cells == old(cells) && types == old(types) && registry == old(registry) && queue == old(queue)
        decreases MaxSubscribers - i
      {
        var h := types[o].onNewProp.value[i];
        ghost var c1, t1, r1, k1 := cells, types, registry, calls;
        NotifyHandler(h, prop, cell, local, fuel);
        GrewTrans(old(cells), old(types), old(registry), old(calls), c1, t1, r1, k1, cells, types, registry, calls);
        if AllCallbacks(hs0) {
          CallsOfStep(hs0, i, prop, cell, local);
        }
        i := i + 1;
      }
      if AllCallbacks(hs0) && |hs0| <= MaxSubscribers {
        assert hs0[..|hs0|] == hs0;
      }
    }

    /**
     * `Obj.defProp(prop, originNode)`: the own part, then a new property is
     * announced to the subscribers. The result is the existing property, or
     * the placeholder for the name, or a new cell.
     */
    method ObjDefProp(o: nat, prop: string, originNode: Option<Node>, fuel: nat) returns (r: Val)
      requires Valid()
      modifies this
      ensures Cascade() && !r.VType?
      ensures o >= old(|types|) ==> r == VNull && unchanged(this)
      ensures OwnProp(old(types), o, prop).Some? ==>
        && r == VCell(OwnProp(old(types), o, prop).value)
        && cells == Noted(old(cells), r.cell, originNode)
        && types == old(types) && registry == old(registry) && queue == old(queue) && calls == old(calls)
      ensures OwnProp(old(types), o, prop).Some? && originNode.None? ==> unchanged(this)
      ensures o < old(|types|) && OwnProp(old(types), o, prop).None? && (prop == "__proto__" || prop == "✖") ==>
        r == VNull && unchanged(this)
      ensures o < old(|types|) && OwnProp(old(types), o, prop).None? && prop != "__proto__" && prop != "✖" ==>
        r == VCell(if Placeholder(old(types), o, prop).Some? then Placeholder(old(types), o, prop).value else old(|cells|))
      ensures o < old(|types|) && prop != "__proto__" && prop != "✖" ==> r.VCell? && OwnProp(types, o, prop) == Some(r.cell)
      ensures o < old(|types|) && OwnProp(old(types), o, prop).None? && prop != "__proto__" && prop != "✖" && old(types[o]).prev.None? ==>
        prop in registry && Registered(old(registry), prop, o)[prop] <= registry[prop]
      ensures o < old(|types|) && OwnProp(old(types), o, prop).None? && prop != "__proto__" && prop != "✖" && Placeholder(old(types), o, prop).None? ==>
        old(|cells|) < |cells|
      decreases if inWork then 0 else 1, 4, fuel, 2, 0
    {
      var isNew;
      r, isNew := DefineOwn(o, prop, originNode);
      if isNew {
        ghost var c1, t1, r1, k1 := cells, types, registry, calls;
        BroadcastProp(o, prop, r.cell, true, fuel);
        GrewTrans(old(cells), old(types), old(registry), old(calls), c1, t1, r1, k1, cells, types, registry, calls);
        GrewTypeAt(c1, t1, r1, k1, cells, types, registry, calls, o);
      }
    }

    /**
     * `Fn.defProp(prop)`: the origin node is dropped. A `prototype` found up
     * the chain is returned; a new one takes the function's origin and is
     * fed a `FnPrototype` edge.
     */
    method FnDefProp(f: nat, prop: string, fuel: nat) returns (r: Val)
      requires Valid()
      modifies this
      ensures Cascade() && !r.VType?
      ensures prop == "prototype" && ChainLookup(old(types), f, prop).Some? ==>
        r == VCell(ChainLookup(old(types), f, prop).value) && unchanged(this)
      ensures prop != "prototype" && OwnProp(old(types), f, prop).Some? ==>
        r == VCell(OwnProp(old(types), f, prop).value) && unchanged(this)
      ensures f < old(|types|) && prop != "__proto__" && prop != "✖" ==> r.VCell?
      ensures f < old(|types|) && OwnProp(old(types), f, prop).None? && (prop == "prototype" ==> ChainLookup(old(types), f, prop).None?)
              && prop != "__proto__" && prop != "✖" ==>
        r == VCell(if Placeholder(old(types), f, prop).Some? then Placeholder(old(types), f, prop).value else old(|cells|))
      ensures f < old(|types|) && prop != "__proto__" && prop != "✖" ==>
        r.VCell? && (if prop == "prototype" && ChainLookup(old(types), f, prop).Some? then ChainLookup(types, f, prop) else OwnProp(types, f, prop)) == Some(r.cell)
      ensures prop == "prototype" && f < old(|types|) && ChainLookup(old(types), f, prop).None? && Placeholder(old(types), f, prop).None? ==>
        r.cell < |cells| && TCon(FnPrototype(f), curOrigin) in Forward(cells[r.cell])
      ensures f < old(|types|) && OwnProp(old(types), f, prop).None? && (prop == "prototype" ==> ChainLookup(old(types), f, prop).None?)
              && prop != "__proto__" && prop != "✖" && Placeholder(old(types), f, prop).None? ==>
        old(|cells|) < |cells|
      decreases if inWork then 0 else 1, 4, fuel, 3, 0
    {
      if prop == "prototype" {
        var found := HasProp(f, prop, true);
        if found.Some? {
          return VCell(found.value);
        }
        var origin := if f < |types| then types[f].origin else None;
        r := ObjDefProp(f, prop, None, fuel);
        if r.VCell? && r.cell < |cells| {
          ghost var c1, t1, r1, k1 := cells, types, registry, calls;
          SetOrigin(r.cell, origin);
          GrewTrans(old(cells), old(types), old(registry), old(calls), c1, t1, r1, k1, cells, types, registry, calls);
          ghost var c2, t2, r2, k2 := cells, types, registry, calls;
          CellPropagate(r.cell, TCon(FnPrototype(f), curOrigin), 0);
          GrewTrans(old(cells), old(types), old(registry), old(calls), c2, t2, r2, k2, cells, types, registry, calls);
          GrewTypeAt(c2, t2, r2, k2, cells, types, registry, calls, f);
          EdgeKept(Forward(c2[r.cell]), TCon(FnPrototype(f), curOrigin), Forward(cells[r.cell]));
        }
        return;
      }
      r := ObjDefProp(f, prop, None, fuel);
    }

    /** `found.origin = this.origin`. */
    method SetOrigin(c: nat, origin: Option<string>)
      requires Wf() && c < |cells|
      modifies this`cells
      ensures Wf() && cells == old(cells)[c := old(cells)[c].(origin := origin)]
      ensures Grew(old(cells), types, registry, calls, cells, types, registry, calls)
    {
      GrewCell(cells, types, registry, calls, c, cells[c].(origin := origin));
      cells := cells[c := cells[c].(origin := origin)];
    }

    /** `defProp` on an object of any kind. */
    method TypeDefProp(t: nat, prop: string, originNode: Option<Node>, fuel: nat) returns (r: Val)
      requires Valid()
      modifies this
      ensures Cascade() && !r.VType?
      ensures OwnProp(old(types), t, prop).Some? ==> r == VCell(OwnProp(old(types), t, prop).value)
      ensures t < old(|types|) && IsObj(old(types[t])) && prop != "__proto__" && prop != "✖" ==> r.VCell?
      ensures t < old(|types|) && IsObj(old(types[t])) && prop != "__proto__" && prop != "✖"
              && !(old(types[t]).kind.FnK? && prop == "prototype" && OwnProp(old(types), t, prop).None? && ChainLookup(old(types), t, prop).Some?) ==>
        OwnProp(types, t, prop) == Some(r.cell)
      ensures t < old(|types|) && IsObj(old(types[t])) && prop != "__proto__" && prop != "✖"
              && !(old(types[t]).kind.FnK? && prop == "prototype" && ChainLookup(old(types), t, prop).Some?)
              && OwnProp(old(types), t, prop).None? && Placeholder(old(types), t, prop).None? ==>
        old(|cells|) < |cells|
      ensures t < old(|types|) && IsObj(old(types[t])) && prop != "__proto__" && prop != "✖"
              && !(old(types[t]).kind.FnK? && prop == "prototype" && ChainLookup(old(types), t, prop).Some?)
              && OwnProp(old(types), t, prop).None? ==>
        r == VCell(if Placeholder(old(types), t, prop).Some? then Placeholder(old(types), t, prop).value else old(|cells|))
      decreases if inWork then 0 else 1, 4, fuel, 4, 0
    {
      if t < |types| && types[t].kind.FnK? {
        r := FnDefProp(t, prop, fuel);
      } else {
        r := ObjDefProp(t, prop, originNode, fuel);
      }
    }

    /** `new Arr()`: an object inheriting from `Array.prototype`, with its element property `<i>`. */
    method NewArr(fuel: nat) returns (a: nat)
      requires Valid()
      modifies this
      ensures Cascade() && a == old(|types|) && a < |types|
      ensures types[a].kind.ArrK? && types[a].proto == Some(ArrayProto)
      ensures OwnProp(types, a, "<i>").Some?
      decreases if inWork then 0 else 1, 4, fuel, 3, 0
    {
      a := NewObj(ArrK, ProtoObj(ArrayProto), None);
      ghost var c1, t1, r1, k1 := cells, types, registry, calls;
      var content := ObjDefProp(a, "<i>", None, fuel);
      GrewTrans(old(cells), old(types), old(registry), old(calls), c1, t1, r1, k1, cells, types, registry, calls);
      GrewTypeAt(c1, t1, r1, k1, cells, types, registry, calls, a);
    }

    /**
     * `Obj.forAllProps(h)`: on its first subscriber the object subscribes to
     * its prototype; `h` joins the subscribers and is told of every property
     * up the chain, the object's own as local.
     */
    method ObjForAllProps(o: nat, h: Handler, fuel: nat)
      requires Valid()
      modifies this
      ensures Cascade()
      ensures o >= old(|types|) ==> unchanged(this)
      ensures o < old(|types|) && h.HFn? ==>
        && types[o].onNewProp.Some? && |types[o].onNewProp.value| > 0
        && types[o].onNewProp.value[|types[o].onNewProp.value| - 1] == h
        && forall k :: k in types[o].props ==> Call(h.callback, k, types[o].props[k], true) in calls
      decreases if inWork then 0 else 1, 4, fuel, 5, 2 * o + 1
    {
      if o >= |types| {
        return;
      }
      GrewRefl(cells, types, registry, calls);
      if types[o].onNewProp.None? {
        StartSubscribers(o, fuel);
      }
      ghost var c2, t2, r2, k2 := cells, types, registry, calls;
      AddSubscriber(o, h);
      GrewTrans(old(cells), old(types), old(registry), old(calls), c2, t2, r2, k2, cells, types, registry, calls);
      ghost var c3, t3, r3, k3 := cells, types, registry, calls;
      TellEntries(o, h, fuel);
      GrewTrans(old(cells), old(types), old(registry), old(calls), c3, t3, r3, k3, cells, types, registry, calls);
    }

    /** The first subscriber of `forAllProps`: the list starts empty and the object subscribes to its prototype. */
    method StartSubscribers(o: nat, fuel: nat)
      requires Valid() && o < |types| && types[o].onNewProp.None?
      modifies this
      ensures Cascade()
      decreases if inWork then 0 else 1, 4, fuel, 5, 2 * o
    {
      GrewType(cells, types, registry, calls, o, types[o].(onNewProp := Some([])));
      types := types[o := types[o].(onNewProp := Some([]))];
      var p := types[o].proto;
      if p.Some? && p.value < o {
        ghost var c1, t1, r1, k1 := cells, types, registry, calls;
        ObjForAllProps(p.value, HObj(o), fuel);
        GrewTrans(old(cells), old(types), old(registry), old(calls), c1, t1, r1, k1, cells, types, registry, calls);
      }
    }

    /** `this.onNewProp.push(h)`. */
    method AddSubscriber(o: nat, h: Handler)
      requires Valid() && o < |types|
      modifies this`types
      ensures Valid()
      ensures types == old(types)[o := old(types)[o].(onNewProp := Some((if old(types)[o].onNewProp.Some? then old(types)[o].onNewProp.value else []) + [h]))]
      ensures Grew(cells, old(types), registry, calls, cells, types, registry, calls)
    {
      var subs := if types[o].onNewProp.Some? then types[o].onNewProp.value else [];
      GrewType(cells, types, registry, calls, o, types[o].(onNewProp := Some(subs + [h])));
      types := types[o := types[o].(onNewProp := Some(subs + [h]))];
    }

    /** The loop of `forAllProps`: `h` is told of every property up the chain, the object's own as local. */
    method TellEntries(o: nat, h: Handler, fuel: nat)
      requires Valid() && o < |types|
      modifies this
      ensures Cascade()
      ensures h.HFn? ==> types == old(types) && forall k :: k in types[o].props ==> Call(h.callback, k, types[o].props[k], true) in calls
      decreases if inWork then 0 else 1, 4, fuel, 1, 0
    {
      var entries := ChainEntries(o);
      GrewRefl(cells, types, registry, calls);
      var i := 0;
      while i < |entries|
        invariant i <= |entries| && o < |types|
        invariant Valid() && inWork == old(inWork) && depth == old(depth) && Appended(old(queue), queue, depth)
        invariant curOrigin == old(curOrigin) && purgeGen == old(purgeGen)
        invariant Grew(old(cells), old(types), old(registry), old(calls), cells, types, registry, calls)
        invariant h.HFn? ==> types == old(types)
        invariant h.HFn? ==> forall j :: 0 <= j < i ==> Call(h.callback, entries[j].0, entries[j].1, entries[j].2) in calls
      {
        ghost var c1, t1, r1, k1 := cells, types, registry, calls;
        NotifyHandler(h, entries[i].0, entries[i].1, entries[i].2, fuel);
        GrewTrans(old(cells), old(types), old(registry), old(calls), c1, t1, r1, k1, cells, types, registry, calls);
        i := i + 1;
      }
      if h.HFn? {
        forall k | k in types[o].props
          ensures Call(h.callback, k, types[o].props[k], true) in calls
        {
          var j :| 0 <= j < |entries| && entries[j] == (k, types[o].props[k], true);
        }
      }
    }

    /**
     * `Obj.getProp(prop)`: a property up the chain, else the placeholder for
     * the name; else, on the first placeholder the object subscribes to its
     * prototype, and a new placeholder cell is made.
     */
    method ObjGetProp(o: nat, prop: string, fuel: nat) returns (r: Val)
      requires Valid()
      modifies this
      ensures Cascade() && !r.VType?
      ensures o >= old(|types|) ==> r == VNull && unchanged(this)
      ensures KnownProp(old(types), o, prop).Some? ==> r == VCell(KnownProp(old(types), o, prop).value) && unchanged(this)
      ensures o < old(|types|) && KnownProp(old(types), o, prop).None? ==>
        r.VCell? && old(|cells|) <= r.cell < |cells| && Placeholder(types, o, prop) == Some(r.cell)
      ensures o < old(|types|) ==> KnownProp(types, o, prop).Some?
      decreases if inWork then 0 else 1, 4, fuel, 7, 0
    {
      if o >= |types| {
        return VNull;
      }
      var found := HasProp(o, prop, true);
      if found.None? {
        found := Placeholder(types, o, prop);
      }
      if found.Some? {
        return VCell(found.value);
      }
      r := NewPlaceholder(o, prop, fuel);
    }

    /** The end of `Obj.getProp`: on the first placeholder the object subscribes to its prototype; a new placeholder cell. */
    method NewPlaceholder(o: nat, prop: string, fuel: nat) returns (r: Val)
      requires Valid() && o < |types|
      modifies this
      ensures Cascade()
      ensures r.VCell? && old(|cells|) <= r.cell < |cells| && Placeholder(types, o, prop) == Some(r.cell)
      decreases if inWork then 0 else 1, 4, fuel, 6, 1
    {
      GrewRefl(cells, types, registry, calls);
      if types[o].maybeProps.None? {
        StartPlaceholders(o, fuel);
      }
      ghost var c2, t2, r2, k2 := cells, types, registry, calls;
      var c := NewCell();
      ghost var c3, t3, r3, k3 := cells, types, registry, calls;
      var m := if types[o].maybeProps.Some? then types[o].maybeProps.value else map[];
      PutPlaceholders(o, m[prop := c]);
      GrewTrans(c2, t2, r2, k2, c3, t3, r3, k3, cells, types, registry, calls);
      GrewTrans(old(cells), old(types), old(registry), old(calls), c2, t2, r2, k2, cells, types, registry, calls);
      r := VCell(c);
    }

    /** The first placeholder of `getProp`: the object subscribes to its prototype and its placeholder map starts empty. */
    method StartPlaceholders(o: nat, fuel: nat)
      requires Valid() && o < |types|
      modifies this
      ensures Cascade()
      decreases if inWork then 0 else 1, 4, fuel, 6, 0
    {
      GrewRefl(cells, types, registry, calls);
      var p := types[o].proto;
      if p.Some? && p.value < o {
        ObjForAllProps(p.value, HObj(o), fuel);
      }
      ghost var c1, t1, r1, k1 := cells, types, registry, calls;
      PutPlaceholders(o, map[]);
      GrewTrans(old(cells), old(types), old(registry), old(calls), c1, t1, r1, k1, cells, types, registry, calls);
    }

    /** `this.maybeProps = m`. */
    method PutPlaceholders(o: nat, m: map<string, nat>)
      requires Wf() && o < |types|
      modifies this`types
      ensures Wf() && types == old(types)[o := old(types)[o].(maybeProps := Some(m))]
      ensures Grew(cells, old(types), registry, calls, cells, types, registry, calls)
    {
      GrewType(cells, types, registry, calls, o, types[o].(maybeProps := Some(m)));
      types := types[o := types[o].(maybeProps := Some(m))];
    }

    /**
     * `Fn.getProp(prop)`: `prototype`, when the chain has none, is defined
     * and fed a made-up prototype object named after the function, at the
     * low weight 10; any other name is looked up as on an object.
     */
    method FnGetProp(f: nat, prop: string, fuel: nat) returns (r: Val)
      requires Valid()
      modifies this
      ensures Cascade() && !r.VType?
      ensures prop == "prototype" && ChainLookup(old(types), f, prop).Some? ==>
        r == VCell(ChainLookup(old(types), f, prop).value) && unchanged(this)
      ensures prop == "prototype" && f < old(|types|) ==> r.VCell?
      ensures prop != "prototype" && KnownProp(old(types), f, prop).Some? ==>
        r == VCell(KnownProp(old(types), f, prop).value) && unchanged(this)
      ensures prop != "prototype" && f < old(|types|) ==> r.VCell? && KnownProp(types, f, prop).Some?
      ensures prop == "prototype" && f < old(|types|) ==> ChainLookup(types, f, prop) == Some(r.cell)
      ensures prop == "prototype" && f < old(|types|) && ChainLookup(old(types), f, prop).None? ==>
        && OwnProp(types, f, prop) == Some(r.cell)
        && (Placeholder(old(types), f, prop).None? ==> r.cell < |cells|)
      decreases if inWork then 0 else 1, 4, fuel, 8, 0
    {
      if prop == "prototype" {
        var known := HasProp(f, prop, true);
        if known.Some? {
          return VCell(known.value);
        }
        if f >= |types| {
          return VNull;
        }
        r := MadeUpPrototype(f, fuel);
        return;
      }
      r := ObjGetProp(f, prop, fuel);
    }

    /**
     * A function without a `prototype`: the property is defined and fed, at
     * the low weight 10, a new object named `F.prototype` after the function
     * `F`, with the function's origin.
     */
    method MadeUpPrototype(f: nat, fuel: nat) returns (r: Val)
      requires Valid() && f < |types| && ChainLookup(types, f, "prototype").None?
      modifies this
      ensures Cascade()
      ensures r == VCell(if Placeholder(old(types), f, "prototype").Some? then Placeholder(old(types), f, "prototype").value else old(|cells|))
      ensures ChainLookup(types, f, "prototype") == Some(r.cell) && OwnProp(types, f, "prototype") == Some(r.cell)
      ensures Placeholder(old(types), f, "prototype").None? ==> r.cell < |cells|
      ensures r.cell < |cells| ==>
        exists p: nat :: old(|types|) <= p < |types| && types[p].kind.ObjK?
          && types[p].name == (if Truthy(old(types[f]).name) then Some(old(types[f]).name.value + ".prototype") else old(types[f]).name)
          && Holds(cells[r.cell], p, WgMadeupProto)
      decreases if inWork then 0 else 1, 4, fuel, 7, 1
    {
      var name := types[f].name;
      var origin := types[f].origin;
      r := FnDefProp(f, "prototype", fuel);
      ghost var c1, t1, r1, k1 := cells, types, registry, calls;
      FeedPrototype(r.cell, if Truthy(name) then Some(name.value + ".prototype") else name, origin);
      GrewTrans(old(cells), old(types), old(registry), old(calls), c1, t1, r1, k1, cells, types, registry, calls);
      GrewTypeAt(c1, t1, r1, k1, cells, types, registry, calls, f);
    }

    /** The made-up prototype object, with the function's origin, fed to the `prototype` cell `c` at weight `WgMadeupProto`. */
    method FeedPrototype(c: nat, name: Option<string>, origin: Option<string>)
      requires Valid()
      modifies this
      ensures Cascade()
      ensures c < |cells| ==>
        exists p: nat :: old(|types|) <= p < |types| && types[p].kind.ObjK? && types[p].name == name
          && Holds(cells[c], p, WgMadeupProto)
      decreases if inWork then 0 else 1, 4, 0, 7, 0
    {
      var proto := NewPrototype(name, origin);
      ghost var c3, t3, r3, k3 := cells, types, registry, calls;
      CellAddType(c, proto, WgMadeupProto);
      GrewTrans(old(cells), old(types), old(registry), old(calls), c3, t3, r3, k3, cells, types, registry, calls);
      GrewTypeAt(c3, t3, r3, k3, cells, types, registry, calls, proto);
      if c < |cells| {
        assert c < |c3|;
      }
    }

    /** `new Obj(true, name)` with the given origin: an object inheriting from `Object.prototype`. */
    method NewPrototype(name: Option<string>, origin: Option<string>) returns (p: nat)
      requires Wf()
      modifies this`types
      ensures Wf() && p == old(|types|) && types == old(types) + [NewRecord(old(types), ObjK, DefaultProto, name, curOrigin).(origin := origin)]
      ensures Grew(cells, old(types), registry, calls, cells, types, registry, calls)
    {
      p := NewObj(ObjK, DefaultProto, name);
      ghost var t1 := types;
      types := types[p := types[p].(origin := origin)];
      GrewType(cells, t1, registry, calls, p, t1[p].(origin := origin));
      GrewTrans(cells, old(types), registry, calls, cells, t1, registry, calls, cells, types, registry, calls);
    }

    /** `getProp(prop)` on a type: a primitive asks its prototype and makes nothing. */
    method TypeGetProp(t: nat, prop: string, fuel: nat) returns (r: Val)
      requires Valid()
      modifies this
      ensures Cascade() && !r.VType?
      ensures t >= old(|types|) ==> r == VNull && unchanged(this)
      ensures t < old(|types|) && old(types[t]).kind.PrimK? ==> r == PrimProp(old(types), t, prop) && unchanged(this)
      ensures t < old(|types|) && IsObj(old(types[t])) ==> r.VCell?
      ensures t < old(|types|) && IsObj(old(types[t])) && !(old(types[t]).kind.FnK? && prop == "prototype")
              && KnownProp(old(types), t, prop).Some? ==>
        r == VCell(KnownProp(old(types), t, prop).value) && unchanged(this)
      ensures t < old(|types|) && IsObj(old(types[t])) && ChainLookup(old(types), t, prop).Some? ==>
        r == VCell(ChainLookup(old(types), t, prop).value) && unchanged(this)
      decreases if inWork then 0 else 1, 4, fuel, 9, 0
    {
      if t >= |types| {
        return VNull;
      }
      match types[t].kind
      case PrimK =>
        var p := types[t].proto;
        if p.Some? {
          var found := HasProp(p.value, prop, true);
          if found.Some? {
            return VCell(found.value);
          }
        }
        return VNull;
      case FnK(_, _, _, _, _) =>
        r := FnGetProp(t, prop, fuel);
      case _ =>
        r := ObjGetProp(t, prop, fuel);
    }

    /**
     * `onProtoProp(prop, val)`: a placeholder for the name leaves the object,
     * which may leave its prototype's subscribers, and the prototype's
     * property feeds it; then the news passes on.
     */
    method OnProtoProp(o: nat, prop: string, cell: nat, fuel: nat)
      requires Valid()
      modifies this
      ensures Cascade()
      ensures o >= old(|types|) ==> unchanged(this)
      ensures o < old(|types|) && Placeholder(old(types), o, prop).Some? && old(types)[o].proto.Some? ==>
        var p := old(types)[o].proto.value;
        FoundProp(old(types), p, prop).Some? && InRange(old(cells), FoundProp(old(types), p, prop).value, TNull) ==>
        Fed(cells, FoundProp(old(types), p, prop).value, TCell(Placeholder(old(types), o, prop).value), 0, curOrigin)
      decreases if inWork then 0 else 1, 4, fuel, 10, 1
    {
      if o >= |types| {
        return;
      }
      var proto := types[o].proto;
      var maybe := TakePlaceholder(o, prop);
      ghost var c1, t1, r1, k1 := cells, types, registry, calls;
      if maybe.Some? && proto.Some? {
        FoundPropKept(old(types), types, proto.value, prop);
        FeedPlaceholder(proto.value, prop, maybe.value, fuel);
      } else {
        GrewRefl(cells, types, registry, calls);
      }
      GrewTrans(old(cells), old(types), old(registry), old(calls), c1, t1, r1, k1, cells, types, registry, calls);
      ghost var c3, t3, r3, k3 := cells, types, registry, calls;
      BroadcastProp(o, prop, cell, false, fuel);
      GrewTrans(old(cells), old(types), old(registry), old(calls), c3, t3, r3, k3, cells, types, registry, calls);
      if maybe.Some? && proto.Some? && FoundProp(old(types), proto.value, prop).Some?
         && InRange(old(cells), FoundProp(old(types), proto.value, prop).value, TNull) {
        FedKept(c3, t3, r3, k3, cells, types, registry, calls, FoundProp(old(types), proto.value, prop).value, TCell(maybe.value), 0, curOrigin);
      }
    }

    /** `this.proto.getProp(prop).propagate(maybe)` in `onProtoProp`. */
    method FeedPlaceholder(p: nat, prop: string, ph: nat, fuel: nat)
      requires Valid()
      modifies this
      ensures Cascade()
      ensures FoundProp(old(types), p, prop).Some? && InRange(old(cells), FoundProp(old(types), p, prop).value, TNull) ==>
        Fed(cells, FoundProp(old(types), p, prop).value, TCell(ph), 0, curOrigin)
      decreases if inWork then 0 else 1, 4, fuel, 10, 0
    {
      var v := TypeGetProp(p, prop, fuel);
      if v.VCell? {
        ghost var c1, t1, r1, k1 := cells, types, registry, calls;
        CellPropagate(v.cell, TCell(ph), 0);
        GrewTrans(old(cells), old(types), old(registry), old(calls), c1, t1, r1, k1, cells, types, registry, calls);
        if v.cell < |c1| {
          EdgeKept(Forward(c1[v.cell]), TCell(ph), Forward(cells[v.cell]));
        }
      }
    }

    /** `getProp(prop)` on any value. */
    method ValGetProp(v: Val, prop: string) returns (r: Val)
      requires Valid()
      modifies this
      ensures Cascade() && !r.VType?
      ensures v.VNull? ==> r == VNull && unchanged(this)
      ensures v.VCell? && v.cell < old(|cells|) && prop != "__proto__" && prop != "✖" ==>
        r.VCell? && prop in Memo(cells[v.cell]) && Memo(cells[v.cell])[prop] == r.cell
      ensures v.VType? && FoundProp(old(types), v.ty, prop).Some? ==> r == FoundProp(old(types), v.ty, prop).value
      decreases if inWork then 0 else 1, 5, 0, 0, 0
    {
      match v
      case VNull => r := VNull;
      case VCell(c) => r := CellGetProp(c, prop);
      case VType(t) => r := TypeGetProp(t, prop, NotifyFuel);
    }

    // ----- Delivering types to targets ---------------------------------------------------

    /**
     * `target.addType(t, w)`: a cell records the type, a constraint reacts to
     * it, `ANull` ignores it. The constraints that act on objects ignore a
     * primitive, those that act on functions ignore anything else, and
     * `IsAdded` only passes on strings and numbers.
     */
    method TargetAddType(target: Target, t: nat, w: nat)
      requires Valid()
      modifies this
      ensures Cascade()
      ensures target.TNull? ==> unchanged(this)
      ensures target.TCon? && NeedsObject(target.con) && (t >= old(|types|) || !IsObj(old(types[t]))) ==> unchanged(this)
      ensures target.TCon? && NeedsFunction(target.con) && !IsFnAt(old(types), t) ==> unchanged(this)
      ensures target.TCon? && target.con.IsAdded? && t != Str && t != Num ==> unchanged(this)
      ensures TargetIn(old(cells), target) ==> Received(cells, target, t, w)
      decreases if inWork then 0 else 1, 6, Size(target), 1, 0
    {
      match target
      case TNull =>
      case TCell(c) => CellAddType(c, t, w);
      case TCon(con, origin) => ConAddType(con, origin, t, w);
    }

    /** The reaction of a constraint with the given origin to the type `t`. */
    method ConAddType(con: Con, origin: Option<string>, t: nat, w: nat)
      requires Valid()
      modifies this
      ensures Cascade()
      ensures NeedsObject(con) && (t >= old(|types|) || !IsObj(old(types[t]))) ==> unchanged(this)
      ensures NeedsFunction(con) && !IsFnAt(old(types), t) ==> unchanged(this)
      ensures con.IsAdded? && t != Str && t != Num ==> unchanged(this)
      decreases if inWork then 0 else 1, 6, ConSize(con), 0, 2
    {
      if t >= |types| {
        return;
      }
      match con
      case PropIsSubset(prop, tg) => PropIsSubsetAddType(prop, tg, t, w);
      case PropHasSubset(prop, source, node) => PropHasSubsetAddType(prop, source, node, origin, t, w);
      case IsCallee(self, args, retval) => IsCalleeAddType(self, args, retval, t, w);
      case HasMethodCall(name, args, retval) => HasMethodCallAddType(name, args, retval, t, w);
      case IsCtor(tg) => IsCtorAddType(tg, t, w);
      case IsProto(ctor, tg) => IsProtoAddType(ctor, tg, t);
      case _ => InlineConAddType(con, t, w);
    }

    /** The constraints whose reaction needs no method of its own: `ForAllProps`, `FnPrototype`, `IsAdded`, `IfObj`, `AutoInstance` and `Muffle`. */
    method InlineConAddType(con: Con, t: nat, w: nat)
      requires Valid() && t < |types|
      modifies this
      ensures Cascade()
      ensures NeedsObject(con) && !IsObj(old(types[t])) ==> unchanged(this)
      ensures con.IsAdded? && t != Str && t != Num ==> unchanged(this)
      ensures con.ForAllProps? && IsObj(old(types[t])) ==>
        && types[t].onNewProp.Some? && |types[t].onNewProp.value| > 0
        && types[t].onNewProp.value[|types[t].onNewProp.value| - 1] == HFn(con.callback)
        && forall k :: k in types[t].props ==> Call(con.callback, k, types[t].props[k], true) in calls
      ensures con.FnPrototype? && IsObj(old(types[t])) ==>
        && types == old(types)[t := old(types[t]).(hasCtor := if old(types[t]).hasCtor.None? then Some(con.fn) else old(types[t]).hasCtor)]
        && cells == old(cells) && registry == old(registry) && calls == old(calls) && queue == old(queue)
      ensures con.IsAdded? && t == Str && TargetIn(old(cells), con.target) ==> Received(cells, con.target, Str, w)
      ensures con.IsAdded? && t == Num && ValHasType(old(cells), con.other, Num) && TargetIn(old(cells), con.target) ==>
        Received(cells, con.target, Num, w)
      ensures con.IfObj? && IsObj(old(types[t])) && TargetIn(old(cells), con.target) ==> Received(cells, con.target, t, w)
      ensures con.Muffle? && TargetIn(old(cells), con.inner) ==> Received(cells, con.inner, t, MuffleWeight(w, con.weight))
      ensures con.AutoInstance? && IsObj(old(types[t])) && Truthy(old(types[t]).name) && EndsWith(old(types[t]).name.value, ".prototype")
              && TargetIn(old(cells), con.target) ==>
        exists p: nat :: Received(cells, con.target, p, w)
      decreases if inWork then 0 else 1, 6, ConSize(con), 0, 1
    {
      match con
      case ForAllProps(cb) =>
        if IsObj(types[t]) {
          ObjForAllProps(t, HFn(cb), NotifyFuel);
        }
      case FnPrototype(f) =>
        if IsObj(types[t]) && types[t].hasCtor.None? {
          SetCtor(t, f);
        }
      case IsAdded(other, tg) =>
        if t == Str {
          TargetAddType(tg, Str, w);
        } else if t == Num && ValHasType(cells, other, Num) {
          TargetAddType(tg, Num, w);
        }
      case IfObj(tg) =>
        if IsObj(types[t]) {
          TargetAddType(tg, t, w);
        }
      case AutoInstance(tg) =>
        if IsObj(types[t]) && Truthy(types[t].name) && EndsWith(types[t].name.value, ".prototype") {
          AutoInstanceAddType(tg, t, w);
        }
      case Muffle(inner, cap) => TargetAddType(inner, t, MuffleWeight(w, cap));
      case _ =>
    }

    /** `fn.hasCtor = this.fn` in `FnPrototype.addType`. */
    method SetCtor(t: nat, f: nat)
      requires Wf() && t < |types|
      modifies this`types
      ensures Wf() && types == old(types)[t := old(types[t]).(hasCtor := Some(f))]
      ensures Grew(cells, old(types), registry, calls, cells, types, registry, calls)
    {
      GrewType(cells, types, registry, calls, t, types[t].(hasCtor := Some(f)));
      types := types[t := types[t].(hasCtor := Some(f))];
    }

    /** `AutoInstance.addType` on a `*.prototype` object: its plain instance feeds the target. */
    method AutoInstanceAddType(tg: Target, t: nat, w: nat)
      requires Valid() && t < |types|
      modifies this
      ensures Cascade()
      ensures TargetIn(old(cells), tg) ==> exists p: nat :: Received(cells, tg, p, w)
      decreases if inWork then 0 else 1, 6, Size(tg) + 1, 0, 0
    {
      var inst := GetInstance(t, None);
      GrewIntro(old(cells), old(types), old(registry), old(calls), cells, types, registry, calls);
      ghost var c1, t1, r1, k1 := cells, types, registry, calls;
      ValPropagate(VType(inst), tg, w);
      GrewTrans(old(cells), old(types), old(registry), old(calls), c1, t1, r1, k1, cells, types, registry, calls);
      if TargetIn(old(cells), tg) {
        assert Received(cells, tg, inst, w);
      }
    }

    /** `PropIsSubset.addType`: the type's property feeds the target. */
    method PropIsSubsetAddType(prop: string, tg: Target, t: nat, w: nat)
      requires Valid()
      modifies this
      ensures Cascade()
      ensures FoundProp(old(types), t, prop).Some? && InRange(old(cells), FoundProp(old(types), t, prop).value, tg) ==>
        Fed(cells, FoundProp(old(types), t, prop).value, tg, w, curOrigin)
      decreases if inWork then 0 else 1, 6, Size(tg) + 1, 0, 0
    {
      var v := TypeGetProp(t, prop, NotifyFuel);
      ghost var c1, t1, r1, k1 := cells, types, registry, calls;
      ValPropagate(v, tg, w);
      GrewTrans(old(cells), old(types), old(registry), old(calls), c1, t1, r1, k1, cells, types, registry, calls);
    }

    /** `PropHasSubset.addType`: an object's property, defined if need be, takes the constraint's origin and is fed the source. */
    method PropHasSubsetAddType(prop: string, source: Val, node: Option<Node>, origin: Option<string>, t: nat, w: nat)
      requires Valid()
      modifies this
      ensures Cascade()
      ensures t >= old(|types|) || !IsObj(old(types[t])) ==> unchanged(this)
      ensures t < old(|types|) && IsObj(old(types[t])) && prop != "__proto__" && prop != "✖"
              && !(old(types[t]).kind.FnK? && prop == "prototype" && OwnProp(old(types), t, prop).None? && ChainLookup(old(types), t, prop).Some?) ==>
        && OwnProp(types, t, prop).Some?
        && (source.VCell? && source.cell < old(|cells|) && PropCellsIn(old(cells), old(types), t, prop) ==>
              Fed(cells, source, TCell(OwnProp(types, t, prop).value), w, curOrigin))
      decreases if inWork then 0 else 1, 6, 2, 0, 0
    {
      if t >= |types| || !IsObj(types[t]) {
        return;
      }
      var v := DefineWithOrigin(t, prop, node, origin);
      ghost var c2, t2, r2, k2 := cells, types, registry, calls;
      ValPropagate(source, AsTarget(v), w);
      GrewTrans(old(cells), old(types), old(registry), old(calls), c2, t2, r2, k2, cells, types, registry, calls);
      GrewTypeAt(c2, t2, r2, k2, cells, types, registry, calls, t);
    }

    /** `defProp(prop, node)` on the object for `PropHasSubset.addType`, the property cell taking `origin`. */
    method DefineWithOrigin(t: nat, prop: string, node: Option<Node>, origin: Option<string>) returns (v: Val)
      requires Valid()
      modifies this
      ensures Cascade()
      ensures t < old(|types|) && IsObj(old(types[t])) && prop != "__proto__" && prop != "✖"
              && !(old(types[t]).kind.FnK? && prop == "prototype" && OwnProp(old(types), t, prop).None? && ChainLookup(old(types), t, prop).Some?) ==>
        && v.VCell? && OwnProp(types, t, prop) == Some(v.cell)
        && (PropCellsIn(old(cells), old(types), t, prop) ==> v.cell < |cells|)
      decreases if inWork then 0 else 1, 6, 1, 0, 0
    {
      v := TypeDefProp(t, prop, node, NotifyFuel);
      ghost var c1, t1, r1, k1 := cells, types, registry, calls;
      if v.VCell? && v.cell < |cells| {
        SetOrigin(v.cell, origin);
      } else {
        GrewRefl(cells, types, registry, calls);
      }
      GrewTrans(old(cells), old(types), old(registry), old(calls), c1, t1, r1, k1, cells, types, registry, calls);
      if t < old(|types|) && IsObj(old(types[t])) && prop != "__proto__" && prop != "✖"
         && !(old(types[t]).kind.FnK? && prop == "prototype" && OwnProp(old(types), t, prop).None? && ChainLookup(old(types), t, prop).Some?)
         && PropCellsIn(old(cells), old(types), t, prop) {
        if OwnProp(old(types), t, prop).Some? {
          assert v.cell < old(|cells|);
        } else if Placeholder(old(types), t, prop).Some? {
          assert v.cell < old(|cells|);
        } else {
          assert v.cell == old(|cells|) < |c1|;
        }
      }
    }

    /**
     * `IsCallee.addType`: each argument feeds the parameter at its position
     * and the `arguments` value if the function has one; `this` feeds the
     * function's `self`, at the low weight 2 for the top scope; the return
     * value feeds the call's result.
     */
    method IsCalleeAddType(self: Val, args: seq<Val>, retval: Target, t: nat, w: nat)
      requires Valid()
      modifies this
      ensures Cascade()
      ensures !IsFnAt(old(types), t) ==> unchanged(this)
      ensures IsFnAt(old(types), t) ==>
        var k := old(types[t]).kind;
        && (forall i :: 0 <= i < |args| && i < |k.args| && InRange(old(cells), args[i], AsTarget(k.args[i])) ==>
              Fed(cells, args[i], AsTarget(k.args[i]), w, curOrigin))
        && (forall i :: 0 <= i < |args| && !k.arguments.VNull? && InRange(old(cells), args[i], AsTarget(k.arguments)) ==>
              Fed(cells, args[i], AsTarget(k.arguments), w, curOrigin))
        && (InRange(old(cells), self, AsTarget(k.self)) ==>
              Fed(cells, self, AsTarget(k.self), if self == VType(TopScope) then WgGlobalThis else w, curOrigin))
        && (InRange(old(cells), k.retval, retval) ==> Fed(cells, k.retval, retval, w, curOrigin))
      decreases if inWork then 0 else 1, 6, Size(retval) + 2, 0, 0
    {
      if !IsFnAt(types, t) {
        return;
      }
      var k := types[t].kind;
      FeedInputs(self, args, k, w);
      ghost var c3, t3, r3, k3 := cells, types, registry, calls;
      ValPropagate(k.retval, retval, w);
      GrewTrans(old(cells), old(types), old(registry), old(calls), c3, t3, r3, k3, cells, types, registry, calls);
      GrewTypeAt(old(cells), old(types), old(registry), old(calls), cells, types, registry, calls, t);
      forall j | 0 <= j < |args|
        ensures j < |k.args| && InRange(old(cells), args[j], AsTarget(k.args[j])) ==> Fed(cells, args[j], AsTarget(k.args[j]), w, curOrigin)
        ensures !k.arguments.VNull? && InRange(old(cells), args[j], AsTarget(k.arguments)) ==> Fed(cells, args[j], AsTarget(k.arguments), w, curOrigin)
      {
        if j < |k.args| && InRange(old(cells), args[j], AsTarget(k.args[j])) {
          FedKept(c3, t3, r3, k3, cells, types, registry, calls, args[j], AsTarget(k.args[j]), w, curOrigin);
        }
        if !k.arguments.VNull? && InRange(old(cells), args[j], AsTarget(k.arguments)) {
          FedKept(c3, t3, r3, k3, cells, types, registry, calls, args[j], AsTarget(k.arguments), w, curOrigin);
        }
      }
      if InRange(old(cells), self, AsTarget(k.self)) {
        FedKept(c3, t3, r3, k3, cells, types, registry, calls, self, AsTarget(k.self), if self == VType(TopScope) then WgGlobalThis else w, curOrigin);
      }
    }

    /** The arguments and `this` of `IsCallee.addType`, fed to the parameters, `arguments` and `self`. */
    method FeedInputs(self: Val, args: seq<Val>, k: Kind, w: nat)
      requires Valid() && k.FnK?
      modifies this
      ensures Cascade()
      ensures forall i :: 0 <= i < |args| && i < |k.args| && InRange(old(cells), args[i], AsTarget(k.args[i])) ==>
        Fed(cells, args[i], AsTarget(k.args[i]), w, curOrigin)
      ensures forall i :: 0 <= i < |args| && !k.arguments.VNull? && InRange(old(cells), args[i], AsTarget(k.arguments)) ==>
        Fed(cells, args[i], AsTarget(k.arguments), w, curOrigin)
      ensures InRange(old(cells), self, AsTarget(k.self)) ==>
        Fed(cells, self, AsTarget(k.self), if self == VType(TopScope) then WgGlobalThis else w, curOrigin)
      decreases if inWork then 0 else 1, 6, 1, 5, 0
    {
      FeedArguments(args, k, w);
      ghost var c2, t2, r2, k2 := cells, types, registry, calls;
      ValPropagate(self, AsTarget(k.self), if self == VType(TopScope) then WgGlobalThis else w);
      GrewTrans(old(cells), old(types), old(registry), old(calls), c2, t2, r2, k2, cells, types, registry, calls);
      forall j | 0 <= j < |args|
        ensures j < |k.args| && InRange(old(cells), args[j], AsTarget(k.args[j])) ==> Fed(cells, args[j], AsTarget(k.args[j]), w, curOrigin)
        ensures !k.arguments.VNull? && InRange(old(cells), args[j], AsTarget(k.arguments)) ==> Fed(cells, args[j], AsTarget(k.arguments), w, curOrigin)
      {
        if j < |k.args| && InRange(old(cells), args[j], AsTarget(k.args[j])) {
          FedKept(c2, t2, r2, k2, cells, types, registry, calls, args[j], AsTarget(k.args[j]), w, curOrigin);
        }
        if !k.arguments.VNull? && InRange(old(cells), args[j], AsTarget(k.arguments)) {
          FedKept(c2, t2, r2, k2, cells, types, registry, calls, args[j], AsTarget(k.arguments), w, curOrigin);
        }
      }
    }

    /** The loop over the arguments in `IsCallee.addType`. */
    method FeedArguments(args: seq<Val>, k: Kind, w: nat)
      requires Valid() && k.FnK?
      modifies this
      ensures Cascade()
      ensures forall i :: 0 <= i < |args| && i < |k.args| && InRange(old(cells), args[i], AsTarget(k.args[i])) ==>
        Fed(cells, args[i], AsTarget(k.args[i]), w, curOrigin)
      ensures forall i :: 0 <= i < |args| && !k.arguments.VNull? && InRange(old(cells), args[i], AsTarget(k.arguments)) ==>
        Fed(cells, args[i], AsTarget(k.arguments), w, curOrigin)
      decreases if inWork then 0 else 1, 6, 1, 4, 0
    {
      GrewRefl(cells, types, registry, calls);
      var i := 0;
      while i < |args|
        invariant i <= |args|
        invariant Valid() && inWork == old(inWork) && depth == old(depth) && Appended(old(queue), queue, depth)
        invariant curOrigin == old(curOrigin) && purgeGen == old(purgeGen)
        invariant Grew(old(cells), old(types), old(registry), old(calls), cells, types, registry, calls)
        invariant forall j :: 0 <= j < i && j < |k.args| && InRange(old(cells), args[j], AsTarget(k.args[j])) ==>
          Fed(cells, args[j], AsTarget(k.args[j]), w, curOrigin)
        invariant forall j :: 0 <= j < i && !k.arguments.VNull? && InRange(old(cells), args[j], AsTarget(k.arguments)) ==>
          Fed(cells, args[j], AsTarget(k.arguments), w, curOrigin)
      {
        ghost var c1, t1, r1, k1 := cells, types, registry, calls;
        FeedArgument(args[i], k, i, w);
        GrewTrans(old(cells), old(types), old(registry), old(calls), c1, t1, r1, k1, cells, types, registry, calls);
        forall j | 0 <= j < i
          ensures j < |k.args| && InRange(old(cells), args[j], AsTarget(k.args[j])) ==> Fed(cells, args[j], AsTarget(k.args[j]), w, curOrigin)
          ensures !k.arguments.VNull? && InRange(old(cells), args[j], AsTarget(k.arguments)) ==> Fed(cells, args[j], AsTarget(k.arguments), w, curOrigin)
        {
          if j < |k.args| && InRange(old(cells), args[j], AsTarget(k.args[j])) {
            FedKept(c1, t1, r1, k1, cells, types, registry, calls, args[j], AsTarget(k.args[j]), w, curOrigin);
          }
          if !k.arguments.VNull? && InRange(old(cells), args[j], AsTarget(k.arguments)) {
            FedKept(c1, t1, r1, k1, cells, types, registry, calls, args[j], AsTarget(k.arguments), w, curOrigin);
          }
        }
        i := i + 1;
      }
    }

    /** One argument of `IsCallee.addType`: it feeds the parameter at its position, if there is one, and the `arguments` value, if any. */
    method FeedArgument(a: Val, k: Kind, i: nat, w: nat)
      requires Valid() && k.FnK?
      modifies this
      ensures Cascade()
      ensures i < |k.args| && InRange(old(cells), a, AsTarget(k.args[i])) ==> Fed(cells, a, AsTarget(k.args[i]), w, curOrigin)
      ensures !k.arguments.VNull? && InRange(old(cells), a, AsTarget(k.arguments)) ==> Fed(cells, a, AsTarget(k.arguments), w, curOrigin)
      decreases if inWork then 0 else 1, 6, 1, 3, 0
    {
      GrewRefl(cells, types, registry, calls);
      if i < |k.args| {
        ValPropagate(a, AsTarget(k.args[i]), w);
      }
      if !k.arguments.VNull? {
        ghost var c1, t1, r1, k1 := cells, types, registry, calls;
        ValPropagate(a, AsTarget(k.arguments), w);
        GrewTrans(old(cells), old(types), old(registry), old(calls), c1, t1, r1, k1, cells, types, registry, calls);
        if i < |k.args| && InRange(old(cells), a, AsTarget(k.args[i])) {
          FedKept(c1, t1, r1, k1, cells, types, registry, calls, a, AsTarget(k.args[i]), w, curOrigin);
        }
      }
    }

    /** `HasMethodCall.addType`: the method found on the receiver is called with it as `this`. */
    method HasMethodCallAddType(name: string, args: seq<Val>, retval: Target, t: nat, w: nat)
      requires Valid()
      modifies this
      ensures Cascade()
      ensures FoundProp(old(types), t, name).Some? && InRange(old(cells), FoundProp(old(types), t, name).value, TNull) ==>
        Fed(cells, FoundProp(old(types), t, name).value, TCon(IsCallee(VType(t), args, retval), curOrigin), w, curOrigin)
      decreases if inWork then 0 else 1, 6, Size(retval) + 3, 0, 0
    {
      var v := TypeGetProp(t, name, NotifyFuel);
      assert Size(TCon(IsCallee(VType(t), args, retval), curOrigin)) == Size(retval) + 2;
      ghost var c1, t1, r1, k1 := cells, types, registry, calls;
      ValPropagate(v, TCon(IsCallee(VType(t), args, retval), curOrigin), w);
      GrewTrans(old(cells), old(types), old(registry), old(calls), c1, t1, r1, k1, cells, types, registry, calls);
    }

    /** `IsCtor.addType`: the function's `prototype` feeds an `IsProto` for the target. */
    method IsCtorAddType(tg: Target, t: nat, w: nat)
      requires Valid()
      modifies this
      ensures Cascade()
      ensures !IsFnAt(old(types), t) ==> unchanged(this)
      ensures IsFnAt(old(types), t) && ChainLookup(old(types), t, "prototype").Some? && ChainLookup(old(types), t, "prototype").value < old(|cells|) ==>
        Fed(cells, VCell(ChainLookup(old(types), t, "prototype").value), TCon(IsProto(Some(t), tg), curOrigin), w, curOrigin)
      ensures IsFnAt(old(types), t) && ChainLookup(old(types), t, "prototype").None? && Placeholder(old(types), t, "prototype").None? ==>
        && OwnProp(types, t, "prototype").Some?
        && Fed(cells, VCell(OwnProp(types, t, "prototype").value), TCon(IsProto(Some(t), tg), curOrigin), w, curOrigin)
      decreases if inWork then 0 else 1, 6, Size(tg) + 2, 0, 0
    {
      if !IsFnAt(types, t) {
        return;
      }
      var v := FnGetProp(t, "prototype", NotifyFuel);
      assert Size(TCon(IsProto(Some(t), tg), curOrigin)) == Size(tg) + 1;
      ghost var c1, t1, r1, k1 := cells, types, registry, calls;
      ValPropagate(v, TCon(IsProto(Some(t), tg), curOrigin), w);
      GrewTrans(old(cells), old(types), old(registry), old(calls), c1, t1, r1, k1, cells, types, registry, calls);
      GrewTypeAt(c1, t1, r1, k1, cells, types, registry, calls, t);
    }

    /** `IsProto.addType`: a prototype object gives the target its instance; `Array.prototype` gives a new array. */
    method IsProtoAddType(ctor: Option<nat>, tg: Target, t: nat)
      requires Valid()
      modifies this
      ensures Cascade()
      ensures t >= old(|types|) || !IsObj(old(types[t])) ==> unchanged(this)
      ensures t < old(|types|) && IsObj(old(types[t])) && TargetIn(old(cells), tg) ==>
        exists p: nat :: Received(cells, tg, p, 0) && (t == ArrayProto ==> p < |types| && types[p].kind.ArrK? && types[p].proto == Some(ArrayProto))
      decreases if inWork then 0 else 1, 6, Size(tg) + 1, 0, 0
    {
      if t >= |types| || !IsObj(types[t]) {
        return;
      }
      ghost var c1, t1, r1, k1;
      var p;
      if t == ArrayProto {
        p := NewArr(NotifyFuel);
        c1, t1, r1, k1 := cells, types, registry, calls;
      } else {
        p := GetInstance(t, ctor);
        c1, t1, r1, k1 := cells, types, registry, calls;
        GrewIntro(old(cells), old(types), old(registry), old(calls), cells, types, registry, calls);
      }
      TargetAddType(tg, p, 0);
      GrewTrans(old(cells), old(types), old(registry), old(calls), c1, t1, r1, k1, cells, types, registry, calls);
      if t == ArrayProto {
        GrewTypeAt(c1, t1, r1, k1, cells, types, registry, calls, p);
      }
      if TargetIn(old(cells), tg) {
        assert Received(cells, tg, p, 0);
      }
    }

    /** `v.propagate(target, w)`: a cell records the edge, a type is delivered at once, `ANull` does nothing. */
    method ValPropagate(v: Val, target: Target, w: nat)
      requires Valid()
      modifies this
      ensures Cascade()
      ensures v.VNull? || target.TNull? ==> unchanged(this)
      ensures InRange(old(cells), v, target) ==> Fed(cells, v, target, w, curOrigin)
      decreases if inWork then 0 else 1, 6, Size(target), 2, 0
    {
      match v
      case VNull =>
      case VCell(c) =>
        CellPropagate(c, target, w);
        if c < old(|cells|) && !target.TNull? {
          EdgeKept(Forward(old(cells)[c]), Muffled(target, w, curOrigin), Forward(cells[c]));
        }
      case VType(x) => TargetAddType(target, x, w);
    }

    // ----- Scopes and literals -----------------------------------------------------------

    /**
     * `Scope.defVar(name, originNode)`: the variable of the nearest scope,
     * outwards, that has it; else a new property of the outermost scope.
     */
    method DefVar(s: nat, name: string, originNode: Option<Node>) returns (r: Val)
      requires Valid()
      modifies this
      ensures Cascade() && !r.VType?
      ensures var h := VarHome(old(types), s, name);
        OwnProp(old(types), h, name).Some? ==> r == VCell(OwnProp(old(types), h, name).value) && unchanged(this)
      ensures var h := VarHome(old(types), s, name);
        h < old(|types|) && OwnProp(old(types), h, name).None? && name != "__proto__" && name != "✖" ==>
        r == VCell(if Placeholder(old(types), h, name).Some? then Placeholder(old(types), h, name).value else old(|cells|))
      ensures var h := VarHome(old(types), s, name);
        h < old(|types|) && name != "__proto__" && name != "✖" ==> r.VCell? && OwnProp(types, h, name) == Some(r.cell)
    {
      var cur: nat := s;
      while cur < |types| && name !in types[cur].props && types[cur].prev.Some?
            && types[cur].proto.Some? && types[cur].proto.value < cur
        invariant VarHome(types, s, name) == VarHome(types, cur, name)
        decreases cur
      {
        cur := types[cur].proto.value;
      }
      if cur < |types| && name in types[cur].props {
        return VCell(types[cur].props[name]);
      }
      r := ObjDefProp(cur, name, originNode, NotifyFuel);
    }

    /** `literalType(val)`: the primitive, `ANull` for `null`, an instance of `RegExp.prototype`, or nothing. */
    method LiteralType(l: Literal) returns (r: Option<Val>)
      requires Wf()
      modifies this`types
      ensures Wf()
      ensures LiteralResult(l) == RNum ==> r == Some(VType(Num)) && types == old(types)
      ensures LiteralResult(l) == RBool ==> r == Some(VType(Bool)) && types == old(types)
      ensures LiteralResult(l) == RStr ==> r == Some(VType(Str)) && types == old(types)
      ensures LiteralResult(l) == RNull ==> r == Some(VNull) && types == old(types)
      ensures l.LRegExp? ==>
        r.Some? && r.value.VType? && types[RegExpProto].instances.Some?
        && FindInstance(types[RegExpProto].instances.value, old(types[RegExpProto]).hasCtor, 0) == Some(r.value.ty)
      ensures l.LBigInt? ==> r.None? && types == old(types)
    {
      match l
      case LBool(_) => r := Some(VType(Bool));
      case LNum(_) => r := Some(VType(Num));
      case LStr(_) => r := Some(VType(Str));
      case LNull => r := Some(VNull);
      case LRegExp(_) =>
        var inst := GetInstance(RegExpProto, None);
        r := Some(VType(inst));
      case LBigInt(_) => r := None;
    }

    // ----- The purge ---------------------------------------------------------------------

    /**
     * `purgeTypes(origins, start, end)`: a new generation, the purge of
     * everything reachable from the top scope, then every registry list loses
     * the objects that match.
     */
    method PurgeTypes(origins: Origins, start: int, end: Option<int>)
      requires Valid()
      modifies this
      ensures Valid() && purgeGen == old(purgeGen) + 1
      ensures PurgeStep(MakePredicate(origins, start, end), purgeGen, old(cells), old(types), old(cells), old(types), cells, types)
      ensures IsObj(types[TopScope]) ==> types[TopScope].gen == purgeGen
      ensures registry == PurgedRegistry(MakePredicate(origins, start, end), types, old(registry))
      ensures inWork == old(inWork) && queue == old(queue) && depth == old(depth) && calls == old(calls) && curOrigin == old(curOrigin)
    {
      var p := MakePredicate(origins, start, end);
      purgeGen := purgeGen + 1;
      PurgeType(TopScope, p, cells, types);
      PurgeStepKeepsArena(p, purgeGen, old(cells), old(types), old(cells), old(types), cells, types);
      PurgeRegistry(p);
    }

    /** The registry part of `purgeTypes`. */
    method PurgeRegistry(p: Pred)
      modifies this`registry
      ensures registry == PurgedRegistry(p, types, old(registry))
    {
      var keys := registry.Keys;
      while keys != {}
        invariant keys <= registry.Keys && registry.Keys == old(registry).Keys
        invariant forall k :: k in registry ==>
          registry[k] == if k in keys then old(registry)[k] else KeptTypes(p, types, old(registry)[k])
        decreases |keys|
      {
        var k :| k in keys;
        var kept := KeptObjects(p, registry[k]);
        registry := registry[k := kept];
        keys := keys - {k};
      }
    }

    /** One registry list with the objects that match spliced out. */
    method KeptObjects(p: Pred, list: seq<nat>) returns (r: seq<nat>)
      ensures r == KeptTypes(p, types, list)
    {
      r := [];
      var i := 0;
      while i < |list|
        invariant i <= |list| && r == KeptTypes(p, types, list[..i])
      {
        assert list[..i + 1][..i] == list[..i];
        if !TypeMatches(p, types, list[i]) {
          r := r + [list[i]];
        }
        i := i + 1;
      }
      assert list[..|list|] == list;
    }

    /** `val.purge(test)` on a value: `ANull` does nothing. */
    method PurgeVal(v: Val, p: Pred, ghost c0: seq<Cell>, ghost t0: seq<TypeRec>)
      requires SameTags(c0, t0, cells, types)
      modifies this`cells, this`types
      ensures SameTags(c0, t0, cells, types)
      ensures PurgeStep(p, purgeGen, c0, t0, old(cells), old(types), cells, types)
      ensures Unvisited(cells, types, purgeGen) <= old(Unvisited(cells, types, purgeGen))
      decreases Unvisited(cells, types, purgeGen), 3
    {
      match v
      case VNull =>
      case VCell(c) => PurgeCell(c, p, c0, t0);
      case VType(t) => PurgeType(t, p, c0, t0);
    }

    /**
     * `AVal.purge(test)`: once per generation, the cell drops the matching
     * types and purges the others; then it drops the matching forward
     * edges, clearing its memo of property cells if it dropped one, and
     * purges the cells it still forwards to. A constraint's purge does
     * nothing.
     */
    method PurgeCell(c: nat, p: Pred, ghost c0: seq<Cell>, ghost t0: seq<TypeRec>)
      requires SameTags(c0, t0, cells, types)
      modifies this`cells, this`types
      ensures SameTags(c0, t0, cells, types)
      ensures PurgeStep(p, purgeGen, c0, t0, old(cells), old(types), cells, types)
      ensures Unvisited(cells, types, purgeGen) <= old(Unvisited(cells, types, purgeGen))
      ensures c < |cells| ==> cells[c].gen == purgeGen
      decreases Unvisited(cells, types, purgeGen), 2
    {
      if c >= |cells| || cells[c].gen == purgeGen {
        return;
      }
      var cell := cells[c];
      MarkCellLowers(cells, types, c, purgeGen);
      cells := cells[c := cell.(gen := purgeGen)];
      ghost var marked := cells;
      var kept := PurgeCellTypes(c, cell, p, c0, t0);
      ghost var (cb, tb) := (cells, types);
      var fkept, removed := PurgeCellForward(c, cell, p, c0, t0);
      PurgeStepTrans(p, purgeGen, c0, t0, marked, old(types), cb, tb, cells, types);
      PurgeStepFinish(p, purgeGen, c0, t0, old(cells), old(types), cells, types, c, kept, fkept, removed);
      cells := cells[c := cell.(types := kept, forward := if cell.forward.Some? then Some(fkept) else None,
                                props := if removed then None else cell.props, gen := purgeGen)];
      PurgeStepLowers(p, purgeGen, c0, t0, old(cells), old(types), cells, types);
    }

    /**
     * The forward loop of `AVal.purge`, on a cell already marked: the edges
     * that do not match are kept, in order, and the cells among them
     * purged; `removed` tells whether an edge matched.
     */
    method PurgeCellForward(c: nat, cell: Cell, p: Pred, ghost c0: seq<Cell>, ghost t0: seq<TypeRec>)
      returns (fkept: seq<Target>, removed: bool)
      requires SameTags(c0, t0, cells, types) && c < |cells| && cells[c] == cell.(gen := purgeGen)
      modifies this`cells, this`types
      ensures SameTags(c0, t0, cells, types) && cells[c] == old(cells[c])
      ensures fkept == KeptForward(p, c0, Forward(cell))
      ensures removed == AnyMatches(p, c0, Forward(cell))
      ensures PurgeStep(p, purgeGen, c0, t0, old(cells), old(types), cells, types)
      ensures Unvisited(cells, types, purgeGen) <= old(Unvisited(cells, types, purgeGen))
      decreases Unvisited(cells, types, purgeGen) + 1, 1
    {
      var fs := Forward(cell);
      fkept := [];
      removed := false;
      var i := 0;
      while i < |fs|
        invariant i <= |fs| && SameTags(c0, t0, cells, types)
        invariant fkept == KeptForward(p, c0, fs[..i])
        invariant removed == AnyMatches(p, c0, fs[..i])
        invariant c < |cells| && cells[c] == cell.(gen := purgeGen)
        invariant PurgeStep(p, purgeGen, c0, t0, old(cells), old(types), cells, types)
        invariant Unvisited(cells, types, purgeGen) <= old(Unvisited(cells, types, purgeGen))
      {
        assert fs[..i + 1][..i] == fs[..i];
        var f := fs[i];
        assert TargetMatches(p, cells, f) == TargetMatches(p, c0, f);
        if TargetMatches(p, cells, f) {
          removed := true;
        } else {
          fkept := fkept + [f];
          ghost var (cs, ts) := (cells, types);
          PurgeEdge(f, p, c0, t0);
          PurgeStepTrans(p, purgeGen, c0, t0, old(cells), old(types), cs, ts, cells, types);
        }
        i := i + 1;
      }
      assert fs[..|fs|] == fs;
    }

    /** `f.purge(test)` on a forward edge that stays: a cell is purged, a constraint's purge does nothing. */
    method PurgeEdge(f: Target, p: Pred, ghost c0: seq<Cell>, ghost t0: seq<TypeRec>)
      requires SameTags(c0, t0, cells, types)
      modifies this`cells, this`types
      ensures SameTags(c0, t0, cells, types)
      ensures PurgeStep(p, purgeGen, c0, t0, old(cells), old(types), cells, types)
      ensures Unvisited(cells, types, purgeGen) <= old(Unvisited(cells, types, purgeGen))
      decreases Unvisited(cells, types, purgeGen) + 1, 0
    {
      if f.TCell? {
        PurgeCell(f.cell, p, c0, t0);
      }
    }

    /** The types loop of `AVal.purge`, on a cell already marked: the types that do not match are kept, in order, and purged. */
    method PurgeCellTypes(c: nat, cell: Cell, p: Pred, ghost c0: seq<Cell>, ghost t0: seq<TypeRec>) returns (kept: seq<nat>)
      requires SameTags(c0, t0, cells, types) && c < |cells| && cells[c] == cell.(gen := purgeGen)
      modifies this`cells, this`types
      ensures SameTags(c0, t0, cells, types) && cells[c] == old(cells[c])
      ensures kept == KeptTypes(p, t0, cell.types)
      ensures PurgeStep(p, purgeGen, c0, t0, old(cells), old(types), cells, types)
      ensures Unvisited(cells, types, purgeGen) <= old(Unvisited(cells, types, purgeGen))
      decreases Unvisited(cells, types, purgeGen), 1
    {
      var ts := cell.types;
      kept := [];
      var i := 0;
      while i < |ts|
        invariant i <= |ts| && SameTags(c0, t0, cells, types)
        invariant kept == KeptTypes(p, t0, ts[..i])
        invariant c < |cells| && cells[c] == cell.(gen := purgeGen)
        invariant PurgeStep(p, purgeGen, c0, t0, old(cells), old(types), cells, types)
        invariant Unvisited(cells, types, purgeGen) <= old(Unvisited(cells, types, purgeGen))
      {
        assert ts[..i + 1][..i] == ts[..i];
        var t := ts[i];
        assert TypeMatches(p, types, t) == TypeMatches(p, t0, t);
        if !TypeMatches(p, types, t) {
          kept := kept + [t];
          ghost var (cs, tys) := (cells, types);
          PurgeType(t, p, c0, t0);
          PurgeStepTrans(p, purgeGen, c0, t0, old(cells), old(types), cs, tys, cells, types);
        }
        i := i + 1;
      }
      assert ts[..|ts|] == ts;
    }

    /**
     * `Obj.purge(test)`, and `Fn.purge` after it: once per generation, the
     * object purges its properties; a function then purges its `self`, its
     * return value and its parameters. A primitive's purge does nothing.
     */
    method PurgeType(t: nat, p: Pred, ghost c0: seq<Cell>, ghost t0: seq<TypeRec>)
      requires SameTags(c0, t0, cells, types)
      modifies this`cells, this`types
      ensures SameTags(c0, t0, cells, types)
      ensures PurgeStep(p, purgeGen, c0, t0, old(cells), old(types), cells, types)
      ensures Unvisited(cells, types, purgeGen) <= old(Unvisited(cells, types, purgeGen))
      ensures t < |types| && IsObj(types[t]) ==> types[t].gen == purgeGen
      decreases Unvisited(cells, types, purgeGen), 0
    {
      if t >= |types| || !IsObj(types[t]) || types[t].gen == purgeGen {
        return;
      }
      var rec := types[t];
      MarkTypeLowers(cells, types, t, purgeGen);
      types := types[t := rec.(gen := purgeGen)];
      var es := Entries(rec.props, true);
      var vals := seq(|es|, j requires 0 <= j < |es| => VCell(es[j].1));
      if rec.kind.FnK? {
        vals := vals + [rec.kind.self, rec.kind.retval] + rec.kind.args;
      }
      var i := 0;
      while i < |vals|
        invariant i <= |vals| && SameTags(c0, t0, cells, types)
        invariant t < |types| && types[t] == rec.(gen := purgeGen)
        invariant PurgeStep(p, purgeGen, c0, t0, old(cells), old(types), cells, types)
        invariant Unvisited(cells, types, purgeGen) < old(Unvisited(cells, types, purgeGen))
      {
        ghost var (cs, tys) := (cells, types);
        PurgeVal(vals[i], p, c0, t0);
        PurgeStepTrans(p, purgeGen, c0, t0, old(cells), old(types), cs, tys, cells, types);
        i := i + 1;
      }
    }

    // ----- Marking variables ----------------------------------------------------------------

    /**
     * `markVariablesDefinedBy(scope, origins, start, end)`: every variable
     * of the scopes from `scope` outwards whose cell comes from the origins,
     * within the range when one is given, is marked `maybePurge`. The test
     * is the intended one, on the cell's origin node (`MarkTest`).
     */
    method MarkVariablesDefinedBy(scope: nat, origins: Origins, start: int, end: Option<int>)
      modifies this`cells
      ensures |cells| == old(|cells|)
      ensures forall i :: 0 <= i < |cells| ==>
        cells[i] == MarkedCell(MakePredicate(origins, start, end), old(cells[i]), i in ChainVars(types, scope))
    {
      var p := MakePredicate(origins, start, end);
      var cur: Option<nat> := Some(scope);
      ghost var done: set<nat> := {};
      while cur.Some? && cur.value < |types|
        invariant |cells| == old(|cells|)
        invariant ChainVars(types, scope) == done + (if cur.Some? then ChainVars(types, cur.value) else {})
        invariant forall i :: 0 <= i < |cells| ==> cells[i] == MarkedCell(p, old(cells[i]), i in done)
        decreases if cur.Some? then cur.value + 1 else 0
      {
        var s := cur.value;
        MarkScope(s, p);
        forall i | 0 <= i < |cells|
          ensures cells[i] == MarkedCell(p, old(cells[i]), i in done + types[s].props.Values)
        {
          MarkedCellTwice(p, old(cells[i]), i in done, i in types[s].props.Values);
        }
        done := done + types[s].props.Values;
        cur := match types[s].prev
          case Some(q) => if q < s then Some(q) else None
          case None => None;
      }
    }

    /** The inner loop of `markVariablesDefinedBy`, on scope `s`. */
    method MarkScope(s: nat, p: Pred)
      requires s < |types|
      modifies this`cells
      ensures |cells| == old(|cells|)
      ensures forall i :: 0 <= i < |cells| ==> cells[i] == MarkedCell(p, old(cells[i]), i in types[s].props.Values)
    {
      var props := types[s].props;
      var keys := props.Keys;
      ghost var done: set<nat> := {};
      while keys != {}
        invariant keys <= props.Keys && |cells| == old(|cells|)
        invariant forall k :: k in props && k !in keys ==> props[k] in done
        invariant done <= props.Values
        invariant forall i :: 0 <= i < |cells| ==> cells[i] == MarkedCell(p, old(cells[i]), i in done)
        decreases |keys|
      {
        var k :| k in keys;
        var c := props[k];
        if c < |cells| && MarkTest(p, cells[c]) {
          cells := cells[c := cells[c].(maybePurge := true)];
        }
        done := done + {c};
        keys := keys - {k};
      }
      assert props.Values <= done;
    }

    /**
     * `purgeMarkedVariables(scope)`: the scopes from `scope` outwards lose
     * the variables whose cells are marked.
     */
    method PurgeMarkedVariables(scope: nat)
      requires Wf()
      modifies this`types
      ensures Wf() && |types| == old(|types|)
      ensures forall i :: 0 <= i < |types| ==>
        types[i] == if i in ScopeChain(old(types), scope) then old(types[i]).(props := Unmarked(old(types[i]).props, cells)) else old(types[i])
    {
      var cur: Option<nat> := Some(scope);
      ghost var done: set<nat> := {};
      while cur.Some? && cur.value < |types|
        invariant |types| == old(|types|)
        invariant forall i :: 0 <= i < |types| ==>
          types[i] == if i in done then old(types[i]).(props := Unmarked(old(types[i]).props, cells)) else old(types[i])
        invariant ScopeChain(old(types), scope) == done + (if cur.Some? then ScopeChain(old(types), cur.value) else {})
        invariant cur.Some? ==> forall x :: x in done ==> x > cur.value
        decreases if cur.Some? then cur.value + 1 else 0
      {
        var s := cur.value;
        DropMarked(s);
        done := done + {s};
        cur := match types[s].prev
          case Some(q) => if q < s then Some(q) else None
          case None => None;
      }
      forall i | 0 <= i < |types|
        ensures TypeWf(types[i], i)
      {
        assert TypeWf(old(types[i]), i);
      }
    }

    /** The inner loop of `purgeMarkedVariables`, on scope `s`. */
    method DropMarked(s: nat)
      requires s < |types|
      modifies this`types
      ensures types == old(types)[s := old(types[s]).(props := Unmarked(old(types[s]).props, cells))]
    {
      var props := types[s].props;
      var keys := props.Keys;
      var r := props;
      while keys != {}
        invariant keys <= props.Keys
        invariant forall k :: k in r <==> k in props && !(k !in keys && props[k] < |cells| && cells[props[k]].maybePurge)
        invariant forall k :: k in r ==> r[k] == props[k]
        decreases |keys|
      {
        var k :| k in keys;
        if props[k] < |cells| && cells[props[k]].maybePurge {
          r := r - {k};
        }
        keys := keys - {k};
      }
      assert r == Unmarked(props, cells);
      types := types[s := types[s].(props := r)];
    }
  }
}
