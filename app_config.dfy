/**
 * The option machinery of the editor configuration (`AppConfig` and the
 * `optionsProvider` interface mixed into objects by `defineOptions`).
 *
 * JavaScript objects are modelled on an arena, `OptionsHeap`:
 *  - `objects[i]` is an object that options can be defined on; it may point
 *    at an option table (its `$options`), has the stored values `this['$'+name]`
 *    (`store`) and its other plain properties (`links`), whose objects are
 *    `Ref`s into the arena and which
 *    is what `forwardTo` follows;
 *  - `tables[t]` is an option table, shared between the object whose
 *    `$options` it is and the `$defaultOptions` entry made with it;
 *  - `paths` and `byPath` are `$defaultOptions`: `paths` lists its keys in
 *    the order `for (path in ...)` visits them (array indices first, in
 *    ascending numeric order, then the other keys in the order they were
 *    added).
 * `set` hooks are code the model cannot see: each call is recorded in
 * `setHookCalls`; `get` hooks are a parameter. `console.warn` messages are
 * appended to `warnings`.
 */
module AppConfig {
  import opened JsText

  /** The JavaScript values an option can hold (objects by identity). */
  datatype Value = Undefined | Null | Bool(b: bool) | Num(n: int) | Str(s: string) | Ref(id: nat)

  predicate Truthy(v: Value) {
    match v
    case Undefined => false
    case Null => false
    case Bool(b) => b
    case Num(n) => n != 0
    case Str(s) => s != ""
    case Ref(_) => true
  }

  /** Exceptions: the two the engine raises, and `new Error(message)`. */
  datatype JsError = TypeError | RangeError | Error(message: string)

  /** The completion of a call: a returned value or a thrown exception. */
  datatype Completion<T> = Normal(value: T) | Throw(error: JsError)

  /**
   * One entry of the `options` argument of `defineOptions`: a string (the name
   * of the property to forward to) or an option object. Empty strings stand
   * for the falsy/missing `name` and `forwardTo`; `hasSet`/`hasGet` say whether
   * the hooks exist.
   */
  datatype OptSpec =
    | ForwardName(target: string)
    | Spec(name: string, forwardTo: string, handlesSet: bool, hasSet: bool, hasGet: bool,
           initialValue: Option<Value>, value: Option<Value>)

  /** A registered option. `value` is the default `setDefaultValue` writes. */
  datatype Desc = Desc(name: string, forwardTo: string, handlesSet: bool, hasSet: bool, hasGet: bool, value: Option<Value>)

  type Table = map<string, Desc>

  datatype Obj = Obj(table: Option<nat>, store: map<string, Value>, links: map<string, Value>)

  /** The plain property `o[key]`: undefined when it is not set. */
  function Prop(o: Obj, key: string): Value {
    if key in o.links then o.links[key] else Undefined
  }

  /** A record of one call of a `set` hook: on which object, for which option, with which value, and what `this['$'+name]` held when it ran. */
  datatype HookCall = HookCall(obj: nat, name: string, value: Value, storedAtCall: Value)

  /** `this['$'+name]`. */
  function Stored(o: Obj, name: string): Value {
    if name in o.store then o.store[name] else Undefined
  }

  /** The double quote character. */
  const DoubleQuote: char := 34 as char

  /** The warning `misspelled option "name"`. */
  function MisspelledMessage(name: string): string {
    "misspelled option " + [DoubleQuote] + name + [DoubleQuote]
  }

  /** The option object `defineOptions` registers for `options[key]`. */
  function Normalize(key: string, spec: OptSpec): (d: Desc)
    ensures spec.ForwardName? ==> d == Desc(key, spec.target, false, false, false, None)
    ensures spec.Spec? ==> d.name == (if spec.name != "" then spec.name else key)
    ensures spec.Spec? ==> (d.forwardTo == spec.forwardTo && d.handlesSet == spec.handlesSet
      && d.hasSet == spec.hasSet && d.hasGet == spec.hasGet && d.value == spec.value)
  {
    match spec
    case ForwardName(target) => Desc(key, target, false, false, false, None)
    case Spec(name, fwd, hs, s, g, _, v) => Desc(if name != "" then name else key, fwd, hs, s, g, v)
  }

  /** Object and table references stay inside the arena. */
  predicate WellFormed(objs: seq<Obj>, nTables: nat) {
    forall i :: 0 <= i < |objs| ==>
      (objs[i].table.Some? ==> objs[i].table.value < nTables) &&
      (forall k :: k in objs[i].links && objs[i].links[k].Ref? ==> objs[i].links[k].id < |objs|)
  }

  /** Adding a table keeps the objects' table pointers in range. */
  lemma WellFormedGrow(objs: seq<Obj>, n: nat)
    requires WellFormed(objs, n)
    ensures WellFormed(objs, n + 1)
  {
  }

  /** The identifiers `0 .. n-1`. */
  function Ids(n: nat): (r: set<nat>)
    ensures forall i: nat :: i in r <==> i < n
  {
    if n == 0 then {} else Ids(n - 1) + {n - 1}
  }

  /** Why a `setOption`/`getOption` call stops before reaching an option that does not forward. */
  datatype StopKind =
    | Unchanged    // `this['$'+name] === value` (setOption only)
    | Misspelled   // no such option: warn
    | NoTarget(target: Value)  // `this[opt.forwardTo]` is falsy: the call returns it
    | NotProvider  // the target is truthy but has no `setOption`/`getOption`: TypeError
    | Recursion    // forwarding came back to an object already on the call stack: the calls never end

  datatype Route = Stop(at: nat, kind: StopKind) | Final(at: nat, desc: Desc)

  /**
   * Where a call `objs[p].setOption(name, value)` (`setValue == Some(value)`)
   * or `objs[p].getOption(name)` (`setValue == None`) ends up after following
   * `forwardTo`; `visited` holds the objects whose calls are still on the stack.
   */
  function RouteOf(objs: seq<Obj>, tables: seq<Table>, p: nat, name: string, setValue: Option<Value>, visited: set<nat>): (r: Route)
    requires WellFormed(objs, |tables|)
    requires p < |objs| && objs[p].table.Some?
    requires visited <= Ids(|objs|)
    ensures r.at < |objs| && objs[r.at].table.Some?
    ensures r.Final? ==> (name in tables[objs[r.at].table.value] && tables[objs[r.at].table.value][name] == r.desc
      && r.desc.forwardTo == "" && r.at !in visited)
    ensures r == Stop(r.at, Unchanged) ==> setValue.Some? && Stored(objs[r.at], name) == setValue.value
    ensures r == Stop(r.at, Misspelled) ==> name !in tables[objs[r.at].table.value]
    ensures r.Stop? && r.kind.NoTarget? ==> !Truthy(r.kind.target)
    decreases Ids(|objs|) - visited
  {
    if p in visited then Stop(p, Recursion)
    else if setValue.Some? && Stored(objs[p], name) == setValue.value then Stop(p, Unchanged)
    else
      var t := objs[p].table.value;
      if name !in tables[t] then Stop(p, Misspelled)
      else
        var d := tables[t][name];
        if d.forwardTo == "" then Final(p, d)
        else
          var v := Prop(objs[p], d.forwardTo);
          if !Truthy(v) then Stop(p, NoTarget(v))
          else if !v.Ref? || objs[v.id].table.None? then Stop(p, NotProvider)
          else
            assert p in Ids(|objs|) - visited;
            RouteOf(objs, tables, v.id, name, setValue, visited + {p})
  }

  function StoreAt(objs: seq<Obj>, q: nat, name: string, v: Value): (r: seq<Obj>)
    requires q < |objs|
    ensures |r| == |objs| && Stored(r[q], name) == v
    ensures forall i :: 0 <= i < |r| ==> r[i].table == objs[i].table && r[i].links == objs[i].links
  {
    objs[q := objs[q].(store := objs[q].store[name := v])]
  }

  /** The effect of `setOption(name, value)` that ends at `route`: the new objects, warnings, hook calls and completion. */
  function SetEffect(objs: seq<Obj>, warnings: seq<string>, calls: seq<HookCall>, route: Route, name: string, value: Value)
    : (r: (seq<Obj>, seq<string>, seq<HookCall>, Completion<Value>))
    requires route.at < |objs|
    ensures route.Stop? ==> r.0 == objs && r.2 == calls
    ensures r.1 == if route == Stop(route.at, Misspelled) then warnings + [MisspelledMessage(name)] else warnings
    ensures r.3 == if route == Stop(route.at, NotProvider) then Throw(TypeError)
                   else if route == Stop(route.at, Recursion) then Throw(RangeError)
                   else if route.Stop? && route.kind.NoTarget? then Normal(route.kind.target)
                   else Normal(Undefined)
    ensures route.Final? ==>
      && |r.0| == |objs| && (forall i :: 0 <= i < |objs| && i != route.at ==> r.0[i] == objs[i])
      && (if route.desc.handlesSet then r.0 == objs else Stored(r.0[route.at], name) == value)
      && r.2 == calls + (if route.desc.hasSet then [HookCall(route.at, name, value, Stored(r.0[route.at], name))] else [])
  {
    match route
    case Stop(_, Unchanged) => (objs, warnings, calls, Normal(Undefined))
    case Stop(_, NoTarget(v)) => (objs, warnings, calls, Normal(v))
    case Stop(_, Misspelled) => (objs, warnings + [MisspelledMessage(name)], calls, Normal(Undefined))
    case Stop(_, NotProvider) => (objs, warnings, calls, Throw(TypeError))
    case Stop(_, Recursion) => (objs, warnings, calls, Throw(RangeError))
    case Final(q, d) =>
      var objs' := if !d.handlesSet then StoreAt(objs, q, name, value) else objs;
      (objs', warnings, if d.hasSet then calls + [HookCall(q, name, value, Stored(objs'[q], name))] else calls, Normal(Undefined))
  }

  /** The `get` hooks, code the model cannot see: the value `get` returns on an object for an option. */
  type GetHook = (nat, string) -> Value

  /** What `getOption(name)` returns when it ends at `route`. */
  function GetResult(objs: seq<Obj>, route: Route, name: string, getHook: GetHook): (r: Completion<Value>)
    requires route.at < |objs|
    ensures route.Stop? ==> r == if route.kind == NotProvider then Throw(TypeError)
                                 else if route.kind == Recursion then Throw(RangeError)
                                 else if route.kind.NoTarget? then Normal(route.kind.target)
                                 else Normal(Undefined)
    ensures route.Final? ==> r == Normal(if route.desc.hasGet then getHook(route.at, name) else Stored(objs[route.at], name))
  {
    match route
    case Stop(_, NotProvider) => Throw(TypeError)
    case Stop(_, Recursion) => Throw(RangeError)
    case Stop(_, NoTarget(v)) => Normal(v)
    case Stop(_, _) => Normal(Undefined)
    case Final(q, d) => Normal(if d.hasGet then getHook(q, name) else Stored(objs[q], name))
  }

  // ----- The order `for...in` visits the keys of `$defaultOptions` ---------

  /** The value of a decimal numeral (a character that is not a digit reads as 0). */
  function DecimalValue(k: string): nat
    decreases |k|
  {
    if k == [] then 0
    else
      var c := k[|k| - 1];
      10 * DecimalValue(k[..|k| - 1]) + (if '0' <= c <= '9' then c as int - '0' as int else 0)
  }

  predicate AllDigits(k: string) {
    forall i :: 0 <= i < |k| ==> '0' <= k[i] <= '9'
  }

  /**
   * `k` is an array index: the canonical numeral (no sign, no leading zero)
   * of an integer below 2^32 - 1. These are the keys an ordinary object
   * enumerates first.
   */
  predicate IsArrayIndex(k: string) {
    0 < |k| <= 10 && AllDigits(k) && (k[0] == '0' ==> |k| == 1) && DecimalValue(k) < 0xFFFF_FFFF
  }

  /**
   * `keys` are in the order `for...in` visits an ordinary object's own keys:
   * every array index before every other key, the array indices ascending.
   * (The other keys follow in the order they were created, which `PutPath`
   * keeps.)
   */
  predicate ForInOrdered(keys: seq<string>) {
    forall i, j :: 0 <= i < j < |keys| && IsArrayIndex(keys[j]) ==>
      IsArrayIndex(keys[i]) && DecimalValue(keys[i]) < DecimalValue(keys[j])
  }

  /** How many leading keys are array indices below `v`: where an array index of value `v` goes. */
  function IndexSlot(keys: seq<string>, v: nat): (j: nat)
    ensures j <= |keys|
    ensures forall k :: 0 <= k < j ==> IsArrayIndex(keys[k]) && DecimalValue(keys[k]) < v
    ensures j < |keys| ==> !IsArrayIndex(keys[j]) || DecimalValue(keys[j]) >= v
    decreases |keys|
  {
    if keys == [] || !IsArrayIndex(keys[0]) || DecimalValue(keys[0]) >= v then 0
    else 1 + IndexSlot(keys[1..], v)
  }

  /**
   * `$defaultOptions[path] = table`: a key already present keeps its place;
   * a new array index goes in at its numeric place among the array indices,
   * any other new key after every key so far.
   */
  function PutPath(paths: seq<string>, byPath: map<string, nat>, path: string, t: nat): (r: (seq<string>, map<string, nat>))
    ensures r.1 == byPath[path := t]
    ensures path in byPath ==> r.0 == paths
    ensures path !in byPath ==> |r.0| == |paths| + 1
    ensures path !in byPath ==> forall k :: k in r.0 <==> k == path || k in paths
    ensures path !in byPath && !IsArrayIndex(path) ==> r.0 == paths + [path]
    ensures (forall k :: k in byPath ==> k in paths) ==> (forall k :: k in r.1 ==> k in r.0)
  {
    if path in byPath then (paths, byPath[path := t])
    else
      var j := if IsArrayIndex(path) then IndexSlot(paths, DecimalValue(path)) else |paths|;
      assert paths == paths[..j] + paths[j..];
      assert forall k :: k in paths[..j] + [path] + paths[j..] <==> k == path || k in paths;
      (paths[..j] + [path] + paths[j..], byPath[path := t])
  }

  /** A new key is inserted into `$defaultOptions`'s key list: the earlier keys keep their order around it. */
  lemma PutPathInserts(paths: seq<string>, byPath: map<string, nat>, path: string, t: nat)
    requires path !in byPath
    ensures exists j :: 0 <= j <= |paths| && PutPath(paths, byPath, path, t).0 == paths[..j] + [path] + paths[j..]
  {
    var j := if IsArrayIndex(path) then IndexSlot(paths, DecimalValue(path)) else |paths|;
    assert PutPath(paths, byPath, path, t).0 == paths[..j] + [path] + paths[j..];
  }

  function Pow10(n: nat): (r: nat)
    ensures r >= 1
  {
    if n == 0 then 1 else 10 * Pow10(n - 1)
  }

  lemma {:induction false} Pow10Monotone(m: nat, n: nat)
    requires m <= n
    ensures Pow10(m) <= Pow10(n)
    decreases n
  {
    if m < n {
      Pow10Monotone(m, n - 1);
    }
  }

  /** A numeral of `n` digits is below 10^n. */
  lemma {:induction false} DecimalBelow(k: string)
    requires AllDigits(k)
    ensures DecimalValue(k) < Pow10(|k|)
    decreases |k|
  {
    if k != [] {
      var front := k[..|k| - 1];
      assert AllDigits(front) by {
        forall i | 0 <= i < |front| ensures '0' <= front[i] <= '9' { assert front[i] == k[i]; }
      }
      DecimalBelow(front);
    }
  }

  /** A numeral of `n` digits without a leading zero is at least 10^(n-1). */
  lemma {:induction false} DecimalAbove(k: string)
    requires AllDigits(k) && |k| > 0 && k[0] != '0'
    ensures DecimalValue(k) >= Pow10(|k| - 1)
    decreases |k|
  {
    if |k| > 1 {
      var front := k[..|k| - 1];
      assert AllDigits(front) by {
        forall i | 0 <= i < |front| ensures '0' <= front[i] <= '9' { assert front[i] == k[i]; }
      }
      assert front[0] == k[0];
      DecimalAbove(front);
    }
  }

  /** Two numerals of the same length with the same value are the same numeral. */
  lemma {:induction false} DecimalSameLength(a: string, b: string)
    requires AllDigits(a) && AllDigits(b) && |a| == |b|
    ensures a != b ==> DecimalValue(a) != DecimalValue(b)
    decreases |a|
  {
    if a != [] && DecimalValue(a) == DecimalValue(b) {
      var fa, fb := a[..|a| - 1], b[..|b| - 1];
      var da, db := a[|a| - 1] as int - '0' as int, b[|b| - 1] as int - '0' as int;
      assert DecimalValue(a) == 10 * DecimalValue(fa) + da;
      assert DecimalValue(b) == 10 * DecimalValue(fb) + db;
      assert da == db && DecimalValue(fa) == DecimalValue(fb) by {
        DivModDigit(DecimalValue(fa), da, DecimalValue(fb), db);
      }
      assert AllDigits(fa) by {
        forall i | 0 <= i < |fa| ensures '0' <= fa[i] <= '9' { assert fa[i] == a[i]; }
      }
      assert AllDigits(fb) by {
        forall i | 0 <= i < |fb| ensures '0' <= fb[i] <= '9' { assert fb[i] == b[i]; }
      }
      DecimalSameLength(fa, fb);
      assert a == fa + [a[|a| - 1]] && b == fb + [b[|b| - 1]];
    }
  }

  lemma DivModDigit(x: nat, d: int, y: nat, e: int)
    requires 0 <= d < 10 && 0 <= e < 10 && 10 * x + d == 10 * y + e
    ensures d == e && x == y
  {
  }

  /** Distinct array indices have distinct values: each is the one canonical numeral of its value. */
  lemma ArrayIndexDistinct(a: string, b: string)
    requires IsArrayIndex(a) && IsArrayIndex(b) && a != b
    ensures DecimalValue(a) != DecimalValue(b)
  {
    if |a| == |b| {
      DecimalSameLength(a, b);
    } else if |a| < |b| {
      DecimalBelow(a);
      DecimalAbove(b);
      Pow10Monotone(|a|, |b| - 1);
    } else {
      DecimalBelow(b);
      DecimalAbove(a);
      Pow10Monotone(|b|, |a| - 1);
    }
  }

  /** Past the slot `IndexSlot` finds, an ordered key list holds only array indices that are not smaller. */
  lemma {:induction false} IndexSlotRest(keys: seq<string>, v: nat)
    requires ForInOrdered(keys)
    ensures forall k :: IndexSlot(keys, v) <= k < |keys| && IsArrayIndex(keys[k]) ==> DecimalValue(keys[k]) >= v
  {
    var j := IndexSlot(keys, v);
    forall k | j <= k < |keys| && IsArrayIndex(keys[k])
      ensures DecimalValue(keys[k]) >= v
    {
      if k > j {
        assert IsArrayIndex(keys[j]) && DecimalValue(keys[j]) < DecimalValue(keys[k]);
      }
    }
  }

  /**
   * `$defaultOptions` as `paths` and `byPath`: the same keys, in `for...in`
   * order, each naming one of the `n` tables.
   */
  predicate KeysValid(paths: seq<string>, byPath: map<string, nat>, n: nat) {
    (forall p :: p in byPath ==> byPath[p] < n) &&
    (forall k :: 0 <= k < |paths| ==> paths[k] in byPath) &&
    ForInOrdered(paths) &&
    (forall p :: p in byPath ==> p in paths)
  }

  /** Registering a new table under a path keeps `$defaultOptions` well formed. */
  lemma PutPathKeepsKeysValid(paths: seq<string>, byPath: map<string, nat>, path: string, n: nat)
    requires KeysValid(paths, byPath, n)
    ensures var r := PutPath(paths, byPath, path, n); KeysValid(r.0, r.1, n + 1)
  {
    var r := PutPath(paths, byPath, path, n);
    PutPathKeepsForInOrder(paths, byPath, path, n);
    assert forall p :: p in r.1 ==> r.1[p] < n + 1;
    if path in byPath {
      assert r.0 == paths;
    } else {
      assert forall k :: 0 <= k < |r.0| ==> r.0[k] in r.1 by {
        forall k | 0 <= k < |r.0| ensures r.0[k] in r.1 {
          assert r.0[k] in r.0;
        }
      }
    }
  }

  /** Adding a key to `$defaultOptions` keeps its keys in `for...in` order. */
  lemma PutPathKeepsForInOrder(paths: seq<string>, byPath: map<string, nat>, path: string, t: nat)
    requires ForInOrdered(paths)
    requires forall k :: 0 <= k < |paths| ==> paths[k] in byPath
    ensures ForInOrdered(PutPath(paths, byPath, path, t).0)
  {
    if path !in byPath {
      var r := PutPath(paths, byPath, path, t).0;
      if IsArrayIndex(path) {
        var v := DecimalValue(path);
        var j := IndexSlot(paths, v);
        IndexSlotRest(paths, v);
        assert r == paths[..j] + [path] + paths[j..];
        forall k | 0 <= k < |paths| && IsArrayIndex(paths[k])
          ensures DecimalValue(paths[k]) != v
        {
          ArrayIndexDistinct(paths[k], path);
        }
        forall a, b | 0 <= a < b < |r| && IsArrayIndex(r[b])
          ensures IsArrayIndex(r[a]) && DecimalValue(r[a]) < DecimalValue(r[b])
        {
          if b < j {
            assert r[a] == paths[a] && r[b] == paths[b];
          } else if b == j {
            assert r[a] == paths[a];
          } else if a < j {
            assert r[a] == paths[a] && r[b] == paths[b - 1];
          } else if a == j {
            assert r[b] == paths[b - 1];
          } else {
            assert r[a] == paths[a - 1] && r[b] == paths[b - 1];
          }
        }
      } else {
        assert r == paths + [path];
      }
    }
  }

  /** The table after registering the entries of `defineOptions`'s `options`, in order. */
  function RegisterAll(tbl: Table, entries: seq<(string, OptSpec)>): (r: Table)
    ensures forall k :: k in tbl ==> k in r
    ensures forall i :: 0 <= i < |entries| ==> Normalize(entries[i].0, entries[i].1).name in r
    decreases |entries|
  {
    if entries == [] then tbl
    else
      var d := Normalize(entries[0].0, entries[0].1);
      RegisterAll(tbl[d.name := d], entries[1..])
  }

  /** The stored values after copying every `initialValue` into `this['$'+name]`, in order. */
  function InitAll(store: map<string, Value>, entries: seq<(string, OptSpec)>): (r: map<string, Value>)
    ensures forall k :: k in store ==> k in r
    ensures forall i :: 0 <= i < |entries| && entries[i].1.Spec? && entries[i].1.initialValue.Some? ==>
      Normalize(entries[i].0, entries[i].1).name in r
    decreases |entries|
  {
    if entries == [] then store
    else
      var spec := entries[0].1;
      var d := Normalize(entries[0].0, spec);
      InitAll(if spec.Spec? && spec.initialValue.Some? then store[d.name := spec.initialValue.value] else store, entries[1..])
  }

  /** True when option `name` is registered in the table of `$defaultOptions[path]`. */
  predicate PathHas(tables: seq<Table>, byPath: map<string, nat>, path: string, name: string) {
    path in byPath && byPath[path] < |tables| && name in tables[byPath[path]]
  }

  /** The key the `for (path in $defaultOptions)` loop stops at: the first table defining `name`, else the last key. */
  function SearchPath(tables: seq<Table>, paths: seq<string>, byPath: map<string, nat>, name: string): (i: nat)
    requires paths != []
    ensures i < |paths|
    ensures forall k :: 0 <= k < i ==> !PathHas(tables, byPath, paths[k], name)
    ensures PathHas(tables, byPath, paths[i], name) || i == |paths| - 1
    decreases |paths|
  {
    if PathHas(tables, byPath, paths[0], name) || |paths| == 1 then 0
    else 1 + SearchPath(tables, paths[1..], byPath, name)
  }

  /** The key a descriptor object reads as when it is used to index an object. */
  const ObjectKey: string := "[object Object]"

  /**
   * `setDefaultValue(path, name, value)` once `path` is known. `hop` counts the
   * nested calls made through `opts.forwardTo`: that reads the table's own
   * entry named "forwardTo" (a descriptor object, whose key reads as
   * "[object Object]"), so a second nested call would repeat the first one
   * forever.
   */
  function SetDefaultAt(tables: seq<Table>, paths: seq<string>, byPath: map<string, nat>,
                        path: string, name: string, value: Value, hop: nat)
    : (r: (seq<Table>, seq<string>, map<string, nat>, Completion<Value>))
    requires forall p :: p in byPath ==> byPath[p] < |tables|
    requires hop <= 1
    ensures |r.0| >= |tables| && (forall p :: p in r.2 ==> r.2[p] < |r.0|)
    decreases 1 - hop
  {
    var tables1: seq<Table> := if path in byPath then tables else tables + [map[]];
    var pb := if path in byPath then (paths, byPath) else PutPath(paths, byPath, path, |tables|);
    var paths1, byPath1 := pb.0, pb.1;
    var t := byPath1[path];
    var opts := tables1[t];
    if name !in opts then (tables1, paths1, byPath1, Normal(Undefined))
    else if "forwardTo" in opts then
      if hop == 1 then (tables1, paths1, byPath1, Throw(RangeError))
      else SetDefaultAt(tables1, paths1, byPath1, ObjectKey, name, value, 1)
    else (tables1[t := opts[name := opts[name].(value := Some(value))]], paths1, byPath1, Normal(Undefined))
  }

  /** `setDefaultValue(path, name, value)`: `Bool(false)` when no table defines `name`, `Undefined` otherwise. */
  function SetDefaultEffect(tables: seq<Table>, paths: seq<string>, byPath: map<string, nat>,
                            path: string, name: string, value: Value)
    : (r: (seq<Table>, seq<string>, map<string, nat>, Completion<Value>))
    requires forall p :: p in byPath ==> byPath[p] < |tables|
    ensures |r.0| >= |tables| && (forall p :: p in r.2 ==> r.2[p] < |r.0|)
    ensures path == "" && paths == [] ==> r == (tables, paths, byPath, Throw(TypeError))
    ensures path == "" && paths != [] && (forall k :: 0 <= k < |paths| ==> !PathHas(tables, byPath, paths[k], name)) ==>
      r == (tables, paths, byPath, Normal(Bool(false)))
    ensures r.3 != Normal(Bool(false)) ==> r.3.Throw? || r.3 == Normal(Undefined)
  {
    if path != "" then SetDefaultAt(tables, paths, byPath, path, name, value, 0)
    else if paths == [] then (tables, paths, byPath, Throw(TypeError))
    else
      var found := paths[SearchPath(tables, paths, byPath, name)];
      if !PathHas(tables, byPath, found, name) then (tables, paths, byPath, Normal(Bool(false)))
      else SetDefaultAt(tables, paths, byPath, found, name, value, 0)
  }

  class OptionsHeap {
    var objects: seq<Obj>
    var tables: seq<Table>
    /** `$defaultOptions`: its keys in enumeration order, and the table of each key. */
    var paths: seq<string>
    var byPath: map<string, nat>
    var warnings: seq<string>
    var setHookCalls: seq<HookCall>

    ghost predicate Valid()
      reads this
    {
      WellFormed(objects, |tables|) && KeysValid(paths, byPath, |tables|)
    }

    /** `new AppConfig()` over a heap that holds the objects `objs`. */
    constructor (objs: seq<Obj>)
      requires forall i :: 0 <= i < |objs| ==> objs[i].table.None?
      requires WellFormed(objs, 0)
      ensures Valid()
      ensures objects == objs && tables == [] && paths == [] && byPath == map[]
      ensures warnings == [] && setHookCalls == []
    {
      objects, tables, paths, byPath := objs, [], [], map[];
      warnings, setHookCalls := [], [];
    }

    /** `objects[p].setOption(name, value)`. */
    method SetOption(p: nat, name: string, value: Value) returns (res: Completion<Value>)
      requires Valid() && p < |objects| && objects[p].table.Some?
      modifies this
      ensures Valid()
      ensures tables == old(tables) && paths == old(paths) && byPath == old(byPath)
      ensures (objects, warnings, setHookCalls, res) ==
        SetEffect(old(objects), old(warnings), old(setHookCalls), RouteOf(old(objects), tables, p, name, Some(value), {}), name, value)
    {
      res := SetOptionFrom(p, name, value, {});
    }

    method SetOptionFrom(p: nat, name: string, value: Value, visited: set<nat>) returns (res: Completion<Value>)
      requires Valid() && p < |objects| && objects[p].table.Some? && visited <= Ids(|objects|)
      modifies this
      ensures Valid()
      ensures tables == old(tables) && paths == old(paths) && byPath == old(byPath)
      ensures (objects, warnings, setHookCalls, res) ==
        SetEffect(old(objects), old(warnings), old(setHookCalls), RouteOf(old(objects), tables, p, name, Some(value), visited), name, value)
      decreases Ids(|objects|) - visited
    {
      if p in visited {
        return Throw(RangeError);
      }
      if Stored(objects[p], name) == value {
        return Normal(Undefined);
      }
      var opts := tables[objects[p].table.value];
      if name !in opts {
        warnings := warnings + [MisspelledMessage(name)];
        return Normal(Undefined);
      }
      var opt := opts[name];
      if opt.forwardTo != "" {
        var target := Prop(objects[p], opt.forwardTo);
        if !Truthy(target) {
          return Normal(target);
        }
        if !target.Ref? || objects[target.id].table.None? {
          return Throw(TypeError);
        }
        var q := target.id;
        assert p in Ids(|objects|) - visited;
        res := SetOptionFrom(q, name, value, visited + {p});
        return;
      }
      if !opt.handlesSet {
        objects := StoreAt(objects, p, name, value);
      }
      if opt.hasSet {
        setHookCalls := setHookCalls + [HookCall(p, name, value, Stored(objects[p], name))];
      }
      res := Normal(Undefined);
    }

    /** `objects[p].getOption(name)`; `getHook(q, name)` is what the `get` hook of `q` returns. */
    method GetOption(p: nat, name: string, getHook: GetHook) returns (res: Completion<Value>)
      requires Valid() && p < |objects| && objects[p].table.Some?
      modifies this
      ensures Valid()
      ensures objects == old(objects) && tables == old(tables) && paths == old(paths) && byPath == old(byPath)
      ensures setHookCalls == old(setHookCalls)
      ensures var route := RouteOf(objects, tables, p, name, None, {});
        res == GetResult(objects, route, name, getHook) &&
        warnings == old(warnings) + (if route == Stop(route.at, Misspelled) then [MisspelledMessage(name)] else [])
    {
      res := GetOptionFrom(p, name, getHook, {});
    }

    method GetOptionFrom(p: nat, name: string, getHook: GetHook, visited: set<nat>) returns (res: Completion<Value>)
      requires Valid() && p < |objects| && objects[p].table.Some? && visited <= Ids(|objects|)
      modifies this
      ensures Valid()
      ensures objects == old(objects) && tables == old(tables) && paths == old(paths) && byPath == old(byPath)
      ensures setHookCalls == old(setHookCalls)
      ensures var route := RouteOf(objects, tables, p, name, None, visited);
        res == GetResult(objects, route, name, getHook) &&
        warnings == old(warnings) + (if route == Stop(route.at, Misspelled) then [MisspelledMessage(name)] else [])
      decreases Ids(|objects|) - visited
    {
      if p in visited {
        return Throw(RangeError);
      }
      var opts := tables[objects[p].table.value];
      if name !in opts {
        warnings := warnings + [MisspelledMessage(name)];
        return Normal(Undefined);
      }
      var opt := opts[name];
      if opt.forwardTo != "" {
        var target := Prop(objects[p], opt.forwardTo);
        if !Truthy(target) {
          return Normal(target);
        }
        if !target.Ref? || objects[target.id].table.None? {
          return Throw(TypeError);
        }
        var q := target.id;
        assert p in Ids(|objects|) - visited;
        res := GetOptionFrom(q, name, getHook, visited + {p});
        return;
      }
      res := Normal(if opt.hasGet then getHook(p, name) else Stored(objects[p], name));
    }

    /** `$defaultOptions[path] = obj.$options = {}` for an object `objects[p]` without an option table. */
    method AttachTable(p: nat, path: string) returns (t: nat)
      requires Valid() && p < |objects| && objects[p].table.None?
      modifies this
      ensures Valid()
      ensures t == |old(tables)| && tables == old(tables) + [map[]]
      ensures objects == old(objects)[p := old(objects[p]).(table := Some(t))]
      ensures (paths, byPath) == PutPath(old(paths), old(byPath), path, t)
      ensures warnings == old(warnings) && setHookCalls == old(setHookCalls)
    {
      t := AddPath(path);
      objects := objects[p := objects[p].(table := Some(t))];
    }

    /** `$defaultOptions[path] = {}` for a path it does not hold yet. */
    method AddPath(path: string) returns (t: nat)
      requires Valid()
      modifies this
      ensures WellFormed(objects, |tables|) && KeysValid(paths, byPath, |tables|)
      ensures t == |old(tables)| && tables == old(tables) + [map[]]
      ensures (paths, byPath) == PutPath(old(paths), old(byPath), path, t)
      ensures objects == old(objects) && warnings == old(warnings) && setHookCalls == old(setHookCalls)
    {
      t := |tables|;
      PutPathKeepsKeysValid(paths, byPath, path, t);
      WellFormedGrow(objects, t);
      tables := tables + [map[]];
      paths, byPath := PutPath(paths, byPath, path, t).0, PutPath(paths, byPath, path, t).1;
    }

    /** `defineOptions(objects[p], path, options)`, the keys of `options` given in enumeration order. */
    method DefineOptions(p: nat, path: string, entries: seq<(string, OptSpec)>)
      requires Valid() && p < |objects|
      modifies this
      ensures Valid()
      ensures warnings == old(warnings) && setHookCalls == old(setHookCalls)
      ensures |objects| == |old(objects)| && objects[p].table.Some?
      ensures forall i :: 0 <= i < |objects| && i != p ==> objects[i] == old(objects[i])
      ensures objects[p].links == old(objects[p].links)
      ensures objects[p].store == InitAll(old(objects[p].store), entries)
      ensures old(objects[p].table).Some? ==>
        objects[p].table == old(objects[p].table) && tables == old(tables)[objects[p].table.value := RegisterAll(old(tables)[objects[p].table.value], entries)]
        && paths == old(paths) && byPath == old(byPath)
      ensures old(objects[p].table).None? ==>
        objects[p].table == Some(|old(tables)|) && tables == old(tables) + [RegisterAll(map[], entries)]
        && (paths, byPath) == PutPath(old(paths), old(byPath), path, |old(tables)|)
    {
      var t: nat;
      if objects[p].table.None? {
        t := AttachTable(p, path);
      } else {
        t := objects[p].table.value;
      }
      var tbl := tables[t];
      var store := objects[p].store;
      ghost var tbl0 := tbl;
      ghost var store0 := store;
      var i := 0;
      while i < |entries|
        invariant 0 <= i <= |entries|
        invariant RegisterAll(tbl, entries[i..]) == RegisterAll(tbl0, entries)
        invariant InitAll(store, entries[i..]) == InitAll(store0, entries)
        modifies {}
      {
        assert entries[i..][1..] == entries[i + 1..];
        var (key, spec) := entries[i];
        var opt := Normalize(key, spec);
        tbl := tbl[opt.name := opt];
        if spec.Spec? && spec.initialValue.Some? {
          store := store[opt.name := spec.initialValue.value];
        }
        i := i + 1;
      }
      assert RegisterAll(tbl, entries[i..]) == tbl && InitAll(store, entries[i..]) == store;
      tables := tables[t := tbl];
      objects := objects[p := objects[p].(store := store)];
    }

    /** `setDefaultValue(path, name, value)`; `""` stands for a falsy `path`. */
    method SetDefaultValue(path: string, name: string, value: Value) returns (res: Completion<Value>)
      requires Valid()
      modifies this
      ensures Valid()
      ensures objects == old(objects) && warnings == old(warnings) && setHookCalls == old(setHookCalls)
      ensures (tables, paths, byPath, res) == SetDefaultEffect(old(tables), old(paths), old(byPath), path, name, value)
    {
      var key := path;
      if key == "" {
        if paths == [] {
          return Throw(TypeError);
        }
        var i := 0;
        key := paths[0];
        while i < |paths| - 1 && !PathHas(tables, byPath, key, name)
          invariant 0 <= i < |paths| && key == paths[i]
          invariant forall k :: 0 <= k < i ==> !PathHas(tables, byPath, paths[k], name)
          invariant SearchPath(tables, paths, byPath, name) >= i
        {
          i := i + 1;
          key := paths[i];
        }
        assert SearchPath(tables, paths, byPath, name) == i;
        if !PathHas(tables, byPath, key, name) {
          return Normal(Bool(false));
        }
      }
      res := SetDefaultFrom(key, name, value, 0);
    }

    method SetDefaultFrom(path: string, name: string, value: Value, hop: nat) returns (res: Completion<Value>)
      requires Valid() && hop <= 1
      modifies this
      ensures Valid()
      ensures objects == old(objects) && warnings == old(warnings) && setHookCalls == old(setHookCalls)
      ensures (tables, paths, byPath, res) == SetDefaultAt(old(tables), old(paths), old(byPath), path, name, value, hop)
      decreases 1 - hop
    {
      if path !in byPath {
        var _ := AddPath(path);
      }
      var t := byPath[path];
      var opts := tables[t];
      if name in opts {
        if "forwardTo" in opts {
          if hop == 1 {
            return Throw(RangeError);
          }
          res := SetDefaultFrom(ObjectKey, name, value, 1);
          return;
        }
        tables := tables[t := opts[name := opts[name].(value := Some(value))]];
      }
      res := Normal(Undefined);
    }
  }

  // ----- Properties of setOption / getOption ------------------------------

  /** `setOption` does nothing when `this['$'+name]` already holds the value. */
  lemma SetSameValueIsNoOp(objs: seq<Obj>, tables: seq<Table>, warnings: seq<string>, calls: seq<HookCall>,
                           p: nat, name: string, value: Value)
    requires WellFormed(objs, |tables|) && p < |objs| && objs[p].table.Some?
    requires Stored(objs[p], name) == value
    ensures SetEffect(objs, warnings, calls, RouteOf(objs, tables, p, name, Some(value), {}), name, value)
      == (objs, warnings, calls, Normal(Undefined))
  {
  }

  /** An unknown option warns and changes nothing, for `setOption`... */
  lemma SetUnknownOnlyWarns(objs: seq<Obj>, tables: seq<Table>, warnings: seq<string>, calls: seq<HookCall>,
                            p: nat, name: string, value: Value)
    requires WellFormed(objs, |tables|) && p < |objs| && objs[p].table.Some?
    requires Stored(objs[p], name) != value && name !in tables[objs[p].table.value]
    ensures SetEffect(objs, warnings, calls, RouteOf(objs, tables, p, name, Some(value), {}), name, value)
      == (objs, warnings + [MisspelledMessage(name)], calls, Normal(Undefined))
  {
  }

  /** ...and for `getOption`, which then returns undefined. */
  lemma GetUnknownOnlyWarns(objs: seq<Obj>, tables: seq<Table>, p: nat, name: string, getHook: GetHook)
    requires WellFormed(objs, |tables|) && p < |objs| && objs[p].table.Some?
    requires name !in tables[objs[p].table.value]
    ensures var route := RouteOf(objs, tables, p, name, None, {});
      route == Stop(p, Misspelled) && GetResult(objs, route, name, getHook) == Normal(Undefined)
  {
  }

  /**
   * A forwarding option delegates: `setOption` and `getOption` on `p` behave
   * as on the object the option forwards to.
   */
  lemma ForwardDelegates(objs: seq<Obj>, tables: seq<Table>, p: nat, name: string, setValue: Option<Value>)
    requires WellFormed(objs, |tables|) && p < |objs| && objs[p].table.Some?
    requires setValue.Some? ==> Stored(objs[p], name) != setValue.value
    requires name in tables[objs[p].table.value]
    requires var d := tables[objs[p].table.value][name];
      d.forwardTo != "" && Prop(objs[p], d.forwardTo).Ref? && objs[Prop(objs[p], d.forwardTo).id].table.Some?
    ensures var q := Prop(objs[p], tables[objs[p].table.value][name].forwardTo).id;
      RouteOf(objs, tables, p, name, setValue, {}) == RouteOf(objs, tables, q, name, setValue, {p})
  {
    assert {} + {p} == {p};
  }

  /**
   * `this[opt.forwardTo] && ...`: a falsy forward target (`undefined`,
   * `null`, `0`, `false`, `""`) is what both calls return, and nothing changes.
   */
  lemma FalsyTargetReturned(objs: seq<Obj>, tables: seq<Table>, warnings: seq<string>, calls: seq<HookCall>,
                            p: nat, name: string, value: Value, getHook: GetHook)
    requires WellFormed(objs, |tables|) && p < |objs| && objs[p].table.Some?
    requires name in tables[objs[p].table.value]
    requires var d := tables[objs[p].table.value][name];
      d.forwardTo != "" && !Truthy(Prop(objs[p], d.forwardTo))
    ensures var v := Prop(objs[p], tables[objs[p].table.value][name].forwardTo);
      GetResult(objs, RouteOf(objs, tables, p, name, None, {}), name, getHook) == Normal(v)
    ensures var v := Prop(objs[p], tables[objs[p].table.value][name].forwardTo);
      Stored(objs[p], name) != value ==>
        SetEffect(objs, warnings, calls, RouteOf(objs, tables, p, name, Some(value), {}), name, value) == (objs, warnings, calls, Normal(v))
  {
  }

  /** A truthy forward target that is not an options provider (a number, a string, `true`, a plain object) makes both calls throw a TypeError. */
  lemma TruthyNonProviderThrows(objs: seq<Obj>, tables: seq<Table>, warnings: seq<string>, calls: seq<HookCall>,
                                p: nat, name: string, value: Value, getHook: GetHook)
    requires WellFormed(objs, |tables|) && p < |objs| && objs[p].table.Some?
    requires name in tables[objs[p].table.value]
    requires var d := tables[objs[p].table.value][name]; var v := Prop(objs[p], d.forwardTo);
      d.forwardTo != "" && Truthy(v) && (v.Ref? ==> objs[v.id].table.None?)
    ensures GetResult(objs, RouteOf(objs, tables, p, name, None, {}), name, getHook) == Throw(TypeError)
    ensures Stored(objs[p], name) != value ==>
      SetEffect(objs, warnings, calls, RouteOf(objs, tables, p, name, Some(value), {}), name, value).3 == Throw(TypeError)
  {
  }

  /** A forwarding chain that comes back to where it started never ends. */
  lemma ForwardToSelfRecurses(objs: seq<Obj>, tables: seq<Table>, p: nat, name: string, getHook: GetHook)
    requires WellFormed(objs, |tables|) && p < |objs| && objs[p].table.Some?
    requires name in tables[objs[p].table.value]
    requires var d := tables[objs[p].table.value][name];
      d.forwardTo != "" && Prop(objs[p], d.forwardTo) == Ref(p)
    ensures GetResult(objs, RouteOf(objs, tables, p, name, None, {}), name, getHook) == Throw(RangeError)
  {
    assert p in Ids(|objs|);
  }

  /** Routing does not depend on stored values in `getOption` mode. */
  lemma {:induction false} GetRouteIgnoresStores(objs: seq<Obj>, objs': seq<Obj>, tables: seq<Table>, p: nat, name: string, visited: set<nat>)
    requires WellFormed(objs, |tables|) && p < |objs| && objs[p].table.Some? && visited <= Ids(|objs|)
    requires |objs'| == |objs| && forall i :: 0 <= i < |objs| ==> objs'[i].table == objs[i].table && objs'[i].links == objs[i].links
    ensures WellFormed(objs', |tables|)
    ensures RouteOf(objs', tables, p, name, None, visited) == RouteOf(objs, tables, p, name, None, visited)
    decreases Ids(|objs|) - visited
  {
    assert WellFormed(objs', |tables|);
    if p !in visited {
      var t := objs[p].table.value;
      if name in tables[t] {
        var d := tables[t][name];
        var v := Prop(objs[p], d.forwardTo);
        if d.forwardTo != "" && v.Ref? && objs[v.id].table.Some? {
          assert p in Ids(|objs|) - visited;
          GetRouteIgnoresStores(objs, objs', tables, v.id, name, visited + {p});
        }
      }
    }
  }

  /** A `setOption` that reaches an option goes where `getOption` goes. */
  lemma {:induction false} SetRouteFinalIsGetRoute(objs: seq<Obj>, tables: seq<Table>, p: nat, name: string, value: Value, visited: set<nat>)
    requires WellFormed(objs, |tables|) && p < |objs| && objs[p].table.Some? && visited <= Ids(|objs|)
    requires RouteOf(objs, tables, p, name, Some(value), visited).Final?
    ensures RouteOf(objs, tables, p, name, None, visited) == RouteOf(objs, tables, p, name, Some(value), visited)
    decreases Ids(|objs|) - visited
  {
    var t := objs[p].table.value;
    var d := tables[t][name];
    if d.forwardTo != "" {
      var q := Prop(objs[p], d.forwardTo).id;
      assert p in Ids(|objs|) - visited;
      SetRouteFinalIsGetRoute(objs, tables, q, name, value, visited + {p});
    }
  }

  /**
   * Set then get: after `setOption(name, value)` stores the value (no
   * `handlesSet`), `getOption(name)` returns it unless a `get` hook answers.
   */
  lemma GetAfterSet(objs: seq<Obj>, tables: seq<Table>, warnings: seq<string>, calls: seq<HookCall>,
                    p: nat, name: string, value: Value, getHook: GetHook)
    requires WellFormed(objs, |tables|) && p < |objs| && objs[p].table.Some?
    requires var route := RouteOf(objs, tables, p, name, Some(value), {});
      route.Final? && !route.desc.handlesSet && !route.desc.hasGet
    ensures var objs' := SetEffect(objs, warnings, calls, RouteOf(objs, tables, p, name, Some(value), {}), name, value).0;
      WellFormed(objs', |tables|) && GetResult(objs', RouteOf(objs', tables, p, name, None, {}), name, getHook) == Normal(value)
  {
    var route := RouteOf(objs, tables, p, name, Some(value), {});
    var objs' := StoreAt(objs, route.at, name, value);
    SetRouteFinalIsGetRoute(objs, tables, p, name, value, {});
    GetRouteIgnoresStores(objs, objs', tables, p, name, {});
  }

  /** Unless the option handles the set itself, the value is stored before the `set` hook runs. */
  lemma SetHookSeesStoredValue(objs: seq<Obj>, tables: seq<Table>, warnings: seq<string>, calls: seq<HookCall>,
                               p: nat, name: string, value: Value)
    requires WellFormed(objs, |tables|) && p < |objs| && objs[p].table.Some?
    requires var route := RouteOf(objs, tables, p, name, Some(value), {});
      route.Final? && route.desc.hasSet
    ensures var route := RouteOf(objs, tables, p, name, Some(value), {});
      var e := SetEffect(objs, warnings, calls, route, name, value);
      e.2 == calls + [HookCall(route.at, name, value, e.2[|calls|].storedAtCall)] &&
      (!route.desc.handlesSet <==> e.2[|calls|].storedAtCall == value)
  {
    var route := RouteOf(objs, tables, p, name, Some(value), {});
    if route.desc.handlesSet {
      // The stored value differs: otherwise the call would have stopped as unchanged.
      RouteFinalStoredDiffers(objs, tables, p, name, value, {});
    }
  }

  /** A `setOption` that reaches an option found a different stored value there. */
  lemma {:induction false} RouteFinalStoredDiffers(objs: seq<Obj>, tables: seq<Table>, p: nat, name: string, value: Value, visited: set<nat>)
    requires WellFormed(objs, |tables|) && p < |objs| && objs[p].table.Some? && visited <= Ids(|objs|)
    requires RouteOf(objs, tables, p, name, Some(value), visited).Final?
    ensures Stored(objs[RouteOf(objs, tables, p, name, Some(value), visited).at], name) != value
    decreases Ids(|objs|) - visited
  {
    var t := objs[p].table.value;
    var d := tables[t][name];
    if d.forwardTo != "" {
      var q := Prop(objs[p], d.forwardTo).id;
      assert p in Ids(|objs|) - visited;
      RouteFinalStoredDiffers(objs, tables, q, name, value, visited + {p});
    }
  }

  // ----- Properties of defineOptions ---------------------------------------

  /** Every entry is registered under its name (`name` defaulting to the key); a later entry of the same name wins. */
  lemma {:induction false} RegisterAllDefines(tbl: Table, entries: seq<(string, OptSpec)>, k: nat)
    requires k < |entries|
    requires forall j :: k < j < |entries| ==> Normalize(entries[j].0, entries[j].1).name != Normalize(entries[k].0, entries[k].1).name
    ensures var d := Normalize(entries[k].0, entries[k].1);
      d.name in RegisterAll(tbl, entries) && RegisterAll(tbl, entries)[d.name] == d
    decreases |entries|
  {
    var d0 := Normalize(entries[0].0, entries[0].1);
    if k == 0 {
      RegisterAllKeeps(tbl[d0.name := d0], entries[1..], d0.name);
    } else {
      assert forall j :: k - 1 < j < |entries[1..]| ==> entries[1..][j] == entries[j + 1];
      RegisterAllDefines(tbl[d0.name := d0], entries[1..], k - 1);
    }
  }

  /** Registering entries of other names leaves an option alone. */
  lemma {:induction false} RegisterAllKeeps(tbl: Table, entries: seq<(string, OptSpec)>, name: string)
    requires name in tbl
    requires forall j :: 0 <= j < |entries| ==> Normalize(entries[j].0, entries[j].1).name != name
    ensures name in RegisterAll(tbl, entries) && RegisterAll(tbl, entries)[name] == tbl[name]
    decreases |entries|
  {
    if entries != [] {
      var d0 := Normalize(entries[0].0, entries[0].1);
      assert forall j :: 0 <= j < |entries[1..]| ==> entries[1..][j] == entries[j + 1];
      RegisterAllKeeps(tbl[d0.name := d0], entries[1..], name);
    }
  }

  /** A string entry becomes an option that forwards to the named property. */
  lemma DefineStringForwards(key: string, target: string)
    ensures Normalize(key, ForwardName(target)).forwardTo == target
    ensures Normalize(key, ForwardName(target)).name == key
  {
  }

  /** The last `initialValue` given for a name is what `this['$'+name]` holds afterwards. */
  lemma {:induction false} InitAllStoresInitialValue(store: map<string, Value>, entries: seq<(string, OptSpec)>, k: nat)
    requires k < |entries| && entries[k].1.Spec? && entries[k].1.initialValue.Some?
    requires forall j :: k < j < |entries| ==> Normalize(entries[j].0, entries[j].1).name != Normalize(entries[k].0, entries[k].1).name
    ensures var name := Normalize(entries[k].0, entries[k].1).name;
      name in InitAll(store, entries) && InitAll(store, entries)[name] == entries[k].1.initialValue.value
    decreases |entries|
  {
    var spec := entries[0].1;
    var d0 := Normalize(entries[0].0, spec);
    var store1 := if spec.Spec? && spec.initialValue.Some? then store[d0.name := spec.initialValue.value] else store;
    if k == 0 {
      InitAllKeeps(store1, entries[1..], d0.name);
    } else {
      assert forall j :: k - 1 < j < |entries[1..]| ==> entries[1..][j] == entries[j + 1];
      InitAllStoresInitialValue(store1, entries[1..], k - 1);
    }
  }

  lemma {:induction false} InitAllKeeps(store: map<string, Value>, entries: seq<(string, OptSpec)>, name: string)
    requires name in store
    requires forall j :: 0 <= j < |entries| ==> Normalize(entries[j].0, entries[j].1).name != name
    ensures name in InitAll(store, entries) && InitAll(store, entries)[name] == store[name]
    decreases |entries|
  {
    if entries != [] {
      var spec := entries[0].1;
      var d0 := Normalize(entries[0].0, spec);
      assert forall j :: 0 <= j < |entries[1..]| ==> entries[1..][j] == entries[j + 1];
      InitAllKeeps(if spec.Spec? && spec.initialValue.Some? then store[d0.name := spec.initialValue.value] else store, entries[1..], name);
    }
  }

  // ----- Properties of setDefaultValue -------------------------------------

  /** With no path, `setDefaultValue` returns false exactly when no table of `$defaultOptions` defines the option. */
  lemma SetDefaultFalseIffUnknown(tables: seq<Table>, paths: seq<string>, byPath: map<string, nat>, name: string, value: Value)
    requires forall p :: p in byPath ==> byPath[p] < |tables|
    requires paths != []
    ensures SetDefaultEffect(tables, paths, byPath, "", name, value).3 == Normal(Bool(false))
      <==> forall k :: 0 <= k < |paths| ==> !PathHas(tables, byPath, paths[k], name)
  {
    var i := SearchPath(tables, paths, byPath, name);
    if PathHas(tables, byPath, paths[i], name) {
      var r := SetDefaultAt(tables, paths, byPath, paths[i], name, value, 0);
      assert r.3 != Normal(Bool(false)) by { SetDefaultAtNeverFalse(tables, paths, byPath, paths[i], name, value, 0); }
    }
  }

  lemma {:induction false} SetDefaultAtNeverFalse(tables: seq<Table>, paths: seq<string>, byPath: map<string, nat>,
                                                  path: string, name: string, value: Value, hop: nat)
    requires forall p :: p in byPath ==> byPath[p] < |tables|
    requires hop <= 1
    ensures SetDefaultAt(tables, paths, byPath, path, name, value, hop).3 != Normal(Bool(false))
    decreases 1 - hop
  {
    var tables1: seq<Table> := if path in byPath then tables else tables + [map[]];
    var pb := if path in byPath then (paths, byPath) else PutPath(paths, byPath, path, |tables|);
    var paths1, byPath1 := pb.0, pb.1;
    if hop == 0 {
      SetDefaultAtNeverFalse(tables1, paths1, byPath1, ObjectKey, name, value, 1);
    }
  }

  /** With no path and an empty `$defaultOptions`, `setDefaultValue` throws (it reads a property of undefined). */
  lemma SetDefaultEmptyThrows(tables: seq<Table>, byPath: map<string, nat>, name: string, value: Value)
    requires forall p :: p in byPath ==> byPath[p] < |tables|
    ensures SetDefaultEffect(tables, [], byPath, "", name, value).3 == Throw(TypeError)
  {
  }

  /**
   * When the table found defines the option and has no entry named
   * "forwardTo", the option's default becomes `value` and nothing else
   * changes.
   */
  lemma SetDefaultStoresValue(tables: seq<Table>, paths: seq<string>, byPath: map<string, nat>, path: string, name: string, value: Value)
    requires forall p :: p in byPath ==> byPath[p] < |tables|
    requires PathHas(tables, byPath, path, name) && "forwardTo" !in tables[byPath[path]]
    ensures var r := SetDefaultAt(tables, paths, byPath, path, name, value, 0);
      var t := byPath[path];
      r.1 == paths && r.2 == byPath && r.3 == Normal(Undefined) && |r.0| == |tables| &&
      r.0[t] == tables[t][name := tables[t][name].(value := Some(value))] &&
      forall j :: 0 <= j < |tables| && j != t ==> r.0[j] == tables[j]
  {
  }

  /**
   * A path not yet in `$defaultOptions` gets an empty table under it; the
   * keys stay in `for...in` order, and a path that is not an array index is
   * enumerated after every earlier key.
   */
  lemma SetDefaultNewPath(tables: seq<Table>, paths: seq<string>, byPath: map<string, nat>, path: string, name: string, value: Value)
    requires forall p :: p in byPath ==> byPath[p] < |tables|
    requires forall k :: 0 <= k < |paths| ==> paths[k] in byPath
    requires ForInOrdered(paths)
    requires path != "" && path !in byPath
    ensures var r := SetDefaultAt(tables, paths, byPath, path, name, value, 0);
      r.0 == tables + [map[]] && r.2 == byPath[path := |tables|] && r.3 == Normal(Undefined) &&
      r.1 == PutPath(paths, byPath, path, |tables|).0 && ForInOrdered(r.1) &&
      (!IsArrayIndex(path) ==> r.1 == paths + [path])
  {
    PutPathKeepsForInOrder(paths, byPath, path, |tables|);
  }

  /**
   * An array-index path is visited before a path defined earlier: after
   * `defineOptions(a, "b", ...)` and `defineOptions(c, "1", ...)` the keys of
   * `$defaultOptions` enumerate as "1", "b".
   */
  lemma IndexPathEnumeratedFirst()
    ensures PutPath([], map[], "b", 0) == (["b"], map["b" := 0])
    ensures PutPath(["b"], map["b" := 0], "1", 1).0 == ["1", "b"]
  {
    OneIsArrayIndex();
    assert !IsArrayIndex("b") by { assert !('0' <= "b"[0] <= '9'); }
    assert IndexSlot(["b"], 1) == 0;
    assert PutPath([], map[], "b", 0).0 == [] + ["b"] == ["b"];
    assert map[]["b" := 0] == map["b" := 0];
  }

  lemma OneIsArrayIndex()
    ensures IsArrayIndex("1") && DecimalValue("1") == 1
  {
    assert DecimalValue("1") == 10 * DecimalValue("1"[..0]) + 1;
    assert "1"[..0] == [];
  }

  /**
   * With both tables defining `x`, `setDefaultValue("", "x", value)` then
   * stops at "1" and sets the default in `c`'s table, not `a`'s.
   */
  lemma IndexPathVisitedFirst(tb: Table, tc: Table, value: Value)
    requires "x" in tb && "x" in tc && "forwardTo" !in tc
    ensures SetDefaultEffect([tb, tc], ["1", "b"], map["b" := 0, "1" := 1], "", "x", value).0
      == [tb, tc["x" := tc["x"].(value := Some(value))]]
  {
    assert PathHas([tb, tc], map["b" := 0, "1" := 1], "1", "x");
    assert SearchPath([tb, tc], ["1", "b"], map["b" := 0, "1" := 1], "x") == 0;
  }
}
