/**
 * The snippet registry of the snippet manager: `register` and `unregister`
 * keep two parallel tables, scope to the list of snippets and scope to a
 * table from snippet name to snippet, and `register` completes each snippet
 * with the regular-expression patterns that find its trigger. Snippets are
 * mutable objects compared by identity, so they live in an arena `snips`
 * and the tables hold their indices.
 *
 * A string field that the source leaves unset is modelled as "" (both are
 * falsy); where the source uses such a field as a property key, it reads
 * as the key "undefined" (`RemoveKey`, `NameKey`). A regular expression is
 * modelled by the pattern string it is built from.
 */
module SnippetRegistry {
  import opened JsText

  /** A snippet object, with the fields `register` reads and writes. */
  datatype Snip = Snip(
    content: string,
    name: string,
    scope: string,
    tabTrigger: string,
    trigger: string,
    guard: string,
    endTrigger: string,
    endGuard: string,
    startRe: Option<string>,
    triggerRe: Option<string>,
    endRe: Option<string>,
    endTriggerRe: Option<string>)

  /**
   * The registry: the snippet objects, `snippetMap` (scope to list),
   * `snippetNameMap` (scope to name to snippet) and the `includeScopes`
   * attached to a scope's list.
   */
  datatype Registry = Registry(
    snips: seq<Snip>,
    lists: map<string, seq<nat>>,
    names: map<string, map<string, nat>>,
    includes: map<string, seq<string>>)

  /** The argument of `register` / `unregister`. */
  datatype SnippetsArg =
    | Single(id: nat)       // one snippet object
    | Many(ids: seq<nat>)   // an array of snippet objects
    | Nullish               // `undefined` or `null`
    | OtherValue            // any other value that is neither an array nor a snippet

  /** The tables refer only to snippets of the arena, and the two tables have the same scopes. */
  predicate Valid(r: Registry) {
    && r.lists.Keys == r.names.Keys
    && r.includes.Keys <= r.lists.Keys
    && (forall k :: k in r.lists ==> ListIn(r.lists[k], |r.snips|))
    && (forall k :: k in r.names ==> NamesIn(r.names[k], |r.snips|))
  }

  /** A list of snippets of an arena of `n` snippets. */
  predicate ListIn(l: seq<nat>, n: nat) {
    forall i :: 0 <= i < |l| ==> l[i] < n
  }

  /** A name table of non-empty names for snippets of an arena of `n` snippets. */
  predicate NamesIn(t: map<string, nat>, n: nat) {
    forall name :: name in t ==> t[name] < n && name != ""
  }

  predicate ArgValid(r: Registry, arg: SnippetsArg) {
    match arg
    case Single(id) => id < |r.snips|
    case Many(ids) => forall i :: 0 <= i < |ids| ==> ids[i] < |r.snips|
    case Nullish => true
    case OtherValue => true
  }

  // ----- Trigger patterns (`wrapRegexp`, `guardedRegexp`) -------------------

  /**
   * The source already is a group: an optional `^`, then `(`, any characters
   * but line terminators, `)` and an optional `$`.
   */
  predicate IsGroup(src: string) {
    var t := if |src| > 0 && src[0] == '^' then src[1..] else src;
    && NoLineTerminator(t)
    && |t| >= 2 && t[0] == '('
    && (t[|t| - 1] == ')' || (|t| >= 3 && t[|t| - 1] == '$' && t[|t| - 2] == ')'))
  }

  /** `wrapRegexp(src)`: a non-empty source that is neither a group nor exactly `\b` becomes `(?:src)`. */
  function Wrap(src: string): (r: string)
    ensures src == "" ==> r == ""
    ensures src != "" && (IsGroup(src) || src == "\\b") ==> r == src
    ensures src != "" && !(IsGroup(src) || src == "\\b") ==> r == "(?:" + src + ")"
  {
    if src != "" && !(IsGroup(src) || src == "\\b") then "(?:" + src + ")" else src
  }

  /** `guardedRegexp(re, guard, opening)`: the pattern of the regular expression it builds. */
  function Guarded(re: string, guard: string, opening: bool): string {
    if opening then
      var p := Wrap(guard) + Wrap(re);
      if p != "" && p[|p| - 1] != '$' then p + "$" else p
    else
      var p := Wrap(re) + Wrap(guard);
      if p != "" && p[0] != '^' then "^" + p else p
  }

  // ----- Registering and unregistering ---------------------------------------

  /** The table key `s.scope || scope` of `removeSnippet`; `None` is an undefined `scope`, which names the key "undefined". */
  function RemoveKey(s: Snip, scope: Option<string>): (k: string)
    ensures s.scope != "" ==> k == s.scope
    ensures scope.Some? && scope.value != "" ==> k == ScopeFor(s, scope.value)
    ensures s.scope == "" && scope.None? ==> k == "undefined"
  {
    if s.scope != "" then s.scope else if scope.Some? then scope.value else "undefined"
  }

  /** The name key `nameMap[s.name]` of `removeSnippet`: an unset name is the key "undefined". */
  function NameKey(s: Snip): (n: string)
    ensures n != ""
    ensures s.name != "" ==> n == s.name
  {
    if s.name == "" then "undefined" else s.name
  }

  /** `removeSnippet(s)`: only a snippet whose name key is registered under its table key is removed. */
  function RemoveEffect(r: Registry, id: nat, scope: Option<string>): (r': Registry)
    requires Valid(r) && id < |r.snips|
    ensures Valid(r') && r'.snips == r.snips && r'.names.Keys == r.names.Keys && r'.includes == r.includes
    ensures forall k :: k in r.names ==> r'.names[k].Keys <= r.names[k].Keys
  {
    var s := r.snips[id];
    var key := RemoveKey(s, scope);
    var name := NameKey(s);
    if key in r.names && name in r.names[key] then
      var names := r.names[key := r.names[key] - {name}];
      var lists := if key in r.lists then r.lists[key := RemoveFirst(r.lists[key], id)] else r.lists;
      RemovedValid(r, key, name, id);
      r.(names := names, lists := lists)
    else r
  }

  function RemoveAll(r: Registry, ids: seq<nat>, scope: Option<string>): (r': Registry)
    requires Valid(r) && forall i :: 0 <= i < |ids| ==> ids[i] < |r.snips|
    ensures Valid(r') && r'.snips == r.snips && r'.names.Keys == r.names.Keys && r'.includes == r.includes
    ensures forall k :: k in r.names ==> r'.names[k].Keys <= r.names[k].Keys
    decreases |ids|
  {
    if ids == [] then r else RemoveAll(RemoveEffect(r, ids[0], scope), ids[1..], scope)
  }

  /** `unregister(snippets, scope)`: `None` when reading `snippets.content` throws a TypeError. */
  function UnregisterEffect(r: Registry, arg: SnippetsArg, scope: Option<string>): (r': Option<Registry>)
    requires Valid(r) && ArgValid(r, arg)
    ensures r'.None? <==> arg.Nullish?
    ensures arg.OtherValue? ==> r' == Some(r)
    ensures r'.Some? ==>
      && Valid(r'.value) && r'.value.snips == r.snips && r'.value.names.Keys == r.names.Keys
      && forall k :: k in r.names ==> r'.value.names[k].Keys <= r.names[k].Keys
  {
    match arg
    case Nullish => None
    case OtherValue => Some(r)
    case Single(id) => Some(if r.snips[id].content != "" then RemoveEffect(r, id, scope) else r)
    case Many(ids) => Some(RemoveAll(r, ids, scope))
  }

  /** The scope a snippet is filed under: its own, else the current one, else `_`. */
  function ScopeFor(s: Snip, scope: string): (k: string)
    ensures k != ""
    ensures s.scope != "" ==> k == s.scope
    ensures s.scope == "" && scope != "" ==> k == scope
  {
    if s.scope != "" then s.scope else if scope != "" then scope else "_"
  }

  /**
   * The trigger fields `addSnippet` fills in: a `tabTrigger` without a
   * `trigger` is escaped into one (guarded by `\b` when it starts with a word
   * character), and the four patterns are built unless all of trigger, guard,
   * end trigger and end guard are empty.
   */
  function WithTriggers(s: Snip, escape: string -> string): (r: Snip)
    ensures r.content == s.content && r.name == s.name && r.scope == s.scope && r.tabTrigger == s.tabTrigger
    ensures r.endTrigger == s.endTrigger && r.endGuard == s.endGuard
    ensures s.trigger != "" || s.tabTrigger == "" ==> r.trigger == s.trigger && r.guard == s.guard
    ensures s.trigger == "" && s.tabTrigger != "" ==>
      r.trigger == escape(s.tabTrigger) && r.guard == (if s.guard == "" && WordChar(s.tabTrigger[0]) then "\\b" else s.guard)
    ensures r.trigger == "" && r.guard == "" && r.endTrigger == "" && r.endGuard == "" ==>
      r.startRe == s.startRe && r.triggerRe == s.triggerRe && r.endRe == s.endRe && r.endTriggerRe == s.endTriggerRe
    ensures !(r.trigger == "" && r.guard == "" && r.endTrigger == "" && r.endGuard == "") ==>
      && r.startRe == Some(Guarded(r.trigger, r.guard, true)) && r.triggerRe == Some(r.trigger)
      && r.endRe == Some(Guarded(r.endTrigger, r.endGuard, true)) && r.endTriggerRe == Some(r.endTrigger)
  {
    var s1 :=
      if s.tabTrigger != "" && s.trigger == "" then
        s.(guard := if s.guard == "" && WordChar(s.tabTrigger[0]) then "\\b" else s.guard,
           trigger := escape(s.tabTrigger))
      else s;
    if s1.trigger == "" && s1.guard == "" && s1.endTrigger == "" && s1.endGuard == "" then s1
    else s1.(startRe := Some(Guarded(s1.trigger, s1.guard, true)),
             triggerRe := Some(s1.trigger),
             endRe := Some(Guarded(s1.endTrigger, s1.endGuard, true)),
             endTriggerRe := Some(s1.endTrigger))
  }

  /** The registry after `addSnippet`, with the index of the snippet a name previously pointed to. */
  function Previous(r: Registry, sc: string, name: string): Option<nat> {
    if sc in r.names && name in r.names[sc] then Some(r.names[sc][name]) else None
  }

  /** `addSnippet` files the snippet under its scope, creating both tables of a new scope. */
  function FileStep(r: Registry, id: nat, sc: string): (r': Registry)
    requires Valid(r) && id < |r.snips|
    ensures Valid(r') && |r'.snips| == |r.snips| && sc in r'.lists
  {
    var r1 := r.(snips := r.snips[id := r.snips[id].(scope := sc)]);
    if sc in r1.lists then r1 else r1.(lists := r1.lists[sc := []], names := r1.names[sc := map[]])
  }

  /** A named snippet first unregisters the snippet the name pointed to, then takes the name. */
  function NameStep(r: Registry, id: nat, sc: string, name: string): (r': Registry)
    requires Valid(r) && id < |r.snips| && sc in r.lists && name != ""
    ensures Valid(r') && r'.snips == r.snips && sc in r'.lists
  {
    var prev := Previous(r, sc, name);
    var r2 := if prev.Some? && r.snips[prev.value].content != "" then RemoveEffect(r, prev.value, None) else r;
    var nm: map<string, nat> := r2.names[sc][name := id];
    r2.(names := r2.names[sc := nm])
  }

  /** The snippet is appended to its scope's list. */
  function PushStep(r: Registry, id: nat, sc: string): (r': Registry)
    requires Valid(r) && id < |r.snips| && sc in r.lists
    ensures Valid(r') && r'.snips == r.snips
  {
    r.(lists := r.lists[sc := r.lists[sc] + [id]])
  }

  /** `addSnippet(s)`: the new registry and the new current scope. */
  function AddEffect(r: Registry, id: nat, scope: string, escape: string -> string): (res: (Registry, string))
    requires Valid(r) && id < |r.snips|
    ensures Valid(res.0) && |res.0.snips| == |r.snips|
  {
    var s := r.snips[id];
    var sc := ScopeFor(s, scope);
    var r2 := FileStep(r, id, sc);
    var r3 := if s.name == "" then r2 else NameStep(r2, id, sc, s.name);
    var r4 := PushStep(r3, id, sc);
    (r4.(snips := r4.snips[id := WithTriggers(r4.snips[id], escape)]), sc)
  }

  /** `snippets.forEach(addSnippet)`. */
  function AddAll(r: Registry, ids: seq<nat>, scope: string, escape: string -> string): (res: (Registry, string))
    requires Valid(r) && forall i :: 0 <= i < |ids| ==> ids[i] < |r.snips|
    ensures Valid(res.0) && |res.0.snips| == |r.snips|
    decreases |ids|
  {
    if ids == [] then (r, scope)
    else
      var (r1, sc) := AddEffect(r, ids[0], scope, escape);
      AddAll(r1, ids[1..], sc, escape)
  }

  /** `register(snippets, scope)`: the new registry and the scope the `registerSnippets` event carries. */
  function RegisterEffect(r: Registry, arg: SnippetsArg, scope: string, escape: string -> string): (res: (Registry, string))
    requires Valid(r) && ArgValid(r, arg)
    ensures Valid(res.0) && |res.0.snips| == |r.snips|
  {
    match arg
    case Single(id) => if r.snips[id].content != "" then AddEffect(r, id, scope, escape) else (r, scope)
    case Many(ids) => AddAll(r, ids, scope, escape)
    case Nullish => (r, scope)
    case OtherValue => (r, scope)
  }

  // ----- Validity is preserved ------------------------------------------------

  lemma RemoveFirstIn(r: Registry, key: string, id: nat)
    requires Valid(r) && key in r.lists
    ensures ListIn(RemoveFirst(r.lists[key], id), |r.snips|)
  {
    var l := RemoveFirst(r.lists[key], id);
    forall i | 0 <= i < |l| ensures l[i] < |r.snips| {
      assert l[i] in multiset(r.lists[key]);
    }
  }

  lemma RemovedValid(r: Registry, key: string, name: string, id: nat)
    requires Valid(r) && key in r.names
    ensures Valid(r.(names := r.names[key := r.names[key] - {name}],
                     lists := if key in r.lists then r.lists[key := RemoveFirst(r.lists[key], id)] else r.lists))
  {
    var names := r.names[key := r.names[key] - {name}];
    var lists := r.lists[key := RemoveFirst(r.lists[key], id)];
    RemoveFirstIn(r, key, id);
    assert ListIn(lists[key], |r.snips|);
    assert NamesIn(names[key], |r.snips|);
  }

  lemma {:induction false} RemoveAllValid(r: Registry, ids: seq<nat>, scope: Option<string>)
    requires Valid(r) && forall i :: 0 <= i < |ids| ==> ids[i] < |r.snips|
    ensures Valid(RemoveAll(r, ids, scope)) && RemoveAll(r, ids, scope).snips == r.snips
    decreases |ids|
  {
    if ids != [] {
      RemoveAllValid(RemoveEffect(r, ids[0], scope), ids[1..], scope);
    }
  }

  // ----- Properties of the trigger patterns -----------------------------------

  /** A source without line terminators wraps into a group (or stays `\b`). */
  lemma WrapGroups(src: string)
    requires src != "" && NoLineTerminator(src)
    ensures IsGroup(Wrap(src)) || Wrap(src) == "\\b"
  {
    if !(IsGroup(src) || src == "\\b") {
      var w := "(?:" + src + ")";
      assert forall i :: 0 <= i < |w| ==> !LineTerminator(w[i]) by {
        forall i | 0 <= i < |w| ensures !LineTerminator(w[i]) {
          if 3 <= i < |w| - 1 { assert w[i] == src[i - 3]; }
        }
      }
    }
  }

  /** Wrapping is idempotent on sources without line terminators. */
  lemma WrapIdempotent(src: string)
    requires NoLineTerminator(src)
    ensures Wrap(Wrap(src)) == Wrap(src)
  {
    if src != "" { WrapGroups(src); }
  }

  /** A source holding a line terminator is never taken for a group, so it is wrapped again each time. */
  lemma WrapLineTerminatorRewraps(src: string)
    requires exists i :: 0 <= i < |src| && LineTerminator(src[i])
    ensures Wrap(Wrap(src)) == "(?:" + ("(?:" + src + ")") + ")"
  {
    var i :| 0 <= i < |src| && LineTerminator(src[i]);
    var w := "(?:" + src + ")";
    assert !IsGroup(src) by {
      if |src| > 0 && src[0] == '^' {
        assert i >= 1 && src[1..][i - 1] == src[i];
      }
    }
    assert src != "\\b";
    assert Wrap(src) == w;
    assert w[i + 3] == src[i];
    assert !IsGroup(w);
  }

  /** The opening pattern: empty exactly when trigger and guard are, else the guard, the trigger and a final `$`. */
  lemma GuardedOpening(re: string, guard: string)
    ensures Guarded(re, guard, true) == "" <==> re == "" && guard == ""
    ensures Guarded(re, guard, true) != "" ==>
      var p := Guarded(re, guard, true);
      p[|p| - 1] == '$' && StartsWith(p, Wrap(guard) + Wrap(re))
  {
  }

  /** The closing pattern: a leading `^`, then the trigger and the guard. */
  lemma GuardedClosing(re: string, guard: string)
    ensures Guarded(re, guard, false) == "" <==> re == "" && guard == ""
    ensures Guarded(re, guard, false) != "" ==>
      var p := Guarded(re, guard, false);
      p[0] == '^' && EndsWith(p, Wrap(re) + Wrap(guard))
  {
  }

  /**
   * A `tabTrigger` without `trigger` becomes the escaped trigger, guarded by
   * `\b` when it starts with a word character and no guard is given; an
   * explicit trigger and guard are kept.
   */
  lemma TabTriggerBecomesTrigger(s: Snip, escape: string -> string)
    ensures s.tabTrigger != "" && s.trigger == "" ==>
      && WithTriggers(s, escape).trigger == escape(s.tabTrigger)
      && (s.guard == "" && WordChar(s.tabTrigger[0]) ==> WithTriggers(s, escape).guard == "\\b")
      && (s.guard != "" || !WordChar(s.tabTrigger[0]) ==> WithTriggers(s, escape).guard == s.guard)
    ensures !(s.tabTrigger != "" && s.trigger == "") ==>
      WithTriggers(s, escape).trigger == s.trigger && WithTriggers(s, escape).guard == s.guard
  {
  }

  /** The patterns are built exactly when one of trigger, guard, end trigger and end guard is set; otherwise they are left alone. */
  lemma PatternsBuiltIffTriggered(s: Snip, escape: string -> string)
    ensures var t := WithTriggers(s, escape);
      (t.trigger != "" || t.guard != "" || t.endTrigger != "" || t.endGuard != "") ==>
        && t.startRe == Some(Guarded(t.trigger, t.guard, true)) && t.triggerRe == Some(t.trigger)
        && t.endRe == Some(Guarded(t.endTrigger, t.endGuard, true)) && t.endTriggerRe == Some(t.endTrigger)
    ensures var t := WithTriggers(s, escape);
      t.trigger == "" && t.guard == "" && t.endTrigger == "" && t.endGuard == "" ==>
        t.startRe == s.startRe && t.triggerRe == s.triggerRe && t.endRe == s.endRe && t.endTriggerRe == s.endTriggerRe
  {
  }

  // ----- Properties of register and unregister -----------------------------------

  /** `addSnippet` files a snippet under its own scope, else the call's, else `_`, and the call continues with that scope. */
  lemma AddEffectScope(r: Registry, id: nat, scope: string, escape: string -> string)
    requires Valid(r) && id < |r.snips|
    ensures var (r', sc) := AddEffect(r, id, scope, escape);
      && sc == ScopeFor(r.snips[id], scope) && sc != ""
      && r'.snips[id].scope == sc
      && id in r'.lists[sc]
  {
  }

  /** A snippet that already has a scope keeps it. */
  lemma AddEffectKeepsScopes(r: Registry, id: nat, scope: string, escape: string -> string, k: nat)
    requires Valid(r) && id < |r.snips| && k < |r.snips| && r.snips[k].scope != ""
    ensures AddEffect(r, id, scope, escape).0.snips[k].scope == r.snips[k].scope
  {
  }

  /** The `registerSnippets` event of an array carries the scope of the last snippet. */
  lemma {:induction false} AddAllScopeIsLast(r: Registry, ids: seq<nat>, scope: string, escape: string -> string)
    requires Valid(r) && (forall i :: 0 <= i < |ids| ==> ids[i] < |r.snips|) && ids != []
    ensures AddAll(r, ids, scope, escape).1 == AddAll(r, ids, scope, escape).0.snips[ids[|ids| - 1]].scope
    decreases |ids|
  {
    var (r1, sc) := AddEffect(r, ids[0], scope, escape);
    AddEffectScope(r, ids[0], scope, escape);
    if |ids| > 1 {
      AddAllScopeIsLast(r1, ids[1..], sc, escape);
    } else {
      assert AddAll(r1, ids[1..], sc, escape) == (r1, sc);
    }
  }

  /** A later snippet without a scope inherits the scope the previous one was filed under. */
  lemma AddInheritsScope(r: Registry, a: nat, b: nat, scope: string, escape: string -> string)
    requires Valid(r) && a < |r.snips| && b < |r.snips| && a != b && r.snips[b].scope == ""
    ensures var (r1, sc) := AddEffect(r, a, scope, escape);
      AddEffect(r1, b, sc, escape).0.snips[b].scope == r1.snips[a].scope
  {
    AddEffectScope(r, a, scope, escape);
    var (r1, sc) := AddEffect(r, a, scope, escape);
    AddEffectScope(r1, b, sc, escape);
  }

  /** After registering a named snippet, the name map of its scope points to it. */
  lemma AddTakesName(r: Registry, id: nat, scope: string, escape: string -> string)
    requires Valid(r) && id < |r.snips| && r.snips[id].name != ""
    ensures var (r', sc) := AddEffect(r, id, scope, escape);
      r.snips[id].name in r'.names[sc] && r'.names[sc][r.snips[id].name] == id
  {
  }

  /**
   * Registering a named snippet over a registered one of the same scope
   * first unregisters the old snippet, when its `content` is truthy, then
   * appends the new one.
   */
  lemma AddReplacesPrevious(r: Registry, id: nat, scope: string, escape: string -> string, sc: string, prev: nat)
    requires Valid(r) && id < |r.snips| && r.snips[id].name != ""
    requires sc == ScopeFor(r.snips[id], scope) && sc in r.names && r.snips[id].name in r.names[sc]
    requires prev == r.names[sc][r.snips[id].name] && prev != id
    requires r.snips[prev].scope == sc && r.snips[prev].name == r.snips[id].name
    ensures AddEffect(r, id, scope, escape).0.lists[sc] ==
      (if r.snips[prev].content != "" then RemoveFirst(r.lists[sc], prev) else r.lists[sc]) + [id]
  {
    var name := r.snips[id].name;
    var r2 := FileStep(r, id, sc);
    assert r2.lists == r.lists && r2.names == r.names && r2.snips[prev] == r.snips[prev];
    assert Previous(r2, sc, name) == Some(prev);
    var r3 := NameStep(r2, id, sc, name);
    if r.snips[prev].content != "" {
      var r2a := RemoveEffect(r2, prev, None);
      assert RemoveKey(r2.snips[prev], None) == sc;
      assert r2a.lists[sc] == RemoveFirst(r.lists[sc], prev);
      assert r3.lists == r2a.lists;
    } else {
      assert r3.lists == r2.lists;
    }
    assert PushStep(r3, id, sc).lists[sc] == r3.lists[sc] + [id];
  }

  /**
   * `unregister` of a snippet whose name key is registered under its table key
   * removes that name entry, whichever snippet it holds, and the snippet itself
   * from the list, and changes nothing else.
   */
  lemma RemoveRegistered(r: Registry, id: nat, scope: Option<string>)
    requires Valid(r) && id < |r.snips|
    requires var key := RemoveKey(r.snips[id], scope);
      key in r.names && NameKey(r.snips[id]) in r.names[key]
    ensures var key := RemoveKey(r.snips[id], scope);
      var r' := RemoveEffect(r, id, scope);
      && r'.snips == r.snips && r'.includes == r.includes
      && r'.names.Keys == r.names.Keys && r'.lists.Keys == r.lists.Keys
      && r'.names[key] == r.names[key] - {NameKey(r.snips[id])}
      && (key in r.lists ==> multiset(r'.lists[key]) == multiset(r.lists[key]) - multiset{id})
      && (forall k :: k in r.names && k != key ==> r'.names[k] == r.names[k] && r'.lists[k] == r.lists[k])
  {
  }

  /** `unregister` of a snippet whose name key is not registered under its table key changes nothing. */
  lemma RemoveUnregistered(r: Registry, id: nat, scope: Option<string>)
    requires Valid(r) && id < |r.snips|
    requires var key := RemoveKey(r.snips[id], scope);
      !(key in r.names && NameKey(r.snips[id]) in r.names[key])
    ensures RemoveEffect(r, id, scope) == r
  {
  }

  /** A snippet registered by itself can be unregistered again: it leaves its scope's tables. */
  lemma RegisterThenUnregister(r: Registry, id: nat, scope: string, escape: string -> string)
    requires Valid(r) && id < |r.snips| && r.snips[id].name != "" && r.snips[id].content != ""
    requires var sc := ScopeFor(r.snips[id], scope); sc in r.lists ==> id !in r.lists[sc]
    ensures var (r1, sc) := AddEffect(r, id, scope, escape);
      var r2 := RemoveEffect(r1, id, None);
      r.snips[id].name !in r2.names[sc] && id !in r2.lists[sc]
  {
    var sc := ScopeFor(r.snips[id], scope);
    var (r1, _) := AddEffect(r, id, scope, escape);
    AddEffectScope(r, id, scope, escape);
    AddTakesName(r, id, scope, escape);
    assert RemoveKey(r1.snips[id], None) == sc;
    RemoveRegistered(r1, id, None);
    assert multiset(r1.lists[sc])[id] == 1 by { AddListCount(r, id, scope, escape); }
  }

  lemma AddListCount(r: Registry, id: nat, scope: string, escape: string -> string)
    requires Valid(r) && id < |r.snips| && r.snips[id].name != ""
    requires var sc := ScopeFor(r.snips[id], scope); sc in r.lists ==> id !in r.lists[sc]
    ensures var (r1, sc) := AddEffect(r, id, scope, escape);
      multiset(r1.lists[sc])[id] == 1
  {
    var sc := ScopeFor(r.snips[id], scope);
    var r2 := FileStep(r, id, sc);
    assert id !in r2.lists[sc];
    var r3 := NameStep(r2, id, sc, r.snips[id].name);
    assert id !in multiset(r3.lists[sc]);
  }

  // ----- The snippet manager's registry, in place ------------------------------

  class SnippetManager {
    var snips: seq<Snip>
    var snippetMap: map<string, seq<nat>>
    var snippetNameMap: map<string, map<string, nat>>
    var includeScopes: map<string, seq<string>>
    /** The `scope` of every `registerSnippets` event, in order. */
    var signals: seq<string>

    function State(): Registry
      reads this
    {
      Registry(snips, snippetMap, snippetNameMap, includeScopes)
    }

    constructor (s: seq<Snip>)
      ensures State() == Registry(s, map[], map[], map[]) && signals == []
    {
      snips := s;
      snippetMap := map[];
      snippetNameMap := map[];
      includeScopes := map[];
      signals := [];
    }

    /** `removeSnippet(s)`. */
    method RemoveSnippet(id: nat, scope: Option<string>)
      requires Valid(State()) && id < |snips|
      modifies this
      ensures State() == RemoveEffect(old(State()), id, scope) && signals == old(signals)
    {
      var s := snips[id];
      var key := RemoveKey(s, scope);
      var name := NameKey(s);
      if key in snippetNameMap && name in snippetNameMap[key] {
        snippetNameMap := snippetNameMap[key := snippetNameMap[key] - {name}];
        if key in snippetMap {
          var list := snippetMap[key];
          var i := IndexOf(list, id, 0);
          if i >= 0 {
            list := list[..i] + list[i + 1..];
          }
          snippetMap := snippetMap[key := list];
        }
      }
    }

    /** `unregister(snippets, scope)`; `thrown` when it throws a TypeError. */
    method Unregister(arg: SnippetsArg, scope: Option<string>) returns (thrown: bool)
      requires Valid(State()) && ArgValid(State(), arg)
      modifies this
      ensures thrown <==> UnregisterEffect(old(State()), arg, scope).None?
      ensures !thrown ==> State() == UnregisterEffect(old(State()), arg, scope).value
      ensures thrown ==> State() == old(State())
      ensures signals == old(signals)
    {
      thrown := false;
      match arg {
        case Nullish => thrown := true;
        case OtherValue =>
        case Single(id) =>
          if snips[id].content != "" {
            RemoveSnippet(id, scope);
          }
        case Many(ids) => RemoveSnippets(ids, scope);
      }
    }

    /** `snippets.forEach(removeSnippet)`. */
    method RemoveSnippets(ids: seq<nat>, scope: Option<string>)
      requires Valid(State()) && forall i :: 0 <= i < |ids| ==> ids[i] < |snips|
      modifies this
      ensures State() == RemoveAll(old(State()), ids, scope)
      ensures signals == old(signals)
    {
      var i := 0;
      while i < |ids|
        invariant 0 <= i <= |ids|
        invariant Valid(State()) && State().snips == old(State()).snips
        invariant RemoveAll(State(), ids[i..], scope) == RemoveAll(old(State()), ids, scope)
        invariant signals == old(signals)
      {
        assert ids[i..][1..] == ids[i + 1..];
        RemoveSnippet(ids[i], scope);
        i := i + 1;
      }
    }

    /** The first part of `addSnippet`: the scope is settled and the scope's tables exist. */
    method FileSnippet(id: nat, sc: string)
      requires Valid(State()) && id < |snips|
      modifies this
      ensures State() == FileStep(old(State()), id, sc) && signals == old(signals)
    {
      snips := snips[id := snips[id].(scope := sc)];
      if sc !in snippetMap {
        snippetMap := snippetMap[sc := []];
        snippetNameMap := snippetNameMap[sc := map[]];
      }
    }

    /** The named part of `addSnippet`. */
    method NameSnippet(id: nat, sc: string, name: string)
      requires Valid(State()) && id < |snips| && sc in snippetMap && name != ""
      modifies this
      ensures State() == NameStep(old(State()), id, sc, name) && signals == old(signals)
    {
      if name in snippetNameMap[sc] {
        var prev := snippetNameMap[sc][name];
        if snips[prev].content != "" {
          RemoveSnippet(prev, None);
        }
      }
      var nm: map<string, nat> := snippetNameMap[sc][name := id];
      snippetNameMap := snippetNameMap[sc := nm];
    }

    /** `addSnippet(s)`, with `scope` the current scope of the `register` call. */
    method AddSnippet(id: nat, scope: string, escape: string -> string) returns (newScope: string)
      requires Valid(State()) && id < |snips|
      modifies this
      ensures (State(), newScope) == AddEffect(old(State()), id, scope, escape)
      ensures signals == old(signals)
    {
      var s := snips[id];
      newScope := if s.scope != "" then s.scope else if scope != "" then scope else "_";
      FileSnippet(id, newScope);
      if s.name != "" {
        NameSnippet(id, newScope, s.name);
      }
      snippetMap := snippetMap[newScope := snippetMap[newScope] + [id]];
      snips := snips[id := WithTriggers(snips[id], escape)];
    }

    /** `snippets.forEach(addSnippet)`, returning the scope current after the last snippet. */
    method AddSnippets(ids: seq<nat>, scope: string, escape: string -> string) returns (sc: string)
      requires Valid(State()) && forall i :: 0 <= i < |ids| ==> ids[i] < |snips|
      modifies this
      ensures (State(), sc) == AddAll(old(State()), ids, scope, escape)
      ensures signals == old(signals)
    {
      sc := scope;
      ghost var target := AddAll(State(), ids, scope, escape);
      var i := 0;
      while i < |ids|
        invariant 0 <= i <= |ids|
        invariant Valid(State()) && |snips| == |old(snips)|
        invariant AddAll(State(), ids[i..], sc, escape) == target
        invariant signals == old(signals)
      {
        assert ids[i..][1..] == ids[i + 1..];
        sc := AddSnippet(ids[i], sc, escape);
        i := i + 1;
      }
      assert AddAll(State(), ids[i..], sc, escape) == (State(), sc);
    }

    /** `register(snippets, scope)`. */
    method Register(arg: SnippetsArg, scope: string, escape: string -> string)
      requires Valid(State()) && ArgValid(State(), arg)
      modifies this
      ensures State() == RegisterEffect(old(State()), arg, scope, escape).0
      ensures signals == old(signals) + [RegisterEffect(old(State()), arg, scope, escape).1]
    {
      var sc := scope;
      match arg {
        case Single(id) =>
          if snips[id].content != "" {
            sc := AddSnippet(id, sc, escape);
          }
        case Many(ids) =>
          sc := AddSnippets(ids, sc, escape);
        case Nullish =>
        case OtherValue =>
      }
      signals := signals + [sc];
    }

    /** `getActiveScopes(editor)`, with the editor's scope as a parameter. */
    function GetActiveScopes(scope: string): (scopes: seq<string>)
      reads this
      ensures |scopes| >= 2 && scopes[0] == scope && scopes[|scopes| - 1] == "_"
      ensures scope in snippetMap && scope in includeScopes ==> scopes == [scope] + includeScopes[scope] + ["_"]
      ensures !(scope in snippetMap && scope in includeScopes) ==> scopes == [scope, "_"]
    {
      var inc := if scope in snippetMap && scope in includeScopes then includeScopes[scope] else [];
      [scope] + inc + ["_"]
    }
  }
}
