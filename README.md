# ace-tern core, modelled in Dafny

This project models the core of ace-tern: the Ace editor bundled with the tern type-inference engine.

**The tern inference graph (`infer.js`).** Modules `InferTables`, `InferGraph` and `Infer` cover:
- abstract values (`AVal`): a cell holding types at one maximum weight, with forward edges and memoised property cells;
- the type variants `Prim`, `Obj`, `Fn` and `Arr`;
- every constraint kind;
- the depth-bounded worklist;
- the `getInstance` memo;
- scopes and the property registry;
- `canonicalType`;
- the small operator tables;
- the purge of types and variables by origin and range.

The graph is cyclic, so it lives in arenas (sequences addressed by index) held by one `Infer.Context` object. Every graph operation keeps a common frame: the context stays well-formed, the arenas only grow, and the worklist queue only receives new work.

**The rest of the core:**
- the JSDoc type-expression parser and tag reader (`JsDoc`);
- the tern extension's editor utilities (`ExtTern`) and its fuzzy completion filter (`Completions`);
- the snippet manager's registry, variables and tab stops (`SnippetRegistry`, `SnippetVars`, `Tabstops`);
- the CSS class-list helpers (`Dom`);
- the configuration store and module URLs (`Config`);
- the option providers (`AppConfig`);
- the event emitter (`Signal`).

`JsText` collects the JavaScript string primitives these rely on: the whitespace class `\s`, `split`, `indexOf` and ASCII case mapping.

**Form of the model.** It follows the code's own form. Objects whose fields the code updates are classes with `modifies` frames. Loops are methods with invariants, each proved against a specification function. Pure helpers are functions with lemmas. Where the code and its documentation disagree, the model follows the code. Where the code is evidently wrong, both readings appear in the Dafny (see "Findings").

## Model

| member | source | states |
|---|---|---|
| Signal.FirstTruthy | lib/signal.js:29-35 | `signalReturnFirst` calls handlers up to and including the first truthy result and returns it; with no truthy result every handler is called and nothing is returned; each call's result may depend on its position and on the table the earlier calls left |
| Signal.Emitter.constructor | lib/signal.js:8-9 | a fresh emitter has no registered handlers |
| Signal.Emitter.GetHandlers | lib/signal.js:19-22 | the registered list of the type, or the empty list for a type never used |
| Signal.Emitter.HasHandler | lib/signal.js:37-40 | truthy exactly when the type's list is non-empty, and then it is that list |
| Signal.Emitter.On | lib/signal.js:8-11 | the handler is appended at the end of its type's list; other types are unchanged |
| Signal.Emitter.Off | lib/signal.js:13-16 | the first registration of the handler for that type is removed; an unknown type is a no-op |
| Signal.Emitter.Perform | lib/signal.js:24-27 | the actions a called handler performs are applied to the table in order |
| Signal.Emitter.Signal | lib/signal.js:24-27 | exactly the handlers registered when the signal starts are called, in order, whatever they register or remove meanwhile; the new table is what their calls, in order, make of it, each call seeing its position and the current table |
| Signal.Emitter.SignalReturnFirst | lib/signal.js:29-35 | handlers of the starting snapshot are called in order until the first truthy result, which is returned; no later handler runs; the table is what the calls made, each seeing its position and the current table |
| Signal.FirstTruthyAt | lib/signal.js:31-34 | when call `i` is the first truthy one, `signalReturnFirst` calls `i + 1` handlers and returns its result |
| Signal.FirstTruthyNone | lib/signal.js:31-35 | when no call is truthy, `signalReturnFirst` calls the whole snapshot and returns nothing |
| Signal.FirstFromMeaning | lib/signal.js:31-34 | from any position on, the calls before the stopping one were falsy, and the result is the stopping call's own |
| Signal.SelfRemovalKeepsSnapshot | lib/signal.js:24-26 | a handler registered twice that removes itself on its first call is called twice by one signal (the snapshot is taken first) and stays registered once |
| Signal.IndexOfFirst | lib/signal.js:15 | the scan of `off` finds the first position holding the handler |
| Signal.OffUndoesOn | lib/signal.js:8-16 | `off` after `on` of a handler not yet registered for the type restores the type's list |
| Signal.ApplyOtherType | lib/signal.js:8-16 | `on` and `off` leave the lists of other types unchanged |
| Signal.OffRemovesOneRegistration | lib/signal.js:15 | `off` removes exactly one of the handler's registrations |
| Signal.HasHandlerIffSignalCalls | lib/signal.js:19-40 | `hasHandler` is falsy exactly when `signalReturnFirst` calls no handler (`signal` calls the list `getHandlers` returns, so the same holds for it), and then neither `signal` nor `signalReturnFirst` changes the handler table |
| JsText.Split | src-noconflict/lib/ace/lib/dom.js:101 | `split(/\s+/g)` yields at least one piece and no piece holds white space |
| JsText.IndexOf | src-noconflict/lib/ace/lib/dom.js:102 | `indexOf` is -1 exactly when no element from `from` on equals `x`; otherwise it is the first index from `from` holding `x` |
| JsText.SplitJoinRoundTrip | src-noconflict/lib/ace/lib/dom.js:101 | joining non-empty words without white space by single spaces and splitting with `/\s+/g` gives the words back (also line 126) |
| JsText.JoinSnoc | src-noconflict/lib/ace/lib/dom.js:126 | joining one more word puts the separator and the word after the join of the others |
| JsText.Join | src-noconflict/lib/ace/lib/dom.js:126 | `join(sep)` of no piece is empty and of one piece that piece; with two or more it starts with the first piece and the separator and is at least as long as the first and last pieces and one separator |
| Dom.Element.constructor | src-noconflict/lib/ace/lib/dom.js:100-101 | an element holds the given class attribute |
| Dom.HasCssClass | src-noconflict/lib/ace/lib/dom.js:100-103 | true exactly when some white-space-separated token of the class attribute equals the name |
| Dom.AddCssClass | src-noconflict/lib/ace/lib/dom.js:108-112 | the attribute is unchanged when the class is present, and otherwise gets ` name` appended |
| Dom.SpliceAll | src-noconflict/lib/ace/lib/dom.js:119-125 | the `indexOf`/`splice` loop removes every occurrence of the name and nothing else; the list shrinks exactly when the name occurred |
| Dom.RemoveCssClass | src-noconflict/lib/ace/lib/dom.js:117-127 | the new attribute is the other tokens, in order, joined by single spaces |
| Dom.ToggleCssClass | src-noconflict/lib/ace/lib/dom.js:129-144 | removes every occurrence when present and appends the name when absent; returns true exactly when the class was absent |
| Dom.SetCssClass | src-noconflict/lib/ace/lib/dom.js:151-157 | adds when `include` is truthy, removes otherwise |
| Dom.AddMakesPresent | src-noconflict/lib/ace/lib/dom.js:108-112 | after `addCssClass` of a single word the class is present |
| Dom.AddIdempotent | src-noconflict/lib/ace/lib/dom.js:108-112 | adding a single-word class twice is the same as adding it once |
| Dom.AddSpacedNameRepeats | src-noconflict/lib/ace/lib/dom.js:100-112 | a name containing white space is never found, so each `addCssClass` appends it again |
| Dom.RemoveMakesAbsent | src-noconflict/lib/ace/lib/dom.js:117-127 | after `removeCssClass` a non-empty class is absent |
| Dom.RemoveKeepsOthers | src-noconflict/lib/ace/lib/dom.js:117-127 | on a trimmed attribute with another class left, the new token list is the old one without the name, order kept |
| Dom.ToggleResultIffPresent | src-noconflict/lib/ace/lib/dom.js:129-144 | the result of `toggleCssClass` is true exactly when the class is present afterwards |
| Dom.ToggleTwiceFlips | src-noconflict/lib/ace/lib/dom.js:129-144 | a second `toggleCssClass` of the same single-word class returns the opposite of the first |
| Config.GetIn | src-noconflict/lib/ace/config.js:57-61 | `get` throws `Unknown config key: <key>` exactly for keys outside the options table, and otherwise returns the stored value |
| Config.StripWorker | src-noconflict/lib/ace/config.js:84-87 | stripping the `worker-`/`worker_` prefix and the `-worker`/`_worker` suffix never lengthens the name |
| Config.UrlOverride | src-noconflict/lib/ace/config.js:76 | reading `options.$moduleUrls[name]` throws a `TypeError` exactly when the key holds null or undefined; a value other than undefined comes from an object held there |
| Config.ModuleUrlIn | src-noconflict/lib/ace/config.js:75-98 | a truthy override on the object `options.$moduleUrls` holds is returned as it is, a nullish holder throws, and otherwise the URL is a string that ends with the configured suffix |
| Config.DeHyphenate | src-noconflict/lib/ace/config.js:205-207 | replacing each `-x` by `X` never lengthens the name |
| Config.Hyphenate | src-noconflict/lib/ace/config.js:180-181 | the `data-ace-*` attribute spelling of an option name, the inverse that `deHyphenate` is proved against; it never shortens the name |
| Config.ConfigModule.constructor | src-noconflict/lib/ace/config.js:39-55 | the module starts with the nine known keys at their initial values and no URL overrides |
| Config.ConfigModule.Get | src-noconflict/lib/ace/config.js:57-61 | throws exactly for an unknown key and otherwise returns its current value |
| Config.ConfigModule.Set | src-noconflict/lib/ace/config.js:63-66 | a known key is overwritten and nothing else changes; an unknown key goes to `setDefaultValue('', key, value)` and throws `Unknown config key` if that returns false |
| Config.ConfigModule.SetModuleUrl | src-noconflict/lib/ace/config.js:100-102 | throws a `TypeError` and changes nothing when `options.$moduleUrls` holds null or undefined; otherwise returns `subst` and stores it on the object the key holds now (an assignment to a primitive is lost); the options table is unchanged |
| Config.GetAfterSetKnown | src-noconflict/lib/ace/config.js:57-66 | `get` after `set` of a known key returns the value set |
| Config.OverrideReturnedVerbatim | src-noconflict/lib/ace/config.js:76-102 | after `setModuleUrl(name, subst)` with a truthy `subst`, `moduleUrl(name, component)` returns `subst` for every component, whichever object `options.$moduleUrls` holds, including one `set` put there |
| Config.StoreUrlKeepsOthers | src-noconflict/lib/ace/config.js:76-102 | `setModuleUrl(name, subst)` leaves the override of every other name unchanged |
| Config.NullishHolderThrows | src-noconflict/lib/ace/config.js:63-76 | after `set("$moduleUrls", null)`, `moduleUrl` throws a `TypeError` |
| Config.PrimitiveHolderIgnoresOverride | src-noconflict/lib/ace/config.js:76-102 | with a primitive in `options.$moduleUrls`, `setModuleUrl` stores nothing and `moduleUrl` sees no override |
| Config.ModuleUrlShape | src-noconflict/lib/ace/config.js:78-97 | with no override and no component path, `dir/file` maps to base path (with `/` added), `dir`, separator (`/` for snippets, else `-`), `file` and suffix |
| Config.ModuleUrlConfiguredPath | src-noconflict/lib/ace/config.js:90-97 | a configured `snippetsPath` replaces the base path and drops the component and separator |
| Config.StripWorkerBoth | src-noconflict/lib/ace/config.js:84-87 | for every name `x` and either separator, `worker-x-worker` (or `worker_x_worker`, or a mix) becomes `x`: the suffix match does not overlap the prefix, so an empty `x` gives the empty name |
| Config.StripWorkerKeeps | src-noconflict/lib/ace/config.js:84-87 | a name with neither the worker prefix nor the worker suffix is kept unchanged |
| Config.DeHyphenateHyphenate | src-noconflict/lib/ace/config.js:180-207 | `deHyphenate` recovers an option name (without `-`) from its attribute spelling |
| Config.HyphenateHead | src-noconflict/lib/ace/config.js:205-207 | the attribute spelling is empty only for the empty name |
| AppConfig.Normalize | src-noconflict/lib/ace/lib/app_config.js:103-106 | a string entry becomes an option forwarding to that property, named by its key; an option object keeps its fields and its name defaults to the key |
| AppConfig.RouteOf | src-noconflict/lib/ace/lib/app_config.js:57-75 | following `forwardTo` ends at an object that defines the option and does not forward and is not already on the call stack, or stops: unchanged only when the stored value equals the value set, misspelled only when the table lacks the name, and without a target only when the forward target is falsy |
| AppConfig.StoreAt | src-noconflict/lib/ace/lib/app_config.js:65 | writing `this['$'+name]` changes that one stored value and no option table or link |
| AppConfig.SearchPath | src-noconflict/lib/ace/lib/app_config.js:126 | the `for (path in $defaultOptions)` loop, walking the keys in `for…in` order (array indices first, ascending, then the other keys in creation order), stops at the first key whose table defines the option, or at the last key |
| AppConfig.SetDefaultAt | src-noconflict/lib/ace/lib/app_config.js:129-133 | `setDefaultValue` with a path keeps every path pointing at an existing table and never drops a table |
| AppConfig.SetEffect | src-noconflict/lib/ace/lib/app_config.js:57-67 | a stopped route changes no object and calls no hook; only a misspelt name adds the `misspelled option` warning; a falsy forward target (`undefined`, `null`, `0`, `false`, `""`) is returned as itself, a truthy target without `setOption` throws a TypeError and a forwarding cycle a RangeError; a route that reaches an option changes only that object, stores the value unless `handlesSet`, and calls the `set` hook once when there is one |
| AppConfig.GetResult | src-noconflict/lib/ace/lib/app_config.js:68-75 | a stopped route returns the falsy forward target itself, undefined, or the same two errors; a route that reaches an option returns the `get` hook's value when there is a hook, else the stored value |
| AppConfig.PutPath | src-noconflict/lib/ace/lib/app_config.js:100 | `$defaultOptions[path] = table` maps the path to the table; a key already present keeps its place; a new key is added once, and one that is not an array index goes after every earlier key (also line 129) |
| AppConfig.RegisterAll | src-noconflict/lib/ace/lib/app_config.js:102-107 | registering keeps every option already in the table and registers every entry's name |
| AppConfig.InitAll | src-noconflict/lib/ace/lib/app_config.js:108 | copying the initial values keeps every stored value's name and stores one under the name of every entry that has `initialValue` |
| AppConfig.SetDefaultEffect | src-noconflict/lib/ace/lib/app_config.js:124-134 | `setDefaultValue` never drops a table; with no path it throws a TypeError for an empty `$defaultOptions` and returns false when no table defines the option; otherwise it returns undefined or throws |
| AppConfig.OptionsHeap.constructor | src-noconflict/lib/ace/lib/app_config.js:89-91 | a new `AppConfig` has an empty `$defaultOptions`, no warnings and no hook calls |
| AppConfig.OptionsHeap.SetOption | src-noconflict/lib/ace/lib/app_config.js:57-67 | `setOption` has exactly the effect of the route it takes: no-op when unchanged, a warning when misspelled, the value of a falsy forward target, delegation through `forwardTo`, the store (unless `handlesSet`) and then the `set` hook call |
| AppConfig.OptionsHeap.SetOptionFrom | src-noconflict/lib/ace/lib/app_config.js:57-67 | the same, for a call nested inside forwarding calls still on the stack (a cycle is a stack overflow) |
| AppConfig.OptionsHeap.GetOption | src-noconflict/lib/ace/lib/app_config.js:68-75 | `getOption` returns the `get` hook's value or the stored value at the end of the route, a falsy forward target's own value, undefined with a warning for a misspelled option, and changes nothing else |
| AppConfig.OptionsHeap.GetOptionFrom | src-noconflict/lib/ace/lib/app_config.js:68-75 | the same, for a nested forwarding call |
| AppConfig.OptionsHeap.DefineOptions | src-noconflict/lib/ace/lib/app_config.js:99-115 | the object gets a table (new and registered under `path` when it had none) holding every entry's option, and its stored values get every `initialValue`; no other object changes |
| AppConfig.OptionsHeap.SetDefaultValue | src-noconflict/lib/ace/lib/app_config.js:124-134 | `setDefaultValue` finds the path when none is given by walking the keys in `for…in` order (false when no table defines the option, a TypeError when `$defaultOptions` is empty), then has the effect of `SetDefaultAt`, and keeps the keys of `$defaultOptions` in `for…in` order |
| AppConfig.OptionsHeap.SetDefaultFrom | src-noconflict/lib/ace/lib/app_config.js:129-133 | the loop-free part of `setDefaultValue` once the path is known, including the nested call made through the table's `forwardTo` entry |
| AppConfig.SetSameValueIsNoOp | src-noconflict/lib/ace/lib/app_config.js:58 | `setOption` of the value already stored changes nothing |
| AppConfig.SetUnknownOnlyWarns | src-noconflict/lib/ace/lib/app_config.js:59-62 | `setOption` of an unknown option adds one `misspelled option` warning and changes nothing else |
| AppConfig.GetUnknownOnlyWarns | src-noconflict/lib/ace/lib/app_config.js:69-72 | `getOption` of an unknown option warns and returns undefined |
| AppConfig.ForwardDelegates | src-noconflict/lib/ace/lib/app_config.js:63-73 | a `forwardTo` option makes both calls behave as the same call on the named sub-object |
| AppConfig.FalsyTargetReturned | src-noconflict/lib/ace/lib/app_config.js:63 | a falsy forward target is what `setOption` and `getOption` return, and nothing changes (also line 73) |
| AppConfig.TruthyNonProviderThrows | src-noconflict/lib/ace/lib/app_config.js:63 | a truthy forward target without `setOption`/`getOption` makes both calls throw a TypeError (also line 73) |
| AppConfig.ForwardToSelfRecurses | src-noconflict/lib/ace/lib/app_config.js:73 | an option forwarding to its own object overflows the stack |
| AppConfig.GetRouteIgnoresStores | src-noconflict/lib/ace/lib/app_config.js:68-75 | the route of `getOption` does not depend on stored values |
| AppConfig.SetRouteFinalIsGetRoute | src-noconflict/lib/ace/lib/app_config.js:57-75 | a `setOption` that reaches an option ends where `getOption` ends |
| AppConfig.GetAfterSet | src-noconflict/lib/ace/lib/app_config.js:57-75 | after a `setOption` that stores the value, `getOption` (without a `get` hook) returns it |
| AppConfig.SetHookSeesStoredValue | src-noconflict/lib/ace/lib/app_config.js:65-66 | the `set` hook is called once, and the stored value it sees is the new value exactly when the option does not handle the set itself |
| AppConfig.RouteFinalStoredDiffers | src-noconflict/lib/ace/lib/app_config.js:58 | a `setOption` that reaches an option found a stored value different from the new one |
| AppConfig.RegisterAllDefines | src-noconflict/lib/ace/lib/app_config.js:102-107 | every entry is registered under its name, the last of a name winning |
| AppConfig.RegisterAllKeeps | src-noconflict/lib/ace/lib/app_config.js:102-107 | entries of other names leave a registered option alone |
| AppConfig.DefineStringForwards | src-noconflict/lib/ace/lib/app_config.js:104-106 | a string entry becomes `{forwardTo: s}` named by its key |
| AppConfig.InitAllStoresInitialValue | src-noconflict/lib/ace/lib/app_config.js:108 | the last `initialValue` given for a name is the stored value afterwards |
| AppConfig.InitAllKeeps | src-noconflict/lib/ace/lib/app_config.js:108 | entries of other names leave a stored value alone |
| AppConfig.SetDefaultFalseIffUnknown | src-noconflict/lib/ace/lib/app_config.js:125-128 | with no path, `setDefaultValue` returns false exactly when no table of `$defaultOptions` defines the option |
| AppConfig.SetDefaultAtNeverFalse | src-noconflict/lib/ace/lib/app_config.js:129-133 | once a path is known `setDefaultValue` never returns false |
| AppConfig.SetDefaultEmptyThrows | src-noconflict/lib/ace/lib/app_config.js:126-127 | with no path and an empty `$defaultOptions` the call throws a TypeError |
| AppConfig.SetDefaultStoresValue | src-noconflict/lib/ace/lib/app_config.js:129-132 | when the table defines the option and has no `forwardTo` entry, only that option's default `value` changes |
| AppConfig.SetDefaultNewPath | src-noconflict/lib/ace/lib/app_config.js:129 | a path not yet in `$defaultOptions` gets a new empty table; the keys stay in `for…in` order (a new array index at its numeric place among the indices), and a path that is not an array index is enumerated after every earlier key |
| AppConfig.IndexSlot | src-noconflict/lib/ace/lib/app_config.js:126 | the place of a new array index among the keys: every key before it is an array index with a smaller value, the key at it is not an array index or is not smaller |
| AppConfig.PutPathInserts | src-noconflict/lib/ace/lib/app_config.js:100 | a new key of `$defaultOptions` is inserted into its key list with the earlier keys kept in their order around it (also line 129) |
| AppConfig.PutPathKeepsForInOrder | src-noconflict/lib/ace/lib/app_config.js:126 | adding a key to `$defaultOptions` keeps its keys in `for…in` order: array indices first and ascending (also lines 100 and 129) |
| AppConfig.PutPathKeepsKeysValid | src-noconflict/lib/ace/lib/app_config.js:100 | adding a key keeps `$defaultOptions` well formed: the same keys in the list and the map, in `for…in` order, each naming a table (also line 129) |
| AppConfig.ArrayIndexDistinct | src-noconflict/lib/ace/lib/app_config.js:126 | two different array-index keys have different numeric values, so their `for…in` order is strict |
| AppConfig.IndexPathEnumeratedFirst | src-noconflict/lib/ace/lib/app_config.js:100 | after `defineOptions` under "b" and then under "1", the keys of `$defaultOptions` enumerate as "1", "b" |
| AppConfig.IndexPathVisitedFirst | src-noconflict/lib/ace/lib/app_config.js:124-132 | with keys "1", "b" whose tables both define the option, `setDefaultValue("", name, value)` stops at "1" and sets the default in its table |
| AppConfig.OptionsHeap.AddPath | src-noconflict/lib/ace/lib/app_config.js:129 | `$defaultOptions[path] = {}` appends an empty table, registers it under the path as `PutPath` does and keeps `$defaultOptions` well formed |
| AppConfig.OptionsHeap.AttachTable | src-noconflict/lib/ace/lib/app_config.js:100 | an object without an option table gets a new empty one, registered under the path; nothing else changes |
| SnippetRegistry.Wrap | src-noconflict/lib/ace/snippets.js:608-612 | an empty source stays empty, a group (`^?(...)$?` without line terminators) or exactly `\b` is kept, anything else becomes `(?:src)` |
| SnippetRegistry.ScopeFor | src-noconflict/lib/ace/snippets.js:627 | the scope a snippet is filed under is never empty: its own, else the call's, else `_` |
| SnippetRegistry.RemoveKey | src-noconflict/lib/ace/snippets.js:666 | the key `removeSnippet` reads is the snippet's own scope, else the call's scope, else the text "undefined" |
| SnippetRegistry.RemoveEffect | src-noconflict/lib/ace/snippets.js:665-673 | `removeSnippet` looks up the name key (`NameKey`: the snippet's name, or "undefined" when it has none) under the table key; it keeps the two tables over the same scopes and pointing into the snippets |
| SnippetRegistry.RemoveAll | src-noconflict/lib/ace/snippets.js:675 | removing each of an array keeps the registry well-formed, the snippets, the scopes and the includes, and only shrinks each scope's name map |
| SnippetRegistry.UnregisterEffect | src-noconflict/lib/ace/snippets.js:661-676 | `unregister` throws exactly for a nullish argument, ignores a value without `content`, and otherwise keeps the registry well-formed and only removes names |
| SnippetRegistry.WithTriggers | src-noconflict/lib/ace/snippets.js:642-653 | only the trigger fields change: a `tabTrigger` without `trigger` becomes the escaped trigger (guarded by `\b` when it starts with a word character and has no guard), and the four patterns are built from the triggers and guards unless all four are empty |
| SnippetRegistry.FileStep | src-noconflict/lib/ace/snippets.js:627-632 | filing a snippet creates both tables of a new scope and keeps the registry well-formed |
| SnippetRegistry.NameStep | src-noconflict/lib/ace/snippets.js:634-639 | taking a name (after unregistering the old holder) keeps the registry well-formed |
| SnippetRegistry.PushStep | src-noconflict/lib/ace/snippets.js:640 | appending to the scope's list keeps the registry well-formed |
| SnippetRegistry.AddEffect | src-noconflict/lib/ace/snippets.js:626-654 | `addSnippet` keeps the registry well-formed and adds no snippet object |
| SnippetRegistry.AddAll | src-noconflict/lib/ace/snippets.js:657 | `snippets.forEach(addSnippet)` keeps the registry well-formed |
| SnippetRegistry.RegisterEffect | src-noconflict/lib/ace/snippets.js:601-660 | `register` keeps the registry well-formed for every kind of argument |
| SnippetRegistry.WrapGroups | src-noconflict/lib/ace/snippets.js:608-612 | a non-empty source without line terminators always wraps into a group or is `\b` |
| SnippetRegistry.WrapIdempotent | src-noconflict/lib/ace/snippets.js:608-612 | wrapping twice is wrapping once, for sources without line terminators |
| SnippetRegistry.WrapLineTerminatorRewraps | src-noconflict/lib/ace/snippets.js:609 | a source holding a line terminator is wrapped again on every call, since `.` does not match it |
| SnippetRegistry.GuardedOpening | src-noconflict/lib/ace/snippets.js:613-618 | the opening pattern is empty exactly when trigger and guard are; otherwise it is the wrapped guard, then the wrapped trigger, ending in `$` |
| SnippetRegistry.GuardedClosing | src-noconflict/lib/ace/snippets.js:619-622 | the closing pattern is empty exactly when trigger and guard are; otherwise it starts with `^` and ends with the wrapped trigger and guard |
| SnippetRegistry.TabTriggerBecomesTrigger | src-noconflict/lib/ace/snippets.js:642-645 | a `tabTrigger` without `trigger` becomes the escaped trigger, with guard `\b` when it starts with a word character and has no guard; otherwise trigger and guard are kept |
| SnippetRegistry.PatternsBuiltIffTriggered | src-noconflict/lib/ace/snippets.js:647-653 | the four patterns are built, both `startRe` and `endRe` in opening form, exactly when one of trigger, guard, end trigger, end guard is set; otherwise they are left alone |
| SnippetRegistry.AddEffectScope | src-noconflict/lib/ace/snippets.js:627-640 | a snippet is filed under its own scope, else the call's, else `_`; it is in that scope's list and the call continues with that scope |
| SnippetRegistry.AddEffectKeepsScopes | src-noconflict/lib/ace/snippets.js:627 | a snippet that already has a scope keeps it |
| SnippetRegistry.AddAllScopeIsLast | src-noconflict/lib/ace/snippets.js:628-659 | the `registerSnippets` event of an array carries the scope of the last snippet |
| SnippetRegistry.AddInheritsScope | src-noconflict/lib/ace/snippets.js:627-628 | a later snippet without a scope inherits the scope the earlier one was filed under |
| SnippetRegistry.AddTakesName | src-noconflict/lib/ace/snippets.js:634-639 | after registering a named snippet, its scope's name map points to it |
| SnippetRegistry.AddReplacesPrevious | src-noconflict/lib/ace/snippets.js:634-640 | registering over a same-named snippet of the scope first removes the old one from the list (when its `content` is truthy), then appends the new one |
| SnippetRegistry.RemoveRegistered | src-noconflict/lib/ace/snippets.js:665-673 | `unregister` of a snippet whose name key is registered under its table key removes that name entry and exactly one list entry, and changes no other scope; an unnamed snippet removes the entry "undefined", whichever snippet it holds |
| SnippetRegistry.RemoveUnregistered | src-noconflict/lib/ace/snippets.js:667 | `unregister` of a snippet whose name key (its name, or "undefined") is not registered under its table key changes nothing |
| SnippetRegistry.RegisterThenUnregister | src-noconflict/lib/ace/snippets.js:626-675 | a snippet registered alone and then unregistered is in neither table of its scope |
| SnippetRegistry.SnippetManager.constructor | src-noconflict/lib/ace/snippets.js:599-600 | a new manager has empty tables |
| SnippetRegistry.SnippetManager.RemoveSnippet | src-noconflict/lib/ace/snippets.js:665-673 | the in-place `removeSnippet` has exactly the effect `RemoveEffect` describes |
| SnippetRegistry.SnippetManager.Unregister | src-noconflict/lib/ace/snippets.js:661-676 | `unregister` throws exactly for a nullish argument, removes one snippet or each of an array, and ignores other values |
| SnippetRegistry.SnippetManager.RemoveSnippets | src-noconflict/lib/ace/snippets.js:675 | the in-place `forEach(removeSnippet)` loop has the effect `RemoveAll` describes and emits nothing |
| SnippetRegistry.SnippetManager.FileSnippet | src-noconflict/lib/ace/snippets.js:627-632 | the in-place filing step is `FileStep` |
| SnippetRegistry.SnippetManager.NameSnippet | src-noconflict/lib/ace/snippets.js:634-639 | the in-place naming step is `NameStep` |
| SnippetRegistry.SnippetManager.AddSnippet | src-noconflict/lib/ace/snippets.js:626-654 | the in-place `addSnippet` is `AddEffect`, returning the new current scope |
| SnippetRegistry.SnippetManager.AddSnippets | src-noconflict/lib/ace/snippets.js:657 | the `forEach` loop is `AddAll` |
| SnippetRegistry.SnippetManager.Register | src-noconflict/lib/ace/snippets.js:601-660 | `register` updates the tables as `RegisterEffect` says and emits one `registerSnippets` event with the final scope |
| SnippetRegistry.SnippetManager.GetActiveScopes | src-noconflict/lib/ace/snippets.js:539-548 | the scopes are the editor's scope, then its `includeScopes` if its list has any, then `_` |
| SnippetVars.Element | src-noconflict/lib/ace/snippets.js:286-287 | `(v \|\| {})[key] \|\| ''` yields a non-empty string only for an index key of an array or string value |
| SnippetVars.StripTm | src-noconflict/lib/ace/snippets.js:289 | a leading `TM_` is removed and any other name is kept |
| SnippetVars.GetVariableValue | src-noconflict/lib/ace/snippets.js:285-294 | a number is a group of the match `__`; a capital letter with a number is a group of the match stored under `<letter>__`; another name, without `TM_`, is the table's own entry, and the empty string when absent |
| SnippetVars.TmPrefixIgnored | src-noconflict/lib/ace/snippets.js:289 | `TM_NAME` and `NAME` have the same value |
| SnippetVars.LeadingZeroGroupIsEmpty | src-noconflict/lib/ace/snippets.js:286 | a group number with a leading zero is not an array index and always yields the empty string |
| SnippetVars.FormatFunction | src-noconflict/lib/ace/snippets.js:337-341 | `upcase` and `downcase` change the case and keep the length; any other function leaves the value alone |
| SnippetVars.LeadingTabs | src-noconflict/lib/ace/snippets.js:355 | the longest prefix made only of tabs |
| SnippetVars.GotoNext | src-noconflict/lib/ace/snippets.js:389-392 | the index moves to a later occurrence of the token, or stays |
| SnippetVars.ObjStep | src-noconflict/lib/ace/snippets.js:360-387 | the loop body on a token object never moves the index backwards or past the end |
| SnippetVars.ObjValueStep | src-noconflict/lib/ace/snippets.js:370-387 | after the format is skipped, the index stays within the snippet |
| SnippetVars.Step | src-noconflict/lib/ace/snippets.js:347-388 | each turn of the loop advances the index, so the loop ends |
| SnippetVars.Run | src-noconflict/lib/ace/snippets.js:347-393 | the result only grows while the walk goes on |
| SnippetVars.ResolveObject | src-noconflict/lib/ace/snippets.js:360-369 | the in-place loop body on a token object, up to the value, is `ObjStep` |
| SnippetVars.ResolveValue | src-noconflict/lib/ace/snippets.js:370-387 | the in-place rest of the loop body is `ObjValueStep` |
| SnippetVars.Resolved | src-noconflict/lib/ace/snippets.js:343-394 | the walk of `resolveVariables` runs to the end of the snippet, and an empty snippet resolves to nothing |
| SnippetVars.ResolveVariables | src-noconflict/lib/ace/snippets.js:343-394 | the loop returns the tokens, and the `fmt` given to each object, that the walk `Run` computes |
| SnippetVars.RunKeeps | src-noconflict/lib/ace/snippets.js:347-388 | every token of the result is text or a tab-stop or case-change object of the snippet |
| SnippetVars.ResolvedKeeps | src-noconflict/lib/ace/snippets.js:343-394 | the same for the whole of `resolveVariables` |
| SnippetVars.RunPlain | src-noconflict/lib/ace/snippets.js:349-358 | plain text tokens are copied through unchanged |
| SnippetVars.ResolvedPlain | src-noconflict/lib/ace/snippets.js:343-394 | a snippet made only of text resolves to itself |
| SnippetVars.VariableWithValueSkipsDefault | src-noconflict/lib/ace/snippets.js:375-377 | a variable with a value emits the value and jumps to its closing token, skipping the default text |
| SnippetVars.EmptyConditionalJumps | src-noconflict/lib/ace/snippets.js:378-379 | a conditional whose variable is empty jumps to its `ifEnd` token and emits nothing |
| Tabstops.NextIndex | src-noconflict/lib/ace/snippets.js:821-825 | the new index is 0 exactly when there are fewer than two tab stops or `index + (dir \|\| 1)` reaches the count; otherwise it is that sum clamped below at 1, and it always stays below the count |
| Tabstops.SetSlot | src-noconflict/lib/ace/snippets.js:892 | `$openTabstops[index] = dest` puts the tab stop at its number, leaves every other slot as it was and grows the array with holes |
| Tabstops.WithFinal | src-noconflict/lib/ace/snippets.js:859-866 | a snippet without tab stop 0 gets one with a single range; the other numbers are kept |
| Tabstops.AddOne | src-noconflict/lib/ace/snippets.js:871-898 | one turn of the `forEach` keeps every named tab-stop object inside the arena |
| Tabstops.AddFrom | src-noconflict/lib/ace/snippets.js:871-898 | the `forEach` keeps the objects valid and creates exactly one object per new tab stop |
| Tabstops.AddTurns | src-noconflict/lib/ace/snippets.js:871-898 | the loop over the snippet's tab stops computes `AddFrom` |
| Tabstops.SpliceStart | src-noconflict/lib/ace/snippets.js:903 | the splice position lies within the array, and is `index + 1` when that is a position of it |
| Tabstops.Spliced | src-noconflict/lib/ace/snippets.js:900-904 | the tab-stop list after the splice holds the old tab stops and the new ones, nothing else |
| Tabstops.SpliceIn | src-noconflict/lib/ace/snippets.js:900-904 | the splice, with the first new tab stop moved last when tab stops exist, computes `Spliced` |
| Tabstops.TabstopManager.constructor | src-noconflict/lib/ace/snippets.js:735-740 | attaching starts at index 0 with no tab stops, none open and none selected |
| Tabstops.TabstopManager.AddTabstops | src-noconflict/lib/ace/snippets.js:855-904 | each tab stop of the snippet joins the open tab stop of its number or becomes a new one; the new ones are spliced in after the current index, the first moved last when tab stops exist; index and selection are unchanged |
| Tabstops.TabstopManager.SelectTabstop | src-noconflict/lib/ace/snippets.js:829-837 | the open tab stops are closed, the index is set, and a tab stop that exists and has ranges becomes the selected one |
| Tabstops.TabstopManager.Detach | src-noconflict/lib/ace/snippets.js:749-753 | on an attached manager, the tab stops and the selection are dropped |
| Tabstops.TabstopManager.TabNext | src-noconflict/lib/ace/snippets.js:821-828 | the index becomes `NextIndex`; index 0 detaches, any other index selects that tab stop when it has ranges |
| Tabstops.SplicedBounded | src-noconflict/lib/ace/snippets.js:900-904 | splicing brings in no tab stop from outside the arena |
| Tabstops.TotalSnoc | src-noconflict/lib/ace/snippets.js:871-893 | a new tab stop adds its ranges to the arena's total |
| Tabstops.TotalGrow | src-noconflict/lib/ace/snippets.js:882 | ranges joining an open tab stop add to the arena's total |
| Tabstops.AddFromKeepsRanges | src-noconflict/lib/ace/snippets.js:871-898 | whether they join open tab stops or make new ones, the arena gains exactly the snippet's ranges |
| Tabstops.AddFromFresh | src-noconflict/lib/ace/snippets.js:871-893 | with nothing open, every tab stop becomes a new object holding its ranges, in number order |
| Tabstops.AllOpenAddsNothing | src-noconflict/lib/ace/snippets.js:871-904 | when every tab stop has an open one of its number, nothing is created and the tab-stop list is unchanged |
| Tabstops.SplicedNested | src-noconflict/lib/ace/snippets.js:900-903 | inside an existing snippet, the new run follows the current tab stop with its first tab stop moved last, and the rest is kept in place |
| Tabstops.SplicedFirst | src-noconflict/lib/ace/snippets.js:900-903 | into an empty manager the new tab stops go in number order, tab stop 0 first |
| Tabstops.FirstSnippetAdded | src-noconflict/lib/ace/snippets.js:859-893 | with nothing open, tab stop 0 becomes the first new object and the others follow in number order |
| Tabstops.NestedTabOrder | src-noconflict/lib/ace/snippets.js:821-904 | after expanding a snippet inside another, the inner tab stops 1, 2, … follow the current one, then the inner tab stop 0, then the rest of the outer snippet, and the next forward `tabNext` enters the inserted run |
| Tabstops.TabForwardVisitsInOrder | src-noconflict/lib/ace/snippets.js:821-825 | tabbing forward goes to the next tab stop and wraps to 0 after the last |
| Tabstops.TabBackStopsAtFirst | src-noconflict/lib/ace/snippets.js:823-824 | tabbing backward from the first tab stop stays on it and never wraps |
| Tabstops.TabPastEndDetaches | src-noconflict/lib/ace/snippets.js:823-827 | any forward step that reaches the count detaches |
| Tabstops.TabForwardSteps | src-noconflict/lib/ace/snippets.js:821-825 | k forward steps from 0 reach tab stop k while k is below the count |
| Tabstops.Point.constructor | src-noconflict/lib/ace/snippets.js:953-961 | a point holds the given row and column |
| Tabstops.MovePoint | src-noconflict/lib/ace/snippets.js:953-956 | the row moves by the offset's row, and a point on row 0 also moves by its column, even when the offset is the point itself |
| Tabstops.MoveRelative | src-noconflict/lib/ace/snippets.js:958-961 | the row loses the start's row, and a point on the start's row also loses its column, even when the start is the point itself |
| Tabstops.RelativeThenMoved | src-noconflict/lib/ace/snippets.js:953-961 | `moveRelative(p, s)` followed by `movePoint(p, s)` restores the point |
| Tabstops.MovedThenRelative | src-noconflict/lib/ace/snippets.js:953-961 | `movePoint(p, d)` followed by `moveRelative(p, d)` restores the point |
| Tabstops.StartIsOrigin | src-noconflict/lib/ace/snippets.js:958-961 | made relative to itself, a start becomes (0, 0) |
| ExtTern.ColumnFrom | src-noconflict/ext-tern.js:2035-2038 | the column counted from `n`: nothing past `end` moves it, and it never goes back |
| ExtTern.IndentEnd | src-noconflict/ext-tern.js:2031-2034 | the end of the leading white space: every character before it is white space and the one at it is not (or the string ends) |
| ExtTern.CountColumn | src-noconflict/ext-tern.js:2030-2040 | the loop computes the column `ColumnFrom` reaches: a tab advances to the next multiple of `tabSize`, any other character by one, up to `end` or, without one, the first character that is not white space |
| ExtTern.TabAdvancesToStop | src-noconflict/ext-tern.js:2036 | a tab moves to the next multiple of `tabSize`, strictly forward and at most `tabSize` columns |
| ExtTern.NoTabsCountsCharacters | src-noconflict/ext-tern.js:2035-2038 | without tabs the column grows by the number of characters |
| ExtTern.ColumnAtLeastLength | src-noconflict/ext-tern.js:2035-2038 | every character moves at least one column |
| ExtTern.TabIndentation | src-noconflict/ext-tern.js:2035-2038 | k tabs from column 0 are `k * tabSize` columns wide |
| ExtTern.TabsFrom | src-noconflict/ext-tern.js:2035-2038 | tabs starting on a tab stop advance one tab stop each |
| ExtTern.NameRunEnd | src-noconflict/ext-tern.js:3018 | the end of the longest run of argument-name characters from `pos` |
| ExtTern.NameAt | src-noconflict/ext-tern.js:3018-3022 | an argument-name prefix `name: ` is recognized with the name and the match length `|name| + 2` |
| ExtTern.SkipMatching | src-noconflict/ext-tern.js:3005-3015 | `skipMatching` stops only on a `,` or `)` inside the text; from the end of the text it never stops |
| ExtTern.SkipMatchingLoop | src-noconflict/ext-tern.js:3005-3015 | the `for(;;)` loop with its depth counter returns where `SkipMatching` stops, or `None` where the source never returns |
| ExtTern.ArgAt | src-noconflict/ext-tern.js:3018-3026 | one argument ends on the `,` or `)` inside the text that follows its type |
| ExtTern.ArgAtLoop | src-noconflict/ext-tern.js:3018-3026 | one turn of the argument loop reads the argument `ArgAt` defines |
| ExtTern.ParseArgs | src-noconflict/ext-tern.js:3016-3030 | when the argument loop ends, it ends on the closing `)` |
| ExtTern.ParseArgsLoop | src-noconflict/ext-tern.js:3016-3030 | the `for(;;)` argument loop collects the arguments `ParseArgs` defines, in order, and stops on the same `)` |
| ExtTern.RetType | src-noconflict/ext-tern.js:3032 | a return type is found exactly when `) -> ` stands at the position and no line terminator follows; it is the rest of the text |
| ExtTern.ParseFnType | src-noconflict/ext-tern.js:2998-3036 | `parseFnType` is null exactly when the text does not start with `fn` or holds no `(`; a return type found is the tail of the text after `) -> ` |
| ExtTern.ParseFnTypeLoop | src-noconflict/ext-tern.js:2998-3036 | the code with its loops returns what `ParseFnType` defines |
| ExtTern.SkipMatchingBalanced | src-noconflict/ext-tern.js:3005-3015 | an argument type ends at the first `,` or `)` outside brackets, and the brackets before it balance |
| ExtTern.UnclosedArgumentDiverges | src-noconflict/ext-tern.js:3005-3015 | `fn(a` makes `skipMatching` run past the end, where the loop never ends |
| ExtTern.ParsesSignature | src-noconflict/ext-tern.js:2998-3036 | `fn(a: T) -> R` parses to one argument `a` of type `T` and return type `R` |
| ExtTern.ToTernLoc | src-noconflict/ext-tern.js:1915-1923 | an editor position `{row, column}` becomes `{line, ch}`; a tern position is kept |
| ExtTern.ToAceLoc | src-noconflict/ext-tern.js:1924-1932 | every tern position becomes `{row, column}`, line 0 included; an editor position is kept |
| ExtTern.ToAceLocAsWritten | src-noconflict/ext-tern.js:1924-1932 | as written, a tern position on line 0 comes back unchanged; every other position is converted as `ToAceLoc` converts it |
| ExtTern.ToAceLocFirstLine | src-noconflict/ext-tern.js:1925 | as written, a tern position on line 0 is returned unconverted, with no `row` or `column` |
| ExtTern.LocRoundTrips | src-noconflict/ext-tern.js:1915-1932 | `toTernLoc` and the corrected `toAceLoc` are inverse to each other |
| ExtTern.CmpPos | src-noconflict/ext-tern.js:3048-3052 | negative, zero or positive exactly as the first position is before, equal to or after the second in (line, ch) order, whatever the form |
| ExtTern.CmpPosAntisymmetric | src-noconflict/ext-tern.js:3048-3052 | swapping the arguments negates the result, and converting an argument first changes nothing |
| ExtTern.CmpPosTransitive | src-noconflict/ext-tern.js:3048-3052 | the order is transitive |
| ExtTern.HtmlEncode | src-noconflict/ext-tern.js:3038-3047 | the result holds no `<` or `>` and is never shorter |
| ExtTern.HtmlEncodeDecodes | src-noconflict/ext-tern.js:3038-3047 | text without `&` reads back as written once encoded |
| ExtTern.HtmlEncodeKeepsAmpersand | src-noconflict/ext-tern.js:3039-3042 | `&` is not escaped, so `<` and the text `&lt;` encode alike |
| ExtTern.IconSuffix | src-noconflict/ext-tern.js:2047-2052 | `?` is unknown, the three primitive names are themselves, `fn(` is fn, `[` is array, and exactly the rest is object |
| ExtTern.TypeToIcon | src-noconflict/ext-tern.js:2053 | the two class names of the icon, the second ending in the icon kind |
| ExtTern.IdentStart | src-noconflict/ext-tern.js:1211-1214 | the start of the run of accepted characters that ends at `pos` |
| ExtTern.RetrievePrecedingIdentifier | src-noconflict/ext-tern.js:1206-1216 | the loop returns exactly the run of characters the given regex (or `ID_REGEX`, `IdChar`, when none is given) accepts ending at `pos`, in text order |
| ExtTern.PrecedingIsLongestSuffix | src-noconflict/ext-tern.js:1208-1216 | that run is the longest accepted suffix of the text before `pos` |
| ExtTern.IdentEnd | src-noconflict/ext-tern.js:1221-1224 | the end of the run of accepted characters starting at `pos` |
| ExtTern.RetrieveFollowingIdentifier | src-noconflict/ext-tern.js:1218-1226 | the loop returns one one-character string for each character the given regex (or `ID_REGEX` when none is given) accepts, from `pos` up to the first rejected one |
| ExtTern.Tracked | src-noconflict/ext-tern.js:3385-3402 | with the intended update, the range starts at the smaller of its old start and the change's line (the change's line for a new range) and ends past every inserted line |
| ExtTern.TrackedAsWritten | src-noconflict/ext-tern.js:3385-3402 | as written, the range's end is the intended one, and its start differs from the intended one only by being undefined |
| ExtTern.TrackChangeLosesFrom | src-noconflict/ext-tern.js:3400-3402 | as written, a change above the dirty range sets the range's start to undefined |
| ExtTern.TrackedCovers | src-noconflict/ext-tern.js:3385-3402 | with the intended update, the dirty range has a start at or above the change and covers every inserted line |
| ExtTern.TrackedDoc.constructor | src-noconflict/ext-tern.js:3385 | a document starts with no dirty range and no argument hints |
| ExtTern.TrackedDoc.TrackChange | src-noconflict/ext-tern.js:3372-3402 | argument hints starting at or before the change's end are dropped, and the dirty range becomes the intended update |
| Completions.Earliest | src-noconflict/ext-tern.js:1625-1627 | the smaller non-negative of the two `indexOf` results is the first position at or after `from` whose character matches in either case; -1 means no position matches |
| Completions.Fuzzy | src-noconflict/ext-tern.js:1624-1636 | the greedy match from needle character `j`: with the needle used up the penalty and mask so far are the result; a match only adds positions below 32 to the mask |
| Completions.FuzzyStep | src-noconflict/ext-tern.js:1625-1634 | one turn of the fuzzy loop: with both `indexOf` results -1 the completion is dropped, otherwise matching goes on after the chosen index with the gap (plus 10 before the first match) added to the penalty |
| Completions.Outcome | src-noconflict/ext-tern.js:1613-1637 | a completion without a caption is dropped; in exact mode it is kept iff its caption starts with the needle, with no penalty and an empty mask |
| Completions.Scored | src-noconflict/ext-tern.js:1638-1640 | scoring keeps the texts, records the mask, sets `exactMatch` to 1 iff the penalty is 0 and takes the penalty off the score |
| Completions.FilterFrom | src-noconflict/ext-tern.js:1608-1644 | filtering changes no completion's texts and returns indices of the arena |
| Completions.Kept | src-noconflict/ext-tern.js:1612-1641 | a completion is in the kept list iff it is in the input and its outcome is a match |
| Completions.Insert | src-noconflict/ext-tern.js:1597 | one insertion step of the sort adds exactly one entry and loses none |
| Completions.InsertRanked | src-noconflict/ext-tern.js:1597 | inserting into a ranked list keeps it ranked |
| Completions.InsertedRankBelowHead | src-noconflict/ext-tern.js:1597 | inserting behind the head of a ranked list ranks nothing above the head |
| Completions.SortByRankStable | src-noconflict/ext-tern.js:1597 | the sort is stable: the entries of each rank come out in their input order |
| Completions.InsertRankClass | src-noconflict/ext-tern.js:1597 | one insertion places the entry after every entry of its own rank and moves no other entry of that rank |
| Completions.RankClassSnoc | src-noconflict/ext-tern.js:1597 | the entries of a rank in a list with one more entry at the end are the earlier ones followed by that entry, when it has the rank |
| Completions.SortByRank | src-noconflict/ext-tern.js:1597 | the sort returns a permutation of its input ordered exact matches first, then by descending score |
| Completions.RankLeIffComparator | src-noconflict/ext-tern.js:1597 | the order the sort establishes is the one the comparator's sign defines |
| Completions.Dedupe | src-noconflict/ext-tern.js:1598-1604 | deduplication keeps a sub-collection of its input whose first label differs from the last label kept before it |
| Completions.Narrows | src-noconflict/ext-tern.js:1592 | the intended narrowing test: the new filter is strictly longer and agrees with the old one on every character of it |
| Completions.LongerAsWritten | src-noconflict/ext-tern.js:1592 | `str.length > this.filterText` as written: the empty filter compares as 0, a filter starting like an identifier never compares smaller |
| Completions.NarrowsAsWritten | src-noconflict/ext-tern.js:1592 | as written, narrowing needs the new filter to extend the old one; a filter starting like an identifier never narrows; for the empty filter it agrees with `Narrows` |
| Completions.NarrowingIgnoredAsWritten | src-noconflict/ext-tern.js:1592 | as written, the filter "a" followed by "ab" does not narrow, although "ab" extends "a" |
| Completions.FilteredList.constructor | src-noconflict/ext-tern.js:1584-1589 | a new list has all entries shown, the given filter text and exact matching off |
| Completions.FilteredList.FuzzyScore | src-noconflict/ext-tern.js:1624-1636 | the loop over the needle's characters computes the greedy fuzzy match with its penalty and mask |
| Completions.FilteredList.MatchChar | src-noconflict/ext-tern.js:1625-1635 | one loop turn either ends the match (no later matching character) or advances past `lastIndex` to the chosen index with penalty and mask updated |
| Completions.FilteredList.MatchOne | src-noconflict/ext-tern.js:1613-1637 | the per-completion step computes the completion's outcome: dropped without a caption, exact or fuzzy otherwise |
| Completions.FilteredList.FilterCompletions | src-noconflict/ext-tern.js:1608-1644 | the completions are scored in place and the kept ones returned in order; the other fields are untouched |
| Completions.FilteredList.SetFilter | src-noconflict/ext-tern.js:1591-1607 | with the corrected narrowing test `Narrows` in place of line 1592's comparison (see Findings), the new filtered list is the current list (when the filter extends the old one) or all entries, filtered, ranked and deduplicated; the filter text becomes `str` |
| Completions.FilterReturnsKept | src-noconflict/ext-tern.js:1608-1644 | `filterCompletions` returns exactly the completions whose outcome is a match, in input order |
| Completions.FuzzyIffSub | src-noconflict/ext-tern.js:1624-1636 | the greedy left-to-right match succeeds exactly when the needle is a case-insensitive subsequence of the caption |
| Completions.FuzzyKeepsSubsequences | src-noconflict/ext-tern.js:1613-1637 | in fuzzy mode a completion is kept iff it has a caption and the needle embeds in it in order, ignoring case |
| Completions.PenaltyGrows | src-noconflict/ext-tern.js:1629-1632 | the penalty never decreases along a match |
| Completions.ZeroPenaltyFrom | src-noconflict/ext-tern.js:1624-1639 | from a contiguous position, matching costs nothing more iff the rest of the needle matches at the very next positions |
| Completions.ZeroPenaltyIffPrefix | src-noconflict/ext-tern.js:1624-1639 | a fuzzy match is penalty-free, and so flagged exact, iff the caption starts with the needle ignoring case |
| Completions.LateStartPenalized | src-noconflict/ext-tern.js:1629-1632 | a match whose first character is not at position 0 costs at least 10 plus the position |
| Completions.ExtensionNarrows | src-noconflict/ext-tern.js:1592-1593 | item by item, a completion dropped for a filter is dropped for every extension of it (narrowing from the deduplicated list can still lose matches, see `DedupeLosesNarrowedMatch`) |
| Completions.DedupeLosesNarrowedMatch | src-noconflict/ext-tern.js:1592-1604 | deduplication compares `snippet \|\| caption \|\| value` while matching reads `value \|\| caption \|\| snippet`: of two completions captioned "x" with values "xa" and "xb", only the first survives filtering by "x", so narrowing to "xb" from that list misses the second |
| Completions.DedupeRanked | src-noconflict/ext-tern.js:1597-1604 | deduplicating a ranked list leaves it ranked |
| Completions.DedupeNoAdjacentRepeats | src-noconflict/ext-tern.js:1598-1604 | after deduplication no two neighbours share a label |
| Completions.DedupeKeepsLabels | src-noconflict/ext-tern.js:1598-1604 | every label of the input survives deduplication (or is the label kept just before) |
| Completions.SetFilterResult | src-noconflict/ext-tern.js:1591-1607 | every entry `setFilter` leaves is a matching entry of the list it filtered, the list is ranked and no neighbours share a label |
| JsDoc.SpaceEnd | lib/jsdoc.js:13-16 | the position reached is the first at or after `pos` that holds no white space, and never past the end of the text |
| JsDoc.WordEnd | lib/jsdoc.js:78-79 | every character of the run is `[\w$]` and the character after it is not |
| JsDoc.TypeAt | lib/jsdoc.js:43-99 | a parsed type ends no earlier than where parsing started and within the text |
| JsDoc.FnTypeAt | lib/jsdoc.js:47-59 | a parsed `function(` type consumes at least one character, ends within the text, and is a function type with one argument name per argument type (the corrected argument order; see Findings) |
| JsDoc.ArrTypeAt | lib/jsdoc.js:60-66 | a parsed `[T]` consumes its bracket and ends within the text |
| JsDoc.ObjTypeAt | lib/jsdoc.js:67-76 | a parsed `{labels}` type consumes its brace and ends within the text |
| JsDoc.WordType | lib/jsdoc.js:81-96 | a word denotes a primitive type exactly when it is one of the primitive names, ignoring case; a name the scope does not bind is `ANull` |
| JsDoc.WordTypeAt | lib/jsdoc.js:77-97 | a bare word consumes at least one character; no word is a failure |
| JsDoc.EntryAt | lib/jsdoc.js:22-38 | an immediately closed list stops at the closing character and only in the first turn; a completed entry ends past its separator |
| JsDoc.Separated | lib/jsdoc.js:34-38 | after an entry's type, the closing character ends the list and `,` continues it, each consumed; anything else fails |
| JsDoc.LabelsAt | lib/jsdoc.js:18-41 | a parsed list has as many labels as types and ends within the text |
| JsDoc.OuterTypeAt | lib/jsdoc.js:101-108 | `parseTypeOuter` succeeds only on a `{`-opened type whose end is just past a `}` |
| JsDoc.SkipSpace | lib/jsdoc.js:13-16 | the loop stops at the first non-space position |
| JsDoc.ParseEntry | lib/jsdoc.js:22-38 | one loop turn of `parseLabelList` yields the entry that the list grammar reads there |
| JsDoc.ParseSeparator | lib/jsdoc.js:34-38 | the character after an entry's type decides between end of list, next entry and failure |
| JsDoc.ParseLabelList | lib/jsdoc.js:18-41 | the loop reads the `label: T` list the grammar defines, failing where it does |
| JsDoc.ParseType | lib/jsdoc.js:43-99 | `parseType` reads the type the grammar defines at that position |
| JsDoc.ParseFnType | lib/jsdoc.js:47-59 | the `function(` branch, including the return type read one character past the `:` |
| JsDoc.ParseArrType | lib/jsdoc.js:60-66 | the `[` branch |
| JsDoc.ParseObjType | lib/jsdoc.js:67-76 | the `{` branch, pairing the labels with their types in order |
| JsDoc.ParseWordType | lib/jsdoc.js:77-97 | the bare-word branch: the loop stops at the end of the word |
| JsDoc.ParseTypeOuter | lib/jsdoc.js:101-108 | `parseTypeOuter` reads the braced type the grammar defines |
| JsDoc.ParamName | lib/jsdoc.js:127 | a parameter name found after the type is a non-empty `[\w$]` word |
| JsDoc.Step | lib/jsdoc.js:116-131 | a tag whose type does not parse changes nothing; otherwise it sets `foundOne` and, by tag, replaces the return type or the `@type`, or records the parameter type under its name (nothing when the name is missing) |
| JsDoc.CollectAll | lib/jsdoc.js:110-131 | after the matches `foundOne` is set exactly when some match's type parsed, and without a `@type` match no `@type` is recorded |
| JsDoc.ArgFlows | lib/jsdoc.js:149-155 | every flow goes into an argument whose name is documented with a defined type, and every such argument receives one |
| JsDoc.Applied | lib/jsdoc.js:137-160 | every flow carries a defined type; a flow into an argument needs a documented function and documented parameters, a flow into the return value is the `@returns` type, and a flow into the value is the `@type` |
| JsDoc.ApplyType | lib/jsdoc.js:137-160 | the loop sets up exactly the flows `applyType` defines |
| JsDoc.InterpretComments | lib/jsdoc.js:110-135 | the tags are folded in order and applied only when at least one parsed |
| JsDoc.Print | lib/jsdoc.js:82-84 | every printable type has non-empty text |
| JsDoc.WordAt | lib/jsdoc.js:77-97 | a whole word standing at a position (not a possible `function(`) is read as that word's type |
| JsDoc.TypeAtArr | lib/jsdoc.js:60 | at a `[`, `parseType` takes the array branch |
| JsDoc.ArrParses | lib/jsdoc.js:60-66 | `[`, an element type and `]` make an array of that element |
| JsDoc.TypeAtWord | lib/jsdoc.js:77 | where no bracket or `function(` stands, `parseType` reads a word |
| JsDoc.NotFunctionAt | lib/jsdoc.js:47 | a word run not of length eight followed by more text cannot start `function(` |
| JsDoc.PrintParses | lib/jsdoc.js:43-99 | a printed primitive or array type, followed by a non-word character, parses back to itself and ends right after its text |
| JsDoc.OuterRoundTrip | lib/jsdoc.js:101-108 | `{T}` reads back as `T` for every printable type, ending past the brace |
| JsDoc.OuterParses | lib/jsdoc.js:101-108 | `{`, a type and `}` at the start make the outer type, ending past the brace |
| JsDoc.CaseInsensitiveWords | lib/jsdoc.js:82-84 | `number`/`integer`, `bool`/`boolean` and `string` are recognised in any letter case |
| JsDoc.ArgsSlotAsWritten | lib/jsdoc.js:59 | as written, the `args` slot of the function type receives one label per parameter and no type |
| JsDoc.FnArgsSwappedAsWritten | lib/jsdoc.js:47-59 | for `{function(a: number)}` the label `a` lands where the type `number` belongs; the corrected parser gives `number` as the argument type and `a` as its name |
| JsDoc.EmptyListEndsAtClose | lib/jsdoc.js:23-40 | a list closed at once is empty and ends AT its closing character, not past it |
| JsDoc.EmptyFunctionRejected | lib/jsdoc.js:47-59 | as a consequence, `{function()}` does not parse: the function type ends at its `)` and the outer brace is not found (also lines 23, 105) |
| JsDoc.NamesResolve | lib/jsdoc.js:85-96 | an unbound name is `ANull`; a capitalised function name is an instance of the object `getProp('prototype')` yields (the made-up prototype for a function without one), and undefined only when an existing `prototype` holds no object; another function name is the function |
| JsDoc.WholeWord | lib/jsdoc.js:77-97 | a text that is one word parses as that word, consuming all of it |
| JsDoc.LaterReturnsWins | lib/jsdoc.js:122-123 | a later `@returns` replaces an earlier one |
| JsDoc.UnnamedParamSkipped | lib/jsdoc.js:119-128 | an `@param` without a name records nothing but still counts as a parsed tag |
| JsDoc.ParamsFlowByName | lib/jsdoc.js:148-157 | a documented parameter flows into the argument of that name, and then `@type` is not applied |
| JsDoc.TypeFlowsToValue | lib/jsdoc.js:157-159 | on a node that defines no function, the `@type` flows into the declared value |
| InferTables.EffectiveWeight | src-noconflict/lib/infer.js:60-70 | the weight used is always positive and is the given one when that is non-zero |
| InferTables.UnopCoversOperators | src-noconflict/lib/infer.js:795-802 | `unopResultType` has a rule for exactly the unary operators of the language |
| InferTables.UnopKinds | src-noconflict/lib/infer.js:795-802 | `+`, `-` and `~` (and only they) yield a number, `!` a boolean, `typeof` a string |
| InferTables.BinopBooleanIffComparison | src-noconflict/lib/infer.js:803-808 | a binary operator is boolean-valued exactly when it is a relational or equality operator; no arithmetic operator is |
| InferTables.LiteralResult | src-noconflict/lib/infer.js:809-818 | each literal kind maps to its own type: numbers, booleans and strings to their primitives, `null` to `ANull` |
| InferTables.LvalName | src-noconflict/lib/infer.js:782-788 | a variable yields its name, `a.b` on a variable yields `a` + "." + `b`, a deeper member its property name, a computed member or other node nothing |
| InferTables.MakePredicate | src-noconflict/lib/infer.js:1184-1193 | the predicate checks a range exactly when `end` is given, that range is `[start, end]`, and a one-element origin list acts as a single origin |
| InferTables.PredicateByOrigin | src-noconflict/lib/infer.js:1184-1192 | without `end` the predicate accepts a node exactly when its origin is one of the origins, whatever the position |
| InferTables.PredicateByRange | src-noconflict/lib/infer.js:1184-1193 | with `end` it accepts exactly when a position is passed, lies inside `[start, end]`, and the origin is accepted |
| InferTables.Score | src-noconflict/lib/infer.js:198-211 | every type scores at least 1 in the tie-break |
| InferTables.LastPrim | src-noconflict/lib/infer.js:185-188 | the remembered primitive is the last primitive in the list, or none when there is no primitive |
| InferTables.CountKindPositive | src-noconflict/lib/infer.js:190 | a kind counts as present exactly when some type has it |
| InferTables.KindsAtMostOne | src-noconflict/lib/infer.js:190-191 | at most one kind is present exactly when all types have the same kind |
| InferTables.CanonicalType | src-noconflict/lib/infer.js:177-212 | a type is chosen iff the list is non-empty, of one kind and its primitives agree; the chosen type has the highest score and no later type ties it |
| InferTables.Tally | src-noconflict/lib/infer.js:178-189 | the counting loop reports disagreement exactly when two primitives differ in name; otherwise it returns the count of each kind and the last primitive |
| InferTables.PrimsAgreeExtend | src-noconflict/lib/infer.js:185-188 | a primitive with the remembered name keeps the primitives seen so far agreeing |
| InferTables.BestScore | src-noconflict/lib/infer.js:194-211 | the scoring loop returns the last index of the highest score |
| InferTables.AllPrims | src-noconflict/lib/infer.js:192 | with a single kind and a primitive present, the chosen primitive is the last type and scores highest |
| InferTables.NamedObjectWins | src-noconflict/lib/infer.js:205-206 | among objects, a named one scores at least as high as every other |
| InferTables.NoFifthKind | src-noconflict/lib/infer.js:207-208 | the `prims` branch of the scoring loop is unreachable: every type has one of the four kinds |
| InferTables.EnqueueBound | src-noconflict/lib/infer.js:605-613 | nothing is queued at depth 20 or more, and the worklist never reaches 50000 items |
| InferTables.EnqueueShrinks | src-noconflict/lib/infer.js:605-613 | the allowed depth shrinks with the list: at depth 19 only 2500 items fit, at depth 0 all 50000 |
| InferGraph.AddedCell | src-noconflict/lib/infer.js:69-78 | a higher weight replaces the types by the new one; the same weight appends a type not yet held; a lower weight or a held type changes nothing; only types and weight change and types stay free of duplicates |
| InferGraph.AddDefaultWeight | src-noconflict/lib/infer.js:70 | adding without a weight is adding at weight 100 |
| InferGraph.AddIdempotent | src-noconflict/lib/infer.js:74-75 | adding the same type at the same weight twice is adding it once |
| InferGraph.AddNeverLowers | src-noconflict/lib/infer.js:71-75 | a cell's weight never goes down, and evidence of a lower weight is ignored |
| InferGraph.AddOrderIrrelevant | src-noconflict/lib/infer.js:69-78 | two additions leave the same set of types and the same weight in either order |
| InferGraph.FindInstance | src-noconflict/lib/infer.js:297-300 | the instance found is one recorded for that constructor; none is found only when no entry has that constructor |
| InferGraph.InstanceRecorded | src-noconflict/lib/infer.js:301-304 | recording a new instance keeps one entry per constructor, is found afterwards, and changes no other constructor's lookup |
| InferGraph.ProtoPrefix | src-noconflict/lib/infer.js:376-377 | a prefix exists exactly for names ending in `.prototype`, and it is the name without that suffix |
| InferGraph.ProtoPrefixOf | src-noconflict/lib/infer.js:376-377 | the prefix of `X.prototype` is `X` |
| InferGraph.ObjName | src-noconflict/lib/infer.js:375-379 | an object keeps a name of its own; a function, or one whose prototype has no name, gets none; otherwise it is named after a `X.prototype` prototype |
| InferGraph.ChainLookup | src-noconflict/lib/infer.js:399-403 | an own property is found first; whatever is found is the own property of the object or of one of its ancestors |
| InferGraph.ChainLookupFrame | src-noconflict/lib/infer.js:399-403 | a lookup depends only on the properties and prototype links of the object and its ancestors |
| InferGraph.MaybeUnreg | src-noconflict/lib/infer.js:468-475 | leaving a prototype's subscribers changes only placeholder maps (to `null`) and subscriber lists, only of the object and its ancestors; an object with placeholders left changes nothing |
| InferGraph.Unreg | src-noconflict/lib/infer.js:476-479 | `unregPropHandler` changes only subscriber lists and placeholder maps of the type and its ancestors |
| InferGraph.UnregLeavesProto | src-noconflict/lib/infer.js:468-479 | an object with no placeholders and no subscribers removes itself, once, from its prototype's subscribers, and its own map becomes `null` |
| InferGraph.MaybeUnregKeepsSubscribers | src-noconflict/lib/infer.js:468-474 | the check on a type never changes that type's own subscriber list |
| InferGraph.KeptTypesMeaning | src-noconflict/lib/infer.js:1198-1201 | after the purge a cell holds exactly its types whose origin does not match, without duplicates |
| InferGraph.KeptForwardMeaning | src-noconflict/lib/infer.js:1203-1208 | exactly the forward edges whose origin does not match are kept; with a range none is removed, because the edges are checked without a position |
| InferGraph.MarkTestAsWritten | src-noconflict/lib/infer.js:1233 | as written, the test marks a variable only for a predicate without a range, and there it agrees with the intended `MarkTest` |
| InferGraph.MarkAsWrittenIgnoresRange | src-noconflict/lib/infer.js:1233 | as written, a purge with a range never marks a variable |
| InferGraph.MarkAsWrittenMisses | src-noconflict/lib/infer.js:1233 | a variable of `a.js` defined at 10–20 is not marked by the range 0–100 of `a.js` |
| InferGraph.MarkTestMeaning | src-noconflict/lib/infer.js:1228-1233 | the corrected test marks exactly the variables of the given origins whose defining node lies in the range, or all of those origins without a range |
| InferGraph.Unmarked | src-noconflict/lib/infer.js:1240 | exactly the variables whose cells are marked are deleted, and the others keep their cells |
| InferGraph.AnyMatchesMeaning | src-noconflict/lib/infer.js:1206-1208 | a forward edge is removed exactly when one matches |
| InferGraph.PurgedCell | src-noconflict/lib/infer.js:1195-1214 | a purged cell carries the generation, never gains a type, keeps whether it has forward edges, its weight, origin, node and purge flag, and keeps its memo or loses it |
| InferGraph.PurgedCellMeaning | src-noconflict/lib/infer.js:1195-1214 | a purged cell keeps exactly its non-matching types and forward edges, loses its property memo iff an edge went, carries the generation and changes nothing else |
| InferGraph.PurgeStepTrans | src-noconflict/lib/infer.js:1195-1226 | two stretches of a purge compose into one: each cell or type is either untouched or in its purged form |
| InferGraph.PurgeStepFinish | src-noconflict/lib/infer.js:1196-1214 | finishing `AVal.purge` on a cell that was only marked visited gives its purged form |
| InferGraph.PurgeStepKeepsArena | src-noconflict/lib/infer.js:1195-1226 | the purge keeps each cell's types duplicate-free and each type's links well formed |
| InferGraph.PurgeStepLowers | src-noconflict/lib/infer.js:1196-1218 | a purge step never makes a visited value unvisited |
| InferGraph.MarkCellLowers | src-noconflict/lib/infer.js:1196-1197 | marking an unvisited cell visited leaves one fewer to visit, so the recursive purge terminates |
| InferGraph.MarkTypeLowers | src-noconflict/lib/infer.js:1217-1218 | marking an unvisited type visited leaves one fewer to visit |
| InferGraph.PurgedRegistry | src-noconflict/lib/infer.js:1175-1181 | the registry keeps all its property names |
| InferGraph.PurgedRegistryMeaning | src-noconflict/lib/infer.js:1175-1181 | each registry list keeps exactly its objects whose origin node and origin do not match |
| InferGraph.ChainVars | src-noconflict/lib/infer.js:1230-1232 | the variables of every scope from `scope` outwards are among the cells marked over |
| InferGraph.MarkedCell | src-noconflict/lib/infer.js:1233 | marking sets only `maybePurge`, and sets it exactly for a variable the test accepts (an existing mark stays) |
| InferGraph.MarkedCellTwice | src-noconflict/lib/infer.js:1230-1235 | marking twice equals marking once for both reasons |
| InferGraph.AsTarget | src-noconflict/lib/infer.js:88 | only a cell is a real target of `propagate`; `ANull` and types absorb the call (also line 356) |
| InferGraph.Registered | src-noconflict/lib/infer.js:549-552 | `registerProp` appends the object to the list of that property and changes no other list |
| InferGraph.Enqueued | src-noconflict/lib/infer.js:612-614 | the worklist only grows by items at the current depth, each within the bound; when the bound is reached nothing is added |
| InferGraph.EnqueuedAll | src-noconflict/lib/infer.js:612-614 | with room for all items, each is queued in order at the current depth |
| InferGraph.LastFn | src-noconflict/lib/infer.js:118-120 | the type found is a function among the cell's types; none is found only when no type is a function |
| InferGraph.LastFnIsLast | src-noconflict/lib/infer.js:118-120 | the function found is at or after every function of the list: it is the last |
| InferGraph.ScopeChain | src-noconflict/lib/infer.js:1230 | the scope chain starts at the scope and only goes outwards |
| InferGraph.VarHome | src-noconflict/lib/infer.js:634-640 | `defVar` stops at the scope itself or an outer one |
| InferGraph.VarHomeMeaning | src-noconflict/lib/infer.js:634-640 | the walk stops at a scope defining the name or the outermost one, and a lookup from there finds what a lookup along the chain from the start finds |
| InferGraph.KeptWf | src-noconflict/lib/infer.js:468-479 | leaving a subscriber list keeps every type well formed |
| InferGraph.KnownProp | src-noconflict/lib/infer.js:427-428 | `getProp` finds an inherited property first, then a placeholder, and otherwise nothing known |
| InferGraph.Noted | src-noconflict/lib/infer.js:405-408 | `defProp` on an existing property only gives it an origin node when it had none |
| InferGraph.Deliveries | src-noconflict/lib/infer.js:79-83 | a recorded type is queued once to every forward edge, in order, at its weight |
| InferGraph.Feeds | src-noconflict/lib/infer.js:91-96 | a new edge is fed every type the cell holds, in order, at the cell's weight |
| InferGraph.Muffled | src-noconflict/lib/infer.js:89 | a weight strictly between 0 and 100 wraps the target in a `Muffle`; otherwise the target is used as it is |
| InferGraph.MuffleWeight | src-noconflict/lib/infer.js:343-346 | a `Muffle` passes the smaller of the two weights; without a weight the result falls back to the default |
| InferGraph.Size | src-noconflict/lib/infer.js:232-350 | every target has a positive size, above that of the targets inside it |
| InferGraph.ConSize | src-noconflict/lib/infer.js:232-350 | every constraint has a positive size |
| InferGraph.QueueBound | src-noconflict/lib/infer.js:613 | a worklist built under the bound holds at most 50000 items, all below depth 20 |
| Infer.NewRecordName | src-noconflict/lib/infer.js:372-382 | a new object with no name of its own is named `X` after a prototype named `X.prototype`; with the default prototype, or as a function, it gets no name |
| Infer.Entries | src-noconflict/lib/infer.js:462-465 | the `for…in` over a property map visits every key with its value, and nothing else (also line 1219) |
| Infer.Context.constructor | src-noconflict/lib/infer.js:560-590 | a new context holds `Object.prototype` (no prototype), the top scope `<top>`, the built-in prototypes inheriting from `Object.prototype`, all with origin `ecma5`, and the three primitives, which take no origin; then the origin is cleared, the purge generation is 0 and no worklist runs |
| Infer.Context.NewCell | src-noconflict/lib/infer.js:63-67 | `new AVal()` appends an empty cell: no types, no edges, weight 0 |
| Infer.Context.NewObj | src-noconflict/lib/infer.js:372-382 | `new Obj(proto, name)` appends one type with the prototype link, the derived name and the current origin, and changes no other type |
| Infer.Context.NewFn | src-noconflict/lib/infer.js:488-494 | `new Fn` appends a function inheriting from `Function.prototype` with the given name, `self`, parameters and return value, and the current origin |
| Infer.Context.NewScope | src-noconflict/lib/infer.js:629-632 | `new Scope(prev)` appends an object whose prototype and `prev` are the enclosing scope, or `Object.prototype` at the top |
| Infer.Context.RegisterProp | src-noconflict/lib/infer.js:549-552 | the object is appended to the registry list of that property |
| Infer.Context.AddAll | src-noconflict/lib/infer.js:612-614 | each item is queued at the current depth while the bound allows, and the queue stays within the bound |
| Infer.Context.Run | src-noconflict/lib/infer.js:607-625 | inside a running worklist the items are only queued and nothing else changes; otherwise the work runs to the end, keeping every graph invariant |
| Infer.Context.Drain | src-noconflict/lib/infer.js:617-624 | the worklist is processed in order until empty: at most 50000 deliveries, each queued item one level deeper than the one whose delivery queued it; the list is then cleared |
| Infer.Context.CellAddType | src-noconflict/lib/infer.js:69-85 | every graph invariant is kept and nothing is lost (`Cascade`); a type the cell does not record changes nothing; afterwards the cell holds the type at the weight unless a heavier one displaced it; inside a worklist the cell takes its new types and weight and the type is queued to every forward edge at the effective weight |
| Infer.Context.CellPropagate | src-noconflict/lib/infer.js:87-98 | propagating to `ANull` does nothing; otherwise the (possibly muffled) edge is appended after the cell's old edges, which are all kept, and inside a worklist it is appended and every known type is queued along it at the cell's weight |
| Infer.Context.GetPropRepeats | src-noconflict/lib/infer.js:100-108 | two `getProp` calls for one name on one cell return the same value, also at top level, outside a worklist |
| Infer.Context.CellGetProp | src-noconflict/lib/infer.js:100-108 | `__proto__` and `✖` give `ANull`; a memoised property cell is returned unchanged; otherwise a new cell is made; in every other case the result is the cell memoised for the name afterwards, and inside a worklist the new cell is empty and fed by a `PropIsSubset` edge |
| Infer.Context.CellForAllProps | src-noconflict/lib/infer.js:110-112 | a `ForAllProps` edge with the callback is appended to the cell's edges |
| Infer.Context.GetFunctionType | src-noconflict/lib/infer.js:118-120 | the backwards loop returns the last function among the cell's types |
| Infer.Context.GetType | src-noconflict/lib/infer.js:122-126 | an empty cell gives nothing and a single type is returned; for several, a type is chosen iff all have one kind and their primitives agree, and the chosen one is a held type with a score none beats (also lines 177-212) |
| Infer.Context.HasProp | src-noconflict/lib/infer.js:399-403 | with `searchProto` the lookup walks the prototype chain; without it only the own property counts |
| Infer.Context.GetInstance | src-noconflict/lib/infer.js:294-305 | the instance memoised for the constructor (by default `hasCtor`) is returned without change; otherwise a new object inheriting from `obj`, named after the constructor, with `obj`'s origin, is made and memoised |
| Infer.Context.ChainEntries | src-noconflict/lib/infer.js:461-466 | every own property of the object is visited as local, and every local entry is an own property |
| Infer.Context.TakePlaceholder | src-noconflict/lib/infer.js:412-415 | the placeholder for the name is returned and removed; besides that only placeholder maps and subscriber lists change, and nothing changes without a placeholder (also lines 468-475) |
| Infer.Context.DefineOwn | src-noconflict/lib/infer.js:404-422 | an own property is returned, taking the origin node only if it had none; `__proto__` and `✖` give `ANull`; otherwise the placeholder for the name, or a new cell, becomes the own property, and an object without `prev` (including the top scope) is registered under the name |
| Infer.Context.PutProp | src-noconflict/lib/infer.js:420 | `this.props[prop] = av` changes only that object's property map |
| Infer.Context.MarkCell | src-noconflict/lib/infer.js:421-422 | the new property cell takes the origin node and the current origin; nothing else changes |
| Infer.Context.AddOwn | src-noconflict/lib/infer.js:412-437 | the new property is the placeholder (removed from the map) or a new cell, with the given origin node and the current origin; an object without `prev` (including the top scope) is registered under the name |
| Infer.Context.NotifyHandler | src-noconflict/lib/infer.js:440-443 | a callback subscriber is recorded as called with the property and nothing else changes |
| Infer.Context.BroadcastProp | src-noconflict/lib/infer.js:435-445 | the subscriber list is read afresh on every turn; an object without subscribers notifies nobody and changes nothing; when every subscriber is a callback, each is called once with the property in list order and nothing else changes |
| Infer.Context.ObjDefProp | src-noconflict/lib/infer.js:404-425 | an existing own property is returned with nothing changed but its origin node; `__proto__` and `✖` give `ANull`; otherwise the result is the placeholder or a new cell, it is the own property afterwards, and an object without `prev` (including the top scope) is then in the registry list of the name |
| Infer.Context.SetOrigin | src-noconflict/lib/infer.js:244 | setting `origin` changes that one cell and nothing else (also line 527) |
| Infer.Context.FnDefProp | src-noconflict/lib/infer.js:522-532 | `prototype` found up the chain, or another existing own property, is returned without change; otherwise the property is the placeholder or a new cell and is found afterwards; a new `prototype` cell gets the `FnPrototype` edge back to the function |
| Infer.Context.TypeDefProp | src-noconflict/lib/infer.js:404-425 | on any object an existing own property is returned; otherwise the object gets the placeholder or a new cell as its own property (also lines 522-532) |
| Infer.Context.NewArr | src-noconflict/lib/infer.js:536-540 | `new Arr()` appends an array type inheriting from `Array.prototype` that has its own `<i>` property |
| Infer.Context.ObjForAllProps | src-noconflict/lib/infer.js:455-467 | a callback joins the object's subscribers as the last one and is called with every own property of the object, as local |
| Infer.Context.StartSubscribers | src-noconflict/lib/infer.js:456-459 | creating the subscriber list, and subscribing to the prototype, keeps every graph invariant and loses nothing |
| Infer.Context.AddSubscriber | src-noconflict/lib/infer.js:460 | the handler is appended to the object's subscribers; nothing else changes |
| Infer.Context.TellEntries | src-noconflict/lib/infer.js:461-466 | a callback is called with every own property of the object, as local, and the types are unchanged |
| Infer.Context.ObjGetProp | src-noconflict/lib/infer.js:426-434 | a property up the chain or a placeholder is returned without change; otherwise a new placeholder cell is made, after which the name is known |
| Infer.Context.StartPlaceholders | src-noconflict/lib/infer.js:429-432 | creating the placeholder map, after subscribing to the prototype, keeps every graph invariant and loses nothing |
| Infer.Context.PutPlaceholders | src-noconflict/lib/infer.js:431-433 | the object's placeholder map is replaced; nothing else changes |
| Infer.Context.NewPlaceholder | src-noconflict/lib/infer.js:429-433 | the result is a new cell stored as the placeholder for the name |
| Infer.Context.FnGetProp | src-noconflict/lib/infer.js:509-521 | an existing `prototype` up the chain is returned without change; a missing one is made and is the function's own `prototype` afterwards; any other name behaves as on an object and is known afterwards |
| Infer.Context.MadeUpPrototype | src-noconflict/lib/infer.js:512-517 | the new `prototype` property is the placeholder for it or a new cell, is found from the function afterwards, and holds a new object named `X.prototype` after a function named `X` at weight `WG_MADEUP_PROTO` |
| Infer.Context.FeedPrototype | src-noconflict/lib/infer.js:514-516 | the new prototype object, named and with the given origin, is held by the `prototype` cell at `WG_MADEUP_PROTO` |
| Infer.Context.NewPrototype | src-noconflict/lib/infer.js:514-515 | `new Obj(true, name)` with the function's origin is appended as the last type |
| Infer.Context.TypeGetProp | src-noconflict/lib/infer.js:426-434 | a primitive asks its prototype and changes nothing; on an object a known property is returned without change, and a cell always results (also lines 366, 509-521) |
| Infer.Context.OnProtoProp | src-noconflict/lib/infer.js:446-454 | a type outside the arena is left alone; a placeholder for the name is fed by the prototype's property of that name; the graph invariants are kept |
| Infer.Context.FeedPlaceholder | src-noconflict/lib/infer.js:451 | `this.proto.getProp(prop).propagate(maybe)`: the prototype's property feeds the placeholder |
| Infer.Context.ValGetProp | src-noconflict/lib/infer.js:100-108 | `getProp` on `ANull` gives `ANull` and changes nothing; on a cell the result is the cell memoised for the name; on a type a known property is returned (also lines 366, 426-434) |
| Infer.Context.TargetAddType | src-noconflict/lib/infer.js:232-350 | `ANull` ignores every type; constraints on objects ignore primitives, constraints on functions ignore non-functions, `IsAdded` ignores all but strings and numbers; a cell target holds the type afterwards (also line 69) |
| Infer.Context.ConAddType | src-noconflict/lib/infer.js:232-350 | the same filters, for a constraint with its origin |
| Infer.Context.InlineConAddType | src-noconflict/lib/infer.js:252-257 | `ForAllProps`, `FnPrototype`, `IfObj` and `AutoInstance` ignore primitives and `IsAdded` all but strings and numbers; `ForAllProps` subscribes its callback last and calls it with every own property; `FnPrototype` sets `hasCtor` only where unset; `IsAdded` passes a string on, and a number when the other operand has one; `IfObj` passes an object on and `Muffle` passes the type on at the muffled weight; `AutoInstance` passes an instance on (also lines 315-350) |
| Infer.Context.SetCtor | src-noconflict/lib/infer.js:317 | `o.hasCtor = this.fn` changes only that type's `hasCtor` |
| Infer.Context.AutoInstanceAddType | src-noconflict/lib/infer.js:338-340 | the target receives an instance of the prototype |
| Infer.Context.PropIsSubsetAddType | src-noconflict/lib/infer.js:232-235 | the property the type has under the name feeds the target; the graph invariants are kept |
| Infer.Context.PropHasSubsetAddType | src-noconflict/lib/infer.js:242-248 | a primitive is ignored; on an object the property is defined and the source feeds it |
| Infer.Context.DefineWithOrigin | src-noconflict/lib/infer.js:244-245 | the property is defined and then carries the constraint's origin; the result is the object's own property of that name |
| Infer.Context.IsCalleeAddType | src-noconflict/lib/infer.js:259-269 | anything but a function is ignored; on a function each argument feeds its parameter and `arguments`, `self` feeds the function's `self` (at `WG_GLOBAL_THIS` from the top scope), and the return value feeds the call's result |
| Infer.Context.FeedInputs | src-noconflict/lib/infer.js:261-265 | each argument feeds its parameter and `arguments`, and `self` feeds the function's `self` |
| Infer.Context.FeedArguments | src-noconflict/lib/infer.js:261-264 | the argument loop: each argument feeds its parameter (when there is one) and `arguments` (when the function has it) |
| Infer.Context.FeedArgument | src-noconflict/lib/infer.js:262-263 | one turn of that loop |
| Infer.Context.HasMethodCallAddType | src-noconflict/lib/infer.js:280-283 | the method property of the type feeds an `IsCallee` constraint for the call |
| Infer.Context.IsCtorAddType | src-noconflict/lib/infer.js:287-292 | anything but a function is ignored; the function's `prototype`, found or made, feeds an `IsProto` constraint |
| Infer.Context.IsProtoAddType | src-noconflict/lib/infer.js:307-313 | a primitive is ignored; on an object the target receives a type, a new array for `Array.prototype` |
| Infer.Context.ValPropagate | src-noconflict/lib/infer.js:87-98 | propagating from or to `ANull` changes nothing; otherwise the value feeds the target: a cell gets the edge, a type is received (also line 356) |
| Infer.Context.DefVar | src-noconflict/lib/infer.js:634-640 | the variable of the nearest scope outwards that has the name is returned without change; otherwise the outermost scope gets the property (its placeholder or a new cell), which is its own property afterwards |
| Infer.Context.LiteralType | src-noconflict/lib/infer.js:809-818 | numbers, booleans and strings give their primitives, `null` gives `ANull`, and none of them changes a type; a regular expression gives the instance memoised for `RegExp.prototype`; other kinds give nothing |
| Infer.Context.PurgeTypes | src-noconflict/lib/infer.js:1171-1182 | a new generation; every cell and type is untouched or in its purged form; the top scope is visited; each registry list loses exactly its matching objects; nothing else changes |
| Infer.Context.PurgeRegistry | src-noconflict/lib/infer.js:1175-1181 | each registry list keeps exactly its objects that do not match |
| Infer.Context.KeptObjects | src-noconflict/lib/infer.js:1177-1180 | the splicing loop keeps exactly the objects that do not match, in order |
| Infer.Context.PurgeVal | src-noconflict/lib/infer.js:1195-1216 | purging a value is a purge step and visits no value twice |
| Infer.Context.PurgeCell | src-noconflict/lib/infer.js:1195-1214 | purging a cell is a purge step after which the cell is visited |
| Infer.Context.PurgeCellForward | src-noconflict/lib/infer.js:1203-1213 | the loop keeps exactly the non-matching edges, in order, reports whether one matched, and leaves the cell itself to its caller |
| Infer.Context.PurgeEdge | src-noconflict/lib/infer.js:1209-1211 | purging a kept edge is a purge step |
| Infer.Context.PurgeCellTypes | src-noconflict/lib/infer.js:1198-1202 | the loop keeps exactly the types that do not match, in order |
| Infer.Context.PurgeType | src-noconflict/lib/infer.js:1216-1226 | purging a type is a purge step after which an object is visited |
| Infer.Context.MarkVariablesDefinedBy | src-noconflict/lib/infer.js:1228-1236 | exactly the variables of the scopes from `scope` outwards that the corrected test accepts are marked, and nothing else changes |
| Infer.Context.MarkScope | src-noconflict/lib/infer.js:1231-1234 | the variables of one scope that the test accepts are marked |
| Infer.Context.PurgeMarkedVariables | src-noconflict/lib/infer.js:1238-1242 | exactly the scopes from `scope` outwards lose exactly their marked variables |
| Infer.Context.DropMarked | src-noconflict/lib/infer.js:1240 | one scope loses exactly its marked variables |

## Left out

- **Parsing and AST walks.** The inference graph's AST walkers and expression rules are not modelled. These include `scopeGatherer`, `inferWrapper`, `searchVisitor`, `findRefs`, `parse`, and the rules from `src-noconflict/lib/infer.js` line 835 onwards. They depend on the acorn parser and the `walk` module, which are not part of this model.
- **Inference heuristics.** `makeupType`/`guessing`, `computeRet` (custom return-type computation), `maybeTagAsGeneric`, `maybeTagAsInstantiated` and `setFunctionInstantiated` are heuristics or re-walk the AST, so they are not modelled.
- **Type definitions.** Loading of type definition files (`def.load`) is not modelled. `def.js` is not part of this model.
- **Arrays.** An `Arr` records its element cell. Its `contentType` is left out.
- **Rendering.** `toString` and `gatherProperties` are presentation helpers and are left out.
- **Callbacks.** A function subscribed through `forAllProps` is arbitrary code. The model appends each call it would receive, with the property, cell and locality, to a log (`Infer.Context.calls`) and does not run it.
- **Notification depth.** Recursive notification through `onNewProp` subscribers is bounded by a fuel of 64 nested steps, so deeper chains are cut short.
- **Iteration order.** In the inference graph, a `for…in` over a property map is modelled as a visit of every key in an unspecified order; the JavaScript key order is not modelled there. The `for (path in $defaultOptions)` loop of `app_config.js` is modelled in its JavaScript order: array indices first in ascending numeric order, then the other keys in creation order. A type's `onNewProp` list is re-read on every turn of the broadcast loop, as at `src-noconflict/lib/infer.js` lines 439-443, so a handler that unsubscribes another during the broadcast is seen. The `Signal` listener lists are iterated over a copy, as `signal.js` does.
- **Propagation into a bare type.** Propagation whose target is a bare type (the `Type.propagate` no-op) is modelled as doing nothing.
- **Worklist bound.** The floating-point test `depth < 20 - 0.0001 * list.length` is modelled as the exact integer test `10000 * depth + list.length < 200000`.
- Infer.Context.BroadcastProp: the broadcast loop runs at most 1,000,000 turns (`MaxSubscribers`); the post-state for callback subscribers is stated only for lists within that bound.
- Infer.Context.ConAddType: the reactions re-enter the whole graph; each states what the constraint passes on (the `Fed` and `Received` facts), the cases in which it does nothing and the common frame `Cascade`, but not the exact new state or worklist.
- **Plain objects.** JavaScript objects used as dictionaries are modelled as maps without inherited names: a key such as `constructor` or `toString` is absent unless it was set.
  - Config.ModuleUrlIn: `options.$moduleUrls["toString"]` in the source is the inherited function, so `moduleUrl("toString")` returns it; the model computes a URL. Likewise a string held in `options.$moduleUrls` has `length` and index properties, which the model reads as undefined.
  - JsDoc.ApplyType: with `args = {}` (`lib/jsdoc.js` line 129), a parameter named `constructor` finds the inherited `Object` and the source throws a `TypeError` at lines 152-153; the model adds no flow.
- **Characters.** Strings are sequences of characters, one per UTF-16 unit, and upper- and lower-casing maps ASCII letters only.
  - Config.DeHyphenate: "never lengthens" holds under ASCII case mapping; JavaScript maps `-ﬃ` to `FFI`.
  - SnippetVars.FormatFunction: "keeps the length" holds under ASCII case mapping; JavaScript upper-cases `ß` to `SS`.
  - Completions.NarrowsAsWritten: requires `NumberModelled` of the old filter, as `LongerAsWritten` does, so filters such as `5a`, `1e5` or `0x1f`, for which `Number` gives NaN, 100000 or 31, are not covered.
  - Completions.LongerAsWritten: `Number(filterText)` is modelled only for the empty filter, an all-digit filter and a filter that starts with a letter, `_` or `$` (`NumberModelled`); signs, spaces, hexadecimal and exponents are not.
- JsDoc.TypeAt: parsed types are values (`JType`). The objects `parseType` creates in the inference graph, and its other effects there, are not modelled, although `Infer.Context` models the same graph operations (`ObjDefProp`, `NewArr`, `FnGetProp`, `GetInstance`):
  - the `{a: T}` branch's `new infer.Obj(true)` with one `defProp` per field, each marked `initializer` and registered in `cx.props` (`lib/jsdoc.js` lines 70-73);
  - the `function(...)` branch's `new infer.Fn(...)` (line 59);
  - the `[T]` branch's `new infer.Arr(...)` (line 66);
  - the prototype that `getProp('prototype')` makes up for a capitalised function that has none (line 91);
  - the instance `getInstance` memoises (line 92).
- JsDoc.ObjTypeAt: an object field whose type is undefined (a capitalised constructor whose `prototype` holds no object, as `{a: Foo}`) makes `fields.types[i].propagate(field)` at `lib/jsdoc.js` line 74 throw a `TypeError` out of `interpretComments`; the model returns the object type with a `JUndefined` field instead.
- JsDoc.ParseObjType: the same `TypeError` at `lib/jsdoc.js` line 74 is not modelled; the loop returns what `ObjTypeAt` returns.
- JsDoc.InterpretComments: the tags are a parameter. The regex at `lib/jsdoc.js` lines 114-116 that extracts them is not modelled; the model takes the tag name and the rest of its line in comment order, which is what the regex yields.
- SnippetRegistry.SnippetManager.Register: an invalid trigger, end trigger or guard pattern (`new RegExp("(")` at `src-noconflict/lib/ace/snippets.js` lines 623, 650 and 653) throws a `SyntaxError` in the source after part of the registration is done; the model keeps patterns as strings and never throws.
- AppConfig.StoreAt: `this['$'+name]` (`app_config.js` line 65) and the forward targets read at lines 63 and 73 are properties of one JavaScript object. The model keeps them in two maps, `store` and `links`, so an option whose `forwardTo` is `"$name"` does not see a `setOption("name", …)` that goes to the store, as it would in the source. StoreAt promises that `links` stay unchanged only for the model's split.
- AppConfig.Normalize: the option object is a value, so `opt.name || (opt.name = key)` (`app_config.js` line 106) does not write the name back into an object the caller shares. An option object passed for two keys, or to a later `defineOptions`, gets each key's name here, where the source keeps the first key's name.
- AppConfig.OptionsHeap.DefineOptions: because of the above, `defineOptions(obj, "p", {a: o, b: o})` registers both `a` and `b` in the model, while in the source both keys name the option `a` and only `a` is registered. The one object namespace of `store` and `links` is not modelled either (see `AppConfig.StoreAt`).
- AppConfig.OptionsHeap.SetOption: `set` hooks are not run; each call is recorded in `setHookCalls`, so a hook that itself calls `setOption` or changes other options is not modelled. `get` hooks are a parameter of the model.
- Tabstops.TabstopManager.AddTabstops: a tab stop is its number of ranges. Not modelled: the ranges' positions (`movePoint` from `start`, and the `moveRelative` of a missing tab stop 0 to `end`), `this.ranges`, `linked`, `hasLinkedRanges`, `firstNonLinked`, the markers and the range lists (`src-noconflict/lib/ace/snippets.js` lines 856 and 874-897).
- Signal.Emitter.Signal: a handler that throws ends the signal in the source and the exception reaches the caller. Exceptions are not modelled, so every handler of the snapshot runs.
- Signal.Emitter.SignalReturnFirst: the same holds here; a throwing handler is not modelled, and only a truthy result stops the loop.
- ExtTern.NameRunEnd: stays a recursive function, since the source finds the name with a regex rather than a loop.
- Infer.Context.PurgeTypes: states the top scope's purge only when the top scope is an object. It proves each step of the purge but leaves the closure of the reached set unstated.
- **Option bulk operations (`app_config.js`).** `setOptions`, `getOptions`, `resetOptions` and `setDefaultValues` are loops over option calls that are already modelled, so they are left out. `warn` and `reportError` write to the console; the model records that a warning happened and nothing more.
- **Module loading (`config.js`).** `all`, `loadModule`, `init` and `version` involve asynchronous script loading or constants.
- **trackChange.** The difference between `changed` being `null` and being undefined is not kept. The big-document branch that schedules a send on a timer is also left out (`src-noconflict/ext-tern.js` lines 3403-3409).
- **Duplicated snippet manager.** The copy of the snippet manager at the top of `ext-tern.js` (lines 1-843, including its `tabNext` at lines 675-682) repeats `snippets.js`. It is modelled once, from `snippets.js`.
- **Snippet expansion.** The snippet tokenizer and `tmStrFormat` are parameters of the model. Other parts are not modelled:
  - `parseSnippetFile`, `findMatchingSnippet` and the regex tests, because they rest on the JavaScript `RegExp` engine. Trigger and guard regexes are kept as pattern strings.
  - the markers and selections that `selectTabstop` creates.
  - the ranges themselves: a tab stop is modelled by its number of ranges (see `Tabstops.TabstopManager.AddTabstops` below).
- **Completions.** Two simplifications:
  - `matchMask` is modelled as the set of bit positions taken mod 32.
  - Case mapping covers ASCII letters only.
- **Other files.** `src-noconflict/acorn/src/statement.js` and `src-noconflict/lib/ace/search.js` are not part of this model. They rest on a tokenizer and parser state, or on the `RegExp` engine, none of which is shown.
- **Browser and DOM.**
  - In `dom.js`, `buildDom`, `importCssString`, `scrollbarWidth`, `translate` and the HI_DPI detection are left out. The class-list helpers work on the `className` string alone.
  - In `ext-tern.js`, the popups, tooltips, worker messaging, XMLHttpRequest loading, timers and `eval` of definitions are left out. So are the editor session reads in `getCallPos` and `getFragmentAround`, and all floating-point geometry.

## Findings

| source | as written | input that shows it | evidently intended | confidence | as-written member | corrected member |
|---|---|---|---|---|---|---|
| src-noconflict/ext-tern.js:1924-1932 | `toAceLoc` converts a tern position only when `pos.line` is truthy | the tern position `{line: 0, ch: 5}` comes back unconverted, with no `row` or `column` | every tern position, including line 0, becomes `{row: line, column: ch}` | not executed | ExtTern.ToAceLocFirstLine | ExtTern.LocRoundTrips |
| src-noconflict/ext-tern.js:3400-3402 | when a change starts above the dirty range, the range's start is set to `changed.from.line`, but `changed.from` is a number | dirty range `{from: 5, to: 6}` and a change at line 2 leave `from` undefined | the start becomes the change's line | not executed | ExtTern.TrackChangeLosesFrom | ExtTern.TrackedCovers |
| src-noconflict/ext-tern.js:1592 | `setFilter` narrows from the current list when `str.length > this.filterText`, comparing a number with a string | filter "a" followed by "ab" filters the whole list again | narrow when the new filter is longer than the old and extends it (even then, narrowing reads the deduplicated list, so a match dropped as a repeated label is lost: `Completions.DedupeLosesNarrowedMatch`) | not executed | Completions.NarrowingIgnoredAsWritten | Completions.ExtensionNarrows |
| src-noconflict/lib/infer.js:1233 | `markVariablesDefinedBy` calls `test(prop, prop.name)`, passing the name where the range test expects the defining node | a variable of `a.js` defined over 10–20 is not marked by a purge of `a.js` over 0–100 | test the variable with its defining node, so that range purges mark the variables inside the range | not executed | InferGraph.MarkAsWrittenMisses | InferGraph.MarkTestMeaning |
| lib/jsdoc.js:59 | `parseType` builds `new infer.Fn(null, infer.ANull, args.labels, args.types, ...)`, while `Fn(name, self, args, argNames, retval)` at `src-noconflict/lib/infer.js` line 488 takes the argument types first and their names second | `{function(a: number)}` makes a function whose argument slot holds the label `a` and whose names hold the type `number` | pass the types as `args` and the labels as `argNames` | not executed | JsDoc.FnArgsSwappedAsWritten | JsDoc.FnTypeAt |
