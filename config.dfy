/**
 * The editor configuration module: the fixed table of known keys (`get`,
 * `set`), module URL construction (`moduleUrl`, `setModuleUrl`) and the
 * `data-ace-*` attribute name conversion (`deHyphenate`). The module object
 * is itself an `AppConfig`, so unknown keys fall through to
 * `setDefaultValue` on the option heap.
 *
 * `options.$moduleUrls` starts as an empty object, `Ref(UrlsObject)`, and
 * `set` may replace it by any value. `moduleUrl` and `setModuleUrl` read and
 * write the properties of whatever object the key holds at the time of the
 * call; the model keeps those properties by object id (`UrlObjects`).
 */
module Config {
  import opened JsText
  import opened AppConfig

  const UrlsObject: nat := 0

  /** The `options` object the module starts with. */
  function InitialOptions(): map<string, Value> {
    map[
      "packaged" := Bool(false),
      "workerPath" := Null,
      "modePath" := Null,
      "themePath" := Null,
      "basePath" := Str(""),
      "suffix" := Str(".js"),
      "$moduleUrls" := Ref(UrlsObject),
      "loadWorkerFromBlob" := Bool(true),
      "sharedPopups" := Bool(false)
    ]
  }

  /** `String(v)` / the `+` operator's string conversion. */
  function ToJsString(v: Value): string {
    match v
    case Undefined => "undefined"
    case Null => "null"
    case Bool(b) => if b then "true" else "false"
    case Num(n) => IntToString(n)
    case Str(s) => s
    case Ref(_) => "[object Object]"
  }

  function UnknownKey(key: string): JsError {
    Error("Unknown config key: " + key)
  }

  /** `get(key)` over the options table `opts`. */
  function GetIn(opts: map<string, Value>, key: string): (r: Completion<Value>)
    ensures r.Throw? <==> key !in opts
    ensures r.Throw? ==> r.error == UnknownKey(key)
    ensures r.Normal? ==> r.value == opts[key]
  {
    if key in opts then Normal(opts[key]) else Throw(UnknownKey(key))
  }

  /** The own properties of the objects `options.$moduleUrls` may hold, by object id; an id not in the map is an object without properties. */
  type UrlObjects = map<nat, map<string, Value>>

  /** `options.$moduleUrls`: what the key holds at the time of the call. */
  function UrlHolder(opts: map<string, Value>): Value {
    if "$moduleUrls" in opts then opts["$moduleUrls"] else Undefined
  }

  /** The own properties of object `id`. */
  function PropsOf(urls: UrlObjects, id: nat): map<string, Value> {
    if id in urls then urls[id] else map[]
  }

  /** `options.$moduleUrls[name]`: a `TypeError` on a nullish holder, the property of an object holder, undefined on any other value. */
  function UrlOverride(opts: map<string, Value>, urls: UrlObjects, name: string): (r: Completion<Value>)
    ensures r.Throw? <==> UrlHolder(opts) == Undefined || UrlHolder(opts) == Null
    ensures r.Throw? ==> r.error == TypeError
    ensures r.Normal? && r.value != Undefined ==> UrlHolder(opts).Ref? && name in PropsOf(urls, UrlHolder(opts).id)
  {
    var holder := UrlHolder(opts);
    if holder == Undefined || holder == Null then Throw(TypeError)
    else if holder.Ref? && name in PropsOf(urls, holder.id) then Normal(PropsOf(urls, holder.id)[name])
    else Normal(Undefined)
  }

  /**
   * The properties after `options.$moduleUrls[name] = subst` on a holder that
   * is not nullish: an object holder gets the property; an assignment to a
   * primitive holder is dropped, as non-strict code does.
   */
  function StoreUrl(opts: map<string, Value>, urls: UrlObjects, name: string, subst: Value): UrlObjects {
    var holder := UrlHolder(opts);
    if holder.Ref? then urls[holder.id := PropsOf(urls, holder.id)[name := subst]] else urls
  }

  /**
   * `base.replace(/^worker[\-_]|[\-_]worker$/g, '')`: the prefix match comes
   * first and the suffix match may not overlap it.
   */
  function StripWorker(b: string): (r: string)
    ensures |r| <= |b|
  {
    var pre := |b| >= 7 && b[..6] == "worker" && (b[6] == '-' || b[6] == '_');
    var from := if pre then 7 else 0;
    var suf := |b| >= from + 7 && b[|b| - 6..] == "worker" && (b[|b| - 7] == '-' || b[|b| - 7] == '_');
    b[from..if suf then |b| - 7 else |b|]
  }

  /** `moduleUrl(name, component)`; `""` stands for a missing `component`. */
  function ModuleUrlIn(opts: map<string, Value>, urls: UrlObjects, name: string, component: string): (r: Completion<Value>)
    ensures UrlOverride(opts, urls, name).Normal? && Truthy(UrlOverride(opts, urls, name).value) ==> r == UrlOverride(opts, urls, name)
    ensures UrlOverride(opts, urls, name).Throw? ==> r == UrlOverride(opts, urls, name)
    ensures r.Normal? && UrlOverride(opts, urls, name).Normal? && !Truthy(UrlOverride(opts, urls, name).value) ==>
      r.value.Str? && "suffix" in opts && EndsWith(r.value.s, ToJsString(opts["suffix"]))
  {
    var over := UrlOverride(opts, urls, name);
    if over.Throw? then over
    else if Truthy(over.value) then over
    else
      var parts := SplitOn(name, '/');
      var n := |parts|;
      var comp := if component != "" then component else if n >= 2 then parts[n - 2] else "";
      var sep := if comp == "snippets" then "/" else "-";
      var base0 := parts[n - 1];
      var base1 := if comp == "worker" && sep == "-" then StripWorker(base0) else base0;
      var base := if (base1 == "" || base1 == comp) && n > 1 then parts[n - 2] else base1;
      var key := comp + "Path";
      var configured := if key in opts then opts[key] else Undefined;
      var path := if configured == Undefined || configured == Null then (if "basePath" in opts then opts["basePath"] else Undefined) else configured;
      var (comp', sep') := if configured == Undefined || configured == Null then (comp, sep)
                           else if sep == "/" then ("", "") else (comp, sep);
      if Truthy(path) && !path.Str? then Throw(TypeError)
      else
        var pathText := if Truthy(path) && path.s[|path.s| - 1] != '/' then path.s + "/" else ToJsString(path);
        var suffix := GetIn(opts, "suffix");
        if suffix.Throw? then Throw(suffix.error)
        else
          var sfx := ToJsString(suffix.value);
          var url := pathText + comp' + sep' + base + sfx;
          assert url[|url| - |sfx|..] == sfx;
          Normal(Str(url))
  }

  /** `deHyphenate(str)`: every `-` followed by a character other than a line terminator becomes that character upper-cased. */
  function DeHyphenate(s: string): (r: string)
    ensures |r| <= |s|
    decreases |s|
  {
    if |s| >= 2 && s[0] == '-' && !LineTerminator(s[1]) then [Upper(s[1])] + DeHyphenate(s[2..])
    else if s == [] then []
    else [s[0]] + DeHyphenate(s[1..])
  }

  /** The attribute spelling of an option name: each ASCII capital becomes `-` and its lower case. */
  function Hyphenate(s: string): (r: string)
    ensures |r| >= |s|
  {
    if s == [] then []
    else if 'A' <= s[0] <= 'Z' then ['-', Lower(s[0])] + Hyphenate(s[1..])
    else [s[0]] + Hyphenate(s[1..])
  }

  class ConfigModule {
    var options: map<string, Value>
    /** The properties of the objects `options.$moduleUrls` holds or held. */
    var moduleUrls: UrlObjects
    /** The `AppConfig` the module object is. */
    const app: OptionsHeap

    ghost predicate Valid()
      reads this, app
    {
      options.Keys == InitialOptions().Keys && app.Valid()
    }

    constructor (heap: OptionsHeap)
      requires heap.Valid()
      ensures Valid() && app == heap
      ensures options == InitialOptions() && moduleUrls == map[]
    {
      app := heap;
      options := InitialOptions();
      moduleUrls := map[];
    }

    /** `get(key)`: the stored value of a known key; an `Error` for any other key. */
    function Get(key: string): (r: Completion<Value>)
      reads this
      ensures r.Throw? <==> key !in options
      ensures r.Normal? ==> r.value == options[key]
    {
      GetIn(options, key)
    }

    /** `set(key, value)`: a known key is overwritten; any other goes to `setDefaultValue('', key, value)`. */
    method Set(key: string, value: Value) returns (res: Completion<Value>)
      requires Valid()
      modifies this, app
      ensures Valid() && moduleUrls == old(moduleUrls)
      ensures key in old(options) ==>
        (options == old(options)[key := value] && res == Normal(Undefined) && unchanged(app))
      ensures key !in old(options) ==>
        (options == old(options) &&
         var e := SetDefaultEffect(old(app.tables), old(app.paths), old(app.byPath), "", key, value);
         (app.tables, app.paths, app.byPath) == (e.0, e.1, e.2) &&
         res == (if e.3 == Normal(Bool(false)) then Throw(UnknownKey(key)) else if e.3.Throw? then e.3 else Normal(Undefined)))
    {
      if key in options {
        options := options[key := value];
        return Normal(Undefined);
      }
      var r := app.SetDefaultValue("", key, value);
      if r == Normal(Bool(false)) {
        return Throw(UnknownKey(key));
      }
      if r.Throw? {
        return r;
      }
      res := Normal(Undefined);
    }

    /** `moduleUrl(name, component)`. */
    function ModuleUrl(name: string, component: string): Completion<Value>
      reads this
    {
      ModuleUrlIn(options, moduleUrls, name, component)
    }

    /**
     * `setModuleUrl(name, subst)`: installs an override on the object
     * `options.$moduleUrls` holds now and returns `subst`; a nullish holder
     * throws a `TypeError` and changes nothing.
     */
    method SetModuleUrl(name: string, subst: Value) returns (r: Completion<Value>)
      requires Valid()
      modifies this
      ensures Valid() && options == old(options)
      ensures UrlHolder(options) == Undefined || UrlHolder(options) == Null ==>
        r == Throw(TypeError) && moduleUrls == old(moduleUrls)
      ensures UrlHolder(options) != Undefined && UrlHolder(options) != Null ==>
        r == Normal(subst) && moduleUrls == StoreUrl(options, old(moduleUrls), name, subst)
    {
      var holder := UrlHolder(options);
      if holder == Undefined || holder == Null {
        return Throw(TypeError);
      }
      if holder.Ref? {
        moduleUrls := moduleUrls[holder.id := PropsOf(moduleUrls, holder.id)[name := subst]];
      }
      r := Normal(subst);
    }
  }

  // ----- Properties --------------------------------------------------------

  /** `get` after `set` of a known key returns the value set. */
  lemma GetAfterSetKnown(opts: map<string, Value>, key: string, value: Value)
    requires key in opts
    ensures GetIn(opts[key := value], key) == Normal(value)
  {
  }

  /**
   * A truthy override installed by `setModuleUrl` is returned verbatim,
   * whatever the component, for whichever object `options.$moduleUrls`
   * holds, the original one or one `set` put there.
   */
  lemma OverrideReturnedVerbatim(opts: map<string, Value>, urls: UrlObjects, name: string, subst: Value, component: string)
    requires UrlHolder(opts).Ref?
    requires Truthy(subst)
    ensures ModuleUrlIn(opts, StoreUrl(opts, urls, name, subst), name, component) == Normal(subst)
  {
  }

  /** Installing an override leaves the overrides of every other name as they were. */
  lemma StoreUrlKeepsOthers(opts: map<string, Value>, urls: UrlObjects, name: string, subst: Value, other: string)
    requires other != name
    ensures UrlOverride(opts, StoreUrl(opts, urls, name, subst), other) == UrlOverride(opts, urls, other)
  {
  }

  /** With a nullish `options.$moduleUrls` (after `set("$moduleUrls", null)`), `moduleUrl` throws a `TypeError`. */
  lemma NullishHolderThrows(opts: map<string, Value>, urls: UrlObjects, name: string, component: string)
    requires UrlHolder(opts) == Undefined || UrlHolder(opts) == Null
    ensures ModuleUrlIn(opts, urls, name, component) == Throw(TypeError)
  {
  }

  /** On a primitive `options.$moduleUrls` the assignment is lost and `moduleUrl` finds no override. */
  lemma PrimitiveHolderIgnoresOverride(opts: map<string, Value>, urls: UrlObjects, name: string, subst: Value)
    requires UrlHolder(opts) != Undefined && UrlHolder(opts) != Null && !UrlHolder(opts).Ref?
    ensures StoreUrl(opts, urls, name, subst) == urls
    ensures UrlOverride(opts, urls, name) == Normal(Undefined)
  {
  }

  /**
   * Without an override or a configured component path, the URL is the base
   * path (with a `/` added when missing), the component, the separator and
   * the last segment, then the suffix. The component defaults to the
   * second-to-last segment and the separator is `/` only for snippets.
   */
  lemma ModuleUrlShape(opts: map<string, Value>, urls: UrlObjects, dir: string, file: string, base: string, suffix: string)
    requires opts == InitialOptions()["basePath" := Str(base)]["suffix" := Str(suffix)]
    requires urls == map[]
    requires '/' !in dir && '/' !in file && file != "" && file != dir && dir != "worker"
    requires dir + "Path" !in InitialOptions()
    ensures var sep := if dir == "snippets" then "/" else "-";
      var prefix := if base != "" && base[|base| - 1] != '/' then base + "/" else base;
      ModuleUrlIn(opts, urls, dir + "/" + file, "") == Normal(Str(prefix + dir + sep + file + suffix))
  {
    var name := dir + "/" + file;
    assert IndexOf(name, '/', 0) == |dir| by {
      assert name[|dir|] == '/';
      assert forall k :: 0 <= k < |dir| ==> name[k] == dir[k];
    }
    assert name[..|dir|] == dir && name[|dir| + 1..] == file;
    assert SplitOn(file, '/') == [file] by {
      assert IndexOf(file, '/', 0) == -1;
    }
    assert SplitOn(name, '/') == [dir, file];
  }

  /** A configured component path replaces the base path; for snippets it also drops the component and separator. */
  lemma ModuleUrlConfiguredPath(opts: map<string, Value>, urls: UrlObjects, file: string, path: string)
    requires "$moduleUrls" in opts && opts["$moduleUrls"] == Ref(UrlsObject) && urls == map[]
    requires "snippetsPath" in opts && opts["snippetsPath"] == Str(path) && path != "" && path[|path| - 1] == '/'
    requires "suffix" in opts && opts["suffix"] == Str(".js")
    requires '/' !in file && file != ""
    ensures ModuleUrlIn(opts, urls, file, "snippets") == Normal(Str(path + file + ".js"))
  {
    assert SplitOn(file, '/') == [file] by {
      assert IndexOf(file, '/', 0) == -1;
    }
    assert "snippets" + "Path" == "snippetsPath";
    assert UrlOverride(opts, urls, file) == Normal(Undefined);
    assert Truthy(Str(path));
    assert GetIn(opts, "suffix") == Normal(Str(".js"));
    assert ToJsString(Str(".js")) == ".js";
    assert path + "" + "" + file + ".js" == path + file + ".js";
  }

  /**
   * The worker prefix and suffix are both stripped, with either separator:
   * `worker-x-worker` and `worker_x_worker` become `x`, even for an empty `x`.
   */
  lemma StripWorkerBoth(x: string, s1: char, s2: char)
    requires s1 == '-' || s1 == '_'
    requires s2 == '-' || s2 == '_'
    ensures StripWorker("worker" + [s1] + x + [s2] + "worker") == x
  {
    var b := "worker" + [s1] + x + [s2] + "worker";
    assert b[..6] == "worker" && b[6] == s1;
    assert b[|b| - 6..] == "worker" && b[|b| - 7] == s2;
    assert b[7..|b| - 7] == x;
  }

  /** A name that neither starts with `worker-`/`worker_` nor ends with `-worker`/`_worker` is kept. */
  lemma StripWorkerKeeps(b: string)
    requires !(|b| >= 7 && b[..6] == "worker" && (b[6] == '-' || b[6] == '_'))
    requires !(|b| >= 7 && b[|b| - 6..] == "worker" && (b[|b| - 7] == '-' || b[|b| - 7] == '_'))
    ensures StripWorker(b) == b
  {
    assert b[0..|b|] == b;
  }

  /** `deHyphenate` undoes the attribute spelling of an option name that has no `-`. */
  lemma {:induction false} DeHyphenateHyphenate(s: string)
    requires '-' !in s
    ensures DeHyphenate(Hyphenate(s)) == s
  {
    if s != [] {
      DeHyphenateHyphenate(s[1..]);
      if 'A' <= s[0] <= 'Z' {
        assert Hyphenate(s) == ['-', Lower(s[0])] + Hyphenate(s[1..]);
        assert (['-', Lower(s[0])] + Hyphenate(s[1..]))[2..] == Hyphenate(s[1..]);
      } else {
        HyphenateHead(s[1..]);
        assert Hyphenate(s) == [s[0]] + Hyphenate(s[1..]);
        assert ([s[0]] + Hyphenate(s[1..]))[1..] == Hyphenate(s[1..]);
      }
    }
  }

  lemma HyphenateHead(s: string)
    ensures Hyphenate(s) == [] <==> s == []
  {
  }

}
