/**
 * Snippet variables: `getVariableValue` looks a `$NAME` up in the variable
 * table, and `resolveVariables` walks a tokenized snippet, replacing
 * variables by their values, choosing the branch of a conditional and
 * dropping everything but text, tab stops and case changes.
 *
 * The tokens of a snippet are strings, falsy values and token objects; the
 * objects are compared by identity (the closing token of a variable is the
 * same object as the opening one), so they are indices into an arena.
 */
module SnippetVars {
  import opened JsText

  /** A value of the variable table. */
  datatype VarValue =
    | VText(text: string)          // a string
    | VNull                        // `null` or `undefined`
    | VFn(fn: nat)                 // a function, called with the editor, the name and the indentation
    | VList(items: seq<string>)    // an array, such as the match groups stored under `__`

  type Vars = map<string, VarValue>

  /** Calls the function variable `fn` with a name and an indentation; `None` for a `null` or `undefined` result. */
  type Caller = (nat, string, string) -> Option<string>

  predicate IsDigit(c: char) {
    '0' <= c <= '9'
  }

  /** `/^\d+$/`. */
  predicate AllDigits(s: string) {
    |s| >= 1 && forall i :: 0 <= i < |s| ==> IsDigit(s[i])
  }

  function DigitsValue(s: string): nat
    requires forall i :: 0 <= i < |s| ==> IsDigit(s[i])
    decreases |s|
  {
    if s == [] then 0
    else
      assert IsDigit(s[|s| - 1]);
      DigitsValue(s[..|s| - 1]) * 10 + (s[|s| - 1] as int - '0' as int)
  }

  /** A property key that names an array index: digits without a leading zero, or `0`. */
  predicate IndexKey(key: string) {
    AllDigits(key) && (key == "0" || key[0] != '0')
  }

  /** `(v || {})[key] || ''`: an array or string element, else the empty string. */
  function Element(v: Option<VarValue>, key: string): (r: string)
    ensures r != "" ==> IndexKey(key) && v.Some? && (v.value.VList? || v.value.VText?)
  {
    if !IndexKey(key) then ""
    else
      var k := DigitsValue(key);
      match v
      case Some(VList(items)) => if k < |items| then items[k] else ""
      case Some(VText(t)) => if k < |t| then [t[k]] else ""
      case _ => ""
  }

  function Lookup(vars: Vars, name: string): Option<VarValue> {
    if name in vars then Some(vars[name]) else None
  }

  /** `/^[A-Z]\d+$/`. */
  predicate LetterDigits(name: string) {
    |name| >= 2 && 'A' <= name[0] <= 'Z' && AllDigits(name[1..])
  }

  /** `name.replace(/^TM_/, '')`. */
  function StripTm(name: string): (r: string)
    ensures StartsWith(name, "TM_") ==> name == "TM_" + r
    ensures !StartsWith(name, "TM_") ==> r == name
  {
    if StartsWith(name, "TM_") then name[3..] else name
  }

  /** How a value is turned into the string `${value}` writes. */
  function ValueString(v: VarValue, name: string, indentation: string, call: Caller): string {
    match v
    case VText(t) => t
    case VNull => ""
    case VFn(f) => (match call(f, name, indentation) case Some(t) => t case None => "")
    case VList(items) => Join(items, ",")
  }

  /**
   * `getVariableValue(editor, name, indentation)`: a number names a match
   * group, a capital letter and a number a group of the match stored under
   * that letter, and any other name (without a `TM_` prefix) an own entry of
   * the table.
   */
  function GetVariableValue(vars: Vars, name: string, indentation: string, call: Caller): (r: string)
    ensures AllDigits(name) ==> r == Element(Lookup(vars, "__"), name)
    ensures !AllDigits(name) && LetterDigits(name) ==> r == Element(Lookup(vars, [name[0]] + "__"), name[1..])
    ensures !AllDigits(name) && !LetterDigits(name) && StripTm(name) !in vars ==> r == ""
    ensures !AllDigits(name) && !LetterDigits(name) && StripTm(name) in vars && vars[StripTm(name)].VText? ==>
      r == vars[StripTm(name)].text
  {
    if AllDigits(name) then Element(Lookup(vars, "__"), name)
    else if LetterDigits(name) then Element(Lookup(vars, [name[0]] + "__"), name[1..])
    else
      var n := StripTm(name);
      if n !in vars then "" else ValueString(vars[n], n, indentation, call)
  }

  /** A `TM_` prefix does not matter for an ordinary name. */
  lemma TmPrefixIgnored(vars: Vars, name: string, indentation: string, call: Caller)
    requires !AllDigits(name) && !LetterDigits(name) && !StartsWith(name, "TM_")
    ensures GetVariableValue(vars, "TM_" + name, indentation, call) == GetVariableValue(vars, name, indentation, call)
  {
    var t := "TM_" + name;
    assert !AllDigits(t) by { assert !IsDigit(t[0]); }
    assert !LetterDigits(t) by { assert !IsDigit(t[1]); assert t[1..][0] == t[1]; }
    assert StartsWith(t, "TM_") && t[3..] == name;
  }

  /** A group index with a leading zero is not an array index, so it always yields the empty string. */
  lemma LeadingZeroGroupIsEmpty(vars: Vars, name: string, indentation: string, call: Caller)
    requires AllDigits(name) && |name| >= 2 && name[0] == '0'
    ensures GetVariableValue(vars, name, indentation, call) == ""
  {
  }

  // ----- resolveVariables -----------------------------------------------------

  /** A snippet token. */
  datatype Tok = TStr(s: string) | TFalsy | TObj(id: nat)

  /** A token object: the fields `resolveVariables` reads. Links name other token objects. */
  datatype TokObj = TokObj(
    text: string,
    fmtString: bool,
    formatFunction: string,
    ifEnd: Option<nat>,
    elseEnd: Option<nat>,
    tabstopId: Option<int>,
    changeCase: Option<string>)

  /** Formats a value with the format string of an object (`tmStrFormat`): the value, the object and its `fmt` tokens. */
  type StrFormat = (string, nat, seq<Tok>) -> string

  /** `tmFormatFunction`: `upcase` and `downcase` change the case, any other function leaves the value alone. */
  function FormatFunction(str: string, formatFunction: string): (r: string)
    ensures |r| == |str|
    ensures formatFunction == "upcase" ==> r == UpperString(str)
    ensures formatFunction == "downcase" ==> r == LowerString(str)
    ensures formatFunction != "upcase" && formatFunction != "downcase" ==> r == str
  {
    if formatFunction == "upcase" then UpperString(str)
    else if formatFunction == "downcase" then LowerString(str)
    else str
  }

  // The leading tabs of a string: what the pattern ^\t* matches.
  function LeadingTabs(s: string): (r: string)
    ensures |r| <= |s| && r == s[..|r|]
    ensures forall i :: 0 <= i < |r| ==> r[i] == '\t'
    ensures |r| < |s| ==> s[|r|] != '\t'
    decreases |s|
  {
    if s != [] && s[0] == '\t' then "\t" + LeadingTabs(s[1..]) else ""
  }

  /** `/\S/.test(ch)`. */
  predicate HasNonSpace(s: string) {
    exists i :: 0 <= i < |s| && !JsSpace(s[i])
  }

  /** Where `gotoNext(target)` leaves the index: at the next occurrence of `target` after `i`, if there is one. */
  function GotoNext(tokens: seq<Tok>, target: Tok, i: nat): (r: nat)
    requires i <= |tokens|
    ensures i <= r <= |tokens|
    ensures r != i ==> r < |tokens| && tokens[r] == target
  {
    var k := IndexOf(tokens, target, i + 1);
    if k != -1 then k else i
  }

  /** The fixed inputs of one `resolveVariables` call. */
  datatype Env = Env(tokens: seq<Tok>, objs: seq<TokObj>, vars: Vars, call: Caller, strFormat: StrFormat)

  predicate EnvValid(e: Env) {
    forall i :: 0 <= i < |e.tokens| ==> e.tokens[i].TObj? ==> e.tokens[i].id < |e.objs|
  }

  /** The loop state of `resolveVariables`: the index, the two line flags, the result so far and the `fmt` each object was given. */
  datatype Walk = Walk(i: nat, afterNewLine: bool, indentation: string, result: seq<Tok>, fmts: map<nat, seq<Tok>>)

  /** One pass of the loop body on the token object at `w.i`; `pos` is the index the loop increment then advances. */
  function ObjStep(e: Env, w: Walk, id: nat): (w': Walk)
    requires EnvValid(e) && w.i < |e.tokens| && e.tokens[w.i] == TObj(id)
    ensures w.i <= w'.i <= |e.tokens|
  {
    var o := e.objs[id];
    var pos0 := w.i;
    var j := if o.fmtString then (var k := IndexOf(e.tokens, TObj(id), w.i + 1); if k == -1 then |e.tokens| else k) else w.i;
    var fmt := if o.fmtString then e.tokens[w.i + 1 .. j] else [];
    var fmts := if o.fmtString then w.fmts[id := fmt] else w.fmts;
    ObjValueStep(e, w, id, j, fmt, fmts)
  }

  /** The rest of that step once `i` has moved to `j` past the format: the variable's value decides what is emitted and where to jump. */
  function ObjValueStep(e: Env, w: Walk, id: nat, j: nat, fmt: seq<Tok>, fmts: map<nat, seq<Tok>>): (w': Walk)
    requires EnvValid(e) && id < |e.objs| && w.i <= j <= |e.tokens|
    ensures j <= w'.i <= |e.tokens|
  {
    var o := e.objs[id];
    if o.text != "" then
      var v0 := GetVariableValue(e.vars, o.text, w.indentation, e.call);
      var v1 := if o.fmtString then e.strFormat(v0, id, fmt) else v0;
      var v := if o.formatFunction != "" then FormatFunction(v1, o.formatFunction) else v1;
      if v != "" && o.ifEnd.None? then
        Walk(GotoNext(e.tokens, TObj(id), j), false, w.indentation, w.result + [TStr(v)], fmts)
      else if v == "" && o.ifEnd.Some? then
        Walk(GotoNext(e.tokens, TObj(o.ifEnd.value), j), false, w.indentation, w.result, fmts)
      else Walk(j, false, w.indentation, w.result, fmts)
    else if o.elseEnd.Some? then
      Walk(GotoNext(e.tokens, TObj(o.elseEnd.value), j), false, w.indentation, w.result, fmts)
    else if o.tabstopId.Some? || o.changeCase.Some? then
      Walk(j, false, w.indentation, w.result + [TObj(id)], fmts)
    else Walk(j, false, w.indentation, w.result, fmts)
  }

  /** One pass of the loop body, including the increment `i++`. */
  function Step(e: Env, w: Walk): (w': Walk)
    requires EnvValid(e) && w.i < |e.tokens|
    ensures w.i < w'.i <= |e.tokens| + 1
  {
    match e.tokens[w.i]
    case TStr(ch) =>
      var (nl, ind) :=
        if ch == "\n" then (true, "")
        else if w.afterNewLine then (HasNonSpace(ch), LeadingTabs(ch))
        else (w.afterNewLine, w.indentation);
      Walk(w.i + 1, nl, ind, w.result + [TStr(ch)], w.fmts)
    case TFalsy => w.(i := w.i + 1)
    case TObj(id) =>
      var w' := ObjStep(e, w, id);
      w'.(i := w'.i + 1)
  }

  /** The walk from state `w` to the end of the snippet. */
  function Run(e: Env, w: Walk): (w': Walk)
    requires EnvValid(e)
    ensures |w.result| <= |w'.result|
    ensures w'.i >= |e.tokens|
    ensures w.i >= |e.tokens| ==> w' == w
    decreases |e.tokens| + 1 - w.i
  {
    if w.i >= |e.tokens| then w else Run(e, Step(e, w))
  }

  /** `resolveVariables(snippet, editor)`: the resolved tokens and the `fmt` given to each object on the way. */
  function Resolved(e: Env): (r: Walk)
    requires EnvValid(e)
    ensures r.i >= |e.tokens|
    ensures e.tokens == [] ==> r.result == [] && r.fmts == map[]
  {
    Run(e, Walk(0, true, "", [], map[]))
  }

  /** The loop body of `resolveVariables` on a token object, up to the increment. */
  method ResolveObject(e: Env, w: Walk, id: nat) returns (i: nat, result: seq<Tok>, fmts: map<nat, seq<Tok>>)
    requires EnvValid(e) && w.i < |e.tokens| && e.tokens[w.i] == TObj(id)
    ensures Walk(i, false, w.indentation, result, fmts) == ObjStep(e, w, id)
  {
    var snippet := e.tokens;
    var o := e.objs[id];
    i, result, fmts := w.i, w.result, w.fmts;
    var j := i;
    var fmt := [];
    if o.fmtString {
      j := IndexOf(snippet, TObj(id), i + 1);
      if j == -1 {
        j := |snippet|;
      }
      fmt := snippet[i + 1 .. j];
      fmts := fmts[id := fmt];
    }
    i, result, fmts := ResolveValue(e, w, id, j, fmt, fmts);
  }

  /** The rest of that loop body once `i` is `j`. */
  method ResolveValue(e: Env, w: Walk, id: nat, j: nat, fmt: seq<Tok>, fmts: map<nat, seq<Tok>>) returns (i: nat, result: seq<Tok>, fmts': map<nat, seq<Tok>>)
    requires EnvValid(e) && id < |e.objs| && w.i <= j <= |e.tokens|
    ensures Walk(i, false, w.indentation, result, fmts') == ObjValueStep(e, w, id, j, fmt, fmts)
  {
    var snippet := e.tokens;
    var o := e.objs[id];
    i, result, fmts' := j, w.result, fmts;
    if o.text != "" {
      var value := GetVariableValue(e.vars, o.text, w.indentation, e.call);
      if o.fmtString {
        value := e.strFormat(value, id, fmt);
      }
      if o.formatFunction != "" {
        value := FormatFunction(value, o.formatFunction);
      }
      if value != "" && o.ifEnd.None? {
        result := result + [TStr(value)];
        i := GotoNext(snippet, TObj(id), i);
      } else if value == "" && o.ifEnd.Some? {
        i := GotoNext(snippet, TObj(o.ifEnd.value), i);
      }
    } else if o.elseEnd.Some? {
      i := GotoNext(snippet, TObj(o.elseEnd.value), i);
    } else if o.tabstopId.Some? {
      result := result + [TObj(id)];
    } else if o.changeCase.Some? {
      result := result + [TObj(id)];
    }
  }

  /** `resolveVariables`, as the loop over the tokens. */
  method ResolveVariables(e: Env) returns (result: seq<Tok>, fmts: map<nat, seq<Tok>>)
    requires EnvValid(e)
    ensures result == Resolved(e).result && fmts == Resolved(e).fmts
  {
    var snippet := e.tokens;
    result := [];
    fmts := map[];
    var indentation := "";
    var afterNewLine := true;
    var i := 0;
    while i < |snippet|
      invariant Run(e, Walk(i, afterNewLine, indentation, result, fmts)) == Resolved(e)
      decreases |snippet| + 1 - i
    {
      var w := Walk(i, afterNewLine, indentation, result, fmts);
      match snippet[i] {
        case TStr(ch) =>
          result := result + [TStr(ch)];
          if ch == "\n" {
            afterNewLine := true;
            indentation := "";
          } else if afterNewLine {
            indentation := LeadingTabs(ch);
            afterNewLine := HasNonSpace(ch);
          }
        case TFalsy =>
        case TObj(id) =>
          afterNewLine := false;
          i, result, fmts := ResolveObject(e, w, id);
      }
      i := i + 1;
      assert Walk(i, afterNewLine, indentation, result, fmts) == Step(e, w);
    }
    assert Run(e, Walk(i, afterNewLine, indentation, result, fmts)) == Walk(i, afterNewLine, indentation, result, fmts);
  }

  // ----- Properties -------------------------------------------------------------

  /** A token the result may hold: text, or a tab stop or case change object of the snippet. */
  predicate Kept(e: Env, t: Tok) {
    t.TStr? || (t.TObj? && t.id < |e.objs| && TObj(t.id) in e.tokens &&
                (e.objs[t.id].tabstopId.Some? || e.objs[t.id].changeCase.Some?))
  }

  lemma StepKeeps(e: Env, w: Walk)
    requires EnvValid(e) && w.i < |e.tokens|
    ensures Step(e, w).result[..|w.result|] == w.result
    ensures forall k :: |w.result| <= k < |Step(e, w).result| ==> Kept(e, Step(e, w).result[k])
  {
    if e.tokens[w.i].TObj? {
      var id := e.tokens[w.i].id;
      assert TObj(id) in e.tokens;
    }
  }

  /** Every token of the result is text or a tab stop or case change object of the snippet. */
  lemma {:induction false} RunKeeps(e: Env, w: Walk)
    requires EnvValid(e)
    requires forall k :: 0 <= k < |w.result| ==> Kept(e, w.result[k])
    ensures forall k :: 0 <= k < |Run(e, w).result| ==> Kept(e, Run(e, w).result[k])
    decreases |e.tokens| + 1 - w.i
  {
    if w.i < |e.tokens| {
      var w' := Step(e, w);
      StepKeeps(e, w);
      forall k | 0 <= k < |w'.result| ensures Kept(e, w'.result[k]) {
        if k < |w.result| { assert w'.result[k] == w.result[k]; }
      }
      RunKeeps(e, w');
    }
  }

  lemma ResolvedKeeps(e: Env)
    requires EnvValid(e)
    ensures forall k :: 0 <= k < |Resolved(e).result| ==> Kept(e, Resolved(e).result[k])
  {
    RunKeeps(e, Walk(0, true, "", [], map[]));
  }

  /** A snippet of plain strings resolves to itself. */
  lemma {:induction false} RunPlain(e: Env, w: Walk)
    requires EnvValid(e) && w.i <= |e.tokens|
    requires forall k :: 0 <= k < |e.tokens| ==> e.tokens[k].TStr?
    ensures Run(e, w).result == w.result + e.tokens[w.i..]
    decreases |e.tokens| - w.i
  {
    if w.i < |e.tokens| {
      var w' := Step(e, w);
      assert w'.result == w.result + [e.tokens[w.i]] && w'.i == w.i + 1;
      RunPlain(e, w');
      assert e.tokens[w.i..] == [e.tokens[w.i]] + e.tokens[w.i + 1..];
    }
  }

  lemma ResolvedPlain(e: Env)
    requires EnvValid(e)
    requires forall k :: 0 <= k < |e.tokens| ==> e.tokens[k].TStr?
    ensures Resolved(e).result == e.tokens
  {
    RunPlain(e, Walk(0, true, "", [], map[]));
  }

  /**
   * A variable `${1:default}` with a value: the value replaces the whole
   * span up to the closing token, whose default text is skipped.
   */
  lemma VariableWithValueSkipsDefault(e: Env, id: nat, mid: seq<Tok>, rest: seq<Tok>)
    requires EnvValid(e) && e.tokens == [TObj(id)] + mid + [TObj(id)] + rest && TObj(id) !in mid
    requires id < |e.objs| && var o := e.objs[id];
      o.text != "" && !o.fmtString && o.formatFunction == "" && o.ifEnd.None? &&
      GetVariableValue(e.vars, o.text, "", e.call) != ""
    ensures Step(e, Walk(0, true, "", [], map[])) ==
      Walk(|mid| + 2, false, "", [TStr(GetVariableValue(e.vars, e.objs[id].text, "", e.call))], map[])
  {
    var t := e.tokens;
    assert t[|mid| + 1] == TObj(id);
    forall k | 1 <= k < |mid| + 1 ensures t[k] != TObj(id) {
      assert t[k] == mid[k - 1];
    }
    assert IndexOf(t, TObj(id), 1) == |mid| + 1;
  }

  /** A conditional `${1:?if:else}` whose variable is empty jumps to its `ifEnd` token. */
  lemma EmptyConditionalJumps(e: Env, id: nat, endId: nat, mid: seq<Tok>, rest: seq<Tok>)
    requires EnvValid(e) && e.tokens == [TObj(id)] + mid + [TObj(endId)] + rest && TObj(endId) !in mid
    requires id < |e.objs| && var o := e.objs[id];
      o.text != "" && !o.fmtString && o.formatFunction == "" && o.ifEnd == Some(endId) &&
      GetVariableValue(e.vars, o.text, "", e.call) == ""
    ensures Step(e, Walk(0, true, "", [], map[])) == Walk(|mid| + 2, false, "", [], map[])
  {
    var t := e.tokens;
    assert t[|mid| + 1] == TObj(endId);
    forall k | 1 <= k < |mid| + 1 ensures t[k] != TObj(endId) {
      assert t[k] == mid[k - 1];
    }
    assert IndexOf(t, TObj(endId), 1) == |mid| + 1;
  }
}
