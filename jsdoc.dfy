/**
 * The JSDoc comment reader of the inference engine: a recursive-descent
 * parser of type expressions (`{number}`, `{[T]}`, `{function(a: T): R}`,
 * `{{a: T}}`, scope-resolved names), the choice of `@type`, `@param`/`@arg`
 * and `@returns` tags from a comment, and the flow of the chosen types into
 * the documented function or value.
 *
 * Each parser operation is a method with the source's loops, proved equal to
 * a recursive function on which the properties are stated.
 */
module JsDoc {
  import opened JsText

  /**
   * How the scope resolves a name: a function or another type. For a function,
   * `proto` is the object `getProp('prototype').getType()` gives, which for a
   * function without a `prototype` is the prototype that call makes up;
   * `None` when the existing `prototype` property holds no object.
   */
  datatype Resolved = RFn(fnId: nat, proto: Option<nat>) | RType(typeId: nat)

  /** `scope.hasProp(word)` followed by `getType()`; `None` when either gives nothing. */
  type Scope = string -> Option<Resolved>

  /**
   * A parsed type expression. `JNull` is `ANull`; `JUndefined` is the missing
   * type a capitalised function name yields when its `prototype` holds no object.
   * `JFn` holds the parameter types in `args` and their labels in `argNames`,
   * as `Fn(name, self, args, argNames, retval)` of the inference engine reads
   * them; the function-type branch of the source passes the two the other way
   * round (`ArgsSlotAsWritten`).
   */
  datatype JType =
    | JNull
    | JNum
    | JBool
    | JStr
    | JFn(args: seq<JType>, argNames: seq<string>, retval: JType)
    | JArr(elem: JType)
    | JObj(fields: seq<(string, JType)>)
    | JInstance(proto: nat)
    | JRef(id: nat)
    | JUndefined

  datatype LabelList = LabelList(labels: seq<string>, types: seq<JType>, end: nat)

  /** `[\w$]`. */
  predicate IdChar(c: char) {
    WordChar(c) || c == '$'
  }

  /** `/^[\w$]+$/`. */
  predicate IsLabel(s: string) {
    |s| > 0 && forall k :: 0 <= k < |s| ==> IdChar(s[k])
  }

  // ----- The parser as functions -----------------------------------------------

  /** The least position from `pos` on whose character is not white space (positions past the end hold none). */
  function SpaceEnd(str: string, pos: nat): (r: nat)
    ensures pos <= r
    ensures pos <= |str| ==> r <= |str|
    ensures pos > |str| ==> r == pos
    ensures r < |str| ==> !JsSpace(str[r])
    decreases |str| - pos
  {
    if pos < |str| && JsSpace(str[pos]) then SpaceEnd(str, pos + 1) else pos
  }

  /** The end of the run of `[\w$]` characters from `pos`. */
  function WordEnd(str: string, pos: nat): (r: nat)
    ensures pos <= r
    ensures pos <= |str| ==> r <= |str|
    ensures forall k :: pos <= k < r ==> k < |str| && IdChar(str[k])
    ensures r < |str| ==> !IdChar(str[r])
    decreases |str| - pos
  {
    if pos < |str| && IdChar(str[pos]) then WordEnd(str, pos + 1) else pos
  }

  /** The names `parseType` reads as primitive types, once lower-cased. */
  predicate PrimitiveName(w: string) {
    w == "number" || w == "integer" || w == "bool" || w == "boolean" || w == "string"
  }

  /** `str.indexOf('function(', pos) == pos`, character by character. */
  predicate FunctionAt(str: string, p: nat) {
    && p + 9 <= |str| && str[p] == 'f' && str[p + 1] == 'u' && str[p + 2] == 'n'
    && str[p + 3] == 'c' && str[p + 4] == 't' && str[p + 5] == 'i' && str[p + 6] == 'o'
    && str[p + 7] == 'n' && str[p + 8] == '('
  }

  /** The type a bare word denotes: the three primitive names in any case, else what the scope binds. */
  function WordType(scope: Scope, word: string): (t: JType)
    ensures PrimitiveName(LowerString(word)) <==> t.JNum? || t.JBool? || t.JStr?
    ensures !PrimitiveName(LowerString(word)) && scope(word).None? ==> t == JNull
  {
    var w := LowerString(word);
    if w == "number" || w == "integer" then JNum
    else if w == "bool" || w == "boolean" then JBool
    else if w == "string" then JStr
    else
      match scope(word)
      case None => JNull
      case Some(RType(id)) => JRef(id)
      case Some(RFn(id, proto)) =>
        if |word| > 0 && 'A' <= word[0] <= 'Z' then (if proto.Some? then JInstance(proto.value) else JUndefined)
        else JRef(id)
  }

  function Zip(labels: seq<string>, types: seq<JType>): (r: seq<(string, JType)>)
    requires |labels| == |types|
    ensures |r| == |labels| && forall i :: 0 <= i < |r| ==> r[i] == (labels[i], types[i])
  {
    seq(|labels|, i requires 0 <= i < |labels| => (labels[i], types[i]))
  }

  /**
   * `parseType(scope, str, pos)`: the type and the position after it.
   * Positions past the end of the string (reached after a trailing `:`) give
   * `None`, as `charAt` yields the empty string there and no rule applies.
   * The source tests for `function(` first; the three tests exclude each
   * other (`function(` starts with `f`), so testing the brackets first picks
   * the same branch.
   */
  function TypeAt(scope: Scope, str: string, pos: nat): (r: Option<(JType, nat)>)
    ensures r.Some? ==> pos <= r.value.1 <= |str|
    decreases |str| + 1 - pos, 3
  {
    var p := SpaceEnd(str, pos);
    if p > |str| then None
    else if p < |str| && str[p] == '[' then ArrTypeAt(scope, str, p)
    else if p < |str| && str[p] == '{' then ObjTypeAt(scope, str, p)
    else if FunctionAt(str, p) then FnTypeAt(scope, str, p)
    else WordTypeAt(scope, str, p)
  }

  /** `function(labels): R` at `p`: the return type is read from one character past the `:`. */
  function FnTypeAt(scope: Scope, str: string, p: nat): (r: Option<(JType, nat)>)
    requires p <= |str| && FunctionAt(str, p)
    ensures r.Some? ==> p < r.value.1 <= |str|
    ensures r.Some? ==> r.value.0.JFn? && |r.value.0.args| == |r.value.0.argNames|
    decreases |str| + 1 - p, 2
  {
    match LabelsAt(scope, str, p + 9, ')', true, [], [])
    case None => None
    case Some(ll) =>
      var q := SpaceEnd(str, ll.end);
      if q < |str| && str[q] == ':' then
        match TypeAt(scope, str, q + 2)
        case None => None
        case Some((ret, e)) => Some((JFn(ll.types, ll.labels, ret), e))
      else Some((JFn(ll.types, ll.labels, JNull), q))
  }

  /** `[T]` at `p`. */
  function ArrTypeAt(scope: Scope, str: string, p: nat): (r: Option<(JType, nat)>)
    requires p < |str| && str[p] == '['
    ensures r.Some? ==> p < r.value.1 <= |str|
    decreases |str| + 1 - p, 2
  {
    match TypeAt(scope, str, p + 1)
    case None => None
    case Some((inner, e)) =>
      var q := SpaceEnd(str, e);
      if q < |str| && str[q] == ']' then Some((JArr(inner), q + 1)) else None
  }

  /** `{labels}` at `p`: an object with those properties in order. */
  function ObjTypeAt(scope: Scope, str: string, p: nat): (r: Option<(JType, nat)>)
    requires p < |str| && str[p] == '{'
    ensures r.Some? ==> p < r.value.1 <= |str|
    decreases |str| + 1 - p, 2
  {
    match LabelsAt(scope, str, p + 1, '}', true, [], [])
    case None => None
    case Some(ll) => Some((JObj(Zip(ll.labels, ll.types)), ll.end))
  }

  /** A bare word at `p`; no word at all is a failure. */
  function WordTypeAt(scope: Scope, str: string, p: nat): (r: Option<(JType, nat)>)
    requires p <= |str|
    ensures r.Some? ==> p < r.value.1 <= |str|
  {
    var e := WordEnd(str, p);
    if e == p then None else Some((WordType(scope, str[p..e]), e))
  }

  /** One turn of the loop of `parseLabelList`. */
  datatype Entry =
    | Failed
    | ClosedEmpty(at: nat)
    | Last(word: string, t: JType, end: nat)
    | More(word: string, t: JType, next: nat)

  /**
   * One `label: T` entry of a list from `pos`, followed by the closing
   * character or a `,`. In the first turn the list may close right away.
   */
  function EntryAt(scope: Scope, str: string, pos: nat, close: char, first: bool): (r: Entry)
    ensures r.ClosedEmpty? ==> first && pos <= r.at < |str| && str[r.at] == close
    ensures r.Last? ==> pos < r.end <= |str|
    ensures r.More? ==> pos < r.next <= |str|
    decreases |str| + 1 - pos, 0
  {
    var p := SpaceEnd(str, pos);
    if first && p < |str| && str[p] == close then ClosedEmpty(p)
    else
      var colon := IndexOf(str, ':', p);
      if colon < 0 then Failed
      else
        var word := str[p..colon];
        if !IsLabel(word) then Failed
        else
          match TypeAt(scope, str, colon + 1)
          case None => Failed
          case Some((t, e)) => Separated(str, word, t, e, close)
  }

  /** After an entry's type, which ends at `e`: the closing character ends the list, `,` continues it. */
  function Separated(str: string, word: string, t: JType, e: nat, close: char): (r: Entry)
    ensures r.Failed? || r.Last? || r.More?
    ensures r.Last? ==> r.word == word && r.t == t && e < r.end <= |str| && str[r.end - 1] == close
    ensures r.More? ==> r.word == word && r.t == t && e < r.next <= |str| && str[r.next - 1] == ','
  {
    var q := SpaceEnd(str, e);
    if q < |str| && str[q] == close then Last(word, t, q + 1)
    else if q < |str| && str[q] == ',' then More(word, t, q + 1)
    else Failed
  }

  /**
   * `parseLabelList(scope, str, pos, close)` from one turn of its loop on:
   * `label: T` entries separated by `,` up to `close`. An immediately closed
   * list ends AT the closing character; otherwise the end is past it.
   */
  function LabelsAt(scope: Scope, str: string, pos: nat, close: char, first: bool, labels: seq<string>, types: seq<JType>): (r: Option<LabelList>)
    requires |labels| == |types|
    ensures r.Some? ==> pos <= r.value.end <= |str| && |r.value.labels| == |r.value.types|
    decreases |str| + 1 - pos, 1
  {
    match EntryAt(scope, str, pos, close, first)
    case Failed => None
    case ClosedEmpty(at) => Some(LabelList(labels, types, at))
    case Last(word, t, end) => Some(LabelList(labels + [word], types + [t], end))
    case More(word, t, next) => LabelsAt(scope, str, next, close, false, labels + [word], types + [t])
  }

  /** `parseTypeOuter(scope, str, pos)`: a type between braces, ending past the `}`. */
  function OuterTypeAt(scope: Scope, str: string, pos: nat): (r: Option<(JType, nat)>)
    ensures r.Some? ==> var p := SpaceEnd(str, pos);
      p < |str| && str[p] == '{' && p < r.value.1 <= |str| && str[r.value.1 - 1] == '}'
  {
    var p := SpaceEnd(str, pos);
    if !(p < |str| && str[p] == '{') then None
    else
      match TypeAt(scope, str, p + 1)
      case None => None
      case Some((t, e)) => if e < |str| && str[e] == '}' then Some((t, e + 1)) else None
  }

  // ----- The parser as the source's methods -------------------------------------

  /** `skipSpace(str, pos)`. */
  method SkipSpace(str: string, pos: nat) returns (r: nat)
    ensures r == SpaceEnd(str, pos)
  {
    r := pos;
    while r < |str| && JsSpace(str[r])
      invariant pos <= r && SpaceEnd(str, r) == SpaceEnd(str, pos)
      decreases |str| - r
    {
      r := r + 1;
    }
  }

  /** The body of the loop of `parseLabelList`, up to its `break`, `return null` or next turn. */
  method ParseEntry(scope: Scope, str: string, start: nat, close: char, first: bool) returns (r: Entry)
    ensures r == EntryAt(scope, str, start, close, first)
    decreases |str| + 1 - start, 0
  {
    var pos := SkipSpace(str, start);
    if first && pos < |str| && str[pos] == close {
      return ClosedEmpty(pos);
    }
    var colon := IndexOf(str, ':', pos);
    if colon < 0 {
      return Failed;
    }
    var word := str[pos..colon];
    if !IsLabel(word) {
      return Failed;
    }
    pos := colon + 1;
    var t := ParseType(scope, str, pos);
    if t.None? {
      return Failed;
    }
    r := ParseSeparator(str, word, t.value.0, t.value.1, close);
  }

  /** The end of the loop body of `parseLabelList`: the character after the entry's type. */
  method ParseSeparator(str: string, word: string, t: JType, e: nat, close: char) returns (r: Entry)
    ensures r == Separated(str, word, t, e, close)
  {
    var pos := SkipSpace(str, e);
    var next := if pos < |str| then Some(str[pos]) else None;
    pos := pos + 1;
    if next == Some(close) {
      return Last(word, t, pos);
    }
    if next != Some(',') {
      return Failed;
    }
    return More(word, t, pos);
  }

  /** `parseLabelList(scope, str, pos, close)`. */
  method ParseLabelList(scope: Scope, str: string, start: nat, close: char) returns (r: Option<LabelList>)
    ensures r == LabelsAt(scope, str, start, close, true, [], [])
    decreases |str| + 1 - start, 1
  {
    var labels: seq<string> := [];
    var types: seq<JType> := [];
    var first := true;
    var pos := start;
    while true
      invariant start <= pos && |labels| == |types|
      invariant first ==> pos == start
      invariant pos == start || pos <= |str|
      invariant LabelsAt(scope, str, pos, close, first, labels, types) == LabelsAt(scope, str, start, close, true, [], [])
      decreases |str| + 1 - pos
    {
      var e := ParseEntry(scope, str, pos, close, first);
      match e {
        case Failed => return None;
        case ClosedEmpty(at) => return Some(LabelList(labels, types, at));
        case Last(word, t, end) => return Some(LabelList(labels + [word], types + [t], end));
        case More(word, t, next) =>
          labels := labels + [word];
          types := types + [t];
          pos := next;
          first := false;
      }
    }
  }

  /** `parseType(scope, str, pos)`. */
  method ParseType(scope: Scope, str: string, start: nat) returns (r: Option<(JType, nat)>)
    ensures r == TypeAt(scope, str, start)
    decreases |str| + 1 - start, 3
  {
    var pos := SkipSpace(str, start);
    if pos > |str| {
      return None;
    }
    if pos < |str| && str[pos] == '[' {
      r := ParseArrType(scope, str, pos);
    } else if pos < |str| && str[pos] == '{' {
      r := ParseObjType(scope, str, pos);
    } else if FunctionAt(str, pos) {
      r := ParseFnType(scope, str, pos);
    } else {
      r := ParseWordType(scope, str, pos);
    }
  }

  /** The `function(` branch of `parseType`. */
  method ParseFnType(scope: Scope, str: string, start: nat) returns (r: Option<(JType, nat)>)
    requires start <= |str| && FunctionAt(str, start)
    ensures r == FnTypeAt(scope, str, start)
    decreases |str| + 1 - start, 2
  {
    var args := ParseLabelList(scope, str, start + 9, ')');
    if args.None? {
      return None;
    }
    var ret := JNull;
    var pos := SkipSpace(str, args.value.end);
    if pos < |str| && str[pos] == ':' {
      pos := pos + 1;
      var retType := ParseType(scope, str, pos + 1);
      if retType.None? {
        return None;
      }
      pos := retType.value.1;
      ret := retType.value.0;
    }
    return Some((JFn(args.value.types, args.value.labels, ret), pos));
  }

  /** The `[` branch of `parseType`. */
  method ParseArrType(scope: Scope, str: string, start: nat) returns (r: Option<(JType, nat)>)
    requires start < |str| && str[start] == '['
    ensures r == ArrTypeAt(scope, str, start)
    decreases |str| + 1 - start, 2
  {
    var inner := ParseType(scope, str, start + 1);
    if inner.None? {
      return None;
    }
    var pos := SkipSpace(str, inner.value.1);
    if !(pos < |str| && str[pos] == ']') {
      return None;
    }
    return Some((JArr(inner.value.0), pos + 1));
  }

  /** The `{` branch of `parseType`. */
  method ParseObjType(scope: Scope, str: string, start: nat) returns (r: Option<(JType, nat)>)
    requires start < |str| && str[start] == '{'
    ensures r == ObjTypeAt(scope, str, start)
    decreases |str| + 1 - start, 2
  {
    var fields := ParseLabelList(scope, str, start + 1, '}');
    if fields.None? {
      return None;
    }
    return Some((JObj(Zip(fields.value.labels, fields.value.types)), fields.value.end));
  }

  /** The bare-word branch of `parseType`. */
  method ParseWordType(scope: Scope, str: string, start: nat) returns (r: Option<(JType, nat)>)
    requires start <= |str|
    ensures r == WordTypeAt(scope, str, start)
  {
    var pos := start;
    while pos < |str| && IdChar(str[pos])
      invariant start <= pos && WordEnd(str, pos) == WordEnd(str, start)
      decreases |str| - pos
    {
      pos := pos + 1;
    }
    if start == pos {
      return None;
    }
    return Some((WordType(scope, str[start..pos]), pos));
  }

  /** `parseTypeOuter(scope, str, pos)`, with `pos` 0 when it is omitted. */
  method ParseTypeOuter(scope: Scope, str: string, start: nat) returns (r: Option<(JType, nat)>)
    ensures r == OuterTypeAt(scope, str, start)
  {
    var pos := SkipSpace(str, start);
    if !(pos < |str| && str[pos] == '{') {
      return None;
    }
    var result := ParseType(scope, str, pos + 1);
    if result.None? || !(result.value.1 < |str| && str[result.value.1] == '}') {
      return None;
    }
    return Some((result.value.0, result.value.1 + 1));
  }

  // ----- Tags and their effect -----------------------------------------------------

  /**
   * One match of the tag pattern: the tag word (`type`, `param`, `arg`,
   * `argument`, `returns` or `return`) and the rest of its line.
   */
  datatype Decl = Decl(tag: string, rest: string)

  /** The tags read so far; `None` where the source's variable is still undefined. */
  datatype Collected = Collected(typ: Option<JType>, args: Option<map<string, JType>>, ret: Option<JType>, foundOne: bool)

  /** `rest.slice(end).match(/^\s*([\w$]+)/)`: the parameter name after the type. */
  function ParamName(rest: string, end: nat): (r: Option<string>)
    ensures r.Some? ==> IsLabel(r.value)
  {
    var s := SpaceEnd(rest, end);
    var e := WordEnd(rest, s);
    if e == s then None else Some(rest[s..e])
  }

  /** The tags after one more match. */
  function Step(scope: Scope, c: Collected, d: Decl): (r: Collected)
    ensures OuterTypeAt(scope, d.rest, 0).None? ==> r == c
    ensures OuterTypeAt(scope, d.rest, 0).Some? ==> r.foundOne
    ensures OuterTypeAt(scope, d.rest, 0).Some? && (d.tag == "returns" || d.tag == "return") ==>
      r == c.(ret := Some(OuterTypeAt(scope, d.rest, 0).value.0), foundOne := true)
    ensures OuterTypeAt(scope, d.rest, 0).Some? && d.tag == "type" ==>
      r == c.(typ := Some(OuterTypeAt(scope, d.rest, 0).value.0), foundOne := true)
    ensures OuterTypeAt(scope, d.rest, 0).Some? && (d.tag == "param" || d.tag == "arg" || d.tag == "argument") ==>
      var name := ParamName(d.rest, OuterTypeAt(scope, d.rest, 0).value.1);
      && r.typ == c.typ && r.ret == c.ret
      && (name.None? ==> r.args == c.args)
      && (name.Some? ==> r.args.Some? && r.args.value == (if c.args.Some? then c.args.value else map[])[name.value := OuterTypeAt(scope, d.rest, 0).value.0])
  {
    match OuterTypeAt(scope, d.rest, 0)
    case None => c
    case Some((t, end)) =>
      var c1 := c.(foundOne := true);
      if d.tag == "returns" || d.tag == "return" then c1.(ret := Some(t))
      else if d.tag == "type" then c1.(typ := Some(t))
      else if d.tag == "param" || d.tag == "arg" || d.tag == "argument" then
        match ParamName(d.rest, end)
        case None => c1
        case Some(name) =>
          var m: map<string, JType> := if c.args.Some? then c.args.value else map[];
          c1.(args := Some(m[name := t]))
      else c1
  }

  const NoTags := Collected(None, None, None, false)

  /** The tags after the first `n` matches. */
  function CollectAll(scope: Scope, decls: seq<Decl>): (r: Collected)
    ensures r.foundOne <==> exists k :: 0 <= k < |decls| && OuterTypeAt(scope, decls[k].rest, 0).Some?
    ensures (forall k :: 0 <= k < |decls| ==> decls[k].tag != "type") ==> r.typ.None?
    decreases |decls|
  {
    if decls == [] then NoTags else Step(scope, CollectAll(scope, decls[..|decls| - 1]), decls[|decls| - 1])
  }

  /** The function a declaration documents, by the argument names of its `fnType`. */
  datatype FnInfo = FnInfo(argNames: seq<string>)

  /** The node a comment is attached to, reduced to the function it defines, if any. */
  datatype DocNode =
    | VariableDeclaration(initFn: Option<FnInfo>)
    | FunctionDeclaration(fn: FnInfo)
    | PropertyNode(valueFn: Option<FnInfo>)

  /** Where a type flows: the `i`-th argument or the return value of the function, or the declared value. */
  datatype Target = ArgOf(i: nat) | RetOf | Declared

  datatype Flow = Flow(from: JType, into: Target)

  predicate Truthy(t: Option<JType>) {
    t.Some? && t.value != JUndefined
  }

  function NodeFn(node: DocNode): Option<FnInfo> {
    match node
    case VariableDeclaration(f) => f
    case FunctionDeclaration(f) => Some(f)
    case PropertyNode(f) => f
  }

  /** The flows of the documented parameter types into the arguments `i..` of a function. */
  function ArgFlows(names: seq<string>, args: map<string, JType>, i: nat): (r: seq<Flow>)
    ensures forall k :: 0 <= k < |r| ==>
      && r[k].into.ArgOf? && i <= r[k].into.i < |names|
      && names[r[k].into.i] in args && r[k].from == args[names[r[k].into.i]] && r[k].from != JUndefined
    ensures forall j :: i <= j < |names| && names[j] in args && args[names[j]] != JUndefined ==>
      Flow(args[names[j]], ArgOf(j)) in r
    decreases |names| - i
  {
    if i >= |names| then []
    else
      var rest := ArgFlows(names, args, i + 1);
      if names[i] in args && args[names[i]] != JUndefined then [Flow(args[names[i]], ArgOf(i))] + rest else rest
  }

  /** `applyType(type, args, ret, node, aval)`: the flows it sets up. */
  function Applied(c: Collected, node: DocNode): (r: seq<Flow>)
    ensures forall k :: 0 <= k < |r| ==> r[k].from != JUndefined
    ensures forall k :: 0 <= k < |r| && r[k].into.ArgOf? ==>
      NodeFn(node).Some? && r[k].into.i < |NodeFn(node).value.argNames| && c.args.Some?
    ensures forall k :: 0 <= k < |r| && r[k].into.RetOf? ==> NodeFn(node).Some? && c.ret == Some(r[k].from)
    ensures forall k :: 0 <= k < |r| && r[k].into.Declared? ==> c.typ == Some(r[k].from)
  {
    var fn := NodeFn(node);
    if fn.Some? && (c.args.Some? || Truthy(c.ret)) then
      (if c.args.Some? then ArgFlows(fn.value.argNames, c.args.value, 0) else [])
      + (if Truthy(c.ret) then [Flow(c.ret.value, RetOf)] else [])
    else if Truthy(c.typ) then [Flow(c.typ.value, Declared)]
    else []
  }

  /** `applyType(type, args, ret, node, aval)`. */
  method ApplyType(c: Collected, node: DocNode) returns (flows: seq<Flow>)
    ensures flows == Applied(c, node)
  {
    var fn := NodeFn(node);
    flows := [];
    if fn.Some? && (c.args.Some? || Truthy(c.ret)) {
      if c.args.Some? {
        var names := fn.value.argNames;
        var i := |names|;
        while i > 0
          invariant 0 <= i <= |names|
          invariant flows == ArgFlows(names, c.args.value, i)
        {
          i := i - 1;
          var known := if names[i] in c.args.value then c.args.value[names[i]] else JUndefined;
          if known != JUndefined {
            flows := [Flow(known, ArgOf(i))] + flows;
          }
        }
      }
      if Truthy(c.ret) {
        flows := flows + [Flow(c.ret.value, RetOf)];
      }
    } else if Truthy(c.typ) {
      flows := [Flow(c.typ.value, Declared)];
    }
  }

  /** `interpretComments(node, scope, aval, comment)`, given the tag matches of the comment: `None` when no tag parsed. */
  method InterpretComments(scope: Scope, decls: seq<Decl>, node: DocNode) returns (flows: Option<seq<Flow>>)
    ensures var c := CollectAll(scope, decls);
      flows == if c.foundOne then Some(Applied(c, node)) else None
  {
    var c := NoTags;
    var i := 0;
    while i < |decls|
      invariant 0 <= i <= |decls|
      invariant c == CollectAll(scope, decls[..i])
    {
      assert decls[..i + 1][..i] == decls[..i];
      var d := decls[i];
      var parsed := ParseTypeOuter(scope, d.rest, 0);
      if parsed.Some? {
        c := c.(foundOne := true);
        if d.tag == "returns" || d.tag == "return" {
          c := c.(ret := Some(parsed.value.0));
        } else if d.tag == "type" {
          c := c.(typ := Some(parsed.value.0));
        } else if d.tag == "param" || d.tag == "arg" || d.tag == "argument" {
          var s := SkipSpace(d.rest, parsed.value.1);
          var e := s;
          while e < |d.rest| && IdChar(d.rest[e])
            invariant s <= e && WordEnd(d.rest, e) == WordEnd(d.rest, s)
            decreases |d.rest| - e
          {
            e := e + 1;
          }
          if e != s {
            var m: map<string, JType> := if c.args.Some? then c.args.value else map[];
            c := c.(args := Some(m[d.rest[s..e] := parsed.value.0]));
          }
        }
      }
      i := i + 1;
    }
    assert decls[..i] == decls;
    if c.foundOne {
      var f := ApplyType(c, node);
      flows := Some(f);
    } else {
      flows := None;
    }
  }

  // ----- Properties -------------------------------------------------------------------

  /** Type expressions the parser reads back: the primitives and arrays of them. */
  predicate Printable(t: JType) {
    match t
    case JNum => true
    case JBool => true
    case JStr => true
    case JArr(e) => Printable(e)
    case _ => false
  }

  function Print(t: JType): (s: string)
    requires Printable(t)
    ensures |s| > 0
  {
    match t
    case JNum => "number"
    case JBool => "bool"
    case JStr => "string"
    case JArr(e) => "[" + Print(e) + "]"
  }

  /** A word standing at `p` is read as a bare word; an eight-letter word must end the text, since it might be `function`. */
  lemma WordAt(scope: Scope, str: string, p: nat, w: string)
    requires |w| > 0 && p + |w| <= |str| && str[p..p + |w|] == w
    requires |w| != 8 || p + |w| == |str|
    requires forall k :: 0 <= k < |w| ==> IdChar(w[k])
    requires p + |w| == |str| || !IdChar(str[p + |w|])
    requires SpaceEnd(str, p) == p
    ensures TypeAt(scope, str, p) == Some((WordType(scope, w), p + |w|))
  {
    assert forall k :: p <= k < p + |w| ==> str[k] == w[k - p] by {
      forall k | p <= k < p + |w| ensures str[k] == w[k - p] {
        assert str[p..p + |w|][k - p] == str[k];
      }
    }
    WordEndAt(str, p, p + |w|);
    NotFunctionAt(str, p, |w|);
    assert str[p] == w[0];
    TypeAtWord(scope, str, p);
  }

  /** At a `[`, `parseType` reads an array type. */
  lemma TypeAtArr(scope: Scope, str: string, p: nat)
    requires p < |str| && SpaceEnd(str, p) == p && str[p] == '['
    ensures TypeAt(scope, str, p) == ArrTypeAt(scope, str, p)
  {
  }

  /** `[`, an element type and `]` make an array type. */
  lemma ArrParses(scope: Scope, str: string, p: nat, e: JType, q: nat)
    requires p < |str| && SpaceEnd(str, p) == p && str[p] == '['
    requires TypeAt(scope, str, p + 1) == Some((e, q))
    requires q < |str| && str[q] == ']'
    ensures TypeAt(scope, str, p) == Some((JArr(e), q + 1))
  {
    TypeAtArr(scope, str, p);
    assert SpaceEnd(str, q) == q;
  }

  /** Where no other rule applies, `parseType` reads a word. */
  lemma TypeAtWord(scope: Scope, str: string, p: nat)
    requires p < |str| && SpaceEnd(str, p) == p && str[p] != '[' && str[p] != '{'
    requires !FunctionAt(str, p)
    ensures TypeAt(scope, str, p) == WordTypeAt(scope, str, p)
  {
  }

  /** A word run of length `n` does not start `function(`, unless it is eight characters long and followed by more text. */
  lemma NotFunctionAt(str: string, p: nat, n: nat)
    requires 0 < n && p + n <= |str| && (n != 8 || p + n == |str|)
    requires forall k :: p <= k < p + n ==> IdChar(str[k])
    requires p + n == |str| || !IdChar(str[p + n])
    ensures !FunctionAt(str, p)
  {
    var f := "function(";
    if |str| - p >= 9 {
      var k := if n >= 9 then 8 else n;
      assert forall i :: 0 <= i < 8 ==> IdChar(f[i]);
      assert str[p + k] != f[k];
      assert str[p..][..9][k] == str[p + k];
    }
  }

  lemma {:induction false} WordEndAt(str: string, p: nat, e: nat)
    requires p <= e <= |str|
    requires forall k :: p <= k < e ==> IdChar(str[k])
    requires e == |str| || !IdChar(str[e])
    ensures WordEnd(str, p) == e
    decreases e - p
  {
    if p < e {
      WordEndAt(str, p + 1, e);
    }
  }

  lemma NumberWords(w: string)
    ensures LowerString(w) == "number" ==> forall k :: 0 <= k < |w| ==> IdChar(w[k])
  {
    if LowerString(w) == "number" {
      forall k | 0 <= k < |w| ensures IdChar(w[k]) {
        assert Lower(w[k]) == "number"[k];
      }
    }
  }

  /**
   * A printable type followed by a character that cannot continue a word
   * parses back to itself, ending right after its text.
   */
  lemma {:induction false} PrintParses(scope: Scope, str: string, p: nat, t: JType)
    requires Printable(t)
    requires p + |Print(t)| <= |str| && str[p..p + |Print(t)|] == Print(t)
    requires p + |Print(t)| == |str| || !IdChar(str[p + |Print(t)|])
    ensures TypeAt(scope, str, p) == Some((t, p + |Print(t)|))
    decreases t, 1
  {
    if t.JArr? {
      ArrRoundTrip(scope, str, p, t.elem);
    } else {
      PrimPrintParses(scope, str, p, t);
    }
  }

  /** The step of `PrintParses` for a primitive type. */
  lemma PrimPrintParses(scope: Scope, str: string, p: nat, t: JType)
    requires Printable(t) && !t.JArr?
    requires p + |Print(t)| <= |str| && str[p..p + |Print(t)|] == Print(t)
    requires p + |Print(t)| == |str| || !IdChar(str[p + |Print(t)|])
    ensures TypeAt(scope, str, p) == Some((t, p + |Print(t)|))
  {
    PrintPrim(scope, t);
    WordAt(scope, str, p, Print(t));
  }

  /** `PrintParses` for an array type, from `PrintParses` for its element type. */
  lemma {:induction false} ArrRoundTrip(scope: Scope, str: string, p: nat, e: JType)
    requires Printable(e)
    requires p + |Print(JArr(e))| <= |str| && str[p..p + |Print(JArr(e))|] == Print(JArr(e))
    ensures TypeAt(scope, str, p) == Some((JArr(e), p + |Print(JArr(e))|))
    decreases JArr(e), 0
  {
    ArrText(str, p, e);
    PrintParses(scope, str, p + 1, e);
    ArrPrintParses(scope, str, p, e);
  }

  /** The step of `PrintParses` for an array type. */
  lemma ArrPrintParses(scope: Scope, str: string, p: nat, e: JType)
    requires Printable(e)
    requires p + 1 + |Print(e)| < |str| && str[p] == '[' && SpaceEnd(str, p) == p && str[p + 1 + |Print(e)|] == ']'
    requires TypeAt(scope, str, p + 1) == Some((e, p + 1 + |Print(e)|))
    ensures TypeAt(scope, str, p) == Some((JArr(e), p + |Print(JArr(e))|))
  {
    ArrParses(scope, str, p, e, p + 1 + |Print(e)|);
  }

  /** The printed array type at `p` holds the printed element type at `p + 1`, followed by `]`. */
  lemma ArrText(str: string, p: nat, e: JType)
    requires Printable(e)
    requires p + |Print(JArr(e))| <= |str| && str[p..p + |Print(JArr(e))|] == Print(JArr(e))
    ensures p + 1 + |Print(e)| <= |str| && str[p + 1..p + 1 + |Print(e)|] == Print(e)
    ensures p + 1 + |Print(e)| == |str| || !IdChar(str[p + 1 + |Print(e)|])
    ensures p + 1 + |Print(e)| < |str| && str[p] == '[' && SpaceEnd(str, p) == p && str[p + 1 + |Print(e)|] == ']'
  {
    Bracketed(str, p, Print(e));
  }

  /** The text of `[T]` at `p`: the bracket, the element's text and the closing bracket. */
  lemma Bracketed(str: string, p: nat, es: string)
    requires p + |es| + 2 <= |str| && str[p..p + |es| + 2] == "[" + es + "]"
    ensures str[p] == '[' && SpaceEnd(str, p) == p
    ensures str[p + 1..p + 1 + |es|] == es && str[p + 1 + |es|] == ']'
  {
    var s := "[" + es + "]";
    assert str[p] == s[0] by { assert str[p..p + |s|][0] == str[p]; }
    forall k | 0 <= k < |es| ensures str[p + 1 + k] == es[k] {
      assert str[p..p + |s|][1 + k] == str[p + 1 + k];
      assert s[1 + k] == es[k];
    }
    assert str[p + 1..p + 1 + |es|] == es;
    assert str[p..p + |s|][1 + |es|] == str[p + 1 + |es|];
  }

  /** The printed primitive types are short words that denote them. */
  lemma PrintPrim(scope: Scope, t: JType)
    requires Printable(t) && !t.JArr?
    ensures IsLabel(Print(t)) && |Print(t)| < 8 && WordType(scope, Print(t)) == t
  {
    match t
    case JNum => NumberName(scope);
    case JBool => BoolName(scope);
    case JStr => StringName(scope);
  }

  /** `number` is a word denoting the number type. */
  lemma NumberName(scope: Scope)
    ensures IsLabel("number") && WordType(scope, "number") == JNum
  {
    LowerOfLower("number");
  }

  /** `bool` is a word denoting the boolean type. */
  lemma BoolName(scope: Scope)
    ensures IsLabel("bool") && WordType(scope, "bool") == JBool
  {
    LowerOfLower("bool");
  }

  /** `string` is a word denoting the string type. */
  lemma StringName(scope: Scope)
    ensures IsLabel("string") && WordType(scope, "string") == JStr
  {
    var w := "string";
    LowerOfLower(w);
    assert w[0] == 's' && "number"[0] == 'n' && |w| == 6;
  }

  /** Lower-casing a string without capitals leaves it unchanged. */
  lemma LowerOfLower(s: string)
    requires forall k :: 0 <= k < |s| ==> !('A' <= s[k] <= 'Z')
    ensures LowerString(s) == s
  {
  }

  /** `{T}` reads back as `T` for every printable type, ending past the brace. */
  lemma OuterRoundTrip(scope: Scope, t: JType)
    requires Printable(t)
    ensures OuterTypeAt(scope, "{" + Print(t) + "}", 0) == Some((t, |Print(t)| + 2))
  {
    var s := Print(t);
    var str := "{" + s + "}";
    Braced(s);
    PrintParses(scope, str, 1, t);
    OuterParses(scope, str, t, 1 + |s|);
  }

  /** The parts of `{s}`. */
  lemma Braced(s: string)
    ensures var str := "{" + s + "}";
      && |str| == |s| + 2 && str[0] == '{' && str[1..1 + |s|] == s
      && str[1 + |s|] == '}' && !IdChar(str[1 + |s|])
  {
    var str := "{" + s + "}";
    assert str[1..1 + |s|] == s;
  }

  /** `{`, a type and `}` at the start make the outer type. */
  lemma OuterParses(scope: Scope, str: string, t: JType, e: nat)
    requires 0 < |str| && str[0] == '{'
    requires TypeAt(scope, str, 1) == Some((t, e))
    requires e < |str| && str[e] == '}'
    ensures OuterTypeAt(scope, str, 0) == Some((t, e + 1))
  {
    assert SpaceEnd(str, 0) == 0;
  }

  /** The primitive names are read in any case: `Number`, `BOOLEAN` and `String` are types too. */
  lemma CaseInsensitiveWords(scope: Scope, w: string)
    requires IsLabel(w)
    ensures LowerString(w) == "number" || LowerString(w) == "integer" ==> TypeAt(scope, w, 0) == Some((JNum, |w|))
    ensures LowerString(w) == "bool" || LowerString(w) == "boolean" ==> TypeAt(scope, w, 0) == Some((JBool, |w|))
    ensures LowerString(w) == "string" ==> TypeAt(scope, w, 0) == Some((JStr, |w|))
  {
    WholeWord(scope, w);
  }

  /** What a parameter slot of `Fn` receives from the function-type branch: a label or a type. */
  datatype Slot = LabelSlot(labelText: string) | TypeSlot(slotType: JType)

  /**
   * The `args` slot of `new infer.Fn(null, infer.ANull, args.labels,
   * args.types, ret)` as written: one label per parameter, and no type.
   */
  function ArgsSlotAsWritten(ll: LabelList): (r: seq<Slot>)
    ensures |r| == |ll.labels|
    ensures forall i :: 0 <= i < |r| ==> !r[i].TypeSlot?
  {
    seq(|ll.labels|, i requires 0 <= i < |ll.labels| => LabelSlot(ll.labels[i]))
  }

  /**
   * `{function(a: number)}`: as written the `args` slot of the function type
   * holds the label `a` where the type `number` belongs; the parser of this
   * model gives `number` as the argument type and `a` as its name.
   */
  lemma FnArgsSwappedAsWritten(scope: Scope)
    ensures LabelsAt(scope, "{function(a: number)}", 10, ')', true, [], []) == Some(LabelList(["a"], [JNum], 20))
    ensures ArgsSlotAsWritten(LabelList(["a"], [JNum], 20)) == [LabelSlot("a")]
    ensures OuterTypeAt(scope, "{function(a: number)}", 0) == Some((JFn([JNum], ["a"], JNull), 21))
  {
    var str := "{function(a: number)}";
    NumberParamParsed(scope, str);
    NumberFnParsed(scope, str);
    assert SpaceEnd(str, 1) == 1;
    assert TypeAt(scope, str, 1) == Some((JFn([JNum], ["a"], JNull), 20));
    assert SpaceEnd(str, 0) == 0;
  }

  /** The function type from its `function(`: no `:` follows the list. */
  lemma NumberFnParsed(scope: Scope, str: string)
    requires str == "{function(a: number)}"
    requires LabelsAt(scope, str, 10, ')', true, [], []) == Some(LabelList(["a"], [JNum], 20))
    ensures FunctionAt(str, 1) && FnTypeAt(scope, str, 1) == Some((JFn([JNum], ["a"], JNull), 20))
  {
    assert SpaceEnd(str, 20) == 20;
  }

  /** The parameter list `a: number)` of that type. */
  lemma NumberParamParsed(scope: Scope, str: string)
    requires str == "{function(a: number)}"
    ensures LabelsAt(scope, str, 10, ')', true, [], []) == Some(LabelList(["a"], [JNum], 20))
  {
    assert SpaceEnd(str, 10) == 10;
    assert IndexOf(str, ':', 10) == 11;
    assert str[10..11] == "a";
    assert IsLabel("a") by {
      assert IdChar("a"[0]);
    }
    NumberTypeParsed(scope, str);
    assert SpaceEnd(str, 19) == 19;
    assert Separated(str, "a", JNum, 19, ')') == Last("a", JNum, 20);
    assert EntryAt(scope, str, 10, ')', true) == Last("a", JNum, 20);
    assert [] + ["a"] == ["a"] && [] + [JNum] == [JNum];
  }

  /** The type ` number` after the colon. */
  lemma NumberTypeParsed(scope: Scope, str: string)
    requires str == "{function(a: number)}"
    ensures TypeAt(scope, str, 12) == Some((JNum, 19))
  {
    assert SpaceEnd(str, 12) == 13 by {
      assert SpaceEnd(str, 13) == 13;
    }
    NumberWordParsed(str);
    assert WordTypeAt(scope, str, 13) == Some((JNum, 19)) by {
      NumberIsLower();
    }
    TypeAtWordAfterSpace(scope, str, 12, 13);
  }

  /** Past the spaces, a character that opens no bracket and no `function(` starts a word type. */
  lemma TypeAtWordAfterSpace(scope: Scope, str: string, pos: nat, p: nat)
    requires SpaceEnd(str, pos) == p && p < |str| && str[p] != '[' && str[p] != '{' && str[p] != 'f'
    ensures TypeAt(scope, str, pos) == WordTypeAt(scope, str, p)
  {
  }

  lemma NumberWordParsed(str: string)
    requires str == "{function(a: number)}"
    ensures WordEnd(str, 13) == 19 && str[13..19] == "number"
  {
    assert !IdChar(str[19]);
    assert forall k :: 13 <= k < 19 ==> IdChar(str[k]);
  }

  lemma NumberIsLower()
    ensures LowerString("number") == "number"
  {
  }

  /** A list closed right away is empty and ends at its closing character. */
  lemma EmptyListEndsAtClose(scope: Scope, str: string, pos: nat, close: char)
    requires SpaceEnd(str, pos) < |str| && str[SpaceEnd(str, pos)] == close
    ensures LabelsAt(scope, str, pos, close, true, [], []) == Some(LabelList([], [], SpaceEnd(str, pos)))
  {
  }

  /**
   * Because an empty parameter list ends at its `)`, a function type without
   * parameters never reaches its return type, and `{function()}` is rejected.
   */
  lemma EmptyFunctionRejected(scope: Scope)
    ensures OuterTypeAt(scope, "{function()}", 0) == None
  {
    var str := "{function()}";
    assert SpaceEnd(str, 0) == 0;
    assert SpaceEnd(str, 1) == 1;
    assert str[1..][..9] == "function(";
    assert SpaceEnd(str, 10) == 10;
    assert LabelsAt(scope, str, 10, ')', true, [], []) == Some(LabelList([], [], 10));
    assert TypeAt(scope, str, 1) == Some((JFn([], [], JNull), 10));
  }

  /**
   * A name that the scope does not bind is `ANull`; a capitalised function
   * name is an instance of its `prototype` object, and another function name
   * is the function itself.
   */
  lemma NamesResolve(scope: Scope, w: string)
    requires IsLabel(w) && !PrimitiveName(LowerString(w))
    ensures scope(w).None? ==> TypeAt(scope, w, 0) == Some((JNull, |w|))
    ensures scope(w).Some? && scope(w).value.RFn? && 'A' <= w[0] <= 'Z' ==>
      TypeAt(scope, w, 0) == Some((if scope(w).value.proto.Some? then JInstance(scope(w).value.proto.value) else JUndefined, |w|))
    ensures scope(w).Some? && scope(w).value.RFn? && !('A' <= w[0] <= 'Z') ==> TypeAt(scope, w, 0) == Some((JRef(scope(w).value.fnId), |w|))
  {
    WholeWord(scope, w);
  }

  /** A string that is one word parses as that word. */
  lemma WholeWord(scope: Scope, w: string)
    requires IsLabel(w)
    ensures TypeAt(scope, w, 0) == Some((WordType(scope, w), |w|))
  {
    assert !JsSpace(w[0]);
    assert SpaceEnd(w, 0) == 0;
    WordEndAt(w, 0, |w|);
    NotFunctionAt(w, 0, |w|);
    TypeAtWord(scope, w, 0);
    assert w[0..|w|] == w;
  }

  /** A later `@returns` replaces an earlier one. */
  lemma LaterReturnsWins(scope: Scope, decls: seq<Decl>, rest: string)
    requires OuterTypeAt(scope, rest, 0).Some?
    ensures CollectAll(scope, decls + [Decl("returns", rest)]).ret == Some(OuterTypeAt(scope, rest, 0).value.0)
  {
    assert (decls + [Decl("returns", rest)])[..|decls|] == decls;
  }

  /** An `@param` without a name after its type records nothing, yet still counts as a parsed tag. */
  lemma UnnamedParamSkipped(scope: Scope, decls: seq<Decl>, rest: string)
    requires OuterTypeAt(scope, rest, 0).Some? && ParamName(rest, OuterTypeAt(scope, rest, 0).value.1).None?
    ensures var before := CollectAll(scope, decls);
      CollectAll(scope, decls + [Decl("param", rest)]) == before.(foundOne := true)
  {
    assert (decls + [Decl("param", rest)])[..|decls|] == decls;
  }

  /** Documented parameters flow into the arguments with their names; `@type` is used only without a function target or its tags. */
  lemma ParamsFlowByName(c: Collected, node: DocNode, j: nat)
    requires NodeFn(node).Some? && c.args.Some?
    requires var names := NodeFn(node).value.argNames;
      j < |names| && names[j] in c.args.value && c.args.value[names[j]] != JUndefined
    ensures Flow(c.args.value[NodeFn(node).value.argNames[j]], ArgOf(j)) in Applied(c, node)
    ensures forall f :: f in Applied(c, node) ==> f.into != Declared
  {
  }

  /** The `@type` of a declaration that is not a function flows into the declared value. */
  lemma TypeFlowsToValue(c: Collected, node: DocNode)
    requires NodeFn(node).None? && Truthy(c.typ)
    ensures Applied(c, node) == [Flow(c.typ.value, Declared)]
  {
  }
}
