/**
 * Editor-side utilities of the tern extension: column counting with tabs,
 * the parser of tern's function-type strings (`fn(a: T, b: U) -> R`), the
 * two position formats and their comparison, HTML escaping, completion
 * icons, identifier scanning around the cursor, and the dirty-line range a
 * document change updates.
 */
module ExtTern {
  import opened JsText

  // ----- countColumn -----------------------------------------------------------

  /** The column after the characters `s[i..end]`, starting at column `n`: a tab moves to the next multiple of `tabSize`. */
  function ColumnFrom(s: string, i: int, end: int, n: nat, tabSize: nat): (r: nat)
    requires tabSize >= 1
    ensures i >= end ==> r == n
    ensures r >= n
    decreases end - i
  {
    if i >= end then n
    else
      var n' := if 0 <= i < |s| && s[i] == '\t' then n + tabSize - n % tabSize else n + 1;
      ColumnFrom(s, i + 1, end, n', tabSize)
  }

  /** `string.search(/[^\s ]/)`, with -1 read as the length: the end of the leading white space. */
  function IndentEnd(s: string): (r: nat)
    ensures r <= |s|
    ensures forall k :: 0 <= k < r ==> JsSpace(s[k])
    ensures r < |s| ==> !JsSpace(s[r])
  {
    if s == [] || !JsSpace(s[0]) then 0 else 1 + IndentEnd(s[1..])
  }

  /**
   * `countColumn(string, end, tabSize, startIndex, startValue)`: `None` for
   * a missing `end`, which stops at the first character that is not white
   * space. Positions past the string count one column each, as `charAt`
   * gives the empty string there.
   */
  method CountColumn(s: string, end: Option<int>, tabSize: nat, startIndex: nat, startValue: nat) returns (n: nat)
    requires tabSize >= 1
    ensures n == ColumnFrom(s, startIndex, if end.Some? then end.value else IndentEnd(s), startValue, tabSize)
  {
    var e: int;
    if end.None? {
      e := IndentEnd(s);
    } else {
      e := end.value;
    }
    var i: int := startIndex;
    n := startValue;
    while i < e
      invariant ColumnFrom(s, i, e, n, tabSize) == ColumnFrom(s, startIndex, e, startValue, tabSize)
      decreases e - i
    {
      if 0 <= i < |s| && s[i] == '\t' {
        n := n + tabSize - n % tabSize;
      } else {
        n := n + 1;
      }
      i := i + 1;
    }
  }

  /** A tab moves to the next tab stop: the next multiple of `tabSize`, at most `tabSize` further on. */
  lemma TabAdvancesToStop(s: string, i: nat, n: nat, tabSize: nat)
    requires tabSize >= 1 && i < |s| && s[i] == '\t'
    ensures var c := ColumnFrom(s, i, i + 1, n, tabSize);
      c == (n / tabSize + 1) * tabSize && n < c <= n + tabSize
  {
    var c := n + tabSize - n % tabSize;
    assert ColumnFrom(s, i, i + 1, n, tabSize) == ColumnFrom(s, i + 1, i + 1, c, tabSize);
    var q := n / tabSize;
    assert n == q * tabSize + n % tabSize;
    assert c == (q + 1) * tabSize;
  }

  /** Without tabs every character is one column. */
  lemma {:induction false} NoTabsCountsCharacters(s: string, i: nat, end: nat, n: nat, tabSize: nat)
    requires tabSize >= 1 && i <= end <= |s|
    requires forall k :: i <= k < end ==> s[k] != '\t'
    ensures ColumnFrom(s, i, end, n, tabSize) == n + (end - i)
    decreases end - i
  {
    if i < end {
      NoTabsCountsCharacters(s, i + 1, end, n + 1, tabSize);
    }
  }

  /** Every character moves at least one column. */
  lemma {:induction false} ColumnAtLeastLength(s: string, i: int, end: int, n: nat, tabSize: nat)
    requires tabSize >= 1
    ensures ColumnFrom(s, i, end, n, tabSize) >= n + (if end > i then end - i else 0)
    decreases end - i
  {
    if i < end {
      var n' := if 0 <= i < |s| && s[i] == '\t' then n + tabSize - n % tabSize else n + 1;
      ColumnAtLeastLength(s, i + 1, end, n', tabSize);
    }
  }

  /** An indentation of `k` tabs from column 0 is `k * tabSize` columns wide. */
  lemma {:induction false} TabIndentation(s: string, k: nat, tabSize: nat)
    requires tabSize >= 1 && k <= |s| && forall j :: 0 <= j < k ==> s[j] == '\t'
    ensures ColumnFrom(s, 0, k, 0, tabSize) == k * tabSize
  {
    TabsFrom(s, 0, k, 0, tabSize);
  }

  lemma {:induction false} TabsFrom(s: string, i: nat, k: nat, m: nat, tabSize: nat)
    requires tabSize >= 1 && i <= k <= |s| && forall j :: i <= j < k ==> s[j] == '\t'
    ensures ColumnFrom(s, i, k, m * tabSize, tabSize) == (m + k - i) * tabSize
    decreases k - i
  {
    if i < k {
      assert (m * tabSize) % tabSize == 0;
      assert m * tabSize + tabSize - (m * tabSize) % tabSize == (m + 1) * tabSize;
      TabsFrom(s, i + 1, k, m + 1, tabSize);
    }
  }

  // ----- parseFnType --------------------------------------------------------------

  predicate Opener(c: char) { c == '{' || c == '[' || c == '(' }
  predicate Closer(c: char) { c == '}' || c == ']' || c == ')' }

  /** The bracket depth a string leaves: openers minus closers. */
  function Depth(s: string): int {
    if s == [] then 0
    else Depth(s[..|s| - 1]) + (if Opener(s[|s| - 1]) then 1 else if Closer(s[|s| - 1]) then -1 else 0)
  }

  /**
   * `skipMatching(/[\),]/)` from `pos` at bracket depth `depth`: the index of
   * the first `,` or `)` at depth 0, or `None` when the scan runs past the
   * end, where the source loops forever.
   */
  function SkipMatching(text: string, pos: nat, depth: int): (r: Option<nat>)
    ensures r.Some? ==> pos <= r.value < |text| && (text[r.value] == ')' || text[r.value] == ',')
    ensures pos >= |text| ==> r.None?
    decreases |text| - pos
  {
    if pos >= |text| then None
    else
      var c := text[pos];
      if (c == ')' || c == ',') && depth == 0 then Some(pos)
      else SkipMatching(text, pos + 1, depth + (if Opener(c) then 1 else if Closer(c) then -1 else 0))
  }

  /** Characters the argument-name pattern `[^, \(\[\{]` accepts. */
  predicate NameChar(c: char) {
    c != ',' && c != ' ' && c != '(' && c != '[' && c != '{'
  }

  function NameRunEnd(text: string, pos: nat): (e: nat)
    ensures pos <= |text| ==> pos <= e <= |text|
    ensures pos > |text| ==> e == pos
    ensures forall k :: pos <= k < e ==> NameChar(text[k])
    ensures e < |text| ==> !NameChar(text[e])
    decreases |text| - pos
  {
    if pos < |text| && NameChar(text[pos]) then NameRunEnd(text, pos + 1) else pos
  }

  /**
   * `text.slice(pos).match(/^([^, \(\[\{]+): /)`: the longest run of name
   * characters must end in `:` and be followed by a space; the result is the
   * name and the length of the match.
   */
  function NameAt(text: string, pos: nat): (r: Option<(string, nat)>)
    ensures r.Some? ==> pos + r.value.1 <= |text| && r.value.1 == |r.value.0| + 2
  {
    var e := NameRunEnd(text, pos);
    if pos <= |text| && e - pos >= 2 && text[e - 1] == ':' && e < |text| && text[e] == ' '
    then Some((text[pos..e - 1], e + 1 - pos))
    else None
  }

  datatype FnArg = FnArg(name: Option<string>, argType: string)

  /** The result of `parseFnType`; `Diverges` where the source loops forever. */
  datatype FnType = NotFn | Diverges | Parsed(args: seq<FnArg>, rettype: Option<string>)

  /**
   * One argument from `pos`: the optional `name: ` prefix, then the type up
   * to the `,` or `)` that ends it, with the index of that character.
   */
  function ArgAt(text: string, pos: nat): (r: Option<(FnArg, nat)>)
    ensures r.Some? ==> pos <= r.value.1 < |text| && (text[r.value.1] == ')' || text[r.value.1] == ',')
  {
    var nm := NameAt(text, pos);
    var p := if nm.Some? then pos + nm.value.1 else pos;
    var name := if nm.Some? then Some(nm.value.0) else None;
    match SkipMatching(text, p, 0)
    case None => None
    case Some(q) => Some((FnArg(name, text[p..q]), q))
  }

  /** The arguments parsed before `pos` put in front of what the argument loop parses from `pos`. */
  function After(args: seq<FnArg>, rest: Option<(seq<FnArg>, nat)>): Option<(seq<FnArg>, nat)> {
    match rest
    case None => None
    case Some((more, e)) => Some((args + more, e))
  }

  /** The argument loop from `pos`: the arguments and the index of the closing `)`. */
  function ParseArgs(text: string, pos: nat): (r: Option<(seq<FnArg>, nat)>)
    ensures r.Some? ==> pos <= r.value.1 < |text| && text[r.value.1] == ')'
    decreases |text| - pos
  {
    if pos >= |text| then None
    else
      match ArgAt(text, pos)
      case None => None
      case Some((arg, q)) =>
        if text[q] == ')' then Some(([arg], q))
        else After([arg], ParseArgs(text, q + 2))
  }

  /** `text.slice(pos).match(/^\) -> (.*)$/)`: the return type, which may not hold a line terminator. */
  function RetType(text: string, pos: nat): (r: Option<string>)
    requires pos <= |text|
    ensures r.Some? <==> pos + 5 <= |text| && text[pos..pos + 5] == ") -> " && NoLineTerminator(text[pos + 5..])
    ensures r.Some? ==> text[pos..] == ") -> " + r.value
  {
    var rest := text[pos..];
    if StartsWith(rest, ") -> ") && NoLineTerminator(rest[5..]) then Some(rest[5..]) else None
  }

  /** `parseFnType(text)`. */
  function ParseFnType(text: string): (r: FnType)
    ensures r == NotFn <==> !StartsWith(text, "fn") || '(' !in text
    ensures r.Parsed? && r.rettype.Some? ==>
      |r.rettype.value| + 5 <= |text| && text[|text| - |r.rettype.value| - 5..] == ") -> " + r.rettype.value
  {
    if !StartsWith(text, "fn") || '(' !in text then NotFn
    else if 3 < |text| && text[3] == ')' then Parsed([], RetType(text, 3))
    else
      match ParseArgs(text, 3)
      case None => Diverges
      case Some((args, e)) => Parsed(args, RetType(text, e))
  }

  /** `skipMatching(/[\),]/)` as the source's `for(;;)` loop, from `start` at depth 0; `None` where the source would never stop. */
  method SkipMatchingLoop(text: string, start: nat) returns (r: Option<nat>)
    ensures r == SkipMatching(text, start, 0)
  {
    var pos := start;
    var depth := 0;
    while pos < |text|
      invariant SkipMatching(text, pos, depth) == SkipMatching(text, start, 0)
      decreases |text| - pos
    {
      var c := text[pos];
      if (c == ')' || c == ',') && depth == 0 {
        return Some(pos);
      }
      if Opener(c) {
        depth := depth + 1;
      } else if Closer(c) {
        depth := depth - 1;
      }
      pos := pos + 1;
    }
    return None;
  }

  lemma AfterAfter(args: seq<FnArg>, arg: FnArg, rest: Option<(seq<FnArg>, nat)>)
    ensures After(args, After([arg], rest)) == After(args + [arg], rest)
  {
    if rest.Some? {
      assert args + ([arg] + rest.value.0) == args + [arg] + rest.value.0;
    }
  }

  /** `parseFnType(text)` as the source's code, yielding what `ParseFnType` defines. */
  method ParseFnTypeLoop(text: string) returns (r: FnType)
    ensures r == ParseFnType(text)
  {
    if !StartsWith(text, "fn") || '(' !in text {
      return NotFn;
    }
    if 3 < |text| && text[3] == ')' {
      return Parsed([], RetType(text, 3));
    }
    var parsed := ParseArgsLoop(text, 3);
    if parsed.None? {
      return Diverges;
    }
    return Parsed(parsed.value.0, RetType(text, parsed.value.1));
  }

  /** The `for(;;)` argument loop of `parseFnType` from `start`: the arguments and the index of the closing `)`. */
  method ParseArgsLoop(text: string, start: nat) returns (r: Option<(seq<FnArg>, nat)>)
    ensures r == ParseArgs(text, start)
  {
    var args: seq<FnArg> := [];
    var pos: nat := start;
    if ParseArgs(text, start).Some? {
      assert [] + ParseArgs(text, start).value.0 == ParseArgs(text, start).value.0;
    }
    while true
      invariant ParseArgs(text, start) == After(args, ParseArgs(text, pos))
      decreases |text| + 2 - pos
    {
      if pos >= |text| {
        return None;
      }
      var a := ArgAtLoop(text, pos);
      if a.None? {
        return None;
      }
      var arg, q := a.value.0, a.value.1;
      ParseArgsCons(text, pos, arg, q);
      if text[q] == ')' {
        return Some((args + [arg], q));
      }
      AfterAfter(args, arg, ParseArgs(text, q + 2));
      args := args + [arg];
      pos := q + 2;
    }
  }

  lemma ParseArgsCons(text: string, pos: nat, arg: FnArg, q: nat)
    requires pos < |text| && ArgAt(text, pos) == Some((arg, q))
    ensures q < |text|
    ensures ParseArgs(text, pos) == if text[q] == ')' then Some(([arg], q)) else After([arg], ParseArgs(text, q + 2))
  {
  }

  /** One argument of the loop: the name prefix, then `skipMatching` for its type. */
  method ArgAtLoop(text: string, pos: nat) returns (r: Option<(FnArg, nat)>)
    ensures r == ArgAt(text, pos)
  {
    var nm := NameAt(text, pos);
    var p := if nm.Some? then pos + nm.value.1 else pos;
    var name := if nm.Some? then Some(nm.value.0) else None;
    var q := SkipMatchingLoop(text, p);
    if q.None? {
      return None;
    }
    return Some((FnArg(name, text[p..q.value]), q.value));
  }

  /**
   * An argument type ends at the first `,` or `)` outside brackets: the
   * brackets before it are balanced.
   */
  lemma {:induction false} SkipMatchingBalanced(text: string, pos: nat, depth: int)
    requires pos <= |text|
    ensures SkipMatching(text, pos, depth).Some? ==>
      var q := SkipMatching(text, pos, depth).value;
      pos <= q && q < |text| && depth + Depth(text[pos..q]) == 0 && (text[q] == ')' || text[q] == ',')
    decreases |text| - pos
  {
    if pos < |text| {
      var c := text[pos];
      if (c == ')' || c == ',') && depth == 0 {
        assert text[pos..pos] == [];
      } else {
        var d := depth + (if Opener(c) then 1 else if Closer(c) then -1 else 0);
        SkipMatchingBalanced(text, pos + 1, d);
        if SkipMatching(text, pos + 1, d).Some? {
          var q := SkipMatching(text, pos + 1, d).value;
          DepthCons(text[pos..q]);
          assert text[pos..q][1..] == text[pos + 1..q];
        }
      }
    }
  }

  lemma {:induction false} DepthCons(s: string)
    requires s != []
    ensures Depth(s) == (if Opener(s[0]) then 1 else if Closer(s[0]) then -1 else 0) + Depth(s[1..])
    decreases |s|
  {
    if |s| > 1 {
      DepthCons(s[..|s| - 1]);
      assert s[..|s| - 1][1..] == s[1..][..|s| - 2];
    } else {
      assert s[..|s| - 1] == [] && s[1..] == [];
    }
  }

  /** A function type with an argument of unbalanced brackets makes `parseFnType` loop forever. */
  lemma UnclosedArgumentDiverges()
    ensures ParseFnType("fn(a") == Diverges
  {
    var t := "fn(a";
    assert StartsWith(t, "fn") && t[2] == '(';
    assert NameRunEnd(t, 3) == 4;
    assert SkipMatching(t, 3, 0) == None;
  }

  /** A concrete signature parses into its named arguments and return type. */
  lemma ParsesSignature()
    ensures ParseFnType("fn(a: T) -> R") == Parsed([FnArg(Some("a"), "T")], Some("R"))
  {
    var t := "fn(a: T) -> R";
    assert StartsWith(t, "fn") && t[2] == '(';
    assert NameRunEnd(t, 3) == 5 by { assert NameRunEnd(t, 4) == 5; }
    assert NameAt(t, 3) == Some(("a", 3)) by { assert t[3..4] == "a"; }
    assert SkipMatching(t, 6, 0) == Some(7) by { assert SkipMatching(t, 7, 0) == Some(7); }
    assert t[6..7] == "T";
    assert ParseArgs(t, 3) == Some(([FnArg(Some("a"), "T")], 7));
    assert t[7..] == ") -> R" && t[7..][5..] == "R";
  }

  // ----- Positions -------------------------------------------------------------------

  /** A position in tern's form `{line, ch}` or the editor's form `{row, column}`. */
  datatype Loc = TernLoc(line: int, ch: int) | AceLoc(row: int, column: int)

  /** `toTernLoc(pos)`: an editor position is converted, a tern position kept. */
  function ToTernLoc(p: Loc): (r: Loc)
    ensures r.TernLoc?
    ensures p.AceLoc? ==> r == TernLoc(p.row, p.column)
    ensures p.TernLoc? ==> r == p
  {
    match p
    case AceLoc(row, column) => TernLoc(row, column)
    case TernLoc(_, _) => p
  }

  /** `toAceLoc(pos)` as written: only a tern position with a truthy `line` is converted. */
  function ToAceLocAsWritten(p: Loc): (r: Loc)
    ensures p.TernLoc? && p.line == 0 ==> r == p
    ensures !(p.TernLoc? && p.line == 0) ==> r == ToAceLoc(p)
  {
    if p.TernLoc? && p.line != 0 then AceLoc(p.line, p.ch) else p
  }

  /** `toAceLoc(pos)` converting every tern position, the first line included. */
  function ToAceLoc(p: Loc): (r: Loc)
    ensures r.AceLoc?
    ensures p.TernLoc? ==> r == AceLoc(p.line, p.ch)
    ensures p.AceLoc? ==> r == p
  {
    match p
    case TernLoc(line, ch) => AceLoc(line, ch)
    case AceLoc(_, _) => p
  }

  /** A position on the first line keeps tern's form, so readers of `row` and `column` find nothing. */
  lemma ToAceLocFirstLine()
    ensures ToAceLocAsWritten(TernLoc(0, 5)) == TernLoc(0, 5)
    ensures !ToAceLocAsWritten(TernLoc(0, 5)).AceLoc?
  {
  }

  /** The two conversions are inverse to each other. */
  lemma LocRoundTrips(p: Loc)
    ensures p.TernLoc? ==> ToTernLoc(ToAceLoc(p)) == p
    ensures p.AceLoc? ==> ToAceLoc(ToTernLoc(p)) == p
  {
  }

  /** `cmpPos(a, b)`: `a.line - b.line || a.ch - b.ch` after converting both to tern's form. */
  function CmpPos(a: Loc, b: Loc): (r: int)
    ensures var a', b' := ToTernLoc(a), ToTernLoc(b);
      && (r < 0 <==> a'.line < b'.line || (a'.line == b'.line && a'.ch < b'.ch))
      && (r == 0 <==> a'.line == b'.line && a'.ch == b'.ch)
      && (r > 0 <==> a'.line > b'.line || (a'.line == b'.line && a'.ch > b'.ch))
  {
    var a', b' := ToTernLoc(a), ToTernLoc(b);
    if a'.line - b'.line != 0 then a'.line - b'.line else a'.ch - b'.ch
  }

  /** `cmpPos` is antisymmetric and ignores the form of a position. */
  lemma CmpPosAntisymmetric(a: Loc, b: Loc)
    ensures CmpPos(a, b) == -CmpPos(b, a)
    ensures CmpPos(ToTernLoc(a), b) == CmpPos(a, b)
  {
  }

  /** `cmpPos` is transitive as an order. */
  lemma CmpPosTransitive(a: Loc, b: Loc, c: Loc)
    requires CmpPos(a, b) <= 0 && CmpPos(b, c) <= 0
    ensures CmpPos(a, c) <= 0
  {
  }

  // ----- htmlEncode ------------------------------------------------------------------

  /** `htmlEncode(string)`: `<` and `>` become entities, every other character is kept. */
  function HtmlEncode(s: string): (r: string)
    ensures '<' !in r && '>' !in r
    ensures |r| >= |s|
    decreases |s|
  {
    if s == [] then ""
    else (if s[0] == '<' then "&lt;" else if s[0] == '>' then "&gt;" else [s[0]]) + HtmlEncode(s[1..])
  }

  /** The text an HTML reader sees for the two entities `htmlEncode` writes. */
  function HtmlDecode(s: string): string
    decreases |s|
  {
    if StartsWith(s, "&lt;") then "<" + HtmlDecode(s[4..])
    else if StartsWith(s, "&gt;") then ">" + HtmlDecode(s[4..])
    else if s == [] then ""
    else [s[0]] + HtmlDecode(s[1..])
  }

  /** Text without `&` reads back as written once encoded. */
  lemma {:induction false} HtmlEncodeDecodes(s: string)
    requires '&' !in s
    ensures HtmlDecode(HtmlEncode(s)) == s
    decreases |s|
  {
    if s != [] {
      HtmlEncodeDecodes(s[1..]);
      var e := HtmlEncode(s[1..]);
      if s[0] == '<' {
        assert ("&lt;" + e)[4..] == e;
      } else if s[0] == '>' {
        assert ("&gt;" + e)[4..] == e;
      } else {
        assert ([s[0]] + e)[1..] == e;
      }
    }
  }

  /** `&` is not escaped, so `<` and the text `&lt;` are encoded alike. */
  lemma HtmlEncodeKeepsAmpersand()
    ensures HtmlEncode("<") == HtmlEncode("&lt;")
  {
    assert HtmlEncode("&lt;") == "&" + HtmlEncode("lt;");
  }

  // ----- typeToIcon ------------------------------------------------------------------

  const Cls: string := "Ace-Tern-"

  /** The icon kind of a tern type string. */
  function IconSuffix(t: string): (r: string)
    ensures t == "?" ==> r == "unknown"
    ensures t == "number" || t == "string" || t == "bool" ==> r == t
    ensures StartsWith(t, "fn(") ==> r == "fn"
    ensures StartsWith(t, "[") ==> r == "array"
    ensures r == "object" <==> !(t == "?" || t == "number" || t == "string" || t == "bool" || StartsWith(t, "fn(") || StartsWith(t, "["))
  {
    assert StartsWith(t, "fn(") ==> t[0] == 'f' && |t| >= 3 && t[2] == '(';
    assert StartsWith(t, "[") ==> t[0] == '[';
    if t == "?" then "unknown"
    else if t == "number" || t == "string" || t == "bool" then t
    else if StartsWith(t, "fn(") then "fn"
    else if StartsWith(t, "[") then "array"
    else "object"
  }

  /** `typeToIcon(type)`: the two class names of a completion icon. */
  function TypeToIcon(t: string): (r: string)
    ensures StartsWith(r, Cls + "completion " + Cls + "completion-")
    ensures r[|Cls + "completion " + Cls + "completion-"|..] == IconSuffix(t)
  {
    Cls + "completion " + Cls + "completion-" + IconSuffix(t)
  }

  // ----- Identifiers around the cursor -----------------------------------------------

  /** `ID_REGEX`: ASCII letters and digits, `_`, `$`, `-` and everything from U+00A2 up. */
  predicate IdChar(c: char) {
    ('a' <= c <= 'z') || ('A' <= c <= 'Z') || ('0' <= c <= '9') || c == '_' || c == '$' || c == '-' || c >= '¢'
  }

  /** `regex || ID_REGEX`: the one-character test a call uses, `ID_REGEX` when none is given. */
  function Accepter(regex: Option<char -> bool>): (accept: char -> bool)
    ensures regex.Some? ==> accept == regex.value
    ensures regex.None? ==> accept == IdChar
  {
    if regex.Some? then regex.value else IdChar
  }

  /**
   * How far back from `pos` identifier characters reach: the least `k` with
   * every character of `text[k..pos]` accepted.
   */
  function IdentStart(text: string, pos: nat, accept: char -> bool): (k: nat)
    requires pos <= |text|
    ensures k <= pos
    ensures forall j :: k <= j < pos ==> accept(text[j])
    ensures k > 0 ==> !accept(text[k - 1])
    decreases pos
  {
    if pos > 0 && accept(text[pos - 1]) then IdentStart(text, pos - 1, accept) else pos
  }

  /**
   * `retrievePrecedingIdentifier(text, pos, regex)`: the identifier characters
   * just before `pos`; `regex` is the regular expression matched against one
   * character, `ID_REGEX` when none is given.
   */
  method RetrievePrecedingIdentifier(text: string, pos: nat, regex: Option<char -> bool>) returns (r: string)
    requires pos <= |text|
    ensures r == text[IdentStart(text, pos, Accepter(regex))..pos]
  {
    var accept := Accepter(regex);
    var buf: seq<char> := [];
    var i: int := pos - 1;
    while i >= 0 && accept(text[i])
      invariant -1 <= i < pos
      invariant IdentStart(text, i + 1, accept) == IdentStart(text, pos, accept)
      invariant buf == Reverse(text[i + 1..pos])
    {
      buf := buf + [text[i]];
      assert text[i..pos] == [text[i]] + text[i + 1..pos];
      i := i - 1;
    }
    r := Reverse(buf);
    ReverseReverse(text[i + 1..pos]);
  }

  function Reverse(s: string): (r: string)
    ensures |r| == |s|
    decreases |s|
  {
    if s == [] then [] else Reverse(s[1..]) + [s[0]]
  }

  lemma {:induction false} ReverseReverse(s: string)
    ensures Reverse(Reverse(s)) == s
    decreases |s|
  {
    if s != [] {
      ReverseReverse(s[1..]);
      ReverseSnoc(Reverse(s[1..]), s[0]);
    }
  }

  lemma {:induction false} ReverseSnoc(s: string, c: char)
    ensures Reverse(s + [c]) == [c] + Reverse(s)
    decreases |s|
  {
    if s != [] {
      assert (s + [c])[1..] == s[1..] + [c];
      ReverseSnoc(s[1..], c);
    } else {
      assert Reverse([c]) == Reverse([]) + [c];
    }
  }

  /** The preceding identifier is the longest accepted suffix of the text before `pos`. */
  lemma PrecedingIsLongestSuffix(text: string, pos: nat, accept: char -> bool, k: nat)
    requires pos <= |text| && k <= pos && forall j :: k <= j < pos ==> accept(text[j])
    ensures IdentStart(text, pos, accept) <= k
    ensures EndsWith(text[..pos], text[IdentStart(text, pos, accept)..pos])
  {
    var s := IdentStart(text, pos, accept);
    assert text[..pos][pos - (pos - s)..] == text[s..pos];
  }

  function IdentEnd(text: string, pos: nat, accept: char -> bool): (e: nat)
    ensures pos <= |text| ==> pos <= e <= |text|
    ensures pos > |text| ==> e == pos
    ensures forall j :: pos <= j < e ==> accept(text[j])
    ensures e < |text| ==> !accept(text[e])
    decreases |text| - pos
  {
    if pos < |text| && accept(text[pos]) then IdentEnd(text, pos + 1, accept) else pos
  }

  /** `retrieveFollowingIdentifier(text, pos, regex)`: the identifier characters from `pos`, as an array of one-character strings. */
  method RetrieveFollowingIdentifier(text: string, pos: nat, regex: Option<char -> bool>) returns (buf: seq<string>)
    ensures |buf| == IdentEnd(text, pos, Accepter(regex)) - pos
    ensures forall j :: 0 <= j < |buf| ==> buf[j] == [text[pos + j]]
  {
    var accept := Accepter(regex);
    buf := [];
    var i := pos;
    while i < |text| && accept(text[i])
      invariant pos <= i && (pos <= |text| ==> i <= |text|)
      invariant IdentEnd(text, i, accept) == IdentEnd(text, pos, accept)
      invariant |buf| == i - pos && forall j :: 0 <= j < |buf| ==> buf[j] == [text[pos + j]]
    {
      buf := buf + [[text[i]]];
      i := i + 1;
    }
  }

  // ----- trackChange -------------------------------------------------------------------

  /** A document change: the positions it replaced and the number of lines inserted (at least 1). */
  datatype Change = Change(from: Loc, to: Loc, lines: nat)

  /** `data.changed`: the dirty line range `[from, to)`, `None` in `from` where the source writes `undefined`. */
  datatype Dirty = Dirty(from: Option<int>, to: int)

  /** A comparison `x > y` with an undefined `x`, which is false. */
  predicate Greater(x: Option<int>, y: int) {
    x.Some? && x.value > y
  }

  /**
   * The dirty range after `trackChange`, as written: when the change starts
   * above the range, `changed.from` is set to `changed.from.line`, which is
   * undefined.
   */
  function TrackedAsWritten(changed: Option<Dirty>, c: Change): (r: Dirty)
    requires c.lines >= 1
    ensures r.to == Tracked(changed, c).to
    ensures r.from != Tracked(changed, c).from ==> r.from.None?
  {
    var from, to := ToTernLoc(c.from), ToTernLoc(c.to);
    var d := if changed.None? then Dirty(Some(from.line), from.line) else changed.value;
    var end := from.line + (c.lines - 1);
    var t1 := if from.line < d.to then d.to - (to.line - end) else d.to;
    var t2 := if end >= t1 then end + 1 else t1;
    var f := if Greater(d.from, from.line) then None else d.from;
    Dirty(f, t2)
  }

  /** The dirty range after `trackChange` with `changed.from = _change.from.line`, as evidently intended. */
  function Tracked(changed: Option<Dirty>, c: Change): (r: Dirty)
    requires c.lines >= 1
    ensures changed.None? ==> r.from == Some(ToTernLoc(c.from).line)
    ensures changed.Some? && changed.value.from.Some? ==>
      r.from == Some(if changed.value.from.value > ToTernLoc(c.from).line then ToTernLoc(c.from).line else changed.value.from.value)
    ensures changed.Some? && changed.value.from.None? ==> r.from.None?
    ensures r.to >= ToTernLoc(c.from).line + c.lines
  {
    var from, to := ToTernLoc(c.from), ToTernLoc(c.to);
    var d := if changed.None? then Dirty(Some(from.line), from.line) else changed.value;
    var end := from.line + (c.lines - 1);
    var t1 := if from.line < d.to then d.to - (to.line - end) else d.to;
    var t2 := if end >= t1 then end + 1 else t1;
    var f := if Greater(d.from, from.line) then Some(from.line) else d.from;
    Dirty(f, t2)
  }

  /** As written, a change above the dirty range loses the range's start. */
  lemma TrackChangeLosesFrom()
    ensures TrackedAsWritten(Some(Dirty(Some(5), 6)), Change(TernLoc(2, 0), TernLoc(2, 0), 1)).from == None
  {
  }

  /** With the intended update the dirty range always covers the inserted lines, and its start stays defined. */
  lemma TrackedCovers(changed: Option<Dirty>, c: Change)
    requires c.lines >= 1
    requires changed.Some? ==> changed.value.from.Some?
    ensures var d := Tracked(changed, c);
      && d.from.Some?
      && d.from.value <= ToTernLoc(c.from).line
      && d.to >= ToTernLoc(c.from).line + c.lines
  {
  }

  /** The editor's document as tern's server tracks it. */
  class TrackedDoc {
    var changed: Option<Dirty>
    /** Whether the cached argument hints belong to this document. */
    var argHintsHere: bool
    var argHintsStart: Option<Loc>

    constructor ()
      ensures changed == None && argHintsStart == None
    {
      changed := None;
      argHintsHere := false;
      argHintsStart := None;
    }

    /** `trackChange(ts, doc, change)`: drops argument hints at or before the change's end and widens the dirty range. */
    method TrackChange(c: Change)
      requires c.lines >= 1
      modifies this
      ensures changed == Some(Tracked(old(changed), c))
      ensures argHintsStart == (if old(argHintsHere) && old(argHintsStart).Some? && CmpPos(old(argHintsStart).value, c.to) <= 0
                                then None else old(argHintsStart))
      ensures argHintsHere == old(argHintsHere)
    {
      var from, to := ToTernLoc(c.from), ToTernLoc(c.to);
      if argHintsHere && argHintsStart.Some? && CmpPos(argHintsStart.value, c.to) <= 0 {
        argHintsStart := None;
      }
      var d: Dirty;
      if changed.None? {
        d := Dirty(Some(from.line), from.line);
      } else {
        d := changed.value;
      }
      var end := from.line + (c.lines - 1);
      if from.line < d.to {
        d := d.(to := d.to - (to.line - end));
      }
      if end >= d.to {
        d := d.(to := end + 1);
      }
      if Greater(d.from, from.line) {
        d := d.(from := Some(from.line));
      }
      changed := Some(d);
    }
  }
}
