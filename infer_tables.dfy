/**
 * The pure tables of the inference engine: the weights of type evidence, the
 * result types of operators and literals, the purge predicate built by
 * `makePredicate`, the tie-break of `canonicalType` and the bound of the
 * worklist.
 */
module InferTables {
  import opened JsText

  /** `WG_DEFAULT`, `WG_MADEUP_PROTO`, `WG_MULTI_MEMBER`, `WG_GLOBAL_THIS`. */
  const WgDefault: nat := 100
  const WgMadeupProto: nat := 10
  const WgMultiMember: nat := 5
  const WgGlobalThis: nat := 2

  /** A missing or zero weight stands for `WG_DEFAULT` (`weight || WG_DEFAULT`). */
  function EffectiveWeight(w: nat): (r: nat)
    ensures r > 0
    ensures w > 0 ==> r == w
  {
    if w == 0 then WgDefault else w
  }

  // ----- Operators and literals ----------------------------------------------------

  /** What a rule yields: one of the three primitive types, `ANull`, or nothing (`undefined`). */
  datatype Result = RNum | RBool | RStr | RNull | RUndefined

  /** `unopResultType(op)`. */
  function UnopResultType(op: string): Result {
    if op == "+" || op == "-" || op == "~" then RNum
    else if op == "!" then RBool
    else if op == "typeof" then RStr
    else if op == "void" || op == "delete" then RNull
    else RUndefined
  }

  /** The unary operators of ECMAScript (section 13.5 of ECMA-262). */
  predicate UnaryOperator(op: string) {
    op == "delete" || op == "void" || op == "typeof" || op == "+" || op == "-" || op == "~" || op == "!"
  }

  /** Every unary operator of the language has a rule, and only those. */
  lemma UnopCoversOperators(op: string)
    ensures UnaryOperator(op) <==> UnopResultType(op) != RUndefined
  {
  }

  /** The arithmetic and bitwise unary operators yield a number, negation a boolean, `typeof` a string. */
  lemma UnopKinds(op: string)
    ensures UnopResultType(op) == RNum <==> op == "+" || op == "-" || op == "~"
    ensures UnopResultType(op) == RBool <==> op == "!"
    ensures UnopResultType(op) == RStr <==> op == "typeof"
  {
  }

  /** `binopIsBoolean(op)`. */
  predicate BinopIsBoolean(op: string) {
    op == "==" || op == "!=" || op == "===" || op == "!==" || op == "<" || op == ">" || op == ">=" || op == "<="
    || op == "in" || op == "instanceof"
  }

  /** The relational and equality operators (sections 13.10 and 13.11 of ECMA-262). */
  predicate Comparison(op: string) {
    op == "<" || op == ">" || op == "<=" || op == ">=" || op == "instanceof" || op == "in"
    || op == "==" || op == "!=" || op == "===" || op == "!=="
  }

  /** The arithmetic, shift and bitwise binary operators. */
  predicate Arithmetic(op: string) {
    op == "+" || op == "-" || op == "*" || op == "/" || op == "%" || op == "**"
    || op == "<<" || op == ">>" || op == ">>>" || op == "&" || op == "|" || op == "^"
  }

  /**
   * A binary expression other than `+` is boolean exactly for the
   * comparisons; every arithmetic operator gives a number.
   */
  lemma BinopBooleanIffComparison(op: string)
    ensures BinopIsBoolean(op) <==> Comparison(op)
    ensures Arithmetic(op) ==> !BinopIsBoolean(op)
  {
  }

  /** The value of a literal, by its `typeof`: `null` and a regular expression are both objects. */
  datatype Literal = LBool(b: bool) | LNum(n: int) | LStr(s: string) | LNull | LRegExp(source: string) | LBigInt(n: int)

  /** `literalType(val)` without the RegExp instance: `RNull` for `null`, `RUndefined` for a regular expression's instance and for kinds without a rule. */
  function LiteralResult(l: Literal): (r: Result)
    ensures r == RNum <==> l.LNum?
    ensures r == RBool <==> l.LBool?
    ensures r == RStr <==> l.LStr?
    ensures r == RNull <==> l.LNull?
  {
    match l
    case LBool(_) => RBool
    case LNum(_) => RNum
    case LStr(_) => RStr
    case LNull => RNull
    case LRegExp(_) => RUndefined
    case LBigInt(_) => RUndefined
  }

  /** The left-hand sides `lvalName` names. */
  datatype LNode = Identifier(name: string) | Member(obj: LNode, property: string, computed: bool) | OtherNode

  /** `lvalName(node)`: a variable, `obj.prop` on a variable, or the property name of a deeper member. */
  function LvalName(node: LNode): (r: Option<string>)
    ensures node.Identifier? ==> r == Some(node.name)
    ensures node.OtherNode? || (node.Member? && node.computed) ==> r.None?
    ensures node.Member? && !node.computed && node.obj.Identifier? ==>
      r.Some? && |r.value| == |node.obj.name| + 1 + |node.property|
      && r.value[..|node.obj.name|] == node.obj.name && r.value[|node.obj.name|] == '.'
      && r.value[|node.obj.name| + 1..] == node.property
    ensures node.Member? && !node.computed && !node.obj.Identifier? ==> r == Some(node.property)
  {
    match node
    case Identifier(name) => Some(name)
    case Member(obj, prop, computed) =>
      if computed then None
      else if !obj.Identifier? then Some(prop)
      else Some(obj.name + "." + prop)
    case OtherNode => None
  }

  // ----- `makePredicate` ------------------------------------------------------------

  /** The `origins` argument: one origin or an array of them. */
  datatype Origins = One(origin: string) | Many(list: seq<string>)

  /** A node's source range. */
  datatype Node = Node(start: int, end: int)

  /** The closure `makePredicate` returns: the origins it accepts, and the range when `end` is given. */
  datatype Pred = Pred(many: bool, origins: seq<string>, range: Option<(int, int)>)

  /** `makePredicate(origins, start, end)`; `end` is `None` when it is `null` or missing. */
  function MakePredicate(origins: Origins, start: int, end: Option<int>): (p: Pred)
    ensures p.range.Some? <==> end.Some?
    ensures end.Some? ==> p.range.value == (start, end.value)
    ensures !p.many ==> |p.origins| == 1
  {
    var range := if end.Some? then Some((start, end.value)) else None;
    match origins
    case One(o) => Pred(false, [o], range)
    case Many(list) =>
      if |list| == 1 then Pred(false, [list[0]], range) else Pred(true, list, range)
  }

  /** Applying the predicate to a node of origin `origin` (`None` when undefined) and the position passed with it. */
  predicate Test(p: Pred, origin: Option<string>, pos: Option<Node>) {
    && (p.range.None? || (pos.Some? && pos.value.start >= p.range.value.0 && pos.value.end <= p.range.value.1))
    && origin.Some?
    && (if p.many then origin.value in p.origins else |p.origins| == 1 && origin.value == p.origins[0])
  }

  /** The origins accepted, whichever form they came in; an undefined origin is never accepted. */
  predicate Accepts(origins: Origins, origin: Option<string>) {
    origin.Some? &&
    match origins
    case One(o) => origin.value == o
    case Many(list) => origin.value in list
  }

  /** Without `end` the predicate matches by origin alone, whatever the position. */
  lemma PredicateByOrigin(origins: Origins, start: int, origin: Option<string>, pos: Option<Node>)
    ensures Test(MakePredicate(origins, start, None), origin, pos) <==> Accepts(origins, origin)
  {
    if origins.Many? && |origins.list| == 1 && origin.Some? {
      assert origin.value in origins.list <==> origin.value == origins.list[0];
    }
  }

  /** With `end` it also needs a position inside `[start, end]`. */
  lemma PredicateByRange(origins: Origins, start: int, end: int, origin: Option<string>, pos: Option<Node>)
    ensures Test(MakePredicate(origins, start, Some(end)), origin, pos) <==>
      pos.Some? && pos.value.start >= start && pos.value.end <= end && Accepts(origins, origin)
  {
    if origins.Many? && |origins.list| == 1 && origin.Some? {
      assert origin.value in origins.list <==> origin.value == origins.list[0];
    }
  }

  // ----- `canonicalType` --------------------------------------------------------------

  /**
   * What `canonicalType` looks at in a type: an array and whether its `<i>`
   * cell is empty, a function and how many of its argument cells and return
   * cell hold types, an object and whether it has a name, a primitive and
   * its name.
   */
  datatype Summary = SArr(contentEmpty: bool) | SFn(filledArgs: nat, retFilled: bool) | SObj(named: bool) | SPrim(name: string)

  /** The four kinds it counts: 0 arrays, 1 functions, 2 objects, 3 primitives. */
  function KindOf(s: Summary): nat {
    match s
    case SArr(_) => 0
    case SFn(_, _) => 1
    case SObj(_) => 2
    case SPrim(_) => 3
  }

  /** The score of the tie-break. */
  function Score(s: Summary): (r: nat)
    ensures r >= 1
  {
    match s
    case SArr(e) => if e then 1 else 2
    case SFn(n, ret) => 1 + n + (if ret then 1 else 0)
    case SObj(named) => if named then 100 else 2
    case SPrim(_) => 1
  }

  predicate SameKind(ts: seq<Summary>) {
    forall i, j :: 0 <= i < |ts| && 0 <= j < |ts| ==> KindOf(ts[i]) == KindOf(ts[j])
  }

  predicate PrimsAgree(ts: seq<Summary>) {
    PrimsAgreeUpTo(ts, |ts|)
  }

  /** The primitives among the first `n` entries share one name. */
  predicate PrimsAgreeUpTo(ts: seq<Summary>, n: nat)
    requires n <= |ts|
  {
    forall i, j :: 0 <= i < n && 0 <= j < n && ts[i].SPrim? && ts[j].SPrim? ==> ts[i].name == ts[j].name
  }

  /** The number of entries of kind `k`. */
  function CountKind(ts: seq<Summary>, k: nat): nat
    decreases |ts|
  {
    if ts == [] then 0 else CountKind(ts[..|ts| - 1], k) + (if KindOf(ts[|ts| - 1]) == k then 1 else 0)
  }

  /** The index of the last primitive. */
  function LastPrim(ts: seq<Summary>): (r: Option<nat>)
    ensures r.Some? ==> r.value < |ts| && ts[r.value].SPrim?
    ensures r.Some? ==> forall j :: r.value < j < |ts| ==> !ts[j].SPrim?
    ensures r.None? ==> forall j :: 0 <= j < |ts| ==> !ts[j].SPrim?
    decreases |ts|
  {
    if ts == [] then None
    else if ts[|ts| - 1].SPrim? then Some(|ts| - 1)
    else LastPrim(ts[..|ts| - 1])
  }

  /** Each kind present counts one (`arrays && 1` and so on). */
  function Kinds(ts: seq<Summary>): nat {
    (if CountKind(ts, 0) > 0 then 1 else 0) + (if CountKind(ts, 1) > 0 then 1 else 0)
    + (if CountKind(ts, 2) > 0 then 1 else 0) + (if LastPrim(ts).Some? then 1 else 0)
  }

  /** A kind is present exactly when some entry has it. */
  lemma {:induction false} CountKindPositive(ts: seq<Summary>, k: nat)
    ensures CountKind(ts, k) > 0 <==> exists i :: 0 <= i < |ts| && KindOf(ts[i]) == k
    decreases |ts|
  {
    if ts != [] {
      var init := ts[..|ts| - 1];
      CountKindPositive(init, k);
      if CountKind(ts, k) > 0 && KindOf(ts[|ts| - 1]) != k {
        var i :| 0 <= i < |init| && KindOf(init[i]) == k;
        assert ts[i] == init[i];
      }
      if exists i :: 0 <= i < |ts| && KindOf(ts[i]) == k {
        var i :| 0 <= i < |ts| && KindOf(ts[i]) == k;
        if i < |ts| - 1 {
          assert init[i] == ts[i];
        }
      }
    }
  }

  /** At most one kind is present exactly when all entries have the same kind. */
  lemma KindsAtMostOne(ts: seq<Summary>)
    ensures Kinds(ts) <= 1 <==> SameKind(ts)
  {
    CountKindPositive(ts, 0);
    CountKindPositive(ts, 1);
    CountKindPositive(ts, 2);
    if !SameKind(ts) {
      var i, j :| 0 <= i < |ts| && 0 <= j < |ts| && KindOf(ts[i]) != KindOf(ts[j]);
      assert KindOf(ts[i]) == 3 ==> LastPrim(ts).Some?;
      assert KindOf(ts[j]) == 3 ==> LastPrim(ts).Some?;
    }
    if SameKind(ts) && ts != [] {
      var k := KindOf(ts[0]);
      if LastPrim(ts).Some? {
        assert KindOf(ts[LastPrim(ts).value]) == 3;
      }
    }
  }

  /**
   * `canonicalType(types)`, over the summaries of the types: the index of the
   * chosen type, or `None` for `null`.
   */
  method CanonicalType(ts: seq<Summary>) returns (r: Option<nat>)
    ensures r.Some? ==> ts != [] && SameKind(ts) && PrimsAgree(ts)
    ensures ts != [] && SameKind(ts) && PrimsAgree(ts) ==> r.Some?
    ensures r.Some? ==> r.value < |ts| && forall j :: 0 <= j < |ts| ==> Score(ts[j]) <= Score(ts[r.value])
    ensures r.Some? ==> forall j :: r.value < j < |ts| ==> Score(ts[j]) < Score(ts[r.value])
  {
    var arrays, fns, objs, prim, agree := Tally(ts);
    if !agree {
      return None;
    }
    var kinds := (if arrays > 0 then 1 else 0) + (if fns > 0 then 1 else 0) + (if objs > 0 then 1 else 0) + (if prim.Some? then 1 else 0);
    KindsAtMostOne(ts);
    if kinds > 1 {
      return None;
    }
    if prim.Some? {
      AllPrims(ts, prim.value);
      return prim;
    }
    if ts == [] {
      return None;
    }
    var best := BestScore(ts);
    return Some(best);
  }

  /** The counting loop of `canonicalType`, which stops with `agree == false` at the first primitive of another name. */
  method Tally(ts: seq<Summary>) returns (arrays: nat, fns: nat, objs: nat, prim: Option<nat>, agree: bool)
    ensures agree <==> PrimsAgree(ts)
    ensures agree ==> arrays == CountKind(ts, 0) && fns == CountKind(ts, 1) && objs == CountKind(ts, 2) && prim == LastPrim(ts)
  {
    arrays, fns, objs, prim := 0, 0, 0, None;
    var i := 0;
    while i < |ts|
      invariant 0 <= i <= |ts|
      invariant arrays == CountKind(ts[..i], 0) && fns == CountKind(ts[..i], 1) && objs == CountKind(ts[..i], 2)
      invariant prim == LastPrim(ts[..i]) && PrimsAgreeUpTo(ts, i)
    {
      assert ts[..i + 1][..i] == ts[..i];
      var tp := ts[i];
      match tp {
        case SArr(_) => arrays := arrays + 1;
        case SFn(_, _) => fns := fns + 1;
        case SObj(_) => objs := objs + 1;
        case SPrim(name) =>
          if prim.Some? && name != ts[prim.value].name {
            assert ts[..i][prim.value] == ts[prim.value];
            return arrays, fns, objs, prim, false;
          }
          PrimsAgreeExtend(ts, i, prim);
          prim := Some(i);
      }
      i := i + 1;
    }
    assert ts[..i] == ts;
    agree := true;
  }

  lemma PrimsAgreeExtend(ts: seq<Summary>, i: nat, p: Option<nat>)
    requires i < |ts| && ts[i].SPrim? && PrimsAgreeUpTo(ts, i)
    requires p == LastPrim(ts[..i])
    requires p.Some? ==> ts[p.value].name == ts[i].name
    ensures PrimsAgreeUpTo(ts, i + 1)
  {
    if p.Some? {
      assert ts[..i][p.value] == ts[p.value];
    } else {
      forall a | 0 <= a < i
        ensures !ts[a].SPrim?
      {
        assert ts[..i][a] == ts[a];
      }
    }
  }

  /** The scoring loop: the last index of the highest score. */
  method BestScore(ts: seq<Summary>) returns (r: nat)
    requires ts != []
    ensures r < |ts| && forall j :: 0 <= j < |ts| ==> Score(ts[j]) <= Score(ts[r])
    ensures forall j :: r < j < |ts| ==> Score(ts[j]) < Score(ts[r])
  {
    var maxScore := 0;
    r := 0;
    var i := 0;
    while i < |ts|
      invariant 0 <= i <= |ts| && r < |ts|
      invariant i == 0 ==> maxScore == 0
      invariant i > 0 ==> r < i && maxScore == Score(ts[r])
      invariant forall j :: 0 <= j < i ==> Score(ts[j]) <= maxScore
      invariant i > 0 ==> forall j :: r < j < i ==> Score(ts[j]) < maxScore
    {
      var score := Score(ts[i]);
      if score >= maxScore {
        maxScore := score;
        r := i;
      }
      i := i + 1;
    }
  }

  /** With one kind present and a primitive among the entries, every entry is a primitive, so the last one is chosen. */
  lemma AllPrims(ts: seq<Summary>, p: nat)
    requires p < |ts| && SameKind(ts) && LastPrim(ts) == Some(p)
    ensures p == |ts| - 1
    ensures forall j :: 0 <= j < |ts| ==> Score(ts[j]) <= Score(ts[p])
  {
    assert KindOf(ts[|ts| - 1]) == KindOf(ts[p]);
  }

  /** Equal scores go to the later entry, so a named object wins over any number of anonymous ones. */
  lemma NamedObjectWins(ts: seq<Summary>, k: nat)
    requires k < |ts| && ts[k] == SObj(true)
    requires forall j :: 0 <= j < |ts| ==> ts[j].SObj?
    ensures forall j :: 0 <= j < |ts| ==> Score(ts[j]) <= Score(ts[k])
  {
  }

  /** The primitive branch `prims` of the scoring loop is never reached: every summary has one of the four kinds. */
  lemma NoFifthKind(s: Summary)
    ensures KindOf(s) <= 3
  {
  }

  // ----- The worklist bound ----------------------------------------------------------

  /**
   * `depth < baseMaxWorkDepth - reduceMaxWorkDepth * list.length`, read in
   * integers: `20 - 0.0001 * len > depth` exactly when
   * `10000 * depth + len < 200000`. The list holds four entries per item.
   */
  predicate CanEnqueue(depth: nat, items: nat) {
    10000 * depth + 4 * items < 200000
  }

  /** No item is queued at depth 20 or more, and the list never holds 50000 items. */
  lemma EnqueueBound(depth: nat, items: nat)
    requires CanEnqueue(depth, items)
    ensures depth < 20 && items < 50000
    ensures items + 1 <= 50000
  {
  }

  /** At depth 19 only the first 2500 items fit; at depth 0 all 50000 do. */
  lemma EnqueueShrinks(items: nat)
    ensures CanEnqueue(19, items) <==> items < 2500
    ensures CanEnqueue(0, items) <==> items < 50000
  {
  }
}
