/**
 * The tab-stop manager of an expanded snippet: `addTabstops` splices a
 * snippet's tab stops in after the current one, `tabNext` moves the current
 * tab-stop index and detaches when it wraps to 0, and `movePoint` /
 * `moveRelative` translate document points between absolute and
 * snippet-relative coordinates.
 *
 * A tab stop is an object holding ranges; the model keeps every tab-stop
 * object's number of ranges in an arena (`sizes`) and refers to tab stops by
 * their index there. The ranges' positions, markers, selections and the
 * editor's listeners are not modelled.
 */
module Tabstops {
  import opened JsText

  /** `Math.min(Math.max(index + (dir || 1), 1), max)`, with `max` mapped to 0. */
  function NextIndex(index: int, dir: int, max: nat): (r: int)
    ensures max >= 1 ==> 0 <= r < max
    ensures max == 0 ==> r == 0
    ensures r == 0 <==> max <= 1 || index + (if dir == 0 then 1 else dir) >= max
    ensures r != 0 ==> r == (if index + (if dir == 0 then 1 else dir) < 1 then 1 else index + (if dir == 0 then 1 else dir))
  {
    var d := if dir == 0 then 1 else dir;
    var i0 := index + d;
    var i1 := if i0 < 1 then 1 else i0;
    var i2 := if i1 < max then i1 else max;
    if i2 == max then 0 else i2
  }

  // ----- addTabstops as functions -----------------------------------------------

  /** Every tab-stop object `openStops` names exists in an arena of `count` objects. */
  predicate OpenValid(openStops: seq<Option<nat>>, count: nat) {
    forall k :: 0 <= k < |openStops| && openStops[k].Some? ==> openStops[k].value < count
  }

  /** `$openTabstops[k]`; positions past the end are holes. */
  function OpenAt(openStops: seq<Option<nat>>, k: nat): Option<nat> {
    if k < |openStops| then openStops[k] else None
  }

  /** `$openTabstops[k] = id`: the sparse array grows with holes up to `k`. */
  function SetSlot(openStops: seq<Option<nat>>, k: nat, id: nat): (r: seq<Option<nat>>)
    ensures |r| == if k < |openStops| then |openStops| else k + 1
    ensures r[k] == Some(id)
    ensures forall j :: 0 <= j < |r| && j != k ==> r[j] == OpenAt(openStops, j)
  {
    if k < |openStops| then openStops[k := Some(id)] else openStops + seq(k - |openStops|, _ => None) + [Some(id)]
  }

  /**
   * The tab stops of a snippet by number, as `addTabstops` goes through them:
   * a missing tab stop 0 is filled in with one range, at the snippet's end.
   * A hole (`None`) is a number the snippet does not use.
   */
  function WithFinal(given: seq<Option<nat>>): (r: seq<Option<nat>>)
    ensures |r| == if given == [] then 1 else |given|
    ensures r[0] == (if given != [] && given[0].Some? then given[0] else Some(1))
    ensures forall k :: 1 <= k < |r| ==> r[k] == given[k]
  {
    if given == [] then [Some(1)] else if given[0].None? then [Some(1)] + given[1..] else given
  }

  /** The state the `forEach` of `addTabstops` threads: the arena, `$openTabstops` and the new tab stops in order (`arg` after its first two slots). */
  datatype AddState = AddState(sizes: seq<nat>, openStops: seq<Option<nat>>, added: seq<nat>)

  /** Every tab-stop object the state names exists in its arena. */
  predicate AddValid(st: AddState) {
    OpenValid(st.openStops, |st.sizes|) && forall i :: 0 <= i < |st.added| ==> st.added[i] < |st.sizes|
  }

  /** One turn: tab stop `k` with `n` ranges joins the open tab stop of its number, or becomes a new object that is opened under `k`. */
  function AddOne(st: AddState, k: nat, n: nat): (r: AddState)
    requires AddValid(st)
    ensures AddValid(r)
  {
    match OpenAt(st.openStops, k)
    case Some(d) => AddState(st.sizes[d := st.sizes[d] + n], st.openStops, st.added)
    case None => AddState(st.sizes + [n], SetSlot(st.openStops, k, |st.sizes|), st.added + [|st.sizes|])
  }

  /** The turns for the tab stops numbered `k` and up; holes are skipped, as `forEach` skips them. */
  function AddFrom(st: AddState, given: seq<Option<nat>>, k: nat): (r: AddState)
    requires AddValid(st) && k <= |given|
    ensures AddValid(r)
    ensures |st.sizes| <= |r.sizes| && |r.sizes| == |st.sizes| + |r.added| - |st.added|
    decreases |given| - k
  {
    if k == |given| then st
    else if given[k].None? then AddFrom(st, given, k + 1)
    else AddFrom(AddOne(st, k, given[k].value), given, k + 1)
  }

  /** The start `splice(at, 0, ...)` uses on an array of `len` elements. */
  function SpliceStart(at: int, len: nat): (r: nat)
    ensures r <= len
    ensures 0 <= at <= len ==> r == at
  {
    if at < 0 then (if len + at < 0 then 0 else len + at) else if at > len then len else at
  }

  /**
   * `this.tabstops` after `addTabstops`: the new tab stops go in after the
   * current one; when tab stops already exist, the first new tab stop
   * moves to the end of the inserted run.
   */
  function Spliced(ts: seq<nat>, index: int, added: seq<nat>): (r: seq<nat>)
    ensures |r| == |ts| + |added|
    ensures multiset(r) == multiset(ts) + multiset(added)
  {
    var at := SpliceStart(index + 1, |ts|);
    var run := if ts != [] && added != [] then added[1..] + [added[0]] else added;
    assert added != [] ==> added == [added[0]] + added[1..];
    assert ts == ts[..at] + ts[at..];
    ts[..at] + run + ts[at..]
  }

  /** The `forEach` of `addTabstops` over the tab stops `g`, by number. */
  method AddTurns(st0: AddState, g: seq<Option<nat>>) returns (st: AddState)
    requires AddValid(st0)
    ensures st == AddFrom(st0, g, 0) && AddValid(st)
  {
    st := st0;
    var k := 0;
    while k < |g|
      invariant 0 <= k <= |g| && AddValid(st)
      invariant AddFrom(st, g, k) == AddFrom(st0, g, 0)
    {
      if g[k].Some? {
        var n := g[k].value;
        var dest := OpenAt(st.openStops, k);
        if dest.Some? {
          st := st.(sizes := st.sizes[dest.value := st.sizes[dest.value] + n]);
        } else {
          st := AddState(st.sizes + [n], SetSlot(st.openStops, k, |st.sizes|), st.added + [|st.sizes|]);
        }
      }
      k := k + 1;
    }
  }

  /**
   * The end of `addTabstops`: with new tab stops in `arg`, the first moves to
   * the end when tab stops already exist, and `splice(i + 1, 0, ...)` puts
   * them in.
   */
  method SpliceIn(ts: seq<nat>, index: int, added: seq<nat>) returns (r: seq<nat>)
    ensures r == Spliced(ts, index, added)
  {
    r := ts;
    if |added| > 0 {
      var run := added;
      if |ts| > 0 {
        run := added[1..] + [added[0]];
      }
      var at := SpliceStart(index + 1, |ts|);
      r := ts[..at] + run + ts[at..];
    } else {
      assert Spliced(ts, index, added) == ts;
    }
  }

  /** Splicing keeps every id below a bound both sequences respect. */
  lemma SplicedBounded(ts: seq<nat>, index: int, added: seq<nat>, bound: nat)
    requires forall k :: 0 <= k < |ts| ==> ts[k] < bound
    requires forall k :: 0 <= k < |added| ==> added[k] < bound
    ensures forall k :: 0 <= k < |Spliced(ts, index, added)| ==> Spliced(ts, index, added)[k] < bound
  {
    var r := Spliced(ts, index, added);
    forall k | 0 <= k < |r|
      ensures r[k] < bound
    {
      assert r[k] in multiset(r);
      assert r[k] in multiset(ts) || r[k] in multiset(added);
    }
  }

  class TabstopManager {
    var index: int
    /** The number of ranges of every tab-stop object, by id. */
    var sizes: seq<nat>
    /** `tabstops`, by id; `None` once detached. */
    var tabstops: Option<seq<nat>>
    /** `$openTabstops`, by tab-stop number; `null` is the empty array, which reads the same. */
    var openStops: seq<Option<nat>>
    /** `selectedTabstop`, by id. */
    var selected: Option<nat>

    ghost predicate Valid()
      reads this
    {
      (tabstops.Some? ==> forall k :: 0 <= k < |tabstops.value| ==> tabstops.value[k] < |sizes|) &&
      OpenValid(openStops, |sizes|) &&
      (selected.Some? ==> selected.value < |sizes|)
    }

    /** `attach(editor)`. */
    constructor ()
      ensures Valid()
      ensures index == 0 && sizes == [] && tabstops == Some([]) && openStops == [] && selected == None
    {
      index := 0;
      sizes := [];
      tabstops := Some([]);
      openStops := [];
      selected := None;
    }

    /**
     * `addTabstops(tabstops, start, end)`, with the snippet's tab stops given
     * by number as their range counts.
     */
    method AddTabstops(given: seq<Option<nat>>)
      requires Valid() && tabstops.Some?
      modifies this
      ensures Valid()
      ensures var st := AddFrom(AddState(old(sizes), old(openStops), []), WithFinal(given), 0);
        sizes == st.sizes && openStops == st.openStops && tabstops == Some(Spliced(old(tabstops).value, old(index), st.added))
      ensures index == old(index) && selected == old(selected)
    {
      var st := AddTurns(AddState(sizes, openStops, []), WithFinal(given));
      var ts := SpliceIn(tabstops.value, index, st.added);
      SplicedBounded(tabstops.value, index, st.added, |st.sizes|);
      sizes, openStops, tabstops := st.sizes, st.openStops, Some(ts);
    }

    /** `selectTabstop(index)`: a tab stop with ranges becomes the selected one; the open tab stops are closed. */
    method SelectTabstop(i: int)
      requires Valid() && tabstops.Some?
      modifies this
      ensures Valid()
      ensures index == i && tabstops == old(tabstops) && sizes == old(sizes) && openStops == []
      ensures selected == (if 0 <= i < |tabstops.value| && sizes[tabstops.value[i]] > 0 then Some(tabstops.value[i]) else old(selected))
    {
      openStops := [];
      index := i;
      var ts := tabstops.value;
      if 0 <= i < |ts| && sizes[ts[i]] > 0 {
        selected := Some(ts[i]);
      }
    }

    /** `detach()`; the source's `this.tabstops.forEach` throws on a manager that is already detached. */
    method Detach()
      requires tabstops.Some?
      modifies this
      ensures tabstops == None && selected == None
      ensures index == old(index) && sizes == old(sizes) && openStops == old(openStops)
    {
      tabstops := None;
      selected := None;
    }

    /** `tabNext(dir)`, with `dir == 0` standing for a missing or falsy direction. */
    method TabNext(dir: int)
      requires Valid() && tabstops.Some?
      modifies this
      ensures Valid() && sizes == old(sizes) && openStops == []
      ensures index == NextIndex(old(index), dir, |old(tabstops).value|)
      ensures index == 0 ==> tabstops == None && selected == None
      ensures index != 0 ==> tabstops == old(tabstops)
      ensures index != 0 ==> selected == (if sizes[tabstops.value[index]] > 0 then Some(tabstops.value[index]) else old(selected))
    {
      var max := |tabstops.value|;
      var i := index + (if dir == 0 then 1 else dir);
      i := if i < 1 then 1 else i;
      i := if i < max then i else max;
      if i == max {
        i := 0;
      }
      SelectTabstop(i);
      if i == 0 {
        Detach();
      }
    }
  }

  // ----- Properties of addTabstops ----------------------------------------------

  /** The total number of ranges over the arena. */
  function Total(s: seq<nat>): nat {
    if s == [] then 0 else Total(s[..|s| - 1]) + s[|s| - 1]
  }

  /** The number of ranges of the tab stops numbered `k` and up. */
  function GivenTotal(given: seq<Option<nat>>, k: nat): nat
    requires k <= |given|
    decreases |given| - k
  {
    if k == |given| then 0 else (if given[k].Some? then given[k].value else 0) + GivenTotal(given, k + 1)
  }

  /** The range counts of the tab stops numbered `k` and up, in number order. */
  function Present(given: seq<Option<nat>>, k: nat): (r: seq<nat>)
    requires k <= |given|
    decreases |given| - k
  {
    if k == |given| then [] else (if given[k].Some? then [given[k].value] else []) + Present(given, k + 1)
  }

  lemma {:induction false} TotalSnoc(s: seq<nat>, n: nat)
    ensures Total(s + [n]) == Total(s) + n
  {
    assert (s + [n])[..|s + [n]| - 1] == s;
  }

  /** Adding `n` ranges to one tab stop adds `n` to the total. */
  lemma {:induction false} TotalGrow(s: seq<nat>, d: nat, n: nat)
    requires d < |s|
    ensures Total(s[d := s[d] + n]) == Total(s) + n
  {
    var t := s[d := s[d] + n];
    if d == |s| - 1 {
      assert t[..|t| - 1] == s[..|s| - 1];
    } else {
      TotalGrow(s[..|s| - 1], d, n);
      assert t[..|t| - 1] == s[..|s| - 1][d := s[d] + n];
    }
  }

  /**
   * No range is lost or invented: whether a tab stop joins an open one or
   * becomes a new object, the arena gains exactly the snippet's ranges.
   */
  lemma {:induction false} AddFromKeepsRanges(st: AddState, given: seq<Option<nat>>, k: nat)
    requires AddValid(st) && k <= |given|
    ensures Total(AddFrom(st, given, k).sizes) == Total(st.sizes) + GivenTotal(given, k)
    decreases |given| - k
  {
    if k < |given| {
      if given[k].None? {
        AddFromKeepsRanges(st, given, k + 1);
      } else {
        var n := given[k].value;
        var st' := AddOne(st, k, n);
        AddFromKeepsRanges(st', given, k + 1);
        match OpenAt(st.openStops, k)
        case Some(d) => TotalGrow(st.sizes, d, n);
        case None => TotalSnoc(st.sizes, n);
      }
    }
  }

  /**
   * With no tab stop open from number `k` on (the state after a
   * `selectTabstop`), each tab stop becomes a new object holding its ranges,
   * in number order.
   */
  lemma {:induction false} AddFromFresh(st: AddState, given: seq<Option<nat>>, k: nat)
    requires AddValid(st) && k <= |given|
    requires forall j :: k <= j < |st.openStops| ==> st.openStops[j].None?
    ensures var r := AddFrom(st, given, k);
      r.sizes == st.sizes + Present(given, k) &&
      r.added == st.added + seq(|Present(given, k)|, i => |st.sizes| + i)
    decreases |given| - k
  {
    if k < |given| {
      if given[k].None? {
        AddFromFresh(st, given, k + 1);
      } else {
        var n := given[k].value;
        var st' := AddOne(st, k, n);
        assert OpenAt(st.openStops, k) == None;
        assert st' == AddState(st.sizes + [n], SetSlot(st.openStops, k, |st.sizes|), st.added + [|st.sizes|]);
        AddFromFresh(st', given, k + 1);
        var m := |Present(given, k + 1)|;
        assert st.sizes + [n] + Present(given, k + 1) == st.sizes + Present(given, k);
        assert st.added + [|st.sizes|] + seq(m, i => |st.sizes| + 1 + i) == st.added + seq(m + 1, i => |st.sizes| + i);
      }
    } else {
      assert seq(0, i => |st.sizes| + i) == [];
    }
  }

  /**
   * When every tab stop of the snippet has an open tab stop of its number
   * (a second `addTabstops` before any `selectTabstop`), all ranges join the
   * open ones: no tab stop is created and `this.tabstops` is left as it is.
   */
  lemma {:induction false} AllOpenAddsNothing(st: AddState, given: seq<Option<nat>>, k: nat, ts: seq<nat>, index: int)
    requires AddValid(st) && k <= |given|
    requires forall j :: k <= j < |given| && given[j].Some? ==> OpenAt(st.openStops, j).Some?
    ensures var r := AddFrom(st, given, k);
      r.added == st.added && |r.sizes| == |st.sizes| && r.openStops == st.openStops
    ensures Spliced(ts, index, []) == ts
    decreases |given| - k
  {
    if k < |given| {
      if given[k].None? {
        AllOpenAddsNothing(st, given, k + 1, ts, index);
      } else {
        AllOpenAddsNothing(AddOne(st, k, given[k].value), given, k + 1, ts, index);
      }
    }
    assert ts[..SpliceStart(index + 1, |ts|)] + [] + ts[SpliceStart(index + 1, |ts|)..] == ts;
  }

  /** Inside an existing snippet, the new run follows the current tab stop, its first new tab stop moved last. */
  lemma SplicedNested(ts: seq<nat>, index: int, added: seq<nat>)
    requires 0 <= index < |ts| && added != []
    ensures var r := Spliced(ts, index, added);
      r[..index + 1] == ts[..index + 1] && r[index + 1 + |added|..] == ts[index + 1..] &&
      (forall j :: 1 <= j < |added| ==> r[index + j] == added[j]) && r[index + |added|] == added[0]
  {
    var r := Spliced(ts, index, added);
    assert r == ts[..index + 1] + (added[1..] + [added[0]]) + ts[index + 1..];
    forall j | 1 <= j < |added|
      ensures r[index + j] == added[j]
    {
      assert r[index + j] == (added[1..] + [added[0]])[j - 1];
    }
    assert r[index + |added|] == (added[1..] + [added[0]])[|added| - 1];
  }

  /** Into an empty manager, the new tab stops go in number order, tab stop 0 first. */
  lemma SplicedFirst(index: int, added: seq<nat>)
    ensures Spliced([], index, added) == added
  {
  }

  /**
   * Expanding a snippet while tab stop `index` of another is current (and no
   * tab stop is open): the inner snippet's tab stops 1, 2, ... come right
   * after the current one, each a new object with its own ranges, then the
   * inner tab stop 0, then the rest of the outer snippet; the next `tabNext`
   * enters the inserted run.
   */
  lemma {:induction false} NestedTabOrder(sizes: seq<nat>, ts: seq<nat>, index: int, given: seq<Option<nat>>)
    requires 0 <= index < |ts|
    ensures var g := WithFinal(given);
      var p := Present(g, 0);
      var st := AddFrom(AddState(sizes, [], []), g, 0);
      var r := Spliced(ts, index, st.added);
      |p| >= 1 && p[0] == g[0].value && |r| == |ts| + |p| &&
      r[..index + 1] == ts[..index + 1] && r[index + 1 + |p|..] == ts[index + 1..] &&
      (forall j :: 1 <= j < |p| ==> r[index + j] == |sizes| + j && st.sizes[|sizes| + j] == p[j]) &&
      r[index + |p|] == |sizes| && st.sizes[|sizes|] == p[0] &&
      NextIndex(index, 1, |r|) == index + 1
  {
    var g := WithFinal(given);
    var p := Present(g, 0);
    var st := AddFrom(AddState(sizes, [], []), g, 0);
    FirstSnippetAdded(sizes, g);
    SplicedNested(ts, index, st.added);
  }

  /** With nothing open, the tab stops become new objects numbered on from the arena's end, tab stop 0 first. */
  lemma FirstSnippetAdded(sizes: seq<nat>, g: seq<Option<nat>>)
    requires g != [] && g[0].Some?
    ensures var p := Present(g, 0);
      var st := AddFrom(AddState(sizes, [], []), g, 0);
      |p| >= 1 && p[0] == g[0].value &&
      st.sizes == sizes + p && |st.added| == |p| &&
      forall i :: 0 <= i < |p| ==> st.added[i] == |sizes| + i
  {
    AddFromFresh(AddState(sizes, [], []), g, 0);
    assert Present(g, 0) == [g[0].value] + Present(g, 1);
  }

  // ----- Properties of tabNext ------------------------------------------------

  /** Tabbing forward visits the tab stops 1, 2, ... in order and wraps to 0 after the last. */
  lemma TabForwardVisitsInOrder(index: int, max: nat)
    requires 0 <= index < max
    ensures NextIndex(index, 1, max) == (if index + 1 == max then 0 else index + 1)
  {
  }

  /** Tabbing backward stops at the first tab stop and never wraps. */
  lemma TabBackStopsAtFirst(index: int, max: nat)
    requires max >= 2 && index <= 1
    ensures NextIndex(index, -1, max) == 1
  {
  }

  /** Forward from the last tab stop, with any step, detaches. */
  lemma TabPastEndDetaches(index: int, dir: int, max: nat)
    requires dir > 0 && index + dir >= max
    ensures NextIndex(index, dir, max) == 0
  {
  }

  /** Starting on tab stop 0, `k` forward steps reach tab stop `k` while `k < max`. */
  lemma {:induction false} TabForwardSteps(k: nat, max: nat)
    requires k < max
    ensures Iterate(k, max) == k
  {
    if k > 0 {
      TabForwardSteps(k - 1, max);
    }
  }

  /** The index after `k` forward steps from 0. */
  function Iterate(k: nat, max: nat): int {
    if k == 0 then 0 else NextIndex(Iterate(k - 1, max), 1, max)
  }

  // ----- Points ------------------------------------------------------------------

  class Point {
    var row: int
    var column: int

    constructor (r: int, c: int)
      ensures row == r && column == c
    {
      row := r;
      column := c;
    }
  }

  datatype Pos = Pos(row: int, column: int)

  /** `movePoint(point, diff)` on values: a point on the first row also moves by the column offset. */
  function Moved(p: Pos, diff: Pos): Pos {
    Pos(p.row + diff.row, if p.row == 0 then p.column + diff.column else p.column)
  }

  /** `moveRelative(point, start)` on values: a point on the start's row loses the start's column. */
  function Relative(p: Pos, start: Pos): Pos {
    Pos(p.row - start.row, if p.row == start.row then p.column - start.column else p.column)
  }

  /** `movePoint(point, diff)`, in place; `diff` may be `point` itself. */
  method MovePoint(point: Point, diff: Point)
    modifies point
    ensures Pos(point.row, point.column) == Moved(old(Pos(point.row, point.column)), old(Pos(diff.row, diff.column)))
  {
    if point.row == 0 {
      point.column := point.column + diff.column;
    }
    point.row := point.row + diff.row;
  }

  /** `moveRelative(point, start)`, in place; `start` may be `point` itself. */
  method MoveRelative(point: Point, start: Point)
    modifies point
    ensures Pos(point.row, point.column) == Relative(old(Pos(point.row, point.column)), old(Pos(start.row, start.column)))
  {
    if point.row == start.row {
      point.column := point.column - start.column;
    }
    point.row := point.row - start.row;
  }

  /** Making a point relative to `start` and moving it back by `start` restores it. */
  lemma RelativeThenMoved(p: Pos, start: Pos)
    ensures Moved(Relative(p, start), start) == p
  {
  }

  /** Moving a relative point by `diff` and making it relative to `diff` again restores it. */
  lemma MovedThenRelative(p: Pos, diff: Pos)
    ensures Relative(Moved(p, diff), diff) == p
  {
  }

  /** The start of a snippet is its own origin. */
  lemma StartIsOrigin(start: Pos)
    ensures Relative(start, start) == Pos(0, 0)
  {
  }
}
