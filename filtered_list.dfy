/**
 * The completion list of the tern extension (`FilteredList`): filtering the
 * completions against the typed prefix, either exactly or as a fuzzy,
 * case-insensitive subsequence with a gap penalty, ranking them and dropping
 * adjacent entries with the same label.
 *
 * Completion objects are shared between `all` and `filtered` and are scored
 * in place, so they live in an arena (`items`) and the lists hold indices.
 */
module Completions {
  import opened JsText

  /**
   * A completion object; the empty string stands for a missing text field and
   * 0 for a missing `score`. `matchMask` is the set of bit positions set.
   */
  datatype Item = Item(value: string, caption: string, snippet: string, score: int, matchMask: set<nat>, exactMatch: nat)

  /** A successful fuzzy match: its penalty and the bits of `matchMask`. */
  datatype MatchResult = MatchResult(penalty: nat, mask: set<nat>)

  predicate IdsIn(items: seq<Item>, ids: seq<nat>) {
    forall k :: 0 <= k < |ids| ==> ids[k] < |items|
  }

  /** The text matched against: `item.value || item.caption || item.snippet`. */
  function MatchCaption(it: Item): string {
    if it.value != "" then it.value else if it.caption != "" then it.caption else it.snippet
  }

  /** The text compared when deduplicating: `item.snippet || item.caption || item.value`. */
  function Label(it: Item): string {
    if it.snippet != "" then it.snippet else if it.caption != "" then it.caption else it.value
  }

  /** A caption character matches a needle character in either case. */
  predicate CharMatch(c: char, n: char) {
    c == Lower(n) || c == Upper(n)
  }

  /**
   * The smaller of `caption.indexOf(lower[j], from)` and
   * `caption.indexOf(upper[j], from)` that is not -1: the first position from
   * `from` on matching `n` in either case.
   */
  function Earliest(caption: string, n: char, from: nat): (r: int)
    ensures r == -1 || (from <= r < |caption| && CharMatch(caption[r], n))
    ensures r == -1 ==> forall k :: from <= k < |caption| ==> !CharMatch(caption[k], n)
    ensures r >= 0 ==> forall k :: from <= k < r ==> !CharMatch(caption[k], n)
  {
    var i1 := IndexOf(caption, Lower(n), from);
    var i2 := IndexOf(caption, Upper(n), from);
    if i1 >= 0 then (if i2 < 0 || i1 < i2 then i1 else i2) else i2
  }

  /**
   * The fuzzy match of `needle[j..]` after position `last`: each needle
   * character takes the first matching position; a gap costs its length, plus
   * 10 when it comes before the first matched character.
   */
  function Fuzzy(caption: string, needle: string, j: nat, last: int, penalty: nat, mask: set<nat>): (r: Option<MatchResult>)
    requires -1 <= last
    ensures j >= |needle| ==> r == Some(MatchResult(penalty, mask))
    ensures r.Some? ==> mask <= r.value.mask && forall x :: x in r.value.mask && x !in mask ==> x < 32
    decreases |needle| - j
  {
    if j >= |needle| then Some(MatchResult(penalty, mask))
    else
      var index := Earliest(caption, needle[j], last + 1);
      if index < 0 then None
      else
        var distance := index - last - 1;
        var p := if distance > 0 then penalty + (if last == -1 then 10 else 0) + distance else penalty;
        Fuzzy(caption, needle, j + 1, index, p, mask + {index % 32})
  }

  /**
   * One step of `Fuzzy` from the two `indexOf` results: the match goes on
   * after the smaller one that is not -1, or fails when both are -1.
   */
  lemma FuzzyStep(caption: string, needle: string, j: nat, last: int, penalty: nat, mask: set<nat>, i1: int, i2: int)
    requires -1 <= last && j < |needle|
    requires i1 == IndexOf(caption, Lower(needle[j]), last + 1) && i2 == IndexOf(caption, Upper(needle[j]), last + 1)
    ensures var index := if i1 >= 0 then (if i2 < 0 || i1 < i2 then i1 else i2) else i2;
      && (index < 0 ==> Fuzzy(caption, needle, j, last, penalty, mask) == None)
      && (index >= 0 ==>
            Fuzzy(caption, needle, j, last, penalty, mask) == Fuzzy(caption, needle, j + 1, index, if index - last - 1 > 0 then penalty + (if last == -1 then 10 else 0) + (index - last - 1) else penalty, mask + {index % 32}))
  {
  }

  /** The outcome of `filterCompletions` for one completion: `None` when it is dropped. */
  function Outcome(it: Item, needle: string, exact: bool): (r: Option<MatchResult>)
    ensures MatchCaption(it) == "" ==> r.None?
    ensures exact ==> (r.Some? <==> MatchCaption(it) != "" && StartsWith(MatchCaption(it), needle))
    ensures exact && r.Some? ==> r.value == MatchResult(0, {})
  {
    var c := MatchCaption(it);
    if c == "" then None
    else if exact then (if StartsWith(c, needle) then Some(MatchResult(0, {})) else None)
    else Fuzzy(c, needle, 0, -1, 0, {})
  }

  /** A kept completion after scoring: the mask, the exact-match flag, and the penalty taken off its score. */
  function Scored(it: Item, m: MatchResult): (r: Item)
    ensures r.value == it.value && r.caption == it.caption && r.snippet == it.snippet
    ensures r.score == it.score - m.penalty && r.matchMask == m.mask
    ensures r.exactMatch == 1 <==> m.penalty == 0
  {
    it.(matchMask := m.mask, exactMatch := if m.penalty == 0 then 1 else 0, score := it.score - m.penalty)
  }

  /** Two arenas with the same texts. */
  predicate SameText(a: seq<Item>, b: seq<Item>) {
    |a| == |b| && forall k :: 0 <= k < |a| ==> a[k].value == b[k].value && a[k].caption == b[k].caption && a[k].snippet == b[k].snippet
  }

  /** `filterCompletions(items, needle)` from the `i`-th completion on: the arena after scoring, and the kept completions. */
  function FilterFrom(items: seq<Item>, ids: seq<nat>, i: nat, needle: string, exact: bool, acc: seq<nat>): (r: (seq<Item>, seq<nat>))
    requires IdsIn(items, ids) && i <= |ids|
    ensures SameText(items, r.0)
    ensures IdsIn(items, acc) ==> IdsIn(r.0, r.1)
    decreases |ids| - i
  {
    if i == |ids| then (items, acc)
    else
      var id := ids[i];
      match Outcome(items[id], needle, exact)
      case None => FilterFrom(items, ids, i + 1, needle, exact, acc)
      case Some(m) => FilterFrom(items[id := Scored(items[id], m)], ids, i + 1, needle, exact, acc + [id])
  }

  /** The completions of `ids` a filter keeps, in order. */
  function Kept(items: seq<Item>, ids: seq<nat>, needle: string, exact: bool): (r: seq<nat>)
    requires IdsIn(items, ids)
    ensures forall k :: 0 <= k < |r| ==> r[k] in ids && Outcome(items[r[k]], needle, exact).Some?
    ensures forall k :: 0 <= k < |ids| && Outcome(items[ids[k]], needle, exact).Some? ==> ids[k] in r
    decreases |ids|
  {
    if ids == [] then []
    else
      var rest := Kept(items, ids[1..], needle, exact);
      assert forall k :: 0 <= k < |ids| - 1 ==> ids[1..][k] == ids[k + 1];
      if Outcome(items[ids[0]], needle, exact).Some? then [ids[0]] + rest else rest
  }

  // ----- Ranking and deduplication ------------------------------------------------

  /** `x` ranks no lower than `y`: exact matches first, then higher scores. */
  predicate RankLe(x: Item, y: Item) {
    x.exactMatch > y.exactMatch || (x.exactMatch == y.exactMatch && x.score >= y.score)
  }

  predicate Ranked(items: seq<Item>, s: seq<nat>)
    requires IdsIn(items, s)
  {
    forall i, j :: 0 <= i < j < |s| ==> RankLe(items[s[i]], items[s[j]])
  }

  /** Inserts `x` after every entry that ranks no lower than it. */
  function Insert(items: seq<Item>, x: nat, s: seq<nat>): (r: seq<nat>)
    requires IdsIn(items, s) && x < |items|
    ensures IdsIn(items, r)
    ensures multiset(r) == multiset(s) + multiset{x}
    decreases |s|
  {
    if s == [] then [x]
    else if !RankLe(items[s[0]], items[x]) then [x] + s
    else
      assert s == [s[0]] + s[1..];
      [s[0]] + Insert(items, x, s[1..])
  }

  /** Inserting into a ranked list keeps it ranked. */
  lemma {:induction false} InsertRanked(items: seq<Item>, x: nat, s: seq<nat>)
    requires IdsIn(items, s) && x < |items| && Ranked(items, s)
    ensures Ranked(items, Insert(items, x, s))
    decreases |s|
  {
    if s != [] && RankLe(items[s[0]], items[x]) {
      var t := Insert(items, x, s[1..]);
      InsertRanked(items, x, s[1..]);
      var r := [s[0]] + t;
      assert r == Insert(items, x, s);
      forall i, j | 0 <= i < j < |r| ensures RankLe(items[r[i]], items[r[j]]) {
        assert r[j] == t[j - 1];
        if i > 0 {
          assert r[i] == t[i - 1];
          assert RankLe(items[t[i - 1]], items[t[j - 1]]);
        } else {
          assert r[0] == s[0];
          InsertedRankBelowHead(items, x, s, j - 1);
        }
      }
    }
  }

  /** Inserting `x` after the head of a ranked list puts nothing above the head. */
  lemma InsertedRankBelowHead(items: seq<Item>, x: nat, s: seq<nat>, k: nat)
    requires IdsIn(items, s) && x < |items| && Ranked(items, s)
    requires s != [] && RankLe(items[s[0]], items[x])
    requires k < |Insert(items, x, s[1..])|
    ensures RankLe(items[s[0]], items[Insert(items, x, s[1..])[k]])
  {
    var t := Insert(items, x, s[1..]);
    var e := t[k];
    assert e in multiset(t);
    if e != x {
      assert e in multiset(s[1..]);
      var m :| 0 <= m < |s[1..]| && s[1..][m] == e;
      assert s[m + 1] == e;
    }
  }

  /**
   * `matches.sort((a, b) => b.exactMatch - a.exactMatch || b.score - a.score)`,
   * as an insertion sort.
   */
  function SortByRank(items: seq<Item>, ids: seq<nat>): (r: seq<nat>)
    requires IdsIn(items, ids)
    ensures IdsIn(items, r)
    ensures multiset(r) == multiset(ids)
    ensures Ranked(items, r)
    decreases |ids|
  {
    if ids == [] then []
    else
      assert ids == ids[..|ids| - 1] + [ids[|ids| - 1]];
      var sorted := SortByRank(items, ids[..|ids| - 1]);
      InsertRanked(items, ids[|ids| - 1], sorted);
      Insert(items, ids[|ids| - 1], sorted)
  }

  /** Two entries the comparator ranks equal. */
  predicate SameRank(x: Item, y: Item) {
    x.exactMatch == y.exactMatch && x.score == y.score
  }

  /** The entries of `s` that rank equal to `y`, in their order in `s`. */
  function RankClass(items: seq<Item>, s: seq<nat>, y: Item): (r: seq<nat>)
    requires IdsIn(items, s)
    ensures |r| <= |s|
    ensures forall k :: 0 <= k < |r| ==> r[k] < |items| && SameRank(items[r[k]], y)
    decreases |s|
  {
    if s == [] then []
    else (if SameRank(items[s[0]], y) then [s[0]] else []) + RankClass(items, s[1..], y)
  }

  lemma {:induction false} RankClassSnoc(items: seq<Item>, s: seq<nat>, x: nat, y: Item)
    requires IdsIn(items, s) && x < |items|
    ensures IdsIn(items, s + [x])
    ensures RankClass(items, s + [x], y) == RankClass(items, s, y) + (if SameRank(items[x], y) then [x] else [])
    decreases |s|
  {
    if s != [] {
      assert (s + [x])[1..] == s[1..] + [x];
      RankClassSnoc(items, s[1..], x, y);
    }
  }

  lemma {:induction false} RankClassNone(items: seq<Item>, s: seq<nat>, y: Item)
    requires IdsIn(items, s)
    requires forall k :: 0 <= k < |s| ==> !SameRank(items[s[k]], y)
    ensures RankClass(items, s, y) == []
    decreases |s|
  {
    if s != [] {
      RankClassNone(items, s[1..], y);
    }
  }

  /** An entry ranked above the head of a ranked list shares its rank with none of the list. */
  lemma AboveAllRankClass(items: seq<Item>, x: nat, s: seq<nat>, y: Item)
    requires IdsIn(items, s) && x < |items| && Ranked(items, s)
    requires s != [] && !RankLe(items[s[0]], items[x])
    ensures RankClass(items, [x] + s, y) == RankClass(items, s, y) + (if SameRank(items[x], y) then [x] else [])
  {
    assert ([x] + s)[1..] == s;
    if SameRank(items[x], y) {
      forall k | 0 <= k < |s| ensures !SameRank(items[s[k]], y) {
        if k > 0 { assert RankLe(items[s[0]], items[s[k]]); }
      }
      RankClassNone(items, s, y);
    }
  }

  lemma RankedTail(items: seq<Item>, s: seq<nat>)
    requires IdsIn(items, s) && Ranked(items, s) && s != []
    ensures IdsIn(items, s[1..]) && Ranked(items, s[1..])
  {
    var tail := s[1..];
    forall i, j | 0 <= i < j < |tail| ensures RankLe(items[tail[i]], items[tail[j]]) {
      assert tail[i] == s[i + 1] && tail[j] == s[j + 1];
    }
  }

  lemma ConsRankClass(items: seq<Item>, a: nat, t: seq<nat>, y: Item)
    requires IdsIn(items, t) && a < |items|
    ensures IdsIn(items, [a] + t)
    ensures RankClass(items, [a] + t, y) == (if SameRank(items[a], y) then [a] else []) + RankClass(items, t, y)
  {
    assert ([a] + t)[1..] == t;
  }

  /** The step of `InsertRankClass` where `x` goes after the head. */
  lemma BelowHeadRankClass(items: seq<Item>, x: nat, s: seq<nat>, y: Item)
    requires IdsIn(items, s) && x < |items| && s != [] && RankLe(items[s[0]], items[x])
    requires IdsIn(items, s[1..])
    requires RankClass(items, Insert(items, x, s[1..]), y) == RankClass(items, s[1..], y) + (if SameRank(items[x], y) then [x] else [])
    ensures RankClass(items, Insert(items, x, s), y) == RankClass(items, s, y) + (if SameRank(items[x], y) then [x] else [])
  {
    var tail := s[1..];
    var t := Insert(items, x, tail);
    var h := if SameRank(items[s[0]], y) then [s[0]] else [];
    var e := if SameRank(items[x], y) then [x] else [];
    var ct, cs := RankClass(items, t, y), RankClass(items, tail, y);
    assert Insert(items, x, s) == [s[0]] + t;
    ConsRankClass(items, s[0], t, y);
    assert RankClass(items, s, y) == h + cs;
    AppendAssoc(h, cs, e);
  }

  /** Inserting `x` into a ranked list places it after every entry of its own rank. */
  lemma {:induction false} InsertRankClass(items: seq<Item>, x: nat, s: seq<nat>, y: Item)
    requires IdsIn(items, s) && x < |items| && Ranked(items, s)
    ensures RankClass(items, Insert(items, x, s), y) == RankClass(items, s, y) + (if SameRank(items[x], y) then [x] else [])
    decreases |s|
  {
    if s == [] {
    } else if !RankLe(items[s[0]], items[x]) {
      AboveAllRankClass(items, x, s, y);
      assert Insert(items, x, s) == [x] + s;
    } else {
      RankedTail(items, s);
      InsertRankClass(items, x, s[1..], y);
      BelowHeadRankClass(items, x, s, y);
    }
  }

  /**
   * The sort is stable: the entries of each rank keep their input order
   * (`Array.prototype.sort` is stable).
   */
  lemma {:induction false} SortByRankStable(items: seq<Item>, ids: seq<nat>, y: Item)
    requires IdsIn(items, ids)
    ensures RankClass(items, SortByRank(items, ids), y) == RankClass(items, ids, y)
    decreases |ids|
  {
    if ids != [] {
      var init, last := ids[..|ids| - 1], ids[|ids| - 1];
      assert ids == init + [last];
      SortByRankStable(items, init, y);
      InsertRankClass(items, last, SortByRank(items, init), y);
      RankClassSnoc(items, init, last, y);
    }
  }

  /** The comparator's sign agrees with the ranking. */
  lemma RankLeIffComparator(a: Item, b: Item)
    ensures RankLe(a, b) <==> (if b.exactMatch - a.exactMatch != 0 then b.exactMatch - a.exactMatch else b.score - a.score) <= 0
  {
  }

  /**
   * The `filter` callback over the ranked completions: an entry whose label
   * equals the last kept label (`prev`) is dropped.
   */
  function Dedupe(items: seq<Item>, ids: seq<nat>, prev: Option<string>): (r: seq<nat>)
    requires IdsIn(items, ids)
    ensures |r| <= |ids| && IdsIn(items, r)
    ensures forall k :: 0 <= k < |r| ==> r[k] in ids
    ensures r != [] && prev.Some? ==> Label(items[r[0]]) != prev.value
    decreases |ids|
  {
    if ids == [] then []
    else
      var l := Label(items[ids[0]]);
      assert forall k :: 0 <= k < |ids| - 1 ==> ids[1..][k] == ids[k + 1];
      if prev == Some(l) then Dedupe(items, ids[1..], prev) else [ids[0]] + Dedupe(items, ids[1..], Some(l))
  }

  // ----- The list -----------------------------------------------------------------------

  /** `str.length > this.filterText.length && str.lastIndexOf(this.filterText, 0) === 0`: the new filter extends the old one. */
  predicate Narrows(str: string, filterText: string): (r: bool)
    ensures r ==> |filterText| < |str| && forall k :: 0 <= k < |filterText| ==> str[k] == filterText[k]
  {
    |str| > |filterText| && StartsWith(str, filterText)
  }

  predicate AllDigits(s: string) {
    forall k :: 0 <= k < |s| ==> '0' <= s[k] <= '9'
  }

  /** A character that may start a JavaScript identifier, ASCII only. */
  predicate IdentifierStart(c: char) {
    ('a' <= c <= 'z') || ('A' <= c <= 'Z') || c == '_' || c == '$'
  }

  /**
   * The filter texts whose `Number(filterText)` is modelled: the empty text
   * (0), a run of decimal digits (its value), and a text starting like an
   * identifier, which is NaN or, for `Infinity` itself, no smaller than any
   * length; either way `len > Number(filterText)` is false.
   */
  predicate NumberModelled(filterText: string) {
    filterText == [] || AllDigits(filterText) || IdentifierStart(filterText[0])
  }

  /** `str.length > this.filterText` as written, which converts the filter text to a number. */
  predicate LongerAsWritten(len: nat, filterText: string): (r: bool)
    requires NumberModelled(filterText)
    ensures filterText != [] && IdentifierStart(filterText[0]) ==> !r
    ensures filterText == [] ==> (r <==> len > 0)
  {
    if filterText == [] then len > 0
    else if AllDigits(filterText) then len > DecimalValue(filterText)
    else false
  }

  /** The value of a run of decimal digits. */
  function DecimalValue(s: string): (r: nat)
    requires AllDigits(s)
    ensures |s| >= 1 && s[0] != '0' ==> r >= |s|
    decreases |s|
  {
    if s == [] then 0
    else DecimalValue(s[..|s| - 1]) * 10 + (s[|s| - 1] as int - '0' as int)
  }

  predicate NarrowsAsWritten(str: string, filterText: string): (r: bool)
    requires NumberModelled(filterText)
    ensures r ==> StartsWith(str, filterText)
    ensures filterText != [] && IdentifierStart(filterText[0]) ==> !r
    ensures filterText == [] ==> (r <==> Narrows(str, filterText))
  {
    LongerAsWritten(|str|, filterText) && StartsWith(str, filterText)
  }

  /** As written, typing one more letter after a word filter refilters everything instead of the current list. */
  lemma NarrowingIgnoredAsWritten()
    ensures !NarrowsAsWritten("ab", "a")
    ensures Narrows("ab", "a")
  {
    assert "ab"[..1] == "a";
  }

  class FilteredList {
    /** The completion objects. */
    var items: seq<Item>
    var all: seq<nat>
    var filtered: seq<nat>
    var filterText: string
    var exactMatch: bool

    predicate Valid()
      reads this
    {
      IdsIn(items, all) && IdsIn(items, filtered)
    }

    /** `new FilteredList(array, filterText)`, with `""` for a missing filter text. */
    constructor (arena: seq<Item>, list: seq<nat>, text: string)
      requires IdsIn(arena, list)
      ensures Valid()
      ensures items == arena && all == list && filtered == list && filterText == text && !exactMatch
    {
      items := arena;
      all := list;
      filtered := list;
      filterText := text;
      exactMatch := false;
    }

    /** The fuzzy match of one caption, as the inner loop of `filterCompletions` computes it. */
    static method FuzzyScore(caption: string, needle: string) returns (r: Option<MatchResult>)
      ensures r == Fuzzy(caption, needle, 0, -1, 0, {})
    {
      var upper := UpperString(needle);
      var lower := LowerString(needle);
      var last := -1;
      var mask: set<nat> := {};
      var penalty: nat := 0;
      var j := 0;
      while j < |needle|
        invariant 0 <= j <= |needle| && -1 <= last
        invariant Fuzzy(caption, needle, j, last, penalty, mask) == Fuzzy(caption, needle, 0, -1, 0, {})
      {
        var index;
        index, penalty, mask := MatchChar(caption, needle, j, lower[j], upper[j], last, penalty, mask);
        if index < 0 {
          return None;
        }
        last := index;
        j := j + 1;
      }
      r := Some(MatchResult(penalty, mask));
    }

    /**
     * One turn of that inner loop: the earliest position of `needle[j]` after
     * `last` in either case, and the penalty and mask updated for it; -1 when
     * there is none, which ends the match.
     */
    static method MatchChar(caption: string, needle: string, j: nat, lc: char, uc: char, last: int, penalty: nat, mask: set<nat>)
        returns (index: int, penalty': nat, mask': set<nat>)
      requires -1 <= last && j < |needle| && lc == Lower(needle[j]) && uc == Upper(needle[j])
      ensures index < 0 ==> Fuzzy(caption, needle, j, last, penalty, mask) == None
      ensures index >= 0 ==> last < index && Fuzzy(caption, needle, j, last, penalty, mask) == Fuzzy(caption, needle, j + 1, index, penalty', mask')
    {
      var i1 := IndexOf(caption, lc, last + 1);
      var i2 := IndexOf(caption, uc, last + 1);
      index := if i1 >= 0 then (if i2 < 0 || i1 < i2 then i1 else i2) else i2;
      FuzzyStep(caption, needle, j, last, penalty, mask, i1, i2);
      penalty', mask' := penalty, mask;
      if index < 0 {
        return;
      }
      var distance := index - last - 1;
      if distance > 0 {
        if last == -1 {
          penalty' := penalty' + 10;
        }
        penalty' := penalty' + distance;
      }
      mask' := mask' + {index % 32};
    }

    /** `filterCompletions(items, needle)`: scores the kept completions in place and returns them. */
    method FilterCompletions(ids: seq<nat>, needle: string) returns (results: seq<nat>)
      requires IdsIn(items, ids)
      modifies this
      ensures (items, results) == FilterFrom(old(items), ids, 0, needle, exactMatch, [])
      ensures all == old(all) && filtered == old(filtered) && filterText == old(filterText) && exactMatch == old(exactMatch)
    {
      results := [];
      var arena := items;
      var exact := exactMatch;
      var i := 0;
      while i < |ids|
        invariant 0 <= i <= |ids| && IdsIn(arena, ids)
        invariant FilterFrom(arena, ids, i, needle, exact, results) == FilterFrom(items, ids, 0, needle, exact, [])
        modifies {}
      {
        var id := ids[i];
        var m := MatchOne(arena[id], needle, exact);
        FilterStep(arena, ids, i, needle, exact, results);
        if m.Some? {
          arena := arena[id := Scored(arena[id], m.value)];
          results := results + [id];
        }
        i := i + 1;
      }
      assert FilterFrom(arena, ids, i, needle, exact, results) == (arena, results);
      items := arena;
    }

    /** One completion's turn in `filterCompletions`: skipped without a caption, else matched exactly or fuzzily. */
    static method MatchOne(item: Item, needle: string, exact: bool) returns (m: Option<MatchResult>)
      ensures m == Outcome(item, needle, exact)
    {
      var caption := MatchCaption(item);
      if caption == "" {
        return None;
      }
      if exact {
        m := if StartsWith(caption, needle) then Some(MatchResult(0, {})) else None;
      } else {
        m := FuzzyScore(caption, needle);
      }
    }

    /** `setFilter(str)`: filters (the current list when `str` extends the old filter), ranks and deduplicates. */
    method SetFilter(str: string)
      requires Valid()
      modifies this
      ensures Valid()
      ensures var matches := if Narrows(str, old(filterText)) then old(filtered) else old(all);
        var (arena, kept) := FilterFrom(old(items), matches, 0, str, exactMatch, []);
        items == arena && filtered == Dedupe(arena, SortByRank(arena, kept), None)
      ensures filterText == str && all == old(all) && exactMatch == old(exactMatch)
    {
      var matches := if Narrows(str, filterText) then filtered else all;
      filterText := str;
      var kept := FilterCompletions(matches, str);
      var ranked := SortByRank(items, kept);
      filtered := Dedupe(items, ranked, None);
    }
  }

  // ----- Properties ----------------------------------------------------------------------

  /** One step of `FilterFrom`. */
  lemma FilterStep(items: seq<Item>, ids: seq<nat>, i: nat, needle: string, exact: bool, acc: seq<nat>)
    requires IdsIn(items, ids) && i < |ids|
    ensures var id := ids[i];
      var o := Outcome(items[id], needle, exact);
      IdsIn(if o.Some? then items[id := Scored(items[id], o.value)] else items, ids) &&
      FilterFrom(items, ids, i, needle, exact, acc) ==
        if o.Some? then FilterFrom(items[id := Scored(items[id], o.value)], ids, i + 1, needle, exact, acc + [id])
        else FilterFrom(items, ids, i + 1, needle, exact, acc)
  {
  }

  lemma OutcomeSameText(a: Item, b: Item, needle: string, exact: bool)
    requires a.value == b.value && a.caption == b.caption && a.snippet == b.snippet
    ensures Outcome(a, needle, exact) == Outcome(b, needle, exact)
  {
  }

  lemma {:induction false} KeptSameText(a: seq<Item>, b: seq<Item>, ids: seq<nat>, needle: string, exact: bool)
    requires SameText(a, b) && IdsIn(a, ids)
    ensures Kept(a, ids, needle, exact) == Kept(b, ids, needle, exact)
    decreases |ids|
  {
    if ids != [] {
      OutcomeSameText(a[ids[0]], b[ids[0]], needle, exact);
      KeptSameText(a, b, ids[1..], needle, exact);
    }
  }

  /** `filterCompletions` returns exactly the completions whose outcome is a match, in their order. */
  lemma {:induction false} FilterReturnsKept(items: seq<Item>, ids: seq<nat>, i: nat, needle: string, exact: bool, acc: seq<nat>)
    requires IdsIn(items, ids) && i <= |ids|
    ensures FilterFrom(items, ids, i, needle, exact, acc).1 == acc + Kept(items, ids[i..], needle, exact)
    decreases |ids| - i
  {
    if i == |ids| {
      assert ids[i..] == [];
    } else {
      var id := ids[i];
      FilterStep(items, ids, i, needle, exact, acc);
      KeptStep(items, ids, i, needle, exact);
      var o := Outcome(items[id], needle, exact);
      if o.None? {
        FilterReturnsKept(items, ids, i + 1, needle, exact, acc);
      } else {
        var items' := items[id := Scored(items[id], o.value)];
        ScoredSameText(items, id, o.value);
        FilterReturnsKept(items', ids, i + 1, needle, exact, acc + [id]);
        KeptSameText(items, items', ids[i + 1..], needle, exact);
        AppendAssoc(acc, [id], Kept(items, ids[i + 1..], needle, exact));
      }
    }
  }

  lemma AppendAssoc(a: seq<nat>, b: seq<nat>, c: seq<nat>)
    ensures a + b + c == a + (b + c)
  {
  }

  /** Scoring a completion leaves its texts alone. */
  lemma ScoredSameText(items: seq<Item>, id: nat, m: MatchResult)
    requires id < |items|
    ensures SameText(items, items[id := Scored(items[id], m)])
  {
  }

  /** One step of `Kept` over a suffix of `ids`. */
  lemma KeptStep(items: seq<Item>, ids: seq<nat>, i: nat, needle: string, exact: bool)
    requires IdsIn(items, ids) && i < |ids|
    ensures Kept(items, ids[i..], needle, exact) ==
      if Outcome(items[ids[i]], needle, exact).Some? then [ids[i]] + Kept(items, ids[i + 1..], needle, exact)
      else Kept(items, ids[i + 1..], needle, exact)
  {
    assert ids[i..][1..] == ids[i + 1..];
  }

  /** The in-order, case-insensitive embedding of `n` into `c` from position `from`. */
  predicate Sub(c: string, n: string, from: nat)
    decreases |n|
  {
    n == [] || exists k :: from <= k < |c| && CharMatch(c[k], n[0]) && Sub(c, n[1..], k + 1)
  }

  lemma SubEarlier(c: string, n: string, a: nat, b: nat)
    requires a <= b && Sub(c, n, b)
    ensures Sub(c, n, a)
  {
    if n != [] {
      var k :| b <= k < |c| && CharMatch(c[k], n[0]) && Sub(c, n[1..], k + 1);
      assert a <= k;
    }
  }

  /**
   * The greedy match succeeds exactly when the needle embeds in the caption
   * in order, ignoring case: taking the first match never loses one.
   */
  lemma {:induction false} FuzzyIffSub(c: string, n: string, j: nat, last: int, p: nat, m: set<nat>)
    requires j <= |n| && -1 <= last
    ensures Fuzzy(c, n, j, last, p, m).Some? <==> Sub(c, n[j..], last + 1)
    decreases |n| - j
  {
    if j == |n| {
      assert n[j..] == [];
    } else {
      var idx := Earliest(c, n[j], last + 1);
      assert n[j..][0] == n[j] && n[j..][1..] == n[j + 1..];
      if idx >= 0 {
        var distance := idx - last - 1;
        var p' := if distance > 0 then p + (if last == -1 then 10 else 0) + distance else p;
        FuzzyIffSub(c, n, j + 1, idx, p', m + {idx % 32});
        if Sub(c, n[j..], last + 1) {
          var k :| last + 1 <= k < |c| && CharMatch(c[k], n[j]) && Sub(c, n[j + 1..], k + 1);
          SubEarlier(c, n[j + 1..], idx + 1, k + 1);
        }
        if Sub(c, n[j + 1..], idx + 1) {
          assert last + 1 <= idx < |c| && CharMatch(c[idx], n[j..][0]) && Sub(c, n[j..][1..], idx + 1);
        }
      }
    }
  }

  /** In fuzzy mode a completion is kept exactly when the needle embeds in its caption. */
  lemma FuzzyKeepsSubsequences(it: Item, needle: string)
    ensures Outcome(it, needle, false).Some? <==> MatchCaption(it) != "" && Sub(MatchCaption(it), needle, 0)
  {
    FuzzyIffSub(MatchCaption(it), needle, 0, -1, 0, {});
    assert needle[0..] == needle;
  }

  lemma {:induction false} PenaltyGrows(c: string, n: string, j: nat, last: int, p: nat, m: set<nat>)
    requires -1 <= last
    ensures Fuzzy(c, n, j, last, p, m).Some? ==> Fuzzy(c, n, j, last, p, m).value.penalty >= p
    decreases |n| - j
  {
    if j < |n| {
      var idx := Earliest(c, n[j], last + 1);
      if idx >= 0 {
        var distance := idx - last - 1;
        var p' := if distance > 0 then p + (if last == -1 then 10 else 0) + distance else p;
        PenaltyGrows(c, n, j + 1, idx, p', m + {idx % 32});
      }
    }
  }

  /** The caption starts with the needle, ignoring case. */
  predicate CIPrefix(c: string, n: string) {
    PrefixFrom(c, n, 0)
  }

  /** `n[j..]` matches the caption at the same positions, ignoring case. */
  predicate PrefixFrom(c: string, n: string, j: nat)
    decreases |n| - j
  {
    j >= |n| || (j < |c| && CharMatch(c[j], n[j]) && PrefixFrom(c, n, j + 1))
  }

  lemma {:induction false} ZeroPenaltyFrom(c: string, n: string, j: nat, p: nat, m: set<nat>)
    requires j <= |n|
    ensures Fuzzy(c, n, j, j - 1, p, m).Some? && Fuzzy(c, n, j, j - 1, p, m).value.penalty == p ==> PrefixFrom(c, n, j)
    ensures PrefixFrom(c, n, j) ==> Fuzzy(c, n, j, j - 1, p, m).Some? && Fuzzy(c, n, j, j - 1, p, m).value.penalty == p
    decreases |n| - j
  {
    if j < |n| {
      var idx := Earliest(c, n[j], j);
      if idx >= 0 {
        var distance := idx - j;
        var p' := if distance > 0 then p + (if j == 0 then 10 else 0) + distance else p;
        PenaltyGrows(c, n, j + 1, idx, p', m + {idx % 32});
        if idx == j {
          ZeroPenaltyFrom(c, n, j + 1, p', m + {idx % 32});
          assert Fuzzy(c, n, j, j - 1, p, m) == Fuzzy(c, n, j + 1, (j + 1) - 1, p, m + {idx % 32});
        } else {
          assert !CharMatch(c[j], n[j]);
        }
      } else {
        assert !(j < |c| && CharMatch(c[j], n[j]));
      }
    }
  }

  /** A fuzzy match is penalty-free, and so counts as exact, iff the caption starts with the needle ignoring case. */
  lemma ZeroPenaltyIffPrefix(c: string, n: string)
    ensures Fuzzy(c, n, 0, -1, 0, {}).Some? && Fuzzy(c, n, 0, -1, 0, {}).value.penalty == 0 ==> CIPrefix(c, n)
    ensures CIPrefix(c, n) ==> Fuzzy(c, n, 0, -1, 0, {}).Some? && Fuzzy(c, n, 0, -1, 0, {}).value.penalty == 0
  {
    ZeroPenaltyFrom(c, n, 0, 0, {});
    assert Fuzzy(c, n, 0, 0 - 1, 0, {}) == Fuzzy(c, n, 0, -1, 0, {});
  }

  /** A match whose first character is not at the start costs at least 10 plus the gap. */
  lemma LateStartPenalized(c: string, n: string)
    requires n != [] && Earliest(c, n[0], 0) > 0
    ensures Fuzzy(c, n, 0, -1, 0, {}).Some? ==> Fuzzy(c, n, 0, -1, 0, {}).value.penalty >= 10 + Earliest(c, n[0], 0)
  {
    var idx := Earliest(c, n[0], 0);
    assert {} + {idx % 32} == {idx % 32};
    assert Fuzzy(c, n, 0, -1, 0, {}) == Fuzzy(c, n, 1, idx, 10 + idx, {idx % 32});
    PenaltyGrows(c, n, 1, idx, 10 + idx, {idx % 32});
  }

  lemma {:induction false} SubPrefix(c: string, n: string, x: string, from: nat)
    requires Sub(c, n + x, from)
    ensures Sub(c, n, from)
    decreases |n|
  {
    if n != [] {
      var k :| from <= k < |c| && CharMatch(c[k], (n + x)[0]) && Sub(c, (n + x)[1..], k + 1);
      assert (n + x)[1..] == n[1..] + x;
      SubPrefix(c, n[1..], x, k + 1);
    }
  }

  /**
   * Item by item, a completion dropped for a filter is dropped for every
   * extension of it. This alone does not make narrowing from the current list
   * lossless: that list is also deduplicated (see `DedupeLosesNarrowedMatch`).
   */
  lemma ExtensionNarrows(it: Item, needle: string, x: string, exact: bool)
    ensures Outcome(it, needle + x, exact).Some? ==> Outcome(it, needle, exact).Some?
  {
    var c := MatchCaption(it);
    if exact {
      if StartsWith(c, needle + x) {
        assert c[..|needle|] == (needle + x)[..|needle|];
      }
    } else {
      FuzzyKeepsSubsequences(it, needle + x);
      FuzzyKeepsSubsequences(it, needle);
      if c != "" && Sub(c, needle + x, 0) {
        SubPrefix(c, needle, x, 0);
      }
    }
  }

  /**
   * Narrowing from the current list can lose a match. Deduplication compares
   * `snippet || caption || value` while matching reads `value || caption ||
   * snippet`: two completions captioned "x" with values "xa" and "xb" both
   * match "x", only the first survives deduplication, and the second, the
   * only one matching "xb", is then missing from the list "xb" narrows.
   */
  lemma DedupeLosesNarrowedMatch()
    ensures var a := Item("xa", "x", "", 0, {}, 0);
      var b := Item("xb", "x", "", 0, {}, 0);
      Outcome(a, "x", true).Some? && Outcome(b, "x", true).Some? &&
      Dedupe([a, b], [0, 1], None) == [0] &&
      Narrows("xb", "x") && Outcome(a, "xb", true).None? && Outcome(b, "xb", true).Some?
  {
    var a := Item("xa", "x", "", 0, {}, 0);
    var b := Item("xb", "x", "", 0, {}, 0);
    assert Label(a) == Label(b) == "x";
    assert Dedupe([a, b], [0, 1][1..], Some("x")) == [];
    assert "xa"[..2][1] != "xb"[1];
    assert "xb"[..1] == "x" && "xa"[..1] == "x" && "xb"[..2] == "xb";
  }

  lemma {:induction false} DedupeRanked(items: seq<Item>, ids: seq<nat>, prev: Option<string>)
    requires IdsIn(items, ids) && Ranked(items, ids)
    ensures Ranked(items, Dedupe(items, ids, prev))
    decreases |ids|
  {
    if ids != [] {
      var l := Label(items[ids[0]]);
      var next := if prev == Some(l) then prev else Some(l);
      assert Ranked(items, ids[1..]) by {
        forall i, j | 0 <= i < j < |ids[1..]| ensures RankLe(items[ids[1..][i]], items[ids[1..][j]]) {
          assert ids[1..][i] == ids[i + 1] && ids[1..][j] == ids[j + 1];
        }
      }
      DedupeRanked(items, ids[1..], next);
      var t := Dedupe(items, ids[1..], next);
      if prev != Some(l) {
        var r := [ids[0]] + t;
        forall i, j | 0 <= i < j < |r| ensures RankLe(items[r[i]], items[r[j]]) {
          if i == 0 {
            assert t[j - 1] in ids[1..];
            var m :| 0 <= m < |ids[1..]| && ids[1..][m] == t[j - 1];
            assert ids[m + 1] == r[j];
          }
        }
      }
    }
  }

  /** No two neighbours of `r` share a label. */
  predicate NoAdjacentRepeats(items: seq<Item>, r: seq<nat>)
    requires IdsIn(items, r)
    decreases |r|
  {
    |r| < 2 || (Label(items[r[0]]) != Label(items[r[1]]) && NoAdjacentRepeats(items, r[1..]))
  }

  /** After deduplication no two neighbours share a label. */
  lemma {:induction false} DedupeNoAdjacentRepeats(items: seq<Item>, ids: seq<nat>, prev: Option<string>)
    requires IdsIn(items, ids)
    ensures NoAdjacentRepeats(items, Dedupe(items, ids, prev))
    decreases |ids|
  {
    if ids != [] {
      var l := Label(items[ids[0]]);
      if prev == Some(l) {
        assert Dedupe(items, ids, prev) == Dedupe(items, ids[1..], prev);
        DedupeNoAdjacentRepeats(items, ids[1..], prev);
      } else {
        DedupeNoAdjacentRepeats(items, ids[1..], Some(l));
        var t := Dedupe(items, ids[1..], Some(l));
        var r := Dedupe(items, ids, prev);
        assert r == [ids[0]] + t;
        assert r[1..] == t;
      }
    }
  }

  /** The labels of a list of completions. */
  function LabelSet(items: seq<Item>, s: seq<nat>): set<string>
    requires IdsIn(items, s)
    decreases |s|
  {
    if s == [] then {} else {Label(items[s[0]])} + LabelSet(items, s[1..])
  }

  /** Deduplication keeps every label: a dropped entry repeats the label kept just before it. */
  lemma {:induction false} DedupeKeepsLabels(items: seq<Item>, ids: seq<nat>, prev: Option<string>)
    requires IdsIn(items, ids)
    ensures forall k :: 0 <= k < |ids| ==>
      Some(Label(items[ids[k]])) == prev || Label(items[ids[k]]) in LabelSet(items, Dedupe(items, ids, prev))
    decreases |ids|
  {
    if ids != [] {
      var l := Label(items[ids[0]]);
      var r := Dedupe(items, ids, prev);
      assert forall k :: 1 <= k < |ids| ==> ids[1..][k - 1] == ids[k];
      if prev == Some(l) {
        assert r == Dedupe(items, ids[1..], prev);
        DedupeKeepsLabels(items, ids[1..], prev);
      } else {
        var t := Dedupe(items, ids[1..], Some(l));
        assert r == [ids[0]] + t;
        assert ([ids[0]] + t)[1..] == t;
        assert LabelSet(items, r) == {l} + LabelSet(items, t);
        DedupeKeepsLabels(items, ids[1..], Some(l));
      }
    }
  }

  /**
   * The list `setFilter` leaves: every entry matches the new filter, the list
   * is ranked, and no two neighbours share a label.
   */
  lemma SetFilterResult(items: seq<Item>, matches: seq<nat>, str: string, exact: bool)
    requires IdsIn(items, matches)
    ensures var (arena, kept) := FilterFrom(items, matches, 0, str, exact, []);
      IdsIn(arena, kept) &&
      var f := Dedupe(arena, SortByRank(arena, kept), None);
      && Ranked(arena, f)
      && (forall k :: 0 <= k < |f| ==> f[k] in matches && Outcome(items[f[k]], str, exact).Some?)
      && NoAdjacentRepeats(arena, f)
  {
    var (arena, kept) := FilterFrom(items, matches, 0, str, exact, []);
    FilterReturnsKept(items, matches, 0, str, exact, []);
    assert matches[0..] == matches;
    var sorted := SortByRank(arena, kept);
    DedupeRanked(arena, sorted, None);
    DedupeNoAdjacentRepeats(arena, sorted, None);
    var f := Dedupe(arena, sorted, None);
    forall k | 0 <= k < |f| ensures f[k] in matches && Outcome(items[f[k]], str, exact).Some? {
      assert f[k] in sorted;
      assert f[k] in multiset(sorted);
      assert f[k] in kept;
    }
  }
}
