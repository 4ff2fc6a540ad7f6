/**
 * String helpers with the meaning JavaScript gives them: the `\s` character
 * class, `split(/\s+/)`, `Array.prototype.join`, `indexOf` on arrays and
 * strings, the `\w` class and ASCII case mapping. Every other module imports
 * these so that each source function is modelled against one definition.
 */
module JsText {

  datatype Option<T> = None | Some(value: T)

  /** ECMAScript line terminators (the characters `.` does not match). */
  predicate LineTerminator(c: char) {
    c == '\n' || c == '\r' || c == '\U{2028}' || c == '\U{2029}'
  }

  /** The ECMAScript `\s` class: white space and line terminators. */
  predicate JsSpace(c: char) {
    || c == '\t' || c == '\U{000B}' || c == '\U{000C}' || c == ' '
    || c == '\U{00A0}' || c == '\U{FEFF}' || c == '\U{1680}'
    || ('\U{2000}' <= c <= '\U{200A}')
    || c == '\U{202F}' || c == '\U{205F}' || c == '\U{3000}'
    || LineTerminator(c)
  }

  /** The `\w` class: ASCII letters, digits and underscore. */
  predicate WordChar(c: char) {
    ('a' <= c <= 'z') || ('A' <= c <= 'Z') || ('0' <= c <= '9') || c == '_'
  }

  predicate NoSpace(s: string) {
    forall i :: 0 <= i < |s| ==> !JsSpace(s[i])
  }

  predicate NoLineTerminator(s: string) {
    forall i :: 0 <= i < |s| ==> !LineTerminator(s[i])
  }

  /** `String.prototype.toUpperCase` restricted to ASCII letters. */
  function Upper(c: char): (r: char)
    ensures 'a' <= c <= 'z' ==> 'A' <= r <= 'Z'
    ensures !('a' <= c <= 'z') ==> r == c
  {
    if 'a' <= c <= 'z' then (c as int - 32) as char else c
  }

  /** `String.prototype.toLowerCase` restricted to ASCII letters. */
  function Lower(c: char): (r: char)
    ensures 'A' <= c <= 'Z' ==> 'a' <= r <= 'z'
    ensures !('A' <= c <= 'Z') ==> r == c
  {
    if 'A' <= c <= 'Z' then (c as int + 32) as char else c
  }

  function UpperString(s: string): (r: string)
    ensures |r| == |s| && forall i :: 0 <= i < |s| ==> r[i] == Upper(s[i])
  {
    if s == [] then [] else [Upper(s[0])] + UpperString(s[1..])
  }

  function LowerString(s: string): (r: string)
    ensures |r| == |s| && forall i :: 0 <= i < |s| ==> r[i] == Lower(s[i])
  {
    if s == [] then [] else [Lower(s[0])] + LowerString(s[1..])
  }

  /** Index of the first `\s` character at or after `from`, or `|s|`. */
  function FirstSpace(s: string, from: nat): (i: nat)
    requires from <= |s|
    ensures from <= i <= |s|
    ensures i < |s| ==> JsSpace(s[i])
    ensures forall k :: from <= k < i ==> !JsSpace(s[k])
    decreases |s| - from
  {
    if from == |s| then from
    else if JsSpace(s[from]) then from
    else FirstSpace(s, from + 1)
  }

  /** End of the run of `\s` characters that starts at `from`. */
  function SpaceRunEnd(s: string, from: nat): (j: nat)
    requires from <= |s|
    ensures from <= j <= |s|
    ensures j < |s| ==> !JsSpace(s[j])
    ensures forall k :: from <= k < j ==> JsSpace(s[k])
    decreases |s| - from
  {
    if from == |s| then from
    else if !JsSpace(s[from]) then from
    else SpaceRunEnd(s, from + 1)
  }

  /**
   * `s.split(/\s+/)`: the pieces between maximal runs of white space. Leading
   * or trailing white space yields an empty first or last piece, and the
   * empty string splits into one empty piece.
   */
  function Split(s: string): (r: seq<string>)
    ensures |r| >= 1
    ensures forall k :: 0 <= k < |r| ==> NoSpace(r[k])
    decreases |s|
  {
    var i := FirstSpace(s, 0);
    if i == |s| then [s]
    else
      var j := SpaceRunEnd(s, i);
      [s[..i]] + Split(s[j..])
  }

  /** `Array.prototype.join(sep)`. */
  function Join(ts: seq<string>, sep: string): (r: string)
    ensures ts == [] ==> r == ""
    ensures |ts| == 1 ==> r == ts[0]
    ensures |ts| >= 2 ==> StartsWith(r, ts[0] + sep) && |r| >= |ts[0]| + |sep| + |ts[|ts| - 1]|
  {
    if ts == [] then ""
    else if |ts| == 1 then ts[0]
    else ts[0] + sep + Join(ts[1..], sep)
  }

  /** `Array.prototype.indexOf(x, from)`: the first index at or after `from` holding `x`, or -1. */
  function IndexOf<T(==)>(s: seq<T>, x: T, from: nat): (r: int)
    ensures r == -1 || (from <= r < |s| && s[r] == x)
    ensures r == -1 ==> forall k :: from <= k < |s| ==> s[k] != x
    ensures r >= 0 ==> forall k :: from <= k < r ==> s[k] != x
    decreases |s| - from
  {
    if from >= |s| then -1
    else if s[from] == x then from
    else IndexOf(s, x, from + 1)
  }

  /** `arr.splice(arr.indexOf(f), 1)`: removes the first `f`; unchanged when `f` is absent. */
  function RemoveFirst<T(==)>(s: seq<T>, f: T): (r: seq<T>)
    ensures f !in s ==> r == s
    ensures f in s ==> |r| == |s| - 1 && multiset(r) == multiset(s) - multiset{f}
    ensures f in s ==> exists i :: 0 <= i < |s| && s[i] == f && f !in s[..i] && r == s[..i] + s[i + 1..]
  {
    var i := IndexOf(s, f, 0);
    if i < 0 then s
    else
      assert s == s[..i] + [f] + s[i + 1..];
      assert f !in s[..i];
      s[..i] + s[i + 1..]
  }

  /** The elements of `s` other than `x`, in order. */
  function Without<T(==)>(s: seq<T>, x: T): (r: seq<T>)
    ensures x !in r
    ensures forall k :: 0 <= k < |s| && s[k] != x ==> s[k] in r
    ensures forall k :: 0 <= k < |r| ==> r[k] in s
    ensures |r| <= |s|
  {
    if s == [] then []
    else if s[0] == x then Without(s[1..], x)
    else [s[0]] + Without(s[1..], x)
  }

  /** `s.startsWith(p)`, also `s.indexOf(p, k) == k` for the suffix at `k`. */
  predicate StartsWith(s: string, p: string) {
    |p| <= |s| && s[..|p|] == p
  }

  predicate EndsWith(s: string, p: string) {
    |p| <= |s| && s[|s| - |p|..] == p
  }

  /** `s.split(c)` for a one-character separator: the pieces between occurrences of `c`. */
  function SplitOn(s: string, c: char): (r: seq<string>)
    ensures |r| >= 1
    ensures forall k :: 0 <= k < |r| ==> c !in r[k]
    decreases |s|
  {
    var i := IndexOf(s, c, 0);
    if i < 0 then [s] else [s[..i]] + SplitOn(s[i + 1..], c)
  }

  function DigitChar(d: nat): char
    requires d < 10
  {
    "0123456789"[d]
  }

  /** The decimal numeral of `n`, as `String(n)` writes an integer. */
  function NatToString(n: nat): (r: string)
    ensures |r| >= 1
    decreases n
  {
    if n < 10 then [DigitChar(n)] else NatToString(n / 10) + [DigitChar(n % 10)]
  }

  function IntToString(n: int): string {
    if n < 0 then "-" + NatToString(-n) else NatToString(n)
  }

  // ----- Lemmas about Split and Join ---------------------------------------

  /** A string without white space splits into itself. */
  lemma SplitNoSpace(s: string)
    requires NoSpace(s)
    ensures Split(s) == [s]
  {
    assert FirstSpace(s, 0) == |s|;
  }

  /** Skipping leading white space only drops pieces: the rest are pieces of `s`. */
  lemma SplitSkipSpaces(s: string, k: nat)
    requires k <= |s|
    requires forall m :: 0 <= m < k ==> JsSpace(s[m])
    requires k < |s| ==> !JsSpace(s[k])
    ensures forall x :: x in Split(s[k..]) ==> x in Split(s)
  {
    if k > 0 {
      assert FirstSpace(s, 0) == 0;
      var j := SpaceRunEnd(s, 0);
      assert j == k;
      assert Split(s) == [s[..0]] + Split(s[k..]);
    }
  }

  /** Splitting `t + " " + r`, where `t` has no white space, yields `t` and then pieces of `r`. */
  lemma SplitCons(t: string, r: string)
    requires NoSpace(t)
    ensures var s := t + " " + r;
      Split(s)[0] == t &&
      forall x :: x in Split(s)[1..] ==> x in Split(r)
  {
    var s := t + " " + r;
    assert forall m :: 0 <= m < |t| ==> s[m] == t[m];
    assert FirstSpace(s, 0) == |t| by {
      assert JsSpace(s[|t|]);
      FirstSpaceAt(s, 0, |t|);
    }
    var j := SpaceRunEnd(s, |t|);
    assert j >= |t| + 1 by { assert JsSpace(s[|t|]); }
    var k := j - |t| - 1;
    assert s[j..] == r[k..];
    assert s[..|t|] == t;
    assert forall m :: 0 <= m < k ==> JsSpace(r[m]) by {
      forall m | 0 <= m < k ensures JsSpace(r[m]) {
        assert r[m] == s[|t| + 1 + m];
      }
    }
    assert k < |r| ==> !JsSpace(r[k]) by {
      if k < |r| { assert r[k] == s[j]; }
    }
    SplitSkipSpaces(r, k);
    assert Split(s) == [t] + Split(r[k..]);
  }

  lemma FirstSpaceAt(s: string, from: nat, i: nat)
    requires from <= i < |s|
    requires JsSpace(s[i])
    requires forall m :: from <= m < i ==> !JsSpace(s[m])
    ensures FirstSpace(s, from) == i
    decreases i - from
  {
    if from < i { FirstSpaceAt(s, from + 1, i); }
  }

  /**
   * Joining white-space-free pieces with a space and splitting again gives
   * back nothing new: every non-empty piece was one of the joined ones.
   */
  lemma {:induction false} SplitJoinPieces(ts: seq<string>)
    requires forall k :: 0 <= k < |ts| ==> NoSpace(ts[k])
    ensures forall x :: x in Split(Join(ts, " ")) ==> x == "" || x in ts
  {
    if ts == [] {
      assert Split("") == [""] by { assert FirstSpace("", 0) == 0; }
    } else if |ts| == 1 {
      SplitNoSpace(ts[0]);
    } else {
      var rest := Join(ts[1..], " ");
      assert Join(ts, " ") == ts[0] + " " + rest;
      SplitCons(ts[0], rest);
      SplitJoinPieces(ts[1..]);
      var sp := Split(ts[0] + " " + rest);
      forall x | x in sp ensures x == "" || x in ts {
        var k :| 0 <= k < |sp| && sp[k] == x;
        if k > 0 {
          assert x in sp[1..];
          assert x in Split(rest);
          if x != "" { assert x in ts[1..]; }
        }
      }
    }
  }

  /** Splitting `p + " " + name` ends with `name` when `name` is a non-empty white-space-free word. */
  lemma {:induction false} SplitEndsWith(p: string, name: string)
    requires name != [] && NoSpace(name)
    ensures var r := Split(p + " " + name); r[|r| - 1] == name
    decreases |p|
  {
    var s := p + " " + name;
    var i := FirstSpace(s, 0);
    assert JsSpace(s[|p|]);
    var j := SpaceRunEnd(s, i);
    assert s[|p| + 1] == name[0];
    assert !JsSpace(s[|p| + 1]);
    assert Split(s) == [s[..i]] + Split(s[j..]);
    if j == |p| + 1 {
      assert s[j..] == name;
      SplitNoSpace(name);
    } else {
      assert s[j..] == p[j..] + " " + name;
      SplitEndsWith(p[j..], name);
    }
  }

  /** When `r` does not start with white space, `t + " " + r` splits into `t` followed by the pieces of `r`. */
  lemma SplitConsExact(t: string, r: string)
    requires NoSpace(t)
    requires r == [] || !JsSpace(r[0])
    ensures Split(t + " " + r) == [t] + Split(r)
  {
    var s := t + " " + r;
    assert forall m :: 0 <= m < |t| ==> s[m] == t[m];
    assert JsSpace(s[|t|]);
    FirstSpaceAt(s, 0, |t|);
    if r != [] { assert s[|t| + 1] == r[0]; }
    assert SpaceRunEnd(s, |t|) == |t| + 1 by {
      assert SpaceRunEnd(s, |t|) == SpaceRunEnd(s, |t| + 1);
    }
    assert s[|t| + 1..] == r;
    assert s[..|t|] == t;
  }

  /** Joining non-empty white-space-free words with spaces and splitting again gives the words back. */
  lemma {:induction false} SplitJoinRoundTrip(ts: seq<string>)
    requires |ts| >= 1
    requires forall k :: 0 <= k < |ts| ==> ts[k] != [] && NoSpace(ts[k])
    ensures Split(Join(ts, " ")) == ts
  {
    if |ts| == 1 {
      SplitNoSpace(ts[0]);
    } else {
      var rest := Join(ts[1..], " ");
      JoinHead(ts[1..], " ");
      SplitConsExact(ts[0], rest);
      SplitJoinRoundTrip(ts[1..]);
      assert ts == [ts[0]] + ts[1..];
    }
  }

  /** A join of words starts with the first word. */
  lemma JoinHead(ts: seq<string>, sep: string)
    requires |ts| >= 1 && ts[0] != []
    ensures Join(ts, sep) != [] && Join(ts, sep)[0] == ts[0][0]
  {
  }

  /** Joining a non-empty list with one more word puts a space in front of the word. */
  lemma {:induction false} JoinSnoc(ts: seq<string>, w: string, sep: string)
    requires ts != []
    ensures Join(ts + [w], sep) == Join(ts, sep) + sep + w
  {
    if |ts| == 1 {
      var us := ts + [w];
      assert us[0] == ts[0] && us[1..] == [w];
      assert Join(us, sep) == ts[0] + sep + w;
    } else {
      var us := ts + [w];
      assert us[0] == ts[0] && us[1..] == ts[1..] + [w];
      JoinSnoc(ts[1..], w, sep);
      var j := Join(ts[1..], sep);
      assert Join(us, sep) == ts[0] + sep + (j + sep + w);
      assert Join(ts, sep) == ts[0] + sep + j;
    }
  }
}
