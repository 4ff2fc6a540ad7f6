/**
 * CSS class-list operations on an element's `className`: the class list is
 * the string split at runs of white space (`split(/\s+/)`), and the
 * operations rewrite the string.
 */
module Dom {
  import opened JsText

  class Element {
    var className: string

    constructor (c: string)
      ensures className == c
    {
      className := c;
    }
  }

  /** The tokens of a class attribute, as `className.split(/\s+/)` gives them. */
  function Classes(c: string): seq<string> {
    Split(c)
  }

  /** `hasCssClass(el, name)`: `name` is one of the tokens. */
  function HasCssClass(el: Element, name: string): (r: bool)
    reads el
    ensures r <==> exists k :: 0 <= k < |Classes(el.className)| && Classes(el.className)[k] == name
  {
    IndexOf(Classes(el.className), name, 0) != -1
  }

  /** The class attribute after `addCssClass`. */
  function Added(c: string, name: string): string {
    if name in Classes(c) then c else c + " " + name
  }

  /** The class attribute after `removeCssClass`: the other tokens, joined by single spaces. */
  function Removed(c: string, name: string): string {
    Join(Without(Classes(c), name), " ")
  }

  /** The class attribute after `toggleCssClass`, and its result. */
  function Toggled(c: string, name: string): (string, bool) {
    if name in Classes(c) then (Join(Without(Classes(c), name), " "), false)
    else (Join(Classes(c) + [name], " "), true)
  }

  /** `addCssClass(el, name)`: appends ` name` unless the class is present. */
  method AddCssClass(el: Element, name: string)
    modifies el
    ensures el.className == Added(old(el.className), name)
  {
    var present := HasCssClass(el, name);
    if !present {
      el.className := el.className + " " + name;
    }
  }

  /** Removes every occurrence of `name` from `classes`, as the `indexOf`/`splice` loop does. */
  method SpliceAll(classes: seq<string>, name: string) returns (rest: seq<string>)
    ensures rest == Without(classes, name)
    ensures |rest| < |classes| <==> name in classes
  {
    rest := classes;
    while true
      invariant Without(rest, name) == Without(classes, name)
      invariant |rest| <= |classes|
      invariant name in classes ==> |rest| < |classes| || name in rest
      invariant name !in classes ==> rest == classes
      decreases |rest|
    {
      var index := IndexOf(rest, name, 0);
      if index == -1 {
        break;
      }
      WithoutSplice(rest, name, index);
      rest := rest[..index] + rest[index + 1..];
    }
    WithoutAbsent(rest, name);
  }

  /** `removeCssClass(el, name)`. */
  method RemoveCssClass(el: Element, name: string)
    modifies el
    ensures el.className == Removed(old(el.className), name)
  {
    var classes := Classes(el.className);
    classes := SpliceAll(classes, name);
    el.className := Join(classes, " ");
  }

  /** `toggleCssClass(el, name)`: removes `name` if present, appends it otherwise; returns whether it was added. */
  method ToggleCssClass(el: Element, name: string) returns (add: bool)
    modifies el
    ensures (el.className, add) == Toggled(old(el.className), name)
    ensures add <==> !(name in Classes(old(el.className)))
  {
    var classes := Classes(el.className);
    var rest := SpliceAll(classes, name);
    add := |rest| == |classes|;
    if add {
      WithoutAbsent(classes, name);
      rest := rest + [name];
    }
    el.className := Join(rest, " ");
  }

  /** `setCssClass(node, className, include)`: add when `isIncluded` (the truthiness of `include`) holds, remove otherwise. */
  method SetCssClass(el: Element, name: string, isIncluded: bool)
    modifies el
    ensures el.className == if isIncluded then Added(old(el.className), name) else Removed(old(el.className), name)
  {
    if isIncluded {
      AddCssClass(el, name);
    } else {
      RemoveCssClass(el, name);
    }
  }

  lemma WithoutSplice(s: seq<string>, x: string, i: nat)
    requires i < |s| && s[i] == x
    ensures Without(s[..i] + s[i + 1..], x) == Without(s, x)
  {
    if i > 0 {
      assert (s[..i] + s[i + 1..])[1..] == s[1..][..i - 1] + s[1..][i..];
      WithoutSplice(s[1..], x, i - 1);
    } else {
      assert s[..i] + s[i + 1..] == s[1..];
    }
  }

  lemma WithoutAbsent(s: seq<string>, x: string)
    requires x !in s
    ensures Without(s, x) == s
  {
  }

  // ----- Properties -------------------------------------------------------

  /** A word that is a single token: non-empty and free of white space. */
  predicate Word(name: string) {
    name != [] && NoSpace(name)
  }

  /** After `addCssClass` the class is present. */
  lemma AddMakesPresent(c: string, name: string)
    requires Word(name)
    ensures name in Classes(Added(c, name))
  {
    if name !in Classes(c) {
      SplitEndsWith(c, name);
    }
  }

  /** `addCssClass` is idempotent for a single-word class name. */
  lemma AddIdempotent(c: string, name: string)
    requires Word(name)
    ensures Added(Added(c, name), name) == Added(c, name)
  {
    AddMakesPresent(c, name);
  }

  /** A class name containing white space is never found, so adding it again appends it again. */
  lemma AddSpacedNameRepeats(c: string, name: string)
    requires !NoSpace(name)
    ensures Added(c, name) == c + " " + name
  {
  }

  /** After `removeCssClass` a non-empty class is absent. */
  lemma RemoveMakesAbsent(c: string, name: string)
    requires name != []
    ensures name !in Classes(Removed(c, name))
  {
    var ts := Without(Classes(c), name);
    assert forall k :: 0 <= k < |ts| ==> NoSpace(ts[k]) by {
      forall k | 0 <= k < |ts| ensures NoSpace(ts[k]) {
        assert ts[k] in Classes(c);
      }
    }
    SplitJoinPieces(ts);
  }

  /**
   * `removeCssClass` keeps the other tokens in their order: when the class
   * attribute has no leading or trailing white space and another class
   * remains, the new token list is the old one without `name`.
   */
  lemma RemoveKeepsOthers(c: string, name: string)
    requires "" !in Classes(c)
    requires Without(Classes(c), name) != []
    ensures Classes(Removed(c, name)) == Without(Classes(c), name)
  {
    var ts := Without(Classes(c), name);
    forall k | 0 <= k < |ts| ensures ts[k] != [] && NoSpace(ts[k]) {
      assert ts[k] in Classes(c);
    }
    SplitJoinRoundTrip(ts);
  }

  /** `toggleCssClass` returns true exactly when it leaves the class present. */
  lemma ToggleResultIffPresent(c: string, name: string)
    requires Word(name)
    ensures Toggled(c, name).1 <==> name in Classes(Toggled(c, name).0)
  {
    if name in Classes(c) {
      RemoveMakesAbsent(c, name);
    } else {
      JoinSnoc(Classes(c), name, " ");
      SplitEndsWith(Join(Classes(c), " "), name);
    }
  }

  /** The result of a second `toggleCssClass` is the opposite of the first. */
  lemma ToggleTwiceFlips(c: string, name: string)
    requires Word(name)
    ensures Toggled(Toggled(c, name).0, name).1 == !Toggled(c, name).1
  {
    ToggleResultIffPresent(c, name);
  }
}
