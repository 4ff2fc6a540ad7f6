/**
 * The event emitter mixed into tern objects: `on`, `off`, `signal`,
 * `signalReturnFirst` and `hasHandler` over a table from event type to the
 * list of registered handlers. Handlers are compared by identity, so they are
 * modelled as identifiers. What a handler does when it is called is given by
 * a `Call` parameter of each `signal`: the behaviour may depend on the
 * handler, on how many handlers this signal has already called and on the
 * handler table at that moment (the signal's arguments and the rest of the
 * program state are fixed for the call, so they are part of the parameter).
 * A handler may register or remove handlers, also by signalling again on
 * the same emitter: only `on` and `off` change the table, so whatever it
 * does is a sequence of `Action`s. It returns a value that is either falsy
 * or a truthy value.
 */
module Signal {
  import opened JsText

  type Handler = nat

  /** What a handler may do to the emitter it is called on. */
  datatype Action = OnAction(onType: string, onHandler: Handler) | OffAction(offType: string, offHandler: Handler)

  /** The effect of calling a handler: the actions it performs, then its return value (`None` when falsy). */
  datatype Behaviour = Behaviour(actions: seq<Action>, result: Option<nat>)

  type Table = map<string, seq<Handler>>

  /** The behaviour of the handler called `k`-th by one signal, given the table it finds. */
  type Call = (Handler, nat, Table) -> Behaviour

  /** The handlers registered for `t`, the empty list when the type was never used. */
  function Registered(h: Table, t: string): seq<Handler> {
    if t in h then h[t] else []
  }

  /** The table after one action. */
  function Apply(h: Table, a: Action): Table {
    match a
    case OnAction(t, f) => h[t := Registered(h, t) + [f]]
    case OffAction(t, f) => if t in h then h[t := RemoveFirst(h[t], f)] else h
  }

  function ApplyAll(h: Table, acts: seq<Action>): Table
    decreases |acts|
  {
    if acts == [] then h else ApplyAll(Apply(h, acts[0]), acts[1..])
  }

  /** The table after the first `n` handlers of the snapshot `arr` have been called in order. */
  function Dispatch(h: Table, arr: seq<Handler>, behave: Call, n: nat): Table
    requires n <= |arr|
    decreases n
  {
    if n == 0 then h
    else
      var before := Dispatch(h, arr, behave, n - 1);
      ApplyAll(before, behave(arr[n - 1], n - 1, before).actions)
  }

  /** What the `k`-th call of the snapshot does, given the table the earlier calls left. */
  function CallAt(h: Table, arr: seq<Handler>, behave: Call, k: nat): Behaviour
    requires k < |arr|
  {
    behave(arr[k], k, Dispatch(h, arr, behave, k))
  }

  /**
   * How many handlers of `arr` `signalReturnFirst` calls from position `k`
   * on, and what it returns: it stops at the first truthy result and
   * returns it.
   */
  function FirstFrom(h: Table, arr: seq<Handler>, behave: Call, k: nat): (r: (nat, Option<nat>))
    requires k <= |arr|
    ensures k <= r.0 <= |arr| && (k < |arr| ==> k < r.0)
    ensures r.1.None? ==> r.0 == |arr|
    decreases |arr| - k
  {
    if k == |arr| then (k, None)
    else if CallAt(h, arr, behave, k).result.Some? then (k + 1, CallAt(h, arr, behave, k).result)
    else FirstFrom(h, arr, behave, k + 1)
  }

  /** How many handlers `signalReturnFirst` calls, and what it returns. */
  function FirstTruthy(h: Table, arr: seq<Handler>, behave: Call): (r: (nat, Option<nat>))
    ensures 0 <= r.0 <= |arr|
    ensures forall k :: 0 <= k < r.0 - 1 ==> CallAt(h, arr, behave, k).result.None?
    ensures r.1.Some? ==> r.0 >= 1 && r.1 == CallAt(h, arr, behave, r.0 - 1).result
    ensures r.1.None? ==> r.0 == |arr| && forall k :: 0 <= k < |arr| ==> CallAt(h, arr, behave, k).result.None?
  {
    FirstFromMeaning(h, arr, behave, 0);
    FirstFrom(h, arr, behave, 0)
  }

  /** The table after the handlers `signalReturnFirst` calls have run. */
  function DispatchFirst(h: Table, arr: seq<Handler>, behave: Call): Table {
    Dispatch(h, arr, behave, FirstTruthy(h, arr, behave).0)
  }

  class Emitter {
    /** `_handlers`: event type to registered handlers. */
    var handlers: Table

    constructor ()
      ensures handlers == map[]
    {
      handlers := map[];
    }

    /** `getHandlers(this, type)`: a copy of the registered list (or the shared empty list). */
    function GetHandlers(t: string): (r: seq<Handler>)
      reads this
      ensures t in handlers ==> r == handlers[t]
      ensures t !in handlers ==> r == []
    {
      Registered(handlers, t)
    }

    /** `hasHandler(type)`: the live list when it is non-empty, a falsy value otherwise. */
    function HasHandler(t: string): (r: Option<seq<Handler>>)
      reads this
      ensures r.Some? <==> GetHandlers(t) != []
      ensures r.Some? ==> r.value == GetHandlers(t)
    {
      if t in handlers && |handlers[t]| > 0 then Some(handlers[t]) else None
    }

    /** `on(type, f)`: appends `f` to the handlers of `type`. */
    method On(t: string, f: Handler)
      modifies this
      ensures handlers == Apply(old(handlers), OnAction(t, f))
      ensures GetHandlers(t) == old(GetHandlers(t)) + [f]
    {
      handlers := handlers[t := Registered(handlers, t) + [f]];
    }

    /** `off(type, f)`: removes the first registration of `f` for `type`, if any. */
    method Off(t: string, f: Handler)
      modifies this
      ensures handlers == Apply(old(handlers), OffAction(t, f))
    {
      if t in handlers {
        var arr := handlers[t];
        var i := 0;
        while i < |arr|
          invariant 0 <= i <= |arr|
          invariant f !in arr[..i]
          invariant handlers == old(handlers)
        {
          if arr[i] == f {
            assert IndexOf(arr, f, 0) == i by { IndexOfFirst(arr, f, i); }
            handlers := handlers[t := arr[..i] + arr[i + 1..]];
            return;
          }
          i := i + 1;
        }
        assert f !in arr by { assert arr[..i] == arr; }
        handlers := handlers[t := arr];
      }
    }

    /** Runs the actions one calling handler performs. */
    method Perform(acts: seq<Action>)
      modifies this
      ensures handlers == ApplyAll(old(handlers), acts)
    {
      var i := 0;
      while i < |acts|
        invariant 0 <= i <= |acts|
        invariant ApplyAll(handlers, acts[i..]) == ApplyAll(old(handlers), acts)
      {
        assert acts[i..][1..] == acts[i + 1..];
        match acts[i] {
          case OnAction(t, f) => On(t, f);
          case OffAction(t, f) => Off(t, f);
        }
        i := i + 1;
      }
    }

    /**
     * `signal(type, ...)`: calls the handlers registered when the signal
     * starts, in order; handlers added or removed meanwhile do not change
     * who is called.
     */
    method Signal(t: string, behave: Call) returns (called: seq<Handler>)
      modifies this
      ensures called == old(GetHandlers(t))
      ensures handlers == Dispatch(old(handlers), called, behave, |called|)
    {
      var arr := GetHandlers(t);
      called := [];
      var i := 0;
      while i < |arr|
        invariant 0 <= i <= |arr|
        invariant called == arr[..i]
        invariant handlers == Dispatch(old(handlers), arr, behave, i)
      {
        Perform(behave(arr[i], i, handlers).actions);
        called := called + [arr[i]];
        i := i + 1;
      }
      assert arr[..i] == arr;
    }

    /** `signalReturnFirst(type, ...)`: like `signal`, but stops at and returns the first truthy result. */
    method SignalReturnFirst(t: string, behave: Call) returns (result: Option<nat>, called: seq<Handler>)
      modifies this
      ensures var arr := old(GetHandlers(t));
        var first := FirstTruthy(old(handlers), arr, behave);
        called == arr[..first.0] && result == first.1
      ensures handlers == DispatchFirst(old(handlers), old(GetHandlers(t)), behave)
    {
      var arr := GetHandlers(t);
      called := [];
      var i := 0;
      while i < |arr|
        invariant 0 <= i <= |arr|
        invariant called == arr[..i]
        invariant forall k :: 0 <= k < i ==> CallAt(old(handlers), arr, behave, k).result.None?
        invariant handlers == Dispatch(old(handlers), arr, behave, i)
      {
        var b := behave(arr[i], i, handlers);
        Perform(b.actions);
        called := called + [arr[i]];
        if b.result.Some? {
          FirstTruthyAt(old(handlers), arr, behave, i);
          return b.result, called;
        }
        i := i + 1;
      }
      assert arr[..i] == arr;
      FirstTruthyNone(old(handlers), arr, behave);
      result := None;
    }
  }

  /** `signalReturnFirst` stops right after the first handler whose result is truthy. */
  lemma FirstTruthyAt(h: Table, arr: seq<Handler>, behave: Call, i: nat)
    requires i < |arr| && CallAt(h, arr, behave, i).result.Some?
    requires forall k :: 0 <= k < i ==> CallAt(h, arr, behave, k).result.None?
    ensures FirstTruthy(h, arr, behave) == (i + 1, CallAt(h, arr, behave, i).result)
  {
    FirstFromAt(h, arr, behave, i, 0);
  }

  lemma {:induction false} FirstFromAt(h: Table, arr: seq<Handler>, behave: Call, i: nat, k: nat)
    requires k <= i < |arr| && CallAt(h, arr, behave, i).result.Some?
    requires forall j :: k <= j < i ==> CallAt(h, arr, behave, j).result.None?
    ensures FirstFrom(h, arr, behave, k) == (i + 1, CallAt(h, arr, behave, i).result)
    decreases i - k
  {
    if k < i {
      FirstFromFalsy(h, arr, behave, k);
      FirstFromAt(h, arr, behave, i, k + 1);
    } else {
      FirstFromTruthy(h, arr, behave, k);
    }
  }

  /** From position `k` on, `signalReturnFirst` calls handlers up to and including the first truthy one. */
  lemma {:induction false} FirstFromMeaning(h: Table, arr: seq<Handler>, behave: Call, k: nat)
    requires k <= |arr|
    ensures var r := FirstFrom(h, arr, behave, k);
      (forall j :: k <= j < r.0 - 1 ==> CallAt(h, arr, behave, j).result.None?) &&
      (r.1.Some? ==> k < r.0 && r.1 == CallAt(h, arr, behave, r.0 - 1).result) &&
      (r.1.None? ==> forall j :: k <= j < |arr| ==> CallAt(h, arr, behave, j).result.None?)
    decreases |arr| - k
  {
    if k < |arr| {
      if CallAt(h, arr, behave, k).result.None? {
        FirstFromFalsy(h, arr, behave, k);
        FirstFromMeaning(h, arr, behave, k + 1);
      } else {
        FirstFromTruthy(h, arr, behave, k);
      }
    }
  }

  lemma FirstFromFalsy(h: Table, arr: seq<Handler>, behave: Call, k: nat)
    requires k < |arr| && CallAt(h, arr, behave, k).result.None?
    ensures FirstFrom(h, arr, behave, k) == FirstFrom(h, arr, behave, k + 1)
  {
  }

  lemma FirstFromTruthy(h: Table, arr: seq<Handler>, behave: Call, k: nat)
    requires k < |arr| && CallAt(h, arr, behave, k).result.Some?
    ensures FirstFrom(h, arr, behave, k) == (k + 1, CallAt(h, arr, behave, k).result)
  {
  }

  /** With no truthy result, `signalReturnFirst` calls the whole snapshot. */
  lemma FirstTruthyNone(h: Table, arr: seq<Handler>, behave: Call)
    requires forall k :: 0 <= k < |arr| ==> CallAt(h, arr, behave, k).result.None?
    ensures FirstTruthy(h, arr, behave) == (|arr|, None)
  {
  }

  lemma IndexOfFirst(s: seq<Handler>, f: Handler, i: nat)
    requires i < |s| && s[i] == f && f !in s[..i]
    ensures IndexOf(s, f, 0) == i
  {
    assert forall k :: 0 <= k < i ==> s[k] != f by {
      forall k | 0 <= k < i ensures s[k] != f { assert s[..i][k] == s[k]; }
    }
  }

  // ----- Properties -------------------------------------------------------

  /** `off` undoes an `on` of a handler that was not registered for that type. */
  lemma OffUndoesOn(h: Table, t: string, f: Handler)
    requires f !in Registered(h, t)
    ensures Registered(Apply(Apply(h, OnAction(t, f)), OffAction(t, f)), t) == Registered(h, t)
  {
    var s := Registered(h, t);
    var s' := s + [f];
    assert IndexOf(s', f, 0) == |s| by { IndexOfFirst(s', f, |s|); assert s'[..|s|] == s; }
    assert s'[..|s|] == s;
  }

  /** `on` and `off` change only the list of the type they name. */
  lemma ApplyOtherType(h: Table, a: Action, u: string)
    requires (a.OnAction? && a.onType != u) || (a.OffAction? && a.offType != u)
    ensures Registered(Apply(h, a), u) == Registered(h, u)
  {
  }

  /** Registering a handler `n` times and removing it once leaves `n - 1` registrations. */
  lemma OffRemovesOneRegistration(s: seq<Handler>, f: Handler)
    requires f in s
    ensures multiset(RemoveFirst(s, f))[f] == multiset(s)[f] - 1
  {
  }

  /**
   * `hasHandler` is falsy exactly when `signalReturnFirst` would call nobody
   * (`signal` calls the whole list `getHandlers` returns); then neither
   * `signal` nor `signalReturnFirst` changes the handler table.
   */
  lemma HasHandlerIffSignalCalls(e: Emitter, t: string, behave: Call)
    ensures e.HasHandler(t).None? <==> FirstTruthy(e.handlers, e.GetHandlers(t), behave).0 == 0
    ensures e.HasHandler(t).None? ==>
      Dispatch(e.handlers, e.GetHandlers(t), behave, |e.GetHandlers(t)|) == e.handlers &&
      DispatchFirst(e.handlers, e.GetHandlers(t), behave) == e.handlers
  {
  }

  /** A handler `f` that removes itself from `t` on the first call of a signal and does nothing later. */
  function RemoveSelfOnce(f: Handler, t: string): Call {
    (g: Handler, k: nat, h: Table) => if g == f && k == 0 then Behaviour([OffAction(t, f)], None) else Behaviour([], None)
  }

  /**
   * A handler registered twice that removes itself on its first call is
   * still called twice by one signal: the snapshot is taken before any
   * handler runs. Afterwards it is registered once.
   */
  lemma SelfRemovalKeepsSnapshot(f: Handler, t: string)
    ensures Dispatch(map[t := [f, f]], [f, f], RemoveSelfOnce(f, t), 2) == map[t := [f]]
  {
    var h := map[t := [f, f]];
    var behave := RemoveSelfOnce(f, t);
    assert Dispatch(h, [f, f], behave, 1) == map[t := [f]] by {
      assert Dispatch(h, [f, f], behave, 0) == h;
      assert behave(f, 0, h).actions == [OffAction(t, f)];
      assert IndexOf([f, f], f, 0) == 0;
      assert RemoveFirst([f, f], f) == [f];
      assert Apply(h, OffAction(t, f)) == map[t := [f]];
      assert ApplyAll(h, [OffAction(t, f)]) == ApplyAll(map[t := [f]], []);
    }
    assert behave(f, 1, map[t := [f]]).actions == [];
  }
}
