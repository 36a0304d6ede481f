/**
 * Callback slots: the `Delegated0` ... `Delegated4` property wrappers.
 *
 * A slot holds exactly one callback, which starts as a no-op. It can be replaced by a
 * closure as given (`manuallyDelegate`), by a closure bound to a target object that the
 * slot holds weakly (`delegate(to:with:)`), or reset to the no-op (`removeDelegate`).
 *
 * Closures are caller code, so the model does not run them: it identifies each closure
 * body by an `FnId` and records each run as an `Effect`. Object lifetime is not under the
 * slot's control either: the set of objects still alive is a parameter of invocation.
 */
module Delegated {
  import opened Wrappers

  /** Identity of an object that a slot may reference weakly. */
  type ObjId = nat

  /** Identity of a closure body supplied by the slot's owner. */
  type FnId = nat

  /** What a slot currently holds. */
  datatype Callback =
    | NoOp                           // `{ _ in }`: the initial value and the value after removeDelegate
    | Manual(f: FnId)                // the closure stored as given by manuallyDelegate
    | Bound(target: ObjId, f: FnId)  // `{ [weak target] input in ... }` built by delegate(to:with:)

  /** One run of a closure body: the closure, the target it was handed (if bound), the input. */
  datatype Effect<I> = Ran(f: FnId, target: Option<ObjId>, input: I)

  /**
   * What calling a slot's callback with `input` does while exactly the objects in `alive`
   * exist: a bound callback first checks that its target is still alive and otherwise
   * returns without running anything.
   */
  function Invoke<I>(cb: Callback, alive: set<ObjId>, input: I): (effects: seq<Effect<I>>)
    ensures |effects| <= 1
    ensures effects == [] <==> cb.NoOp? || (cb.Bound? && cb.target !in alive)
    ensures forall e :: e in effects ==>
      !cb.NoOp? && e.f == cb.f && e.input == input &&
      e.target == (if cb.Bound? then Some(cb.target) else None)
  {
    match cb
    case NoOp => []
    case Manual(f) => [Ran(f, None, input)]
    case Bound(target, f) => if target in alive then [Ran(f, Some(target), input)] else []
  }

  /**
   * Objects never come back to life, so once a bound target is gone every later
   * invocation, whatever else has been released meanwhile, is a no-op.
   */
  lemma ReleasedTargetStaysInert<I>(cb: Callback, aliveThen: set<ObjId>, aliveLater: set<ObjId>, input: I)
    requires cb.Bound? && cb.target !in aliveThen
    requires aliveLater <= aliveThen
    ensures Invoke(cb, aliveLater, input) == []
  {
  }

  /** A write to a slot: `delegate(to:with:)`, `manuallyDelegate(with:)` or `removeDelegate()`. */
  datatype SlotOp = Delegate(target: ObjId, f: FnId) | Manually(f: FnId) | Remove

  /** The callback a write leaves in the slot. */
  function Apply(cb: Callback, op: SlotOp): (next: Callback)
    ensures op.Remove? ==> next == NoOp
    ensures op.Manually? ==> next == Manual(op.f)
    ensures op.Delegate? ==> next == Bound(op.target, op.f)
  {
    match op
    case Delegate(target, f) => Bound(target, f)
    case Manually(f) => Manual(f)
    case Remove => NoOp
  }

  /** The callback after a run of writes, starting from `cb`. */
  function Replay(cb: Callback, ops: seq<SlotOp>): Callback
    decreases |ops|
  {
    if ops == [] then cb else Replay(Apply(cb, ops[0]), ops[1..])
  }

  /** The last write wins: nothing written before it, nor the initial callback, survives. */
  lemma {:induction false} LastWriteWins(cb: Callback, ops: seq<SlotOp>)
    requires ops != []
    ensures Replay(cb, ops) == Apply(NoOp, ops[|ops| - 1])
    decreases |ops|
  {
    if |ops| > 1 {
      LastWriteWins(Apply(cb, ops[0]), ops[1..]);
    }
  }

  /**
   * Whatever was written before, after `manuallyDelegate(with: f)` a call runs `f` exactly
   * once, and after `removeDelegate()` a call runs nothing.
   */
  lemma LastWriteRuns<I>(cb: Callback, earlier: seq<SlotOp>, f: FnId, alive: set<ObjId>, input: I)
    ensures Invoke(Replay(cb, earlier + [Manually(f)]), alive, input) == [Ran(f, None, input)]
    ensures Invoke(Replay(cb, earlier + [Remove]), alive, input) == []
  {
    LastWriteWins(cb, earlier + [Manually(f)]);
    LastWriteWins(cb, earlier + [Remove]);
  }

  /**
   * The slot of arity one (`Delegated1<Input>`, also spelled `Delegated`). The other
   * arities are the same class at a tuple input; see the synonyms below.
   */
  class Delegated<I> {
    var callback: Callback

    /** A fresh slot does nothing when called. */
    constructor ()
      ensures callback == NoOp
    {
      callback := NoOp;
    }

    /** `delegate(to:with:)`: replaces the callback by `f` bound weakly to `target`. */
    method DelegateTo(target: ObjId, f: FnId)
      modifies this
      ensures callback == Apply(old(callback), Delegate(target, f)) == Bound(target, f)
    {
      callback := Bound(target, f);
    }

    /** `manuallyDelegate(with:)`: replaces the callback by `f` as given. */
    method ManuallyDelegate(f: FnId)
      modifies this
      ensures callback == Apply(old(callback), Manually(f)) == Manual(f)
    {
      callback := Manual(f);
    }

    /** `removeDelegate()`: restores the no-op, whatever was set before. */
    method RemoveDelegate()
      modifies this
      ensures callback == Apply(old(callback), Remove) == NoOp
    {
      callback := NoOp;
    }

    /**
     * Calling `wrappedValue` with `input`: runs the current callback once, or nothing when
     * it is the no-op or its target is gone. The slot and the liveness of objects are
     * left as they were.
     */
    method Call(input: I, alive: set<ObjId>) returns (effects: seq<Effect<I>>)
      ensures effects == Invoke(callback, alive, input)
      ensures callback.NoOp? ==> effects == []
      ensures callback.Manual? ==> effects == [Ran(callback.f, None, input)]
      ensures callback.Bound? && callback.target in alive ==>
        effects == [Ran(callback.f, Some(callback.target), input)]
      ensures callback.Bound? && callback.target !in alive ==> effects == []
    {
      effects := Invoke(callback, alive, input);
    }
  }

  /** `Delegated0`: a callback without input. */
  type Delegated0 = Delegated<()>

  /** `Delegated1<Input>`. */
  type Delegated1<I> = Delegated<I>

  /** `Delegated2<Input1, Input2>`. */
  type Delegated2<I1, I2> = Delegated<(I1, I2)>

  /** `Delegated3<Input1, Input2, Input3>`. */
  type Delegated3<I1, I2, I3> = Delegated<(I1, I2, I3)>

  /** `Delegated4<Input1, Input2, Input3, Input4>`. */
  type Delegated4<I1, I2, I3, I4> = Delegated<(I1, I2, I3, I4)>
}
