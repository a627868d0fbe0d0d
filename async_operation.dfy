/**
 * The lifecycle of an asynchronous operation: a three-state machine kept in a stored
 * `state` field, the readiness, execution and completion flags derived from it, and
 * the `start` and `cancel` transitions. The superclass readiness is an input and the
 * operation's `main` body is an opaque step that may leave any state behind.
 */
module AsyncOperations {
  import opened FoundationText

  datatype State = Ready | Executing | Finished
  {
    /** The case name: a non-empty word of lower-case ASCII letters. */
    function RawValue(): (raw: string)
      ensures |raw| > 0 && forall i :: 0 <= i < |raw| ==> 'a' <= raw[i] <= 'z'
    {
      match this
      case Ready => "ready"
      case Executing => "executing"
      case Finished => "finished"
    }

    /** The key path whose change is announced when the operation enters or leaves
        this state: `"is"` followed by the capitalized raw value. */
    function KeyPath(): (path: string)
      ensures this == Ready ==> path == "isReady"
      ensures this == Executing ==> path == "isExecuting"
      ensures this == Finished ==> path == "isFinished"
    {
      CapitalizedLowerWord(RawValue());
      "is" + Capitalized(RawValue())
    }
  }

  /** Distinct states announce distinct key paths. */
  lemma KeyPathInjective(s: State, t: State)
    ensures s.KeyPath() == t.KeyPath() ==> s == t
  {
    if s != t {
      assert |s.KeyPath()| != |t.KeyPath()|;
    }
  }

  class AsyncOperation {
    var state: State
    /** The flag the superclass sets on `cancel()`. */
    var isCancelled: bool
    /** How many times the operation's `main` body has run. */
    var mainRuns: nat

    /** A new operation is ready, not cancelled, and has not run. */
    constructor()
      ensures state == Ready && !isCancelled && mainRuns == 0
    {
      state := Ready;
      isCancelled := false;
      mainRuns := 0;
    }

    /** The operation always reports itself as asynchronous. */
    function IsAsynchronous(): (b: bool)
      ensures b
    {
      true
    }

    /** Ready to start: the superclass is ready (its dependencies are done) and the
        operation is still in its ready state. */
    predicate IsReady(superIsReady: bool)
      reads this
    {
      superIsReady && state == Ready
    }

    predicate IsExecuting()
      reads this
    {
      state == Executing
    }

    predicate IsFinished()
      reads this
    {
      state == Finished
    }

    /** The opaque `main` body: it runs once and may leave any state behind. */
    method RunMain(stateLeftByMain: State)
      modifies this
      ensures state == stateLeftByMain && isCancelled == old(isCancelled)
      ensures mainRuns == old(mainRuns) + 1
    {
      state := stateLeftByMain;
      mainRuns := mainRuns + 1;
    }

    /** `start()`: a cancelled operation finishes without running its body; any other
        runs `main` and is then executing, whatever `main` left behind. */
    method Start(stateLeftByMain: State)
      modifies this
      ensures isCancelled == old(isCancelled)
      ensures old(isCancelled) ==> state == Finished && mainRuns == old(mainRuns)
      ensures !old(isCancelled) ==> state == Executing && mainRuns == old(mainRuns) + 1
    {
      if isCancelled {
        state := Finished;
        return;
      }
      RunMain(stateLeftByMain);
      state := Executing;
    }

    /** `cancel()`: the superclass records the cancellation, then the operation is finished. */
    method Cancel()
      modifies this
      ensures isCancelled && state == Finished && mainRuns == old(mainRuns)
    {
      isCancelled := true;
      state := Finished;
    }
  }

  /** At most one of the three flags holds, and exactly one of the states is current. */
  lemma FlagsExclusive(op: AsyncOperation, superIsReady: bool)
    ensures !(op.IsReady(superIsReady) && op.IsExecuting())
    ensures !(op.IsReady(superIsReady) && op.IsFinished())
    ensures !(op.IsExecuting() && op.IsFinished())
    ensures op.IsExecuting() || op.IsFinished() || op.state == Ready
  {
  }

  /** A new operation is ready exactly when its superclass is, and is neither executing,
      finished nor cancelled. */
  method NewOperationFlags(superIsReady: bool) returns (ready: bool, executing: bool, finished: bool, cancelled: bool)
    ensures ready == superIsReady && !executing && !finished && !cancelled
  {
    var op := new AsyncOperation();
    ready, executing, finished, cancelled := op.IsReady(superIsReady), op.IsExecuting(), op.IsFinished(), op.isCancelled;
  }

  /** An operation cancelled before it starts finishes without running its body,
      whatever its body would have left behind. */
  method CancelBeforeStart(stateLeftByMain: State) returns (finished: bool, executing: bool, mainRuns: nat)
    ensures finished && !executing && mainRuns == 0
  {
    var op := new AsyncOperation();
    op.Cancel();
    op.Start(stateLeftByMain);
    finished, executing, mainRuns := op.IsFinished(), op.IsExecuting(), op.mainRuns;
  }

  /** An operation started without being cancelled runs its body once and is executing,
      even when its body already marked it finished. */
  method StartWithoutCancel(stateLeftByMain: State) returns (finished: bool, executing: bool, mainRuns: nat)
    ensures !finished && executing && mainRuns == 1
  {
    var op := new AsyncOperation();
    op.Start(stateLeftByMain);
    finished, executing, mainRuns := op.IsFinished(), op.IsExecuting(), op.mainRuns;
  }

  /** Cancelling a running operation finishes it; its body has run exactly once and a
      later `start()` does not run it again. */
  method CancelAfterStart(stateLeftByMain: State) returns (finished: bool, readyAgain: bool, mainRuns: nat)
    ensures finished && !readyAgain && mainRuns == 1
  {
    var op := new AsyncOperation();
    op.Start(stateLeftByMain);
    op.Cancel();
    op.Start(stateLeftByMain);
    finished, readyAgain, mainRuns := op.IsFinished(), op.IsReady(true), op.mainRuns;
  }
}
