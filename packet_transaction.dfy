/**
 * A stand-in for the generic request/response engine that a socket-bound
 * transaction delegates to. Only the members the socket-bound transaction
 * calls are modelled: `Send`, `SetState`, `HandlePotentialResponse`,
 * `Cancel`, `Dispose` and the `request`/`response` slots. The engine's own
 * source is not part of this model, so what each member does here is the
 * minimal behaviour the transaction design describes, not behaviour derived
 * from its code.
 */
module PacketTransactions {
  import opened Wrappers

  datatype TransactionState = Created | Running | Succeeded | Failed | Cancelled

  /** A terminal state is one the engine itself never leaves. */
  predicate IsTerminal(s: TransactionState) {
    s == Succeeded || s == Failed || s == Cancelled
  }

  class PacketTransaction<P> {
    var request: P
    var response: Option<P>
    var state: TransactionState
    /** Set by `Dispose`: teardown has been requested. */
    var disposed: bool
    const timeout: int
    const retries: int
    /** How many times the engine's own `Send` has been invoked. */
    ghost var sendCalls: nat

    /**
     * No response before the engine has started or while it is still
     * waiting, a response once it has succeeded, and no live transaction
     * after disposal.
     */
    ghost predicate Valid()
      reads this
    {
      ((state == Created || state == Running) ==> response.None?) &&
      (state == Succeeded ==> response.Some?) &&
      (disposed ==> IsTerminal(state))
    }

    constructor (request: P, timeout: int, retries: int)
      ensures Valid()
      ensures this.request == request && response == None && state == Created
      ensures !disposed && sendCalls == 0
      ensures this.timeout == timeout && this.retries == retries
    {
      this.request := request;
      this.timeout := timeout;
      this.retries := retries;
      response := None;
      state := Created;
      disposed := false;
      sendCalls := 0;
    }

    /** Replaces the outbound request (the engine's request accessor). */
    method SetRequest(p: P)
      modifies this
      ensures request == p
      ensures response == old(response) && state == old(state)
      ensures disposed == old(disposed) && sendCalls == old(sendCalls)
    {
      request := p;
    }

    /**
     * Starts the transaction. Only a transaction that has not been started
     * can be; any other state rejects the call and keeps its state.
     */
    method Send() returns (ok: bool)
      requires Valid()
      modifies this
      ensures Valid()
      ensures ok <==> old(state) == Created
      ensures state == (if ok then Running else old(state))
      ensures sendCalls == old(sendCalls) + 1
      ensures request == old(request) && response == old(response) && disposed == old(disposed)
    {
      sendCalls := sendCalls + 1;
      ok := state == Created;
      if ok {
        state := Running;
      }
    }

    /** Unconditionally moves the engine to state `s`. */
    method SetState(s: TransactionState)
      modifies this
      ensures state == s
      ensures request == old(request) && response == old(response)
      ensures disposed == old(disposed) && sendCalls == old(sendCalls)
    {
      state := s;
    }

    /**
     * Offers an inbound packet. The packet is accepted exactly when the
     * engine is waiting and the correlation predicate `check` holds for it;
     * an accepted packet becomes the response and the engine succeeds, and
     * a rejected one leaves the engine as it was.
     */
    method HandlePotentialResponse(packet: P, check: P -> bool) returns (accepted: bool)
      requires Valid()
      modifies this
      ensures Valid()
      ensures accepted <==> old(state) == Running && check(packet)
      ensures accepted ==> state == Succeeded && response == Some(packet)
      ensures !accepted ==> state == old(state) && response == old(response)
      ensures request == old(request) && disposed == old(disposed) && sendCalls == old(sendCalls)
    {
      accepted := state == Running && check(packet);
      if accepted {
        response := Some(packet);
        state := Succeeded;
      }
    }

    /** Cancels a transaction that has not reached a terminal state; otherwise does nothing. */
    method Cancel()
      requires Valid()
      modifies this
      ensures Valid()
      ensures state == (if IsTerminal(old(state)) then old(state) else Cancelled)
      ensures request == old(request) && response == old(response)
      ensures disposed == old(disposed) && sendCalls == old(sendCalls)
    {
      if !IsTerminal(state) {
        state := Cancelled;
      }
    }

    /**
     * Marks the transaction for teardown, cancelling it first when it is
     * not yet terminal. A second call changes nothing.
     */
    method Dispose()
      requires Valid()
      modifies this
      ensures Valid()
      ensures disposed
      ensures state == (if old(disposed) || IsTerminal(old(state)) then old(state) else Cancelled)
      ensures request == old(request) && response == old(response) && sendCalls == old(sendCalls)
    {
      if !disposed {
        Cancel();
        disposed := true;
      }
    }
  }
}
