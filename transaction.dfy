/**
 * The socket-bound transaction: binds the engine to a socket and a peer
 * address, sends its request over the socket, correlates inbound packets,
 * claims the one that answers it and re-emits the response to its owner.
 * The engine is held by composition (`base`); the real socket is reduced to
 * its local address, a transmit to its integer result, emission to a log.
 */
module NetTransaction {
  import opened Wrappers
  import opened Net
  import opened PacketTransactions
  import opened TransactionModel

  class Transaction {
    const socket: Socket
    const peerAddress: Address
    const base: PacketTransaction<Packet>
    /** Responses emitted to the owner, in order. */
    ghost var emitted: seq<Packet>
    /** Transmit attempts handed to the socket, in order. */
    ghost var transmits: seq<Datagram>

    ghost function View(): View
      reads this, base
    {
      TransactionModel.View(base.state, base.request, base.response, base.disposed,
                            base.sendCalls, emitted, transmits)
    }

    ghost predicate Valid()
      reads this, base
    {
      Consistent(View())
    }

    /** A transaction on `socket` talking to `peerAddress`, waiting to be sent. */
    constructor (socket: Socket, peerAddress: Address, timeout: int := 10000, retries: int := 1)
      ensures Valid() && fresh(base)
      ensures this.socket == socket && this.peerAddress == peerAddress
      ensures base.timeout == timeout && base.retries == retries
      ensures View() == Initial(EmptyPacket)
    {
      this.socket := socket;
      this.peerAddress := peerAddress;
      base := new PacketTransaction(EmptyPacket, timeout, retries);
      emitted := [];
      transmits := [];
    }

    /** The peer given at construction; the field is constant. */
    function PeerAddress(): (a: Address)
      ensures a == peerAddress
    {
      peerAddress
    }

    /**
     * Transmits the request to the peer. A positive transmit result returns
     * whatever the engine's send returns and forces no failure; otherwise
     * the transaction fails, false is returned and the engine's send is not
     * invoked.
     */
    method Send(transmitResult: int) returns (ok: bool)
      requires Valid()
      modifies this, base
      ensures Valid()
      ensures (View(), ok) == SendStep(old(View()), peerAddress, transmitResult)
      ensures transmits == old(transmits) + [Datagram(base.request, peerAddress)]
      ensures transmitResult > 0 ==>
        ok == (old(base.state) == Created) && base.sendCalls == old(base.sendCalls) + 1 &&
        base.state == (if ok then Running else old(base.state))
      ensures transmitResult <= 0 ==>
        !ok && base.state == Failed && base.sendCalls == old(base.sendCalls)
    {
      transmits := transmits + [Datagram(base.request, peerAddress)];
      if transmitResult > 0 {
        ok := base.Send();
        return;
      }
      base.SetState(Failed);
      ok := false;
    }

    /** Cancels through the engine. */
    method Cancel()
      requires Valid()
      modifies base
      ensures Valid()
      ensures View() == CancelStep(old(View()))
    {
      base.Cancel();
    }

    /** Requests deferred teardown through the engine. */
    method Dispose()
      requires Valid()
      modifies base
      ensures Valid()
      ensures View() == DisposeStep(old(View()))
    {
      base.Dispose();
    }

    /**
     * Offers an inbound packet to the engine. The packet is claimed, so
     * that no later listener sees it, exactly when the engine accepts it;
     * a packet that is passed on leaves the transaction unchanged.
     */
    method OnPacket(packet: Packet) returns (p: Propagation)
      requires Valid()
      modifies this, base
      ensures Valid()
      ensures (View(), p) == PacketStep(old(View()), socket.address, peerAddress, packet)
      ensures p == Claimed <==> old(base.state) == Running && CheckResponse(packet)
      ensures p == Continue ==> View() == old(View())
    {
      var accepted := base.HandlePotentialResponse(packet, (q: Packet) => CheckResponse(q));
      if accepted {
        OnResponse();
        p := Claimed;
      } else {
        p := Continue;
      }
    }

    /** Emits the stored response to the owner, once per call. */
    method OnResponse()
      requires base.response.Some?
      modifies this
      ensures emitted == old(emitted) + [base.response.value]
      ensures transmits == old(transmits)
    {
      emitted := emitted + [base.response.value];
    }

    /**
     * The base correlation check: a packet without delivery metadata never
     * matches; otherwise it matches exactly when it arrived on the bound
     * socket and came from the peer.
     */
    function CheckResponse(packet: Packet): (r: bool)
      ensures packet.info.None? ==> !r
      ensures r <==> Correlates(socket.address, peerAddress, packet)
    {
      match packet.info
      case None => false
      case Some(info) => socket.address == info.socket.address && peerAddress == info.peerAddress
    }

    /** Whether `OnPacket(packet)` would claim the packet in the current state. */
    ghost predicate WouldClaim(packet: Packet)
      reads base
    {
      base.state == Running && CheckResponse(packet)
    }
  }

  /** For each listener in order, whether it would claim `packet` now. */
  ghost function ClaimFlags(listeners: seq<Transaction>, packet: Packet): (flags: seq<bool>)
    reads set t | t in listeners :: t.base
    ensures |flags| == |listeners|
    ensures forall i :: 0 <= i < |listeners| ==> flags[i] == listeners[i].WouldClaim(packet)
  {
    if listeners == [] then []
    else [listeners[0].WouldClaim(packet)] + ClaimFlags(listeners[1..], packet)
  }

  /** The view of each listener, in order. */
  ghost function Views(listeners: seq<Transaction>): (views: seq<View>)
    reads set t | t in listeners
    reads set t | t in listeners :: t.base
    ensures |views| == |listeners|
    ensures forall i :: 0 <= i < |listeners| ==> views[i] == listeners[i].View()
  {
    if listeners == [] then []
    else [listeners[0].View()] + Views(listeners[1..])
  }

  /** No two listeners are the same transaction or share an engine. */
  ghost predicate Separate(listeners: seq<Transaction>) {
    forall i, j :: 0 <= i < j < |listeners| ==>
      listeners[i] != listeners[j] && listeners[i].base != listeners[j].base
  }

  /**
   * Offers `packet` to the listener at index `i` alone: that listener acts
   * as `OnPacket` says and every other listener is left as it was.
   */
  method Offer(listeners: seq<Transaction>, i: nat, packet: Packet) returns (p: Propagation)
    requires i < |listeners|
    requires forall j :: 0 <= j < |listeners| ==> listeners[j].Valid()
    requires Separate(listeners)
    modifies listeners[i], listeners[i].base
    ensures forall j :: 0 <= j < |listeners| ==> listeners[j].Valid()
    ensures forall j :: 0 <= j < |listeners| && j != i ==> listeners[j].View() == old(listeners[j].View())
    ensures p == Claimed <==> old(listeners[i].WouldClaim(packet))
    ensures var t := listeners[i];
      t.View() == PacketStep(old(t.View()), t.socket.address, t.peerAddress, packet).0
  {
    var t := listeners[i];
    p := t.OnPacket(packet);
    forall j | 0 <= j < |listeners| && j != i
      ensures listeners[j].Valid() && listeners[j].View() == old(listeners[j].View())
    {
      assert listeners[j] != t && listeners[j].base != t.base;
    }
  }

  /**
   * Delivers one inbound packet to the transactions listening on a socket,
   * in subscription order, and stops at the first that claims it. The
   * claimer is the first listener that would claim; listeners before it
   * passed the packet on unchanged and listeners after it were not invoked.
   */
  method Dispatch(listeners: seq<Transaction>, packet: Packet) returns (claimer: Option<nat>)
    requires forall i :: 0 <= i < |listeners| ==> listeners[i].Valid()
    requires Separate(listeners)
    modifies set t | t in listeners
    modifies set t | t in listeners :: t.base
    ensures claimer == FirstClaim(old(ClaimFlags(listeners, packet)))
    ensures forall i :: 0 <= i < |listeners| ==> listeners[i].Valid()
    ensures forall i :: 0 <= i < |listeners| && claimer != Some(i) ==>
      listeners[i].View() == old(listeners[i].View())
    ensures claimer.Some? ==>
      var t := listeners[claimer.value];
      t.View() == PacketStep(old(t.View()), t.socket.address, t.peerAddress, packet).0
  {
    ghost var flags := ClaimFlags(listeners, packet);
    ghost var before := Views(listeners);
    claimer := None;
    var i := 0;
    while i < |listeners| && claimer.None?
      invariant 0 <= i <= |listeners|
      invariant claimer.None? ==> forall j :: 0 <= j < i ==> !flags[j]
      invariant claimer.Some? ==> claimer.value == i - 1 && flags[i - 1]
      invariant claimer.Some? ==> forall j :: 0 <= j < i - 1 ==> !flags[j]
      invariant forall j :: 0 <= j < |listeners| ==> listeners[j].Valid()
      invariant forall j :: 0 <= j < |listeners| && claimer != Some(j) ==>
        listeners[j].View() == before[j]
      invariant claimer.Some? ==>
        var t := listeners[claimer.value];
        t.View() == PacketStep(before[claimer.value], t.socket.address, t.peerAddress, packet).0
    {
      assert listeners[i].WouldClaim(packet) == flags[i];
      var p := Offer(listeners, i, packet);
      if p == Claimed {
        claimer := Some(i);
      }
      i := i + 1;
    }
    FirstClaimIsUnique(flags, claimer);
  }
}
