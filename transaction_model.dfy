/**
 * The socket-bound transaction as values: what a transaction looks like
 * from outside (`View`), one function per operation giving the view after
 * it, and lemmas about any sequence of operations. The `Transaction` class
 * proves each of its methods against these functions.
 */
module TransactionModel {
  import opened Wrappers
  import opened Net
  import opened PacketTransactions

  /**
   * The correlation rule: a packet answers a transaction bound to a socket
   * with local address `local` and talking to `peer` when it carries
   * delivery metadata, was received on that socket, and was sent by `peer`.
   */
  predicate Correlates(local: Address, peer: Address, packet: Packet) {
    packet.info.Some? && packet.info.value.socket.address == local && packet.info.value.peerAddress == peer
  }

  /** Two transactions on one socket with different peers never both match a packet. */
  lemma CorrelationSeparatesPeers(local: Address, a: Address, b: Address, packet: Packet)
    requires a != b
    ensures !(Correlates(local, a, packet) && Correlates(local, b, packet))
  {
  }

  /**
   * Everything observable about one transaction: the engine's state,
   * request, response and disposal flag, how often the engine's send was
   * invoked, the responses emitted to the owner and the transmit attempts
   * made on the socket.
   */
  datatype View = View(
    state: TransactionState,
    request: Packet,
    response: Option<Packet>,
    disposed: bool,
    baseSends: nat,
    emitted: seq<Packet>,
    transmits: seq<Datagram>)

  /** The invariant every reachable view keeps. */
  predicate Consistent(v: View) {
    ((v.state == Created || v.state == Running) ==> v.response.None?) &&
    (v.state == Succeeded ==> v.response.Some?) &&
    (v.disposed ==> IsTerminal(v.state)) &&
    v.emitted == (if v.response.Some? then [v.response.value] else [])
  }

  /** A freshly constructed transaction. */
  function Initial(request: Packet): (v: View)
    ensures Consistent(v)
  {
    View(Created, request, None, false, 0, [], [])
  }

  /**
   * `send()`: the request is always transmitted to `peer`. A positive
   * transmit result hands over to the engine's send, whose verdict is
   * returned; any other result forces `Failed` and returns false without
   * invoking the engine's send.
   */
  function SendStep(v: View, peer: Address, transmitResult: int): (View, bool) {
    var sent := v.(transmits := v.transmits + [Datagram(v.request, peer)]);
    if transmitResult > 0 then
      var ok := v.state == Created;
      (sent.(state := if ok then Running else v.state, baseSends := v.baseSends + 1), ok)
    else
      (sent.(state := Failed), false)
  }

  /**
   * `onPacket()`: a waiting transaction claims a correlated packet, stores
   * it as the response and emits it; any other packet is passed on and
   * leaves the transaction untouched.
   */
  function PacketStep(v: View, local: Address, peer: Address, packet: Packet): (View, Propagation) {
    if v.state == Running && Correlates(local, peer, packet) then
      (v.(state := Succeeded, response := Some(packet), emitted := v.emitted + [packet]), Claimed)
    else
      (v, Continue)
  }

  /** `cancel()`: a transaction that has not finished becomes `Cancelled`. */
  function CancelStep(v: View): View {
    if IsTerminal(v.state) then v else v.(state := Cancelled)
  }

  /** `dispose()`: cancel if unfinished and mark for teardown; idempotent. */
  function DisposeStep(v: View): View {
    if v.disposed then v else CancelStep(v).(disposed := true)
  }

  /** The operations an owner or the socket can perform on a transaction. */
  datatype Event = Transmit(result: int) | Inbound(packet: Packet) | CancelRequested | DisposeRequested

  /** One operation: the resulting view and whether it claimed a packet (1) or not (0). */
  function Step(v: View, local: Address, peer: Address, e: Event): (View, nat) {
    match e
    case Transmit(result) => (SendStep(v, peer, result).0, 0)
    case Inbound(packet) =>
      var (w, p) := PacketStep(v, local, peer, packet);
      (w, if p == Claimed then 1 else 0)
    case CancelRequested => (CancelStep(v), 0)
    case DisposeRequested => (DisposeStep(v), 0)
  }

  /** A run of operations: the final view and how many packets were claimed. */
  function Run(v: View, local: Address, peer: Address, events: seq<Event>): (View, nat)
    decreases |events|
  {
    if events == [] then (v, 0)
    else
      var (w, c) := Step(v, local, peer, events[0]);
      var (z, d) := Run(w, local, peer, events[1..]);
      (z, c + d)
  }

  /**
   * One operation keeps the invariant, adds exactly one emitted response
   * per claimed packet, never removes a transmit, and transmits only to `peer`.
   */
  lemma StepKeepsInvariant(v: View, local: Address, peer: Address, e: Event)
    requires Consistent(v)
    ensures var (w, c) := Step(v, local, peer, e);
      Consistent(w) && |w.emitted| == |v.emitted| + c &&
      |v.transmits| <= |w.transmits| && w.transmits[..|v.transmits|] == v.transmits &&
      forall k :: |v.transmits| <= k < |w.transmits| ==> w.transmits[k].to == peer
  {
  }

  /**
   * Over any run, the invariant holds at the end, and the responses emitted
   * equal the packets claimed; so a transaction claims at most one packet
   * and notifies its owner of a response at most once in its lifetime.
   */
  lemma {:induction false} AtMostOneClaim(v: View, local: Address, peer: Address, events: seq<Event>)
    requires Consistent(v)
    ensures var (w, n) := Run(v, local, peer, events);
      Consistent(w) && |w.emitted| == |v.emitted| + n && |v.emitted| + n <= 1
    decreases |events|
  {
    if events != [] {
      StepKeepsInvariant(v, local, peer, events[0]);
      var (w, c) := Step(v, local, peer, events[0]);
      AtMostOneClaim(w, local, peer, events[1..]);
    }
  }

  /**
   * Every transmit made during a run is addressed to the transaction's
   * peer, and earlier transmits are kept as they were.
   */
  lemma {:induction false} TransmitsGoToPeer(v: View, local: Address, peer: Address, events: seq<Event>)
    requires Consistent(v)
    ensures var w := Run(v, local, peer, events).0;
      |v.transmits| <= |w.transmits| && w.transmits[..|v.transmits|] == v.transmits &&
      forall k :: |v.transmits| <= k < |w.transmits| ==> w.transmits[k].to == peer
    decreases |events|
  {
    if events != [] {
      StepKeepsInvariant(v, local, peer, events[0]);
      var w := Step(v, local, peer, events[0]).0;
      TransmitsGoToPeer(w, local, peer, events[1..]);
      var z := Run(w, local, peer, events[1..]).0;
      assert z.transmits[..|w.transmits|] == w.transmits;
      assert z.transmits[..|v.transmits|] == z.transmits[..|w.transmits|][..|v.transmits|];
    }
  }

  /**
   * Once a transaction is terminal it stays terminal, claims nothing more
   * and keeps its response, whatever happens next.
   */
  lemma {:induction false} TerminalIsFinal(v: View, local: Address, peer: Address, events: seq<Event>)
    requires Consistent(v) && IsTerminal(v.state)
    ensures var (w, n) := Run(v, local, peer, events);
      IsTerminal(w.state) && n == 0 && w.response == v.response && w.emitted == v.emitted
    decreases |events|
  {
    if events != [] {
      StepKeepsInvariant(v, local, peer, events[0]);
      var w := Step(v, local, peer, events[0]).0;
      TerminalIsFinal(w, local, peer, events[1..]);
    }
  }

  /** A disposed transaction never claims a packet or emits a response again. */
  lemma DisposedNeverClaims(v: View, local: Address, peer: Address, events: seq<Event>)
    requires Consistent(v) && v.disposed
    ensures var (w, n) := Run(v, local, peer, events); n == 0 && w.emitted == v.emitted
  {
    TerminalIsFinal(v, local, peer, events);
  }

  /**
   * The index of the first listener that claims a packet, if any: the
   * listener at that index claims, every earlier one passes, and `None`
   * means nobody claims.
   */
  function FirstClaim(claims: seq<bool>): (r: Option<nat>)
    ensures r.Some? ==> r.value < |claims| && claims[r.value]
    ensures r.Some? ==> forall j :: 0 <= j < r.value ==> !claims[j]
    ensures r.None? ==> forall j :: 0 <= j < |claims| ==> !claims[j]
  {
    if claims == [] then None
    else if claims[0] then Some(0)
    else
      match FirstClaim(claims[1..])
      case None => None
      case Some(k) => Some(k + 1)
  }

  /** `FirstClaim` is the only answer with the first-claimer property. */
  lemma FirstClaimIsUnique(claims: seq<bool>, r: Option<nat>)
    requires r.Some? ==> r.value < |claims| && claims[r.value]
    requires r.Some? ==> forall j :: 0 <= j < r.value ==> !claims[j]
    requires r.None? ==> forall j :: 0 <= j < |claims| ==> !claims[j]
    ensures r == FirstClaim(claims)
  {
  }
}
