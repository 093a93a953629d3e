# Socket-bound packet transaction (LibSourcey `net::Transaction`) in Dafny

This project models `scy::net::Transaction<PacketT>`. That class is a request/response transaction bound to one socket and one peer address. It works as follows:

- It sends its request to the peer over the socket.
- It watches every packet that socket receives.
- It claims the packet that answers it, so that no later listener on the socket sees that packet.
- It re-emits that response to its owner.

The class delegates its state machine to the generic `PacketTransaction<PacketT>` engine. The engine's source is not part of this model. The model therefore carries a minimal stand-in for it, whose behaviour is assumed from the transaction design rather than derived from code.

Files and modules:

- `wrappers.dfy` (`Wrappers`): `Option`.
- `net.dfy` (`Net`): the socket-side values.
  - `Address` is a host and port, compared structurally.
  - `Socket` is reduced to its local address.
  - `PacketInfo` is the delivery metadata: the receiving socket and the sender.
  - `Packet` has an optional `info`.
  - `Datagram` is one transmit attempt.
  - `Propagation` is `Continue` or `Claimed`. It replaces the `StopPropagation` exception.
- `packet_transaction.dfy` (`PacketTransactions`): the engine stand-in. It is a class with `state`, `request`, `response`, `disposed`, the constant `timeout`/`retries` and a ghost count of engine sends.
- `transaction_model.dfy` (`TransactionModel`): the transaction as values. `View` is everything observable about one transaction. There is one step function per operation, `Run` applies any sequence of operations, and lemmas over runs follow. `FirstClaim` specifies socket dispatch.
- `transaction.dfy` (`NetTransaction`): the class `Transaction`, which holds the engine by composition (`base`), and `Dispatch`. `Dispatch` delivers one packet to a socket's transactions in order and stops at the first `Claimed`. `Send`, `Cancel`, `Dispose` and `OnPacket` are each proved against their step function: `View() == XStep(old(View()), …)`.

The code and the transaction design differ in two places. The model follows the code in both:

- `send()` transmits the request *before* asking the engine (transaction.h:45). A `send()` that the engine rejects therefore still produces a transmit. `SendStep` records it.
- A transmit result ≤ 0 forces `Failed` from *any* state (transaction.h:47), even after success. The invariant `Consistent` is therefore "no response while `Created`/`Running`, a response when `Succeeded`". It is not "a response iff `Succeeded`". `TerminalIsFinal` shows that the forced failure never makes a finished transaction live again.

The `assert(packet.info)` in `checkResponse` is a debug-only check. The model keeps the release behaviour: a packet without info does not match.

## Model

| member | source | states |
|---|---|---|
| `NetTransaction.Transaction.constructor` | src/net/include/scy/net/transaction.h:33-40 | binds the given socket and peer; engine timeout and retries default to 10000 and 1; starts `Created` with no response, no emission and no transmit |
| `NetTransaction.Transaction.PeerAddress` | src/net/include/scy/net/transaction.h:63-66 | returns the peer address given at construction (a `const` field, so no member can reassign it) |
| `NetTransaction.Transaction.Send` | src/net/include/scy/net/transaction.h:42-49 | always transmits the request to the peer; transmit > 0: returns exactly the engine send's verdict and forces no failure; transmit ≤ 0: state `Failed`, returns false, engine send not invoked |
| `NetTransaction.Transaction.Cancel` | src/net/include/scy/net/transaction.h:51-55 | delegates to the engine's cancel; view follows `CancelStep` |
| `NetTransaction.Transaction.Dispose` | src/net/include/scy/net/transaction.h:57-61 | delegates to the engine's dispose; view follows `DisposeStep` |
| `NetTransaction.Transaction.OnPacket` | src/net/include/scy/net/transaction.h:73-82 | returns `Claimed` iff the engine was waiting and `CheckResponse` holds; a `Continue` leaves the transaction's whole view unchanged |
| `NetTransaction.Transaction.OnResponse` | src/net/include/scy/net/transaction.h:85-89 | appends exactly the stored response to the emitted log, once per call, and changes nothing else |
| `NetTransaction.Transaction.CheckResponse` | src/net/include/scy/net/transaction.h:94-102 | false for a packet without info; otherwise true iff it arrived on the bound socket's address and came from the peer; a function, so it changes no state |
| `TransactionModel.CorrelationSeparatesPeers` | src/net/include/scy/net/transaction.h:99-101 | on one socket, transactions with different peers never both match a packet |
| `TransactionModel.Initial` | src/net/include/scy/net/transaction.h:33-40 | the freshly constructed view satisfies the transaction invariant |
| `TransactionModel.StepKeepsInvariant` | src/net/include/scy/net/transaction.h:42-89 | each of send, packet, cancel and dispose keeps the invariant, emits one response per claimed packet and transmits only to the peer |
| `TransactionModel.AtMostOneClaim` | src/net/include/scy/net/transaction.h:76-88 | over any sequence of operations the invariant holds, emitted responses equal claimed packets, and at most one packet is ever claimed |
| `TransactionModel.TransmitsGoToPeer` | src/net/include/scy/net/transaction.h:45 | every transmit over any run is addressed to the transaction's peer, and earlier transmits are kept |
| `TransactionModel.TerminalIsFinal` | src/net/include/scy/net/transaction.h:42-82 | once terminal, a transaction stays terminal, claims nothing more and keeps its response, even through a forced failure |
| `TransactionModel.DisposedNeverClaims` | src/net/include/scy/net/transaction.h:57-82 | after dispose, a transaction never claims a packet or emits a response again |
| `TransactionModel.FirstClaim` | src/net/include/scy/net/transaction.h:76-81 | the claimer is the first listener that would claim: it claims and every earlier listener passes; `None` means none claims |
| `TransactionModel.FirstClaimIsUnique` | src/net/include/scy/net/transaction.h:76-81 | the first-claimer property determines the answer uniquely |
| `NetTransaction.Offer` | src/net/include/scy/net/transaction.h:73-82 | offering a packet to one listener acts on that listener alone |
| `NetTransaction.Dispatch` | src/net/include/scy/net/transaction.h:76-81 | the claimer equals `FirstClaim` of what each listener would do; every other listener's view is unchanged (earlier ones passed it on, later ones were not invoked); the claimer moves to `Succeeded` with the packet |
| `PacketTransactions.PacketTransaction.constructor` | src/net/include/scy/net/transaction.h:35 | engine built with the given timeout and retries, `Created`, no response |
| `PacketTransactions.PacketTransaction.SetRequest` | src/net/include/scy/net/transaction.h:45 | (assumed) replaces the outbound request that `send()` transmits and changes nothing else |
| `PacketTransactions.PacketTransaction.Send` | src/net/include/scy/net/transaction.h:46 | (assumed) succeeds iff `Created`, moving to `Running`; otherwise nothing changes |
| `PacketTransactions.PacketTransaction.SetState` | src/net/include/scy/net/transaction.h:47 | sets the state unconditionally and changes nothing else |
| `PacketTransactions.PacketTransaction.HandlePotentialResponse` | src/net/include/scy/net/transaction.h:76 | (assumed) accepts iff `Running` and the correlation predicate holds; an accepted packet becomes the response and the state `Succeeded`; a rejected one changes nothing |
| `PacketTransactions.PacketTransaction.Cancel` | src/net/include/scy/net/transaction.h:54 | (assumed) a non-terminal transaction becomes `Cancelled`; a terminal one is unchanged |
| `PacketTransactions.PacketTransaction.Dispose` | src/net/include/scy/net/transaction.h:60 | (assumed) cancels if non-terminal and marks disposed; idempotent |

## Left out

- `PacketTransactions.PacketTransaction`: the engine's source (`scy/packettransaction.h`) is not part of this model. The contracts of its `Send`, `HandlePotentialResponse`, `Cancel` and `Dispose` are assumptions taken from the transaction design, not derived from code.
- The engine's retry/timeout logic (timer scheduling, retransmission on expiry, retry counting) is left out because its code is not part of this model. `timeout` and `retries` are only stored.
- Deferred ("gc") teardown on a later event-loop tick is reduced to the `disposed` flag, because the event loop is not modelled.
- `PacketTransactions.PacketTransaction.HandlePotentialResponse`: in the C++ the engine presumably calls `onResponse` itself. Here `Transaction.OnPacket` calls `OnResponse` right after the engine accepts. This gives the same observable effect: one emission of the stored response per claim.
- The socket (`impl->sendPacket`, `impl->address()`, its event loop) is reduced to values. The transmit result is an integer parameter, and the bound socket is a constant local address, so the model does not capture a socket whose address changes.
- `PacketSignal` emission and subscription/unsubscription to the socket's listener list are reduced to a ghost log of emitted responses and to `Dispatch`'s list of listeners.
- `NetTransaction.Dispatch`: only transactions are listeners. The socket's other listeners are not modelled.
- The `PacketT` template parameter and the `IPacket` to `PacketT` cast are fixed to one `Packet` type.
- Logging (`STrace`) is left out.
- The `StopPropagation` exception is replaced by the `Propagation` result.
- `src/av/src/mediacapture.cpp` is left out. It is FFmpeg I/O, a worker thread and wall-clock pacing, with no self-contained logic.
