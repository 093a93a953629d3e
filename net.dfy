/**
 * Socket-side values seen by a transaction: endpoint addresses, the bound
 * socket (reduced to its local address), the delivery metadata a socket
 * attaches to an inbound packet, and the verdict a listener hands back to
 * the socket's dispatch loop.
 */
module Net {
  import opened Wrappers

  type Port = p: int | 0 <= p < 0x1_0000

  /** A network endpoint; two addresses are equal when host and port are. */
  datatype Address = Address(host: string, port: Port)

  /** A bound socket, as far as a transaction can observe it: its local address. */
  datatype Socket = Socket(address: Address)

  /** Delivery metadata: the socket that received the packet and the sender's address. */
  datatype PacketInfo = PacketInfo(socket: Socket, peerAddress: Address)

  /** A packet; `info` is absent when the producer attached no delivery metadata. */
  datatype Packet = Packet(data: seq<bv8>, info: Option<PacketInfo>)

  /** The default-constructed packet a transaction holds before a request is set. */
  const EmptyPacket := Packet([], None)

  /** One transmit attempt: the packet handed to the socket and its destination. */
  datatype Datagram = Datagram(packet: Packet, to: Address)

  /**
   * What a listener tells the dispatch loop: `Claimed` stops delivery of the
   * packet to later listeners, `Continue` lets it go on.
   */
  datatype Propagation = Continue | Claimed
}
