/** The data packets of a UDP flow, as both sides see them. */
module UdpPacket {
  import opened Words

  /** The number of the first data packet; the SYN or SYN-ACK has number 0. */
  const FIRST: nat := 1

  /** What a data packet carries of its message buffer: the flags for the first buffer, for
      one with a successor and for the last one, and the bytes. */
  datatype Pkt = Pkt(syn: bool, sg: bool, fin: bool, data: seq<u8>)

  /** A message's packets: the last one, and no other, is marked. */
  ghost predicate Message(ps: seq<Pkt>) {
    ps != [] && forall i :: 0 <= i < |ps| ==> ps[i].fin == (i == |ps| - 1)
  }

  ghost predicate Messages(ms: seq<seq<Pkt>>) {
    forall i :: 0 <= i < |ms| ==> Message(ms[i])
  }
}
