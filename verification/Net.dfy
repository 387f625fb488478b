/** Socket addresses, and what leaves the plugin over UDP. */
module Net {
  import opened Bytes

  datatype Family = V4 | V6 | OtherFamily

  /** A socket address: what its bytes mean, everything else in them (padding, flow label), and their
      number, which is zero for no address. `scope` matters for IPv6 only. Two of them are equal when
      `memcmp` finds them so. */
  datatype SockAddr = SockAddr(family: Family, port: nat, addr: nat, scope: nat, rest: seq<byte>, len: nat)

  datatype Datagram = Datagram(to: SockAddr, data: seq<byte>)
}
