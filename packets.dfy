/** A packet as the packet-decoding library hands it to the flow processors, and the
    ordering of (address, port) endpoints both flow-key schemes sort by. */
module Packets {
  import opened Text

  /** The IP layer: addresses as dotted strings and the transport protocol number. */
  datatype IpHeader = IpHeader(src: string, dst: string, proto: nat)

  /** The transport layer the decoder recognised; only TCP and UDP carry ports. */
  datatype Transport = Tcp(sport: nat, dport: nat) | Udp(sport: nat, dport: nat) | NoPorts

  /** A decoded packet: no IP layer at all is `ip == None`; `time` is the capture
      timestamp in milliseconds since the epoch, `length` is `len(pkt)`. */
  datatype Packet = Packet(ip: Option<IpHeader>, transport: Transport, time: nat, length: nat)

  datatype Endpoint = Endpoint(ip: string, port: nat)

  /** The ports the processors read: those of the TCP or UDP layer, otherwise 0 and 0. */
  function Ports(t: Transport): (ports: (nat, nat))
    ensures t.NoPorts? ==> ports == (0, 0)
    ensures !t.NoPorts? ==> ports == (t.sport, t.dport)
  {
    match t
    case Tcp(s, d) => (s, d)
    case Udp(s, d) => (s, d)
    case NoPorts => (0, 0)
  }

  /** Python's `<` on `(ip, port)` tuples: address first, then port. */
  predicate EndpointLess(a: Endpoint, b: Endpoint) {
    StrLess(a.ip, b.ip) || (a.ip == b.ip && a.port < b.port)
  }

  lemma EndpointLessAsymmetric(a: Endpoint, b: Endpoint)
    ensures EndpointLess(a, b) ==> !EndpointLess(b, a)
  {
    StrLessAsymmetric(a.ip, b.ip);
    StrLessIrreflexive(a.ip);
  }

  /** Any two endpoints are equal or ordered one way or the other. */
  lemma EndpointLessTotal(a: Endpoint, b: Endpoint)
    ensures a == b || EndpointLess(a, b) || EndpointLess(b, a)
  {
    StrLessTotal(a.ip, b.ip);
  }

  /** The packet with its two endpoints exchanged: the reply direction. */
  function Reversed(p: Packet): (q: Packet)
    ensures q.time == p.time && q.length == p.length
  {
    Packet(
      match p.ip
      case None => None
      case Some(h) => Some(IpHeader(h.dst, h.src, h.proto)),
      match p.transport
      case Tcp(s, d) => Tcp(d, s)
      case Udp(s, d) => Udp(d, s)
      case NoPorts => NoPorts,
      p.time, p.length)
  }

  /** The sending and the receiving endpoint of a packet with an IP layer. */
  function Source(p: Packet): Endpoint
    requires p.ip.Some?
  {
    Endpoint(p.ip.value.src, Ports(p.transport).0)
  }

  function Destination(p: Packet): Endpoint
    requires p.ip.Some?
  {
    Endpoint(p.ip.value.dst, Ports(p.transport).1)
  }

  lemma ReversedEndpoints(p: Packet)
    requires p.ip.Some?
    ensures Reversed(p).ip.Some?
    ensures Source(Reversed(p)) == Destination(p) && Destination(Reversed(p)) == Source(p)
    ensures Reversed(p).ip.value.proto == p.ip.value.proto
  {
  }

  /** Total `len(pkt)` of the packets of `s`. */
  function TotalLength(s: seq<Packet>): nat
    decreases |s|
  {
    if s == [] then 0 else TotalLength(s[..|s| - 1]) + s[|s| - 1].length
  }

  /** Bytes of the packets of `s` sent from address `ip`. */
  function LengthFrom(s: seq<Packet>, ip: string): nat
    decreases |s|
  {
    if s == [] then 0
    else LengthFrom(s[..|s| - 1], ip) +
         (if s[|s| - 1].ip.Some? && s[|s| - 1].ip.value.src == ip then s[|s| - 1].length else 0)
  }
}
