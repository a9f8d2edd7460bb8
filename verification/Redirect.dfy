/**
 The proxy side, byte by byte: parse the outer IP, UDP and GUE headers and the inner packet,
 decide, and when the packet is passed on rewrite next_hop, the outer addresses and the UDP
 checksum in the buffer.
 */
module Redirect {
  import opened Bytes
  import opened Checksum
  import HopChain

  const PROTO_ICMP: byte := 1
  const PROTO_IPIP: byte := 4
  const PROTO_TCP: byte := 6
  const PROTO_UDP: byte := 17
  const PROTO_IPV6: byte := 41
  const PROTO_ICMPV6: byte := 58

  /** A connection as the socket tables key it: addresses and ports in network order. */
  datatype Tuple = Tuple(src: seq<byte>, sport: seq<byte>, dst: seq<byte>, dport: seq<byte>)

  // ---- The inner packet ----

  datatype Inner =
    | Malformed
    | Stateless                                            // UDP, or ICMP other than packet-too-big
    | Segment(tuple: Tuple, syn: bool, ackOnly: bool)

  function Flag(b: byte, bit: nat): bool
    requires bit in {1, 2, 4, 16}
  {
    (b as int / bit) % 2 == 1
  }

  function TcpSegment(src: seq<byte>, dst: seq<byte>, th: seq<byte>): Inner
    requires |th| >= 20
  {
    var f := th[13];
    var fin, syn, rst, ack := Flag(f, 1), Flag(f, 2), Flag(f, 4), Flag(f, 16);
    Segment(Tuple(src, th[0..2], dst, th[2..4]), syn, ack && !fin && !rst && !syn)
  }

  /** A quoted packet went from server to client, so addresses and ports are taken the other way round. */
  function QuotedSegment(src: seq<byte>, dst: seq<byte>, ports: seq<byte>): Inner
    requires |ports| >= 4
  {
    Segment(Tuple(dst, ports[2..4], src, ports[0..2]), false, false)
  }

  function InnerV4(q: seq<byte>): Inner {
    if |q| < 20 then Malformed
    else
      var l4 := (q[0] % 16) as int * 4;
      if q[9] == PROTO_ICMP then
        if |q| < l4 + 8 then Malformed
        else if q[l4] != 3 || q[l4 + 1] != 4 then Stateless
        else
          var o := l4 + 8;
          if |q| < o + 20 then Malformed
          else
            var t := o + (q[o] % 16) as int * 4;
            if |q| < t + 4 then Malformed else QuotedSegment(q[o + 12..o + 16], q[o + 16..o + 20], q[t..])
      else if q[9] == PROTO_TCP then
        if |q| < l4 + 20 then Malformed else TcpSegment(q[12..16], q[16..20], q[l4..])
      else if q[9] == PROTO_UDP then Stateless
      else Malformed
  }

  function InnerV6(q: seq<byte>): Inner {
    if |q| < 40 then Malformed
    else if q[6] == PROTO_ICMPV6 then
      if |q| < 48 then Malformed
      else if q[40] != 2 then Stateless
      else if |q| < 88 then Malformed
      else if |q| < 92 then Malformed
      else QuotedSegment(q[56..72], q[72..88], q[88..])
    else if q[6] == PROTO_TCP then
      if |q| < 60 then Malformed else TcpSegment(q[8..24], q[24..40], q[40..])
    else if q[6] == PROTO_UDP then Stateless
    else Malformed
  }

  // ---- The outer headers ----

  /** What the parser finds: where the headers lie, the hop list and the inner packet. */
  datatype Outer = Outer(udpOfs: nat, crOfs: nat, innerOfs: nat, nextHop: nat, hopCount: nat, proto: byte)

  /** A buffer that starts with an IP header the IP layer has already accepted. */
  predicate IpPacket(p: seq<byte>) {
    |p| >= 20 && p[0] % 16 >= 5
  }

  function ParseOuter(p: seq<byte>): (r: Option<Outer>)
    requires IpPacket(p)
    ensures r.Some? ==>
              var o := r.value;
              && 20 <= o.udpOfs && o.crOfs == o.udpOfs + 12 && o.innerOfs == o.crOfs + 4 + 4 * o.hopCount <= |p|
              && o.nextHop == p[o.crOfs + 2] as int && o.hopCount == p[o.crOfs + 3] as int
              && o.hopCount <= 30 && o.proto == p[o.udpOfs + 9]
  {
    var udpOfs := (p[0] % 16) as int * 4;
    if p[9] != PROTO_UDP || |p| < udpOfs + 8 || |p| < udpOfs + 12 then None
    else
      var hlen := (p[udpOfs + 8] % 32) as int;
      var crOfs := udpOfs + 12;
      if hlen < 1 || |p| < crOfs + 4 * hlen || hlen != p[crOfs + 3] as int + 1 then None
      else Some(Outer(udpOfs, crOfs, crOfs + 4 * hlen, p[crOfs + 2] as int, p[crOfs + 3] as int, p[udpOfs + 9]))
  }

  function Source(p: seq<byte>): Addr
    requires IpPacket(p)
  {
    p[12..16]
  }

  function Destination(p: seq<byte>): Addr
    requires IpPacket(p)
  {
    p[16..20]
  }

  function HopAt(p: seq<byte>, o: Outer, i: nat): Addr
    requires o.crOfs + 4 + 4 * i + 4 <= |p|
  {
    p[o.crOfs + 4 + 4 * i..o.crOfs + 4 + 4 * i + 4]
  }

  function InnerOf(p: seq<byte>, o: Outer): Inner
    requires o.innerOfs <= |p|
  {
    if o.proto == PROTO_IPIP then InnerV4(p[o.innerOfs..])
    else if o.proto == PROTO_IPV6 then InnerV6(p[o.innerOfs..])
    else Malformed
  }

  // ---- The decision ----

  /** What a host can tell about flows: its established sockets, and the ACKs its SYN cookies vouch for. */
  datatype Host = Host(established: set<Tuple>, cookies: set<Tuple>)
  {
    /** `is_valid_locally` */
    predicate Knows(t: Tuple, ackOnly: bool) {
      t in established || (ackOnly && t in cookies)
    }
  }

  datatype Verdict = Drop | AcceptStateless | AcceptSyn | AcceptKnown | AcceptLastResort | AcceptSelf | Forward

  function Decide(p: seq<byte>, host: Host): (v: Verdict)
    requires IpPacket(p)
    ensures v.Forward? ==> ParseOuter(p).Some? && ParseOuter(p).value.nextHop < ParseOuter(p).value.hopCount
  {
    match ParseOuter(p)
    case None => Drop
    case Some(o) =>
      match InnerOf(p, o)
      case Malformed => Drop
      case Stateless => AcceptStateless
      case Segment(t, syn, ackOnly) =>
        if syn then AcceptSyn
        else if host.Knows(t, ackOnly) then AcceptKnown
        else if o.nextHop >= o.hopCount then AcceptLastResort
        else if HopAt(p, o, o.nextHop) == Destination(p) then AcceptSelf
        else Forward
  }

  // ---- The rewrite ----

  /** The UDP checksum field as a little-endian host loads it. */
  function CheckField(p: seq<byte>, udpOfs: nat): nat
    requires udpOfs + 8 <= |p|
  {
    p[udpOfs + 6] as int + 0x100 * p[udpOfs + 7] as int
  }

  function NewCheck(check: nat, nextHop: nat, saddr: Addr, alt: Addr): nat
    requires check <= M && nextHop < 0xff
  {
    if check == 0 then 0
    else Replace4(Replace2(check, nextHop, nextHop + 1), Raw32(saddr), Raw32(alt))
  }

  predicate CanForward(p: seq<byte>, o: Outer) {
    IpPacket(p) && ParseOuter(p) == Some(o) && o.nextHop < o.hopCount
  }

  /** Byte `i` of the packet after the rewrite. */
  function RewrittenByte(p: seq<byte>, o: Outer, alt: Addr, check: nat, i: nat): byte
    requires 20 <= o.udpOfs && o.crOfs == o.udpOfs + 12 && o.nextHop < 0xff && check <= M && i < |p| && |p| >= 20
  {
    if 12 <= i < 16 then p[i + 4]
    else if 16 <= i < 20 then alt[i - 16]
    else if i == o.udpOfs + 6 then (check % 0x100) as byte
    else if i == o.udpOfs + 7 then (check / 0x100) as byte
    else if i == o.crOfs + 2 then (o.nextHop + 1) as byte
    else p[i]
  }

  function Rewritten(p: seq<byte>, o: Outer, alt: Addr, check: nat): (r: seq<byte>)
    requires 20 <= o.udpOfs && o.crOfs == o.udpOfs + 12 && o.nextHop < 0xff && check <= M && |p| >= 20
    ensures |r| == |p|
    ensures forall i {:trigger r[i]} :: 0 <= i < |p| ==> r[i] == RewrittenByte(p, o, alt, check, i)
  {
    seq(|p|, i requires 0 <= i < |p| => RewrittenByte(p, o, alt, check, i))
  }

  function Forwarded(p: seq<byte>, o: Outer): (r: seq<byte>)
    requires CanForward(p, o)
  {
    var alt := HopAt(p, o, o.nextHop);
    Rewritten(p, o, alt, NewCheck(CheckField(p, o.udpOfs), o.nextHop, Source(p), alt))
  }

  /** `glbredirect_tg4` and the handlers below it, working on the packet buffer in place. */
  method Process(pkt: array<byte>, host: Host) returns (v: Verdict)
    requires IpPacket(pkt[..])
    modifies pkt
    ensures v == Decide(old(pkt[..]), host)
    ensures pkt[..] == if v == Forward then Forwarded(old(pkt[..]), ParseOuter(old(pkt[..])).value) else old(pkt[..])
  {
    ghost var p := pkt[..];
    if pkt[9] != PROTO_UDP {
      return Drop;
    }
    var udpOfs := (pkt[0] % 16) as int * 4;
    if pkt.Length < udpOfs + 8 {
      return Drop;
    }
    var gueOfs := udpOfs + 8;
    if pkt.Length < gueOfs + 4 {
      return Drop;
    }
    var hlen := (pkt[gueOfs] % 32) as int;
    var crLen := hlen * 4;
    if hlen < 1 || crLen > 4 + 4 * 256 {
      return Drop;
    }
    var crOfs := gueOfs + 4;
    if pkt.Length < crOfs + crLen {
      return Drop;
    }
    if hlen != pkt[crOfs + 3] as int + 1 {
      return Drop;
    }
    var innerOfs := crOfs + crLen;
    var proto := pkt[gueOfs + 1];
    var inner;
    if proto == PROTO_IPIP {
      inner := InnerV4(pkt[innerOfs..]);
    } else if proto == PROTO_IPV6 {
      inner := InnerV6(pkt[innerOfs..]);
    } else {
      return Drop;
    }
    ghost var o := ParseOuter(p).value;
    assert inner == InnerOf(p, o);
    if inner.Malformed? {
      return Drop;
    }
    if inner.Stateless? {
      return AcceptStateless;
    }
    if inner.syn {
      return AcceptSyn;
    }
    if host.Knows(inner.tuple, inner.ackOnly) {
      return AcceptKnown;
    }
    var nextHop := pkt[crOfs + 2] as int;
    if nextHop >= pkt[crOfs + 3] as int {
      return AcceptLastResort;
    }
    var altOfs := crOfs + 4 + 4 * nextHop;
    var alt := pkt[altOfs..altOfs + 4];
    assert alt == HopAt(p, o, o.nextHop);
    if alt == pkt[16..20] {
      return AcceptSelf;
    }
    Rewrite(pkt, udpOfs, crOfs, alt, o);
    v := Forward;
  }

  /** The in-place part: checksum if present, then next_hop, then the outer addresses. */
  method Rewrite(pkt: array<byte>, udpOfs: nat, crOfs: nat, alt: Addr, ghost o: Outer)
    requires CanForward(pkt[..], o) && udpOfs == o.udpOfs && crOfs == o.crOfs && alt == HopAt(pkt[..], o, o.nextHop)
    modifies pkt
    ensures pkt[..] == Forwarded(old(pkt[..]), o)
  {
    ghost var p := pkt[..];
    ghost var c := NewCheck(CheckField(p, o.udpOfs), o.nextHop, Source(p), alt);
    AdjustChecksum(pkt, udpOfs, pkt[crOfs + 2] as int, pkt[12..16], alt);
    MoveAddresses(pkt, crOfs, alt);
    assert forall i :: 0 <= i < |p| ==> pkt[i] == RewrittenByte(p, o, alt, c, i);
  }

  method AdjustChecksum(pkt: array<byte>, udpOfs: nat, nextHop: nat, saddr: Addr, alt: Addr)
    requires udpOfs + 8 <= pkt.Length && nextHop < 0xff
    modifies pkt
    ensures var c := NewCheck(old(pkt[udpOfs + 6] as int + 0x100 * pkt[udpOfs + 7] as int), nextHop, saddr, alt);
            && pkt[udpOfs + 6] == (c % 0x100) as byte
            && pkt[udpOfs + 7] == (c / 0x100) as byte
    ensures forall i :: 0 <= i < pkt.Length && i != udpOfs + 6 && i != udpOfs + 7 ==> pkt[i] == old(pkt[i])
  {
    var check := pkt[udpOfs + 6] as int + 0x100 * pkt[udpOfs + 7] as int;
    if check != 0 {
      check := Replace2(check, nextHop, nextHop + 1);
      check := Replace4(check, Raw32(saddr), Raw32(alt));
      pkt[udpOfs + 6] := (check % 0x100) as byte;
      pkt[udpOfs + 7] := (check / 0x100) as byte;
    }
  }

  method MoveAddresses(pkt: array<byte>, crOfs: nat, alt: Addr)
    requires 20 <= crOfs && crOfs + 2 < pkt.Length && pkt[crOfs + 2] < 0xff
    modifies pkt
    ensures pkt[crOfs + 2] == old(pkt[crOfs + 2]) + 1
    ensures forall i :: 12 <= i < 16 ==> pkt[i] == old(pkt[i + 4])
    ensures forall i :: 16 <= i < 20 ==> pkt[i] == alt[i - 16]
    ensures forall i :: 0 <= i < pkt.Length && !(12 <= i < 20) && i != crOfs + 2 ==> pkt[i] == old(pkt[i])
  {
    pkt[crOfs + 2] := pkt[crOfs + 2] + 1;
    pkt[12], pkt[13], pkt[14], pkt[15] := pkt[16], pkt[17], pkt[18], pkt[19];
    pkt[16], pkt[17], pkt[18], pkt[19] := alt[0], alt[1], alt[2], alt[3];
  }
}
