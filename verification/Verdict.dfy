/**
 The proxy's verdict read off the bytes of a packet, without the parser: which packets are dropped, kept for
 want of a flow, taken as the opening of one, known, kept as a last resort, or passed on. Every verdict has
 its exact condition.
 */
module Verdict {
  import opened Bytes
  import ProxyChain
  import Redirect

  // ---- Where things lie ----

  /** The UDP header, behind an outer IP header of the length it gives. */
  function Udp(p: seq<byte>): nat
    requires |p| >= 20
  {
    4 * (p[0] % 16) as int
  }

  /** UDP, with a GUE header whose length field is one word more than the hops it says it has. */
  predicate OuterOk(p: seq<byte>) {
    && |p| >= 20 && p[9] == 17 && |p| >= Udp(p) + 16
    && 1 <= p[Udp(p) + 8] % 32 && (p[Udp(p) + 8] % 32) as int == p[Udp(p) + 15] as int + 1
    && |p| >= Inner(p)
  }

  /** The inner packet, behind the hop list. */
  function Inner(p: seq<byte>): nat
    requires |p| >= 20 && |p| >= Udp(p) + 16
  {
    Udp(p) + 16 + 4 * p[Udp(p) + 15] as int
  }

  /** The inner packet has an IPv4 or IPv6 header, and which protocol it names. */
  predicate IsV4(p: seq<byte>) {
    OuterOk(p) && p[Udp(p) + 9] == 4 && |p| >= Inner(p) + 20
  }

  predicate IsV6(p: seq<byte>) {
    OuterOk(p) && p[Udp(p) + 9] == 41 && |p| >= Inner(p) + 40
  }

  /** What lies behind an inner IPv4 header of the length it gives. */
  function L4(p: seq<byte>): nat
    requires IsV4(p)
  {
    Inner(p) + 4 * (p[Inner(p)] % 16) as int
  }

  // ---- Kinds of packets ----

  /** Inner UDP, or a complete ICMP header that is no fragmentation-needed or packet-too-big message. */
  predicate Stateless(p: seq<byte>) {
    || (IsV4(p) && p[Inner(p) + 9] == 17)
    || (IsV4(p) && p[Inner(p) + 9] == 1 && |p| >= L4(p) + 8 && (p[L4(p)] != 3 || p[L4(p) + 1] != 4))
    || (IsV6(p) && p[Inner(p) + 6] == 17)
    || (IsV6(p) && p[Inner(p) + 6] == 58 && |p| >= Inner(p) + 48 && p[Inner(p) + 40] != 2)
  }

  /** A complete TCP header. */
  predicate Tcp4(p: seq<byte>) {
    IsV4(p) && p[Inner(p) + 9] == 6 && |p| >= L4(p) + 20
  }

  predicate Tcp6(p: seq<byte>) {
    IsV6(p) && p[Inner(p) + 6] == 6 && |p| >= Inner(p) + 60
  }

  /** A message about a packet that was too big, with the quoted header and its ports. */
  predicate TooBig4(p: seq<byte>) {
    && IsV4(p) && p[Inner(p) + 9] == 1 && |p| >= L4(p) + 28 && p[L4(p)] == 3 && p[L4(p) + 1] == 4
    && |p| >= QuotedPorts4(p) + 4
  }

  function QuotedPorts4(p: seq<byte>): nat
    requires IsV4(p) && |p| >= L4(p) + 28
  {
    L4(p) + 8 + 4 * (p[L4(p) + 8] % 16) as int
  }

  predicate TooBig6(p: seq<byte>) {
    IsV6(p) && p[Inner(p) + 6] == 58 && |p| >= Inner(p) + 92 && p[Inner(p) + 40] == 2
  }

  predicate Flowing(p: seq<byte>) {
    Tcp4(p) || Tcp6(p) || TooBig4(p) || TooBig6(p)
  }

  /** The byte of TCP flags: FIN 1, SYN 2, RST 4, PSH 8, ACK 16. */
  function Flags(p: seq<byte>): byte
    requires Tcp4(p) || Tcp6(p)
  {
    if Tcp4(p) then p[L4(p) + 13] else p[Inner(p) + 53]
  }

  predicate Syn(p: seq<byte>) {
    (Tcp4(p) || Tcp6(p)) && Flags(p) % 4 >= 2
  }

  /** ACK set, and none of FIN, SYN and RST. */
  predicate AckAlone(p: seq<byte>) {
    (Tcp4(p) || Tcp6(p)) && Flags(p) % 32 >= 16 && Flags(p) % 8 == 0
  }

  /** The flow from client to server; a quoted packet went the other way. */
  function FlowOf(p: seq<byte>): Redirect.Tuple
    requires Flowing(p)
  {
    var i := Inner(p);
    if Tcp4(p) then Redirect.Tuple(p[i + 12..i + 16], p[L4(p)..L4(p) + 2], p[i + 16..i + 20], p[L4(p) + 2..L4(p) + 4])
    else if Tcp6(p) then Redirect.Tuple(p[i + 8..i + 24], p[i + 40..i + 42], p[i + 24..i + 40], p[i + 42..i + 44])
    else if TooBig4(p) then
      var q, t := L4(p) + 8, QuotedPorts4(p);
      Redirect.Tuple(p[q + 16..q + 20], p[t + 2..t + 4], p[q + 12..q + 16], p[t..t + 2])
    else Redirect.Tuple(p[i + 72..i + 88], p[i + 90..i + 92], p[i + 56..i + 72], p[i + 88..i + 90])
  }

  /** The host has a socket for the flow, or the packet is a lone ACK that its SYN cookies vouch for. */
  predicate Known(p: seq<byte>, host: Redirect.Host) {
    && Flowing(p)
    && (FlowOf(p) in host.established || (AckAlone(p) && FlowOf(p) in host.cookies))
  }

  // ---- The verdicts ----

  lemma OuterParses(p: seq<byte>)
    requires Redirect.IpPacket(p)
    ensures Redirect.ParseOuter(p).Some? <==> OuterOk(p)
    ensures OuterOk(p) ==>
              Redirect.ParseOuter(p) == Some(Redirect.Outer(Udp(p), Udp(p) + 12, Inner(p), p[Udp(p) + 14] as int,
                                                            p[Udp(p) + 15] as int, p[Udp(p) + 9]))
  {
  }

  lemma FinBit(b: byte)
    ensures Redirect.Flag(b, 1) <==> b % 2 == 1
  {
  }

  lemma SynBit(b: byte)
    ensures Redirect.Flag(b, 2) <==> b % 4 >= 2
  {
  }

  lemma RstBit(b: byte)
    ensures Redirect.Flag(b, 4) <==> b % 8 >= 4
  {
  }

  lemma AckBit(b: byte)
    ensures Redirect.Flag(b, 16) <==> b % 32 >= 16
  {
  }

  /** Which bit of the flags each test reads. */
  lemma FlagReadsBit(b: byte)
    ensures Redirect.Flag(b, 1) <==> b % 2 == 1
    ensures Redirect.Flag(b, 2) <==> b % 4 >= 2
    ensures Redirect.Flag(b, 4) <==> b % 8 >= 4
    ensures Redirect.Flag(b, 16) <==> b % 32 >= 16
  {
    FinBit(b);
    SynBit(b);
    RstBit(b);
    AckBit(b);
  }

  lemma NoneOfThree(b: byte)
    ensures b % 8 == 0 <==> !(b % 2 == 1) && !(b % 4 >= 2) && !(b % 8 >= 4)
  {
  }

  /** What the parser makes of an inner packet, by the kinds above. */
  ghost predicate ReadAs(p: seq<byte>, inner: Redirect.Inner) {
    && (inner.Stateless? <==> Stateless(p))
    && (inner.Segment? <==> Flowing(p))
    && (inner.Segment? ==>
          inner.tuple == FlowOf(p) && (inner.syn <==> Syn(p)) && (inner.ackOnly <==> AckAlone(p)))
  }

  lemma TcpReadAs(src: seq<byte>, dst: seq<byte>, th: seq<byte>)
    requires |th| >= 20
    ensures var inner, b := Redirect.TcpSegment(src, dst, th), th[13];
            && inner.Segment? && inner.tuple == Redirect.Tuple(src, th[0..2], dst, th[2..4])
            && (inner.syn <==> b % 4 >= 2) && (inner.ackOnly <==> b % 32 >= 16 && b % 8 == 0)
  {
    FlagReadsBit(th[13]);
    NoneOfThree(th[13]);
  }

  lemma SliceFrom(p: seq<byte>, i: nat, a: nat, b: nat)
    requires a <= b && i + b <= |p|
    ensures p[i..][a..b] == p[i + a..i + b]
  {
  }

  lemma Tcp4ReadAs(p: seq<byte>)
    requires Tcp4(p)
    ensures ReadAs(p, Redirect.InnerV4(p[Inner(p)..]))
  {
    var i, l := Inner(p), L4(p) - Inner(p);
    var q := p[i..];
    assert q[0] == p[i] && q[9] == p[i + 9];
    var th := q[l..];
    SliceFrom(p, i, 12, 16);
    SliceFrom(p, i, 16, 20);
    assert th[0..2] == p[L4(p)..L4(p) + 2] && th[2..4] == p[L4(p) + 2..L4(p) + 4] && th[13] == p[L4(p) + 13];
    TcpReadAs(q[12..16], q[16..20], th);
  }

  lemma TooBig4ReadAs(p: seq<byte>)
    requires TooBig4(p)
    ensures ReadAs(p, Redirect.InnerV4(p[Inner(p)..]))
  {
    var i, l := Inner(p), L4(p) - Inner(p);
    var q, o := p[i..], l + 8;
    assert q[0] == p[i] && q[9] == p[i + 9] && q[l] == p[L4(p)] && q[l + 1] == p[L4(p) + 1] && q[o] == p[L4(p) + 8];
    var t := QuotedPorts4(p) - i;
    SliceFrom(p, i, o + 12, o + 16);
    SliceFrom(p, i, o + 16, o + 20);
    assert q[t..][0..2] == p[QuotedPorts4(p)..QuotedPorts4(p) + 2];
    assert q[t..][2..4] == p[QuotedPorts4(p) + 2..QuotedPorts4(p) + 4];
  }

  lemma Other4ReadAs(p: seq<byte>)
    requires OuterOk(p) && p[Udp(p) + 9] == 4 && !Tcp4(p) && !TooBig4(p)
    ensures ReadAs(p, Redirect.InnerV4(p[Inner(p)..]))
  {
    var i := Inner(p);
    var q := p[i..];
    if |p| >= i + 20 {
      var l := L4(p) - i;
      assert q[0] == p[i] && q[9] == p[i + 9];
      assert |q| >= l + 8 ==> q[l] == p[i + l] && q[l + 1] == p[i + l + 1];
      assert |q| >= l + 28 ==> q[l + 8] == p[i + l + 8];
    }
  }

  lemma V6ReadAs(p: seq<byte>)
    requires OuterOk(p) && p[Udp(p) + 9] == 41
    ensures ReadAs(p, Redirect.InnerV6(p[Inner(p)..]))
  {
    var i := Inner(p);
    var q := p[i..];
    if |p| >= i + 40 {
      assert q[6] == p[i + 6];
      assert |q| >= 48 ==> q[40] == p[i + 40];
    }
    if Tcp6(p) {
      var th := q[40..];
      SliceFrom(p, i, 8, 24);
      SliceFrom(p, i, 24, 40);
      assert th[0..2] == p[i + 40..i + 42] && th[2..4] == p[i + 42..i + 44] && th[13] == p[i + 53];
      TcpReadAs(q[8..24], q[24..40], th);
    } else if TooBig6(p) {
      SliceFrom(p, i, 56, 72);
      SliceFrom(p, i, 72, 88);
      assert q[88..][0..2] == p[i + 88..i + 90] && q[88..][2..4] == p[i + 90..i + 92];
    }
  }

  lemma InnerReadAs(p: seq<byte>)
    requires Redirect.IpPacket(p) && OuterOk(p)
    ensures Redirect.ParseOuter(p).Some? && ReadAs(p, Redirect.InnerOf(p, Redirect.ParseOuter(p).value))
  {
    OuterParses(p);
    if p[Udp(p) + 9] == 4 {
      if Tcp4(p) {
        Tcp4ReadAs(p);
      } else if TooBig4(p) {
        TooBig4ReadAs(p);
      } else {
        Other4ReadAs(p);
      }
    } else if p[Udp(p) + 9] == 41 {
      V6ReadAs(p);
    }
  }

  /** Whether there are hops left, and the address of the next one. */
  predicate AtLastHop(p: seq<byte>)
    requires OuterOk(p)
  {
    p[Udp(p) + 14] >= p[Udp(p) + 15]
  }

  function NextAddress(p: seq<byte>): Addr
    requires OuterOk(p) && !AtLastHop(p)
  {
    var at := Udp(p) + 16 + 4 * p[Udp(p) + 14] as int;
    p[at..at + 4]
  }

  /** The verdict, for every packet and every host. */
  function Expected(p: seq<byte>, host: Redirect.Host): Redirect.Verdict
    requires |p| >= 20
  {
    if Stateless(p) then Redirect.AcceptStateless
    else if !Flowing(p) then Redirect.Drop
    else if Syn(p) then Redirect.AcceptSyn
    else if Known(p, host) then Redirect.AcceptKnown
    else if AtLastHop(p) then Redirect.AcceptLastResort
    else if NextAddress(p) == p[16..20] then Redirect.AcceptSelf
    else Redirect.Forward
  }

  /** The decision in terms of the inner packet and the bytes of the hop list. */
  lemma DecidedBy(p: seq<byte>, host: Redirect.Host, inner: Redirect.Inner)
    requires Redirect.IpPacket(p) && OuterOk(p) && Redirect.ParseOuter(p).Some?
    requires inner == Redirect.InnerOf(p, Redirect.ParseOuter(p).value)
    ensures Redirect.Decide(p, host) ==
            if inner.Malformed? then Redirect.Drop
            else if inner.Stateless? then Redirect.AcceptStateless
            else if inner.syn then Redirect.AcceptSyn
            else if inner.tuple in host.established || (inner.ackOnly && inner.tuple in host.cookies) then Redirect.AcceptKnown
            else if AtLastHop(p) then Redirect.AcceptLastResort
            else if NextAddress(p) == p[16..20] then Redirect.AcceptSelf
            else Redirect.Forward
  {
    OuterParses(p);
  }

  lemma VerdictOnBytes(p: seq<byte>, host: Redirect.Host)
    requires Redirect.IpPacket(p)
    ensures Redirect.Decide(p, host) == Expected(p, host)
  {
    OuterParses(p);
    if OuterOk(p) {
      InnerReadAs(p);
      DecidedBy(p, host, Redirect.InnerOf(p, Redirect.ParseOuter(p).value));
    }
  }

  /**
   A packet is kept as stateless exactly when it is inner UDP or an ICMP message about no flow, whatever the host
   knows and whatever hops are left. It goes no further.
   */
  lemma StatelessStays(p: seq<byte>, host: Redirect.Host, net: ProxyChain.Net)
    requires Redirect.IpPacket(p)
    ensures Redirect.Decide(p, host) == Redirect.AcceptStateless <==> Stateless(p)
    ensures Stateless(p) ==> ProxyChain.Trace(p, net) == [p]
  {
    VerdictOnBytes(p, host);
    VerdictOnBytes(p, net(Redirect.Destination(p)));
  }
}
