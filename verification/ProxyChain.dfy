/**
 A packet's whole journey from proxy to proxy, on bytes. The journey follows the hop list, ends
 where `HopChain` says it ends, leaves the inner packet alone and keeps the outer UDP checksum
 valid.
 */
module ProxyChain {
  import opened Bytes
  import opened Checksum
  import opened Redirect
  import HopChain

  /** The hosts behind the addresses. */
  type Net = Addr -> Host

  /** The hop list in the packet. */
  function HopList(p: seq<byte>, o: Outer): (hops: seq<Addr>)
    requires o.crOfs + 4 + 4 * o.hopCount <= |p|
    ensures |hops| == o.hopCount
    ensures forall i {:trigger hops[i]} :: 0 <= i < o.hopCount ==> hops[i] == HopAt(p, o, i)
  {
    seq(o.hopCount, i requires 0 <= i < o.hopCount => HopAt(p, o, i))
  }

  /** The part of a packet that matters to its journey. */
  datatype Leg = Leg(src: Addr, dst: Addr, nextHop: nat, hops: seq<Addr>, proto: byte, payload: seq<byte>)

  function LegOf(p: seq<byte>, o: Outer): (l: Leg)
    requires IpPacket(p) && ParseOuter(p) == Some(o)
    ensures |l.hops| == o.hopCount && l.nextHop == o.nextHop
  {
    Leg(Source(p), Destination(p), o.nextHop, HopList(p, o), o.proto, p[o.innerOfs..])
  }

  /** What the inner packet is. */
  function LegInner(l: Leg): Inner {
    if l.proto == PROTO_IPIP then InnerV4(l.payload)
    else if l.proto == PROTO_IPV6 then InnerV6(l.payload)
    else Malformed
  }

  /** What one forward does to a leg. */
  function NextLeg(l: Leg): Leg
    requires l.nextHop < |l.hops|
  {
    l.(src := l.dst, dst := l.hops[l.nextHop], nextHop := l.nextHop + 1)
  }

  lemma ParseAfterForward(p: seq<byte>, o: Outer, alt: Addr, check: nat)
    requires CanForward(p, o) && check <= M
    ensures IpPacket(Rewritten(p, o, alt, check))
    ensures ParseOuter(Rewritten(p, o, alt, check)) == Some(o.(nextHop := o.nextHop + 1))
  {
    var q := Rewritten(p, o, alt, check);
    assert q[0] == p[0] && q[9] == p[9];
    assert q[o.udpOfs + 8] == p[o.udpOfs + 8] && q[o.udpOfs + 9] == p[o.udpOfs + 9];
    assert q[o.crOfs + 2] as int == o.nextHop + 1 && q[o.crOfs + 3] == p[o.crOfs + 3];
  }

  lemma RestAfterForward(p: seq<byte>, o: Outer, alt: Addr, check: nat, k: nat)
    requires CanForward(p, o) && check <= M && o.crOfs + 3 <= k <= |p|
    ensures Rewritten(p, o, alt, check)[k..] == p[k..]
  {
  }

  lemma ForwardStep(p: seq<byte>, o: Outer)
    requires CanForward(p, o)
    ensures IpPacket(Forwarded(p, o)) && ParseOuter(Forwarded(p, o)) == Some(o.(nextHop := o.nextHop + 1))
    ensures LegOf(Forwarded(p, o), o.(nextHop := o.nextHop + 1)) == NextLeg(LegOf(p, o))
  {
    var alt := HopAt(p, o, o.nextHop);
    var check := NewCheck(CheckField(p, o.udpOfs), o.nextHop, Source(p), alt);
    ParseAfterForward(p, o, alt, check);
    RestAfterForward(p, o, alt, check, o.crOfs + 4);
    LegAfter(p, o, alt, Forwarded(p, o));
  }

  lemma LegAfter(p: seq<byte>, o: Outer, alt: Addr, q: seq<byte>)
    requires CanForward(p, o) && alt == HopAt(p, o, o.nextHop) && |q| == |p|
    requires IpPacket(q) && ParseOuter(q) == Some(o.(nextHop := o.nextHop + 1))
    requires Source(q) == Destination(p) && Destination(q) == alt && q[o.crOfs + 4..] == p[o.crOfs + 4..]
    ensures LegOf(q, o.(nextHop := o.nextHop + 1)) == NextLeg(LegOf(p, o))
  {
    var o', k := o.(nextHop := o.nextHop + 1), o.crOfs + 4;
    assert q[o.innerOfs..] == q[k..][o.innerOfs - k..] == p[o.innerOfs..];
    forall i | 0 <= i < o.hopCount
      ensures HopAt(q, o', i) == HopAt(p, o, i)
    {
      assert HopAt(q, o', i) == q[k..][4 * i..4 * i + 4];
      assert HopAt(p, o, i) == p[k..][4 * i..4 * i + 4];
    }
    assert HopList(q, o') == HopList(p, o);
  }

  /** A forward changes the outer addresses, next_hop and the UDP checksum, and no other byte. */
  lemma ForwardChangesOnly(p: seq<byte>, o: Outer, i: nat)
    requires CanForward(p, o) && i < |p|
    requires !(12 <= i < 20) && i != o.udpOfs + 6 && i != o.udpOfs + 7 && i != o.udpOfs + 14
    ensures |Forwarded(p, o)| == |p| && Forwarded(p, o)[i] == p[i]
  {
  }

  function Remaining(p: seq<byte>): nat
    requires IpPacket(p)
  {
    match ParseOuter(p)
    case None => 0
    case Some(o) => if o.nextHop < o.hopCount then o.hopCount - o.nextHop else 0
  }

  /** The packet as each host on its journey receives it; the last one keeps or drops it. */
  function Trace(p: seq<byte>, net: Net): (tr: seq<seq<byte>>)
    requires IpPacket(p)
    ensures tr != [] && tr[0] == p
    decreases Remaining(p)
  {
    if Decide(p, net(Destination(p))) == Forward then
      var o := ParseOuter(p).value;
      ForwardStep(p, o);
      [p] + Trace(Forwarded(p, o), net)
    else [p]
  }

  function KnowsFlow(net: Net, t: Tuple, ackOnly: bool): Addr -> bool {
    (h: Addr) => net(h).Knows(t, ackOnly)
  }

  /** The address the packet is at, followed by the hops still ahead of it. */
  function Path(l: Leg): (path: seq<Addr>)
    ensures path != [] && path[0] == l.dst
  {
    if l.nextHop < |l.hops| then Cons(l.dst, l.hops[l.nextHop..]) else [l.dst]
  }

  function Cons(a: Addr, s: seq<Addr>): seq<Addr> {
    [a] + s
  }

  lemma PathOfNext(l: Leg)
    requires l.nextHop < |l.hops|
    ensures Path(NextLeg(l)) == Path(l)[1..]
    ensures |Path(l)| > 1 && Path(l)[1] == l.hops[l.nextHop]
  {
    var n := l.nextHop;
    assert l.hops[n..] == [l.hops[n]] + l.hops[n + 1..];
  }

  function VerdictFor(r: HopChain.Reason): Verdict {
    match r
    case Known => AcceptKnown
    case LastResort => AcceptLastResort
    case ForwardToSelf => AcceptSelf
  }

  /** The journey of a leg: one leg for each host visited. */
  function Legs(l: Leg, knows: Addr -> bool): (ls: seq<Leg>)
    ensures ls != [] && ls[0] == l
    decreases |l.hops| - l.nextHop
  {
    if l.nextHop < |l.hops| && !knows(l.dst) && l.hops[l.nextHop] != l.dst
    then [l] + Legs(NextLeg(l), knows)
    else [l]
  }

  /** The leg that reaches the host at position `i` of the path. */
  function LegAt(l: Leg, i: nat): Leg
    requires i < |Path(l)|
  {
    l.(src := if i == 0 then l.src else Path(l)[i - 1], dst := Path(l)[i], nextHop := l.nextHop + i)
  }

  lemma {:induction false} LegsFollowPath(l: Leg, knows: Addr -> bool)
    ensures var j, ls := HopChain.StopFrom(Path(l), knows, 0), Legs(l, knows);
            && |ls| == j + 1
            && forall i {:trigger ls[i]} :: 0 <= i <= j ==> ls[i] == LegAt(l, i)
    decreases |l.hops| - l.nextHop
  {
    var path := Path(l);
    if l.nextHop < |l.hops| {
      PathOfNext(l);
      if !HopChain.Keeps(path, knows, 0) {
        LegsFollowPath(NextLeg(l), knows);
        HopChain.StopAfterFirst(path, knows, 1);
        var j, ls, ls' := HopChain.StopFrom(path, knows, 0), Legs(l, knows), Legs(NextLeg(l), knows);
        forall i | 0 <= i <= j
          ensures ls[i] == LegAt(l, i)
        {
          if i > 0 {
            assert ls[i] == ls'[i - 1] == LegAt(NextLeg(l), i - 1);
          }
        }
      }
    }
  }

  /** `q` is a packet whose journey-relevant part is `l`. */
  ghost predicate Carries(q: seq<byte>, l: Leg) {
    IpPacket(q) && ParseOuter(q).Some? && LegOf(q, ParseOuter(q).value) == l
  }

  /** The decision on a non-SYN segment, in terms of the leg. */
  lemma DecisionOnLeg(p: seq<byte>, l: Leg, t: Tuple, ackOnly: bool, host: Host)
    requires Carries(p, l) && LegInner(l) == Segment(t, false, ackOnly)
    ensures Decide(p, host) ==
            if host.Knows(t, ackOnly) then AcceptKnown
            else if l.nextHop >= |l.hops| then AcceptLastResort
            else if l.hops[l.nextHop] == l.dst then AcceptSelf
            else Forward
  {
  }

  ghost predicate AllCarry(tr: seq<seq<byte>>, ls: seq<Leg>) {
    |tr| == |ls| && (tr == [] || (Carries(tr[0], ls[0]) && AllCarry(tr[1..], ls[1..])))
  }

  lemma {:induction false} AllCarryAt(tr: seq<seq<byte>>, ls: seq<Leg>, i: nat)
    requires AllCarry(tr, ls) && i < |tr|
    ensures Carries(tr[i], ls[i])
  {
    if i > 0 {
      AllCarryAt(tr[1..], ls[1..], i - 1);
    }
  }

  lemma AllCarryCons(p: seq<byte>, l: Leg, tr: seq<seq<byte>>, ls: seq<Leg>)
    requires Carries(p, l) && AllCarry(tr, ls)
    ensures AllCarry([p] + tr, [l] + ls)
  {
    assert ([p] + tr)[1..] == tr && ([l] + ls)[1..] == ls;
  }

  lemma {:induction false} TraceCarriesLegs(p: seq<byte>, l: Leg, t: Tuple, ackOnly: bool, net: Net)
    requires Carries(p, l) && LegInner(l) == Segment(t, false, ackOnly)
    ensures AllCarry(Trace(p, net), Legs(l, KnowsFlow(net, t, ackOnly)))
    decreases |l.hops| - l.nextHop
  {
    var knows := KnowsFlow(net, t, ackOnly);
    DecisionOnLeg(p, l, t, ackOnly, net(l.dst));
    if Decide(p, net(l.dst)) == Forward {
      var q := TraceOnce(p, l, net);
      TraceCarriesLegs(q, NextLeg(l), t, ackOnly, net);
      AllCarryCons(p, l, Trace(q, net), Legs(NextLeg(l), knows));
    } else {
      AllCarryCons(p, l, [], []);
      assert [p] + [] == [p] && [l] + [] == [l];
    }
  }

  lemma TraceOnce(p: seq<byte>, l: Leg, net: Net) returns (q: seq<byte>)
    requires Carries(p, l) && Decide(p, net(l.dst)) == Forward
    ensures l.nextHop < |l.hops| && Carries(q, NextLeg(l)) && Trace(p, net) == [p] + Trace(q, net)
  {
    var o := ParseOuter(p).value;
    ForwardStep(p, o);
    q := Forwarded(p, o);
  }

  /**
   A non-SYN segment visits hosts exactly in hop-list order and stops at the first one that knows the
   flow, is last, or is followed by itself. Each host sees the one before it as the outer source, and
   the inner packet arrives unchanged.
   */
  lemma JourneyFollowsHopList(p: seq<byte>, l: Leg, t: Tuple, ackOnly: bool, net: Net)
    requires Carries(p, l) && LegInner(l) == Segment(t, false, ackOnly)
    ensures var knows, tr := KnowsFlow(net, t, ackOnly), Trace(p, net);
            var j := HopChain.StopFrom(Path(l), knows, 0);
            && |tr| == j + 1
            && (forall i {:trigger tr[i]} :: 0 <= i <= j ==> Carries(tr[i], LegAt(l, i)))
            && Decide(tr[j], net(Path(l)[j])) == VerdictFor(HopChain.ReasonAt(Path(l), knows, j))
  {
    var knows, tr := KnowsFlow(net, t, ackOnly), Trace(p, net);
    TraceCarriesLegs(p, l, t, ackOnly, net);
    LegsFollowPath(l, knows);
    var j, ls := HopChain.StopFrom(Path(l), knows, 0), Legs(l, knows);
    forall i | 0 <= i <= j
      ensures Carries(tr[i], LegAt(l, i))
    {
      AllCarryAt(tr, ls, i);
    }
    DecisionOnLeg(tr[j], LegAt(l, j), t, ackOnly, net(Path(l)[j]));
    VerdictAtStop(l, knows, j);
  }

  /** The reason for stopping at position `j`, read off the leg. */
  lemma VerdictAtStop(l: Leg, knows: Addr -> bool, j: nat)
    requires j < |Path(l)| && HopChain.Keeps(Path(l), knows, j)
    ensures var m := LegAt(l, j);
            VerdictFor(HopChain.ReasonAt(Path(l), knows, j)) ==
            if knows(m.dst) then AcceptKnown
            else if m.nextHop >= |m.hops| then AcceptLastResort
            else AcceptSelf
    ensures var m := LegAt(l, j);
            !knows(m.dst) && m.nextHop < |m.hops| ==> m.hops[m.nextHop] == m.dst
  {
    var path := Path(l);
    if l.nextHop < |l.hops| {
      assert path == [l.dst] + l.hops[l.nextHop..];
      assert j + 1 < |path| ==> path[j + 1] == l.hops[l.nextHop + j];
    }
  }

  // ---- The checksum along the journey ----

  function UdpLength(p: seq<byte>, udp: nat): nat
    requires udp + 8 <= |p|
  {
    U16At(p, udp + 4)
  }

  /** The UDP length is at least that of its own header and stays inside the packet. */
  predicate LengthOk(p: seq<byte>, udp: nat) {
    |p| >= 20 && udp + 8 <= |p| && 8 <= UdpLength(p, udp) && udp + UdpLength(p, udp) <= |p|
  }

  /** The bytes RFC 768 has the checksum cover: the pseudo header and the datagram. */
  function Cover(src: seq<byte>, dst: seq<byte>, len: seq<byte>, datagram: seq<byte>): seq<byte> {
    src + dst + [0, PROTO_UDP] + len + datagram
  }

  function Covered(p: seq<byte>, udp: nat, n: nat): seq<byte>
    requires |p| >= 20 && udp + 8 <= |p| && udp + n <= |p|
  {
    Cover(p[12..16], p[16..20], p[udp + 4..udp + 6], p[udp..udp + n])
  }

  /** Unused, or valid in the sense of RFC 1071 over the bytes RFC 768 names. */
  predicate ChecksumOk(p: seq<byte>, udp: nat, n: nat)
    requires |p| >= 20 && udp + 8 <= |p| && udp + n <= |p|
  {
    CheckField(p, udp) == 0 || SumsToOnes(NetSum(Covered(p, udp, n)))
  }

  lemma CoverSum(src: seq<byte>, dst: seq<byte>, len: seq<byte>, datagram: seq<byte>)
    requires |src| == |dst| == 4 && |len| == 2
    ensures RawSum(Cover(src, dst, len, datagram)) == RawSum(src) + RawSum(dst) + 0x1100 + RawSum(len) + RawSum(datagram)
  {
    var z := [0, PROTO_UDP];
    RawSumConcat(src + dst + z + len, datagram);
    RawSumConcat(src + dst + z, len);
    RawSumConcat(src + dst, z);
    RawSumConcat(src, dst);
    assert RawSum(z) == 0x1100 by {
      assert z[..1] == [0];
      assert RawSum(z[..1]) == 0;
    }
  }

  /**
   Why it is enough to take the old source out and put the new destination in: the old destination
   only moves to the source field. A datagram that is off by one is invalid.
   */
  lemma MovedAddressesKeepValidity(src: seq<byte>, dst: seq<byte>, alt: seq<byte>, len: seq<byte>,
                                   before: seq<byte>, after: seq<byte>, off: int, k: int)
    requires |src| == |dst| == |alt| == 4 && |len| == 2 && -1 <= off <= 0
    requires RawSum(after) == RawSum(before) + RawSum(src) - RawSum(alt) + off + M * k
    requires SumsToOnes(NetSum(Cover(src, dst, len, before)))
    ensures SumsToOnes(NetSum(Cover(dst, alt, len, after))) <==> off == 0
  {
    CoverSum(src, dst, len, before);
    CoverSum(dst, alt, len, after);
    ResidueDecides(Cover(src, dst, len, before), Cover(dst, alt, len, after), off, k);
  }

  lemma TwoUpdates(a: seq<byte>, x: byte, y: byte)
    requires |a| >= 8
    ensures RawSum(a[6 := x][7 := y]) == RawSum(a) + (x as int - a[6] as int) + 0x100 * (y as int - a[7] as int)
  {
    LowByteSum(a, 6, x);
    HighByteSum(a[6 := x], 7, y);
  }

  /** Whether a datagram of `n` bytes reaches as far as next_hop, its byte 14. */
  function Reach(n: nat): nat {
    if n >= 15 then 1 else 0
  }

  /**
   The datagram after a rewrite. next_hop lies at an even offset, so in host order its change by one
   moves the sum by exactly one although the 16-bit word also holds hop_count; but a datagram that ends
   before next_hop does not see the change.
   */
  lemma SegmentSum(p: seq<byte>, o: Outer, alt: Addr, check: nat, n: nat)
    requires |p| >= 20 && 20 <= o.udpOfs && o.crOfs == o.udpOfs + 12 && check <= M && o.udpOfs + 8 <= o.udpOfs + n <= |p|
    requires o.crOfs + 2 < |p| && o.nextHop < 0xff && p[o.crOfs + 2] as int == o.nextHop
    ensures var q, udp := Rewritten(p, o, alt, check), o.udpOfs;
            && CheckField(q, udp) == check
            && RawSum(q[udp..udp + n]) == RawSum(p[udp..udp + n]) + check - CheckField(p, udp) + Reach(n)
  {
    var udp := o.udpOfs;
    var a := p[udp..udp + n];
    RewrittenSegment(p, o, alt, check, n);
    ResummedSum(a, check);
    if n >= 15 {
      LowByteSum(Resummed(a, check), 14, a[14] + 1);
    }
  }

  /** A datagram with a new checksum. */
  function Resummed(a: seq<byte>, check: nat): (b: seq<byte>)
    requires |a| >= 8 && check <= M
    ensures |b| == |a| && forall i :: 0 <= i < |a| && i != 6 && i != 7 ==> b[i] == a[i]
  {
    a[6 := (check % 0x100) as byte][7 := (check / 0x100) as byte]
  }

  lemma RewrittenSegment(p: seq<byte>, o: Outer, alt: Addr, check: nat, n: nat)
    requires |p| >= 20 && 20 <= o.udpOfs && o.crOfs == o.udpOfs + 12 && check <= M && o.udpOfs + 8 <= o.udpOfs + n <= |p|
    requires o.crOfs + 2 < |p| && o.nextHop < 0xff && p[o.crOfs + 2] as int == o.nextHop
    ensures var udp := o.udpOfs;
            var a, b := p[udp..udp + n], Rewritten(p, o, alt, check)[udp..udp + n];
            if n >= 15 then a[14] < 0xff && b == Resummed(a, check)[14 := a[14] + 1] else b == Resummed(a, check)
  {
    var udp := o.udpOfs;
    var a, b := p[udp..udp + n], Rewritten(p, o, alt, check)[udp..udp + n];
    forall i | 0 <= i < n
      ensures b[i] == if i == 14 then (o.nextHop + 1) as byte else Resummed(a, check)[i]
    {
      assert b[i] == RewrittenByte(p, o, alt, check, udp + i);
    }
    assert n >= 15 ==> a[14] == p[o.crOfs + 2];
  }

  lemma ResummedSum(a: seq<byte>, check: nat)
    requires |a| >= 8 && check <= M
    ensures RawSum(Resummed(a, check)) == RawSum(a) + check - (a[6] as int + 0x100 * a[7] as int)
  {
    SplitBytes(check);
    TwoUpdates(a, (check % 0x100) as byte, (check / 0x100) as byte);
  }

  lemma NewCheckMeaning(check: nat, nextHop: nat, saddr: Addr, alt: Addr) returns (k: int)
    requires 0 < check <= M && nextHop < 0xff
    ensures NewCheck(check, nextHop, saddr, alt) == check - 1 + RawSum(saddr) - RawSum(alt) + M * k
  {
    var k1 := Replace2Meaning(check, nextHop, nextHop + 1);
    var c1 := Replace2(check, nextHop, nextHop + 1);
    var k2 := Replace4Meaning(c1, Raw32(saddr), Raw32(alt));
    Raw32Meaning(saddr);
    Raw32Meaning(alt);
    k := k1 + k2 + (saddr[2] as int + 0x100 * saddr[3] as int) - (alt[2] as int + 0x100 * alt[3] as int);
  }

  lemma ResidueDecides(x: seq<byte>, y: seq<byte>, off: int, k: int)
    requires -1 <= off <= 0 && RawSum(y) == RawSum(x) + off + M * k && RawSum(y) > 0 && SumsToOnes(NetSum(x))
    ensures SumsToOnes(NetSum(y)) <==> off == 0
  {
    ByteOrderIndependence(x);
    ByteOrderIndependence(y);
    SumsToOnesExactly(RawSum(x));
    SumsToOnesExactly(RawSum(y));
    CongruentByMultiple(RawSum(x) + off, k);
    assert RawSum(x) == M * (RawSum(x) / M);
    CongruentByMultiple(off, RawSum(x) / M);
  }

  /** All that the checksum needs to know of a rewrite, for a datagram of `n` bytes at `udp`. */
  ghost predicate Moves(p: seq<byte>, q: seq<byte>, udp: nat, n: nat, alt: Addr, check: nat) {
    && |p| == |q| >= 20 && udp + 8 <= udp + n <= |p|
    && q[12..16] == p[16..20] && q[16..20] == alt
    && q[udp + 4..udp + 6] == p[udp + 4..udp + 6]
    && CheckField(q, udp) == check
    && RawSum(q[udp..udp + n]) == RawSum(p[udp..udp + n]) + check - CheckField(p, udp) + Reach(n)
  }

  lemma RewriteMoves(p: seq<byte>, o: Outer, alt: Addr, check: nat, n: nat)
    requires CanForward(p, o) && check <= M && o.udpOfs + 8 <= o.udpOfs + n <= |p|
    ensures Moves(p, Rewritten(p, o, alt, check), o.udpOfs, n, alt, check)
  {
    SegmentSum(p, o, alt, check, n);
  }

  /** One rewrite keeps a valid checksum valid exactly when the datagram reaches as far as next_hop. */
  lemma MovesDecideChecksum(p: seq<byte>, q: seq<byte>, udp: nat, n: nat, alt: Addr, check: nat, k: int)
    requires Moves(p, q, udp, n, alt, check) && SumsToOnes(NetSum(Covered(p, udp, n)))
    requires check == CheckField(p, udp) - 1 + RawSum(p[12..16]) - RawSum(alt) + M * k
    ensures SumsToOnes(NetSum(Covered(q, udp, n))) <==> n >= 15
  {
    MovedAddressesKeepValidity(p[12..16], p[16..20], alt, p[udp + 4..udp + 6], p[udp..udp + n], q[udp..udp + n], Reach(n) - 1, k);
  }

  /**
   A forward keeps a used, valid checksum valid exactly when the UDP length reaches as far as next_hop. The
   checksum is adjusted for the change of next_hop whether the datagram covers it or not.
   */
  lemma ForwardKeepsChecksumExactly(p: seq<byte>, o: Outer, n: nat)
    requires CanForward(p, o) && 8 <= n && o.udpOfs + n <= |p|
    requires CheckField(p, o.udpOfs) != 0 && SumsToOnes(NetSum(Covered(p, o.udpOfs, n)))
    ensures SumsToOnes(NetSum(Covered(Forwarded(p, o), o.udpOfs, n))) <==> n >= 15
  {
    var alt, c := HopAt(p, o, o.nextHop), CheckField(p, o.udpOfs);
    var check := NewCheck(c, o.nextHop, Source(p), alt);
    var k := NewCheckMeaning(c, o.nextHop, Source(p), alt);
    RewriteMoves(p, o, alt, check, n);
    MovesDecideChecksum(p, Rewritten(p, o, alt, check), o.udpOfs, n, alt, check, k);
  }

  /** The checksum is unused, or the UDP length fits and the checksum is valid. */
  ghost predicate Sound(q: seq<byte>) {
    IpPacket(q) && ParseOuter(q).Some? && SoundAt(q, ParseOuter(q).value.udpOfs)
  }

  ghost predicate SoundAt(q: seq<byte>, udp: nat) {
    && |q| >= 20 && udp + 8 <= |q|
    && (CheckField(q, udp) == 0 || (LengthOk(q, udp) && SumsToOnes(NetSum(Covered(q, udp, UdpLength(q, udp))))))
  }

  lemma ForwardLeavesLength(p: seq<byte>, o: Outer)
    requires CanForward(p, o)
    ensures UdpLength(Forwarded(p, o), o.udpOfs) == UdpLength(p, o.udpOfs)
    ensures CheckField(p, o.udpOfs) == 0 ==> CheckField(Forwarded(p, o), o.udpOfs) == 0
  {
    var q := Forwarded(p, o);
    assert q[o.udpOfs + 4] == p[o.udpOfs + 4] && q[o.udpOfs + 5] == p[o.udpOfs + 5];
  }

  /** A forward keeps a sound packet sound exactly when its checksum is or becomes unused, or covers next_hop. */
  lemma ForwardSoundExactly(p: seq<byte>, o: Outer)
    requires Sound(p) && CanForward(p, o)
    ensures Sound(Forwarded(p, o))
            <==> CheckField(Forwarded(p, o), o.udpOfs) == 0 || UdpLength(p, o.udpOfs) >= 15
  {
    var alt := HopAt(p, o, o.nextHop);
    ParseAfterForward(p, o, alt, NewCheck(CheckField(p, o.udpOfs), o.nextHop, Source(p), alt));
    ForwardLeavesLength(p, o);
    if CheckField(p, o.udpOfs) != 0 {
      ForwardKeepsChecksumExactly(p, o, UdpLength(p, o.udpOfs));
    }
  }

  lemma TraceNext(p: seq<byte>, o: Outer, net: Net)
    requires CanForward(p, o) && Decide(p, net(Destination(p))) == Forward
    ensures IpPacket(Forwarded(p, o)) && Remaining(Forwarded(p, o)) < Remaining(p)
    ensures Trace(p, net) == [p] + Trace(Forwarded(p, o), net)
  {
    ForwardStep(p, o);
  }

  ghost predicate AllSound(tr: seq<seq<byte>>) {
    forall q | q in tr :: Sound(q)
  }

  /** Unused, or used by a datagram that reaches as far as next_hop. */
  predicate SafeToForward(p: seq<byte>, udp: nat) {
    udp + 8 <= |p| && (CheckField(p, udp) == 0 || UdpLength(p, udp) >= 15)
  }

  lemma SafeStep(p: seq<byte>, net: Net) returns (q: seq<byte>)
    requires Sound(p) && SafeToForward(p, ParseOuter(p).value.udpOfs) && Decide(p, net(Destination(p))) == Forward
    ensures Sound(q) && SafeToForward(q, ParseOuter(q).value.udpOfs)
    ensures Remaining(q) < Remaining(p) && Trace(p, net) == [p] + Trace(q, net)
  {
    var o := ParseOuter(p).value;
    q := Forwarded(p, o);
    TraceNext(p, o, net);
    ForwardSoundExactly(p, o);
    ForwardLeavesLength(p, o);
    ForwardStep(p, o);
  }

  /**
   Whatever the hosts on the way know, every host receives a checksum that is valid or unused, if it is
   unused at the start or its datagram reaches as far as next_hop.
   */
  lemma {:induction false} JourneyKeepsChecksum(p: seq<byte>, net: Net)
    requires Sound(p) && SafeToForward(p, ParseOuter(p).value.udpOfs)
    ensures AllSound(Trace(p, net))
    decreases Remaining(p)
  {
    if Decide(p, net(Destination(p))) == Forward {
      var q := SafeStep(p, net);
      JourneyKeepsChecksum(q, net);
    }
  }

  /**
   And exactly then, but for packets that are not forwarded at all or whose checksum the first forward
   happens to make zero.
   */
  lemma JourneyKeepsChecksumExactly(p: seq<byte>, net: Net)
    requires Sound(p)
    ensures var o := ParseOuter(p).value;
            AllSound(Trace(p, net))
            <==> || SafeToForward(p, o.udpOfs)
                 || Decide(p, net(Destination(p))) != Forward
                 || CheckField(Forwarded(p, o), o.udpOfs) == 0
  {
    var o := ParseOuter(p).value;
    if SafeToForward(p, o.udpOfs) {
      JourneyKeepsChecksum(p, net);
    } else if Decide(p, net(Destination(p))) == Forward {
      var q := Forwarded(p, o);
      TraceNext(p, o, net);
      ForwardSoundExactly(p, o);
      if CheckField(q, o.udpOfs) == 0 {
        ForwardStep(p, o);
        JourneyKeepsChecksum(q, net);
      } else {
        assert Trace(p, net)[1] == q;
      }
    }
  }
}
