/**
 From a client's frame to the host that owns its connection: parse, route by a built table,
 encapsulate, and follow the packet from proxy to proxy, on bytes. Segments of a live
 connection and packet-too-big messages about it are both accepted by the owner, after every run
 of the protocol.
 */
module EndToEnd {
  import opened Bytes
  import opened Checksum
  import opened PacketParsing
  import opened Encap
  import opened Rendezvous
  import HopChain
  import ProxyChain
  import Redirect
  import SecondChance
  import TableBuilder

  // ---- The checksum the director sends ----

  /** The UDP checksum over a datagram whose checksum field is still zero; never zero itself. */
  function UdpChecksum(p: seq<byte>, udp: nat, n: nat): (c: nat)
    requires |p| >= 20 && udp + 8 <= |p| && udp + n <= |p|
    ensures 0 < c <= M
  {
    M - RawSum(ProxyChain.Covered(p, udp, n)) % M
  }

  /** `p` with its UDP checksum field set. */
  function WithChecksum(p: seq<byte>, udp: nat, c: nat): (r: seq<byte>)
    requires udp + 8 <= |p| && c <= M
    ensures |r| == |p|
  {
    WriteField(p, udp + 6, c)
  }

  lemma ChecksumLeavesRest(p: seq<byte>, udp: nat, n: nat, c: nat)
    requires |p| >= 20 && 20 <= udp && 8 <= n && udp + n <= |p| && c <= M
    ensures var q := WithChecksum(p, udp, c);
            && q[12..16] == p[12..16] && q[16..20] == p[16..20] && q[udp + 4..udp + 6] == p[udp + 4..udp + 6]
            && q[udp..udp + n] == WriteField(p[udp..udp + n], 6, c)
  {
  }

  lemma FilledCoverIsValid(src: seq<byte>, dst: seq<byte>, len: seq<byte>, a: seq<byte>)
    requires |src| == |dst| == 4 && |len| == 2 && |a| >= 8 && a[6] == a[7] == 0
    ensures var c := M - RawSum(ProxyChain.Cover(src, dst, len, a)) % M;
            SumsToOnes(NetSum(ProxyChain.Cover(src, dst, len, WriteField(a, 6, c))))
  {
    var c := M - RawSum(ProxyChain.Cover(src, dst, len, a)) % M;
    WriteFieldSum(a, 6, c);
    ProxyChain.CoverSum(src, dst, len, a);
    ProxyChain.CoverSum(src, dst, len, WriteField(a, 6, c));
    CompletedSum(ProxyChain.Cover(src, dst, len, a), ProxyChain.Cover(src, dst, len, WriteField(a, 6, c)));
  }

  lemma FilledChecksumIsValid(p: seq<byte>, udp: nat, n: nat)
    requires |p| >= 20 && 20 <= udp && 8 <= n && udp + n <= |p| && p[udp + 6] == p[udp + 7] == 0
    ensures ProxyChain.ChecksumOk(WithChecksum(p, udp, UdpChecksum(p, udp, n)), udp, n)
  {
    ChecksumLeavesRest(p, udp, n, UdpChecksum(p, udp, n));
    FilledCoverIsValid(p[12..16], p[16..20], p[udp + 4..udp + 6], p[udp..udp + n]);
  }

  // ---- What the director sends for a frame ----

  /** The values the director leaves in the outer IP header's and the UDP header's checksum fields. */
  datatype Sums = Sums(ip: nat, udp: nat)

  predicate ValidSums(sums: Sums) {
    sums.ip <= M && sums.udp <= M
  }

  function WithSums(p: seq<byte>, sums: Sums): (r: seq<byte>)
    requires |p| >= 28 && ValidSums(sums)
    ensures |r| == |p| && forall i :: 0 <= i < |p| && i !in {10, 11, 26, 27} ==> r[i] == p[i]
  {
    WithChecksum(WriteField(p, 10, sums.ip), 20, sums.udp)
  }

  /** Nothing about a packet's journey depends on its two checksum fields. */
  lemma SumsKeepLeg(p: seq<byte>, q: seq<byte>, l: ProxyChain.Leg)
    requires ProxyChain.Carries(p, l) && Redirect.ParseOuter(p).value.udpOfs == 20
    requires |p| == |q| && forall i :: 0 <= i < |p| && i !in {10, 11, 26, 27} ==> q[i] == p[i]
    ensures ProxyChain.Carries(q, l) && Redirect.ParseOuter(q) == Redirect.ParseOuter(p)
  {
    var o := Redirect.ParseOuter(p).value;
    assert q[0] == p[0] && q[9] == p[9] && q[28] == p[28] && q[29] == p[29] && q[34] == p[34] && q[35] == p[35];
    assert Redirect.ParseOuter(q) == Some(o);
    assert q[12..16] == p[12..16] && q[16..20] == p[16..20] && q[o.innerOfs..] == p[o.innerOfs..];
    forall i | 0 <= i < o.hopCount
      ensures Redirect.HopAt(q, o, i) == Redirect.HopAt(p, o, i)
    {
    }
    assert ProxyChain.HopList(q, o) == ProxyChain.HopList(p, o);
  }

  /** The encapsulated packet before its checksums are filled in. */
  function Unsummed(d: Director, t: Table, cfg: HashConfig, frame: seq<byte>): (p: seq<byte>)
    requires ValidDirector(d) && ValidTable(t) && Extract(frame).Some?
    ensures |p| >= 28
  {
    var f := Extract(frame).value;
    OnTheWire(d, RouteHops(t, f, cfg), SourcePort(RouteHash(t, f, cfg), f.hint), GueProto(f.family), f.totalLen, frame[14..])
  }

  /** The packet that leaves the director, from its outer IP header on, with whatever checksums. */
  function Sent(d: Director, t: Table, cfg: HashConfig, frame: seq<byte>, sums: Sums): (p: seq<byte>)
    requires ValidDirector(d) && ValidTable(t) && Extract(frame).Some? && ValidSums(sums)
  {
    WithSums(Unsummed(d, t, cfg, frame), sums)
  }

  /**
   The DPDK director on one frame, up to the checksums: parse, collect the hops, and write the headers in front of
   the original IP packet. A frame that cannot be parsed is not encapsulated.
   */
  method EncapsulateFrame(frame: seq<byte>, d: Director, t: Table, cfg: HashConfig) returns (out: Option<seq<byte>>)
    requires ValidDirector(d) && ValidTable(t)
    ensures out.Some? <==> Extract(frame).Some?
    ensures out.Some? ==> out.value == d.gatewayMac + d.localMac + [0x08, 0x00] + Unsummed(d, t, cfg, frame)
  {
    var ctx := new RouteContext(false);
    var ok := ctx.Parse(frame);
    if !ok {
      return None;
    }
    var f := Fields(ctx.family, ctx.totalLen, ctx.src, ctx.dst, ctx.sport, ctx.dport, ctx.hint, ctx.origProto);
    var route := new HopBuffer();
    ok := route.Calculate(t, f, cfg);
    var hops := route.ipv4Hops[..route.hopCount];
    var bytes := WriteInFront(frame[14..], d, hops, route.pktHash, f);
    EthernetInFront(d, hops, SourcePort(route.pktHash, f.hint), GueProto(f.family), f.totalLen, frame[14..]);
    out := Some(bytes);
  }

  method WriteInFront(inner: seq<byte>, d: Director, hops: seq<Addr>, pktHash: bv64, f: Fields) returns (bytes: seq<byte>)
    requires ValidDirector(d) && 1 <= |hops| <= MAX_HOPS && WellFormed(f)
    ensures bytes == EncapBytes(d, hops, SourcePort(pktHash, f.hint), GueProto(f.family), f.totalLen) + inner
  {
    var size := EncapSize(|hops|);
    var buf := new byte[size + |inner|];
    var _ := Push(buf, size, inner);
    assert buf[size..] == inner;
    var _ := Encap.Encapsulate(buf, d, hops, pktHash, f);
    assert buf[..] == buf[..size] + buf[size..];
    bytes := buf[..];
  }

  lemma EthernetInFront(d: Director, hops: seq<Addr>, port: nat, proto: byte, innerLen: nat, inner: seq<byte>)
    requires ValidDirector(d) && 1 <= |hops| <= MAX_HOPS && port < 0x1_0000
    ensures EncapBytes(d, hops, port, proto, innerLen) + inner
         == d.gatewayMac + d.localMac + [0x08, 0x00] + OnTheWire(d, hops, port, proto, innerLen, inner)
  {
    var e := EncapBytes(d, hops, port, proto, innerLen);
    assert e[..14] == d.gatewayMac + d.localMac + [0x08, 0x00];
    assert e == e[..14] + e[14..];
  }

  /** The packet's journey-relevant part when it leaves the director. */
  function FirstLeg(d: Director, hops: seq<Addr>, proto: byte, payload: seq<byte>): ProxyChain.Leg
    requires hops != []
  {
    ProxyChain.Leg(d.ip, hops[0], 0, hops[1..], proto, payload)
  }

  lemma PathOfFirstLeg(d: Director, hops: seq<Addr>, proto: byte, payload: seq<byte>)
    requires hops != []
    ensures ProxyChain.Path(FirstLeg(d, hops, proto, payload)) == hops
  {
    assert hops == [hops[0]] + hops[1..];
  }

  lemma WireParsesAt20(d: Director, hops: seq<Addr>, port: nat, proto: byte, innerLen: nat, inner: seq<byte>)
    requires ValidDirector(d) && 1 <= |hops| <= MAX_HOPS && port < 0x1_0000
    ensures var p, rest := OnTheWire(d, hops, port, proto, innerLen, inner), |hops| - 1;
            && Redirect.IpPacket(p)
            && Redirect.ParseOuter(p) == Some(Redirect.Outer(20, 32, 36 + 4 * rest, 0, rest, proto))
  {
    var p := OnTheWire(d, hops, port, proto, innerLen, inner);
    WireLayout(d, hops, port, proto, innerLen, inner);
    assert p[0] == p[..20][0] && p[9] == p[..20][9];
    WireParses(p, hops, proto);
  }

  lemma WireCarries(d: Director, hops: seq<Addr>, port: nat, proto: byte, innerLen: nat, inner: seq<byte>, sums: Sums)
    requires ValidDirector(d) && 1 <= |hops| <= MAX_HOPS && port < 0x1_0000 && ValidSums(sums)
    ensures ProxyChain.Carries(WithSums(OnTheWire(d, hops, port, proto, innerLen, inner), sums), FirstLeg(d, hops, proto, inner))
  {
    var p := OnTheWire(d, hops, port, proto, innerLen, inner);
    RoundTrip(d, hops, port, proto, innerLen, inner);
    WireParsesAt20(d, hops, port, proto, innerLen, inner);
    SumsKeepLeg(p, WithSums(p, sums), FirstLeg(d, hops, proto, inner));
  }

  lemma SentCarries(d: Director, t: Table, cfg: HashConfig, frame: seq<byte>, sums: Sums)
    requires ValidDirector(d) && ValidTable(t) && Extract(frame).Some? && ValidSums(sums)
    ensures var f := Extract(frame).value;
            ProxyChain.Carries(Sent(d, t, cfg, frame, sums),
                               FirstLeg(d, RouteHops(t, f, cfg), GueProto(f.family), frame[14..]))
  {
    var f := Extract(frame).value;
    WireCarries(d, RouteHops(t, f, cfg), SourcePort(RouteHash(t, f, cfg), f.hint), GueProto(f.family),
                f.totalLen, frame[14..], sums);
  }

  // ---- The outer headers, field by field ----

  /**
   An IPv4 header without options, not to be fragmented, TTL 64, for UDP; then the UDP header, to the GUE port. `len`
   is the length of all that follows the outer IP header's 20 bytes.
   */
  predicate OuterHeaderIs(p: seq<byte>, src: Addr, dst: Addr, sport: nat, len: nat) {
    && |p| >= 28
    && p[0] == 0x45 && p[1] == 0 && U16At(p, 2) == (20 + len) % 0x1_0000 && p[4] == 0 && p[5] == 0
    && p[6] == 0x40 && p[7] == 0 && p[8] == 64 && p[9] == 17 && p[12..16] == src && p[16..20] == dst
    && U16At(p, 20) == sport && U16At(p, 22) == 19523 && U16At(p, 24) == len % 0x1_0000
  }

  lemma IpBytes(d: Director, hops: seq<Addr>, innerLen: nat, len: nat)
    requires 1 <= |hops| && len == 16 + 4 * (|hops| - 1) + innerLen
    ensures var h := IpHeader(d, hops, innerLen);
            && h[0] == 0x45 && h[1] == 0 && U16At(h, 2) == (20 + len) % 0x1_0000 && h[4] == 0 && h[5] == 0
            && h[6] == 0x40 && h[7] == 0 && h[8] == 64 && h[9] == 17 && h[12..16] == d.ip && h[16..20] == hops[0]
  {
    var h := IpHeader(d, hops, innerLen);
    assert h[2..4] == U16Bytes((20 + len) % 0x1_0000);
    U16OfSlice(h, 2, 4, 0);
    assert h[12..16] == d.ip && h[16..20] == hops[0];
  }

  lemma UdpBytes(hops: seq<Addr>, port: nat, innerLen: nat, len: nat)
    requires 1 <= |hops| && port < 0x1_0000 && len == 16 + 4 * (|hops| - 1) + innerLen
    ensures var h := UdpHeader(hops, port, innerLen);
            U16At(h, 0) == port && U16At(h, 2) == 19523 && U16At(h, 4) == len % 0x1_0000
  {
    var h := UdpHeader(hops, port, innerLen);
    assert h[0..2] == U16Bytes(port) && h[2..4] == U16Bytes(19523) && h[4..6] == U16Bytes(len % 0x1_0000);
    U16OfSlice(h, 0, 2, 0);
    U16OfSlice(h, 2, 4, 0);
    U16OfSlice(h, 4, 6, 0);
  }

  lemma HeaderBytes(ip: seq<byte>, udp: seq<byte>, src: Addr, dst: Addr, sport: nat, len: nat)
    requires |ip| == 20 && |udp| == 8
    requires ip[0] == 0x45 && ip[1] == 0 && U16At(ip, 2) == (20 + len) % 0x1_0000 && ip[4] == 0 && ip[5] == 0
    requires ip[6] == 0x40 && ip[7] == 0 && ip[8] == 64 && ip[9] == 17 && ip[12..16] == src && ip[16..20] == dst
    requires U16At(udp, 0) == sport && U16At(udp, 2) == 19523 && U16At(udp, 4) == len % 0x1_0000
    ensures OuterHeaderIs(ip + udp, src, dst, sport, len)
  {
    var h := ip + udp;
    assert h[12..16] == ip[12..16] && h[16..20] == ip[16..20];
    assert h[20] == udp[0] && h[21] == udp[1] && h[22] == udp[2] && h[23] == udp[3] && h[24] == udp[4] && h[25] == udp[5];
  }

  lemma HeaderStaysInFront(h: seq<byte>, p: seq<byte>, src: Addr, dst: Addr, sport: nat, len: nat)
    requires OuterHeaderIs(h, src, dst, sport, len) && |p| >= |h| == 28
    requires forall i :: 0 <= i < 28 && i !in {10, 11, 26, 27} ==> p[i] == h[i]
    ensures OuterHeaderIs(p, src, dst, sport, len)
  {
    assert p[12..16] == h[12..16] && p[16..20] == h[16..20];
  }

  /** The outer headers of every packet sent, whatever its checksums. */
  lemma SentHeader(d: Director, hops: seq<Addr>, port: nat, proto: byte, innerLen: nat, inner: seq<byte>, sums: Sums, len: nat)
    requires ValidDirector(d) && 1 <= |hops| <= MAX_HOPS && port < 0x1_0000 && ValidSums(sums)
    requires len == 16 + 4 * (|hops| - 1) + innerLen
    ensures OuterHeaderIs(WithSums(OnTheWire(d, hops, port, proto, innerLen, inner), sums), d.ip, hops[0], port, len)
  {
    var p, ip, udp := OnTheWire(d, hops, port, proto, innerLen, inner), IpHeader(d, hops, innerLen), UdpHeader(hops, port, innerLen);
    WireLayout(d, hops, port, proto, innerLen, inner);
    IpBytes(d, hops, innerLen, len);
    UdpBytes(hops, port, innerLen, len);
    HeaderBytes(ip, udp, d.ip, hops[0], port, len);
    assert p[..28] == p[..20] + p[20..28] == ip + udp;
    assert forall i :: 0 <= i < 28 ==> p[i] == p[..28][i];
    HeaderStaysInFront(ip + udp, WithSums(p, sums), d.ip, hops[0], port, len);
  }

  /** The outer source port of every packet sent is made of the flow's hash under the fields in use and its hint. */
  lemma SentPort(d: Director, t: Table, cfg: HashConfig, frame: seq<byte>, sums: Sums)
    requires ValidDirector(d) && ValidTable(t) && Extract(frame).Some? && ValidSums(sums)
    ensures var f, p := Extract(frame).value, Sent(d, t, cfg, frame, sums);
            |p| >= 28 && U16At(p, 20) == SourcePort(t.hash(HashInput(f, cfg.fields)), f.hint)
  {
    var f := Extract(frame).value;
    var hops := RouteHops(t, f, cfg);
    SentHeader(d, hops, SourcePort(RouteHash(t, f, cfg), f.hint), GueProto(f.family), f.totalLen, frame[14..], sums,
               16 + 4 * (|hops| - 1) + f.totalLen);
  }

  /** The GUE header: version and control bits zero, no flags, private type 0, next_hop 0; then the hops behind the first. */
  predicate GueHeaderIs(p: seq<byte>, hops: seq<Addr>, proto: byte)
    requires 1 <= |hops| <= MAX_HOPS
  {
    && |p| >= 36 + 4 * (|hops| - 1) && p[28] as int == |hops| && p[29] == proto
    && p[30] == 0 && p[31] == 0 && p[32] == 0 && p[33] == 0 && p[34] == 0 && p[35] as int == |hops| - 1
    && forall i :: 1 <= i < |hops| ==> p[32 + 4 * i..36 + 4 * i] == hops[i]
  }

  /** The hops behind the first as they lie in the GUE header. */
  lemma HopInGue(hops: seq<Addr>, proto: byte, i: nat)
    requires 1 <= i < |hops| <= MAX_HOPS
    ensures var gue := GueHeader(hops, proto);
            |gue| == 8 + 4 * (|hops| - 1) && gue[4 + 4 * i..8 + 4 * i] == hops[i]
  {
    var gue := GueHeader(hops, proto);
    FlattenAt(hops[1..], i - 1);
    assert gue[8..] == Flatten(hops[1..]);
    assert gue[4 + 4 * i..8 + 4 * i] == gue[8..][4 * (i - 1)..4 * (i - 1) + 4];
  }

  lemma SentGueHeader(d: Director, hops: seq<Addr>, port: nat, proto: byte, innerLen: nat, inner: seq<byte>, sums: Sums)
    requires ValidDirector(d) && 1 <= |hops| <= MAX_HOPS && port < 0x1_0000 && ValidSums(sums)
    ensures GueHeaderIs(WithSums(OnTheWire(d, hops, port, proto, innerLen, inner), sums), hops, proto)
  {
    var p, g := OnTheWire(d, hops, port, proto, innerLen, inner), 36 + 4 * (|hops| - 1);
    WireLayout(d, hops, port, proto, innerLen, inner);
    var gue, q := p[28..g], WithSums(p, sums);
    assert forall i :: 28 <= i < g ==> q[i] == gue[i - 28];
    assert gue == GueHeader(hops, proto);
    forall i | 1 <= i < |hops|
      ensures q[32 + 4 * i..36 + 4 * i] == hops[i]
    {
      HopInGue(hops, proto, i);
      assert q[32 + 4 * i..36 + 4 * i] == gue[4 + 4 * i..8 + 4 * i];
    }
  }

  /** The frame is as long as its own IP header says. */
  predicate TrueLength(frame: seq<byte>) {
    && |frame| >= 34
    && (U16At(frame, 12) == 0x0800 ==> 14 + U16At(frame, 16) == |frame|)
    && (U16At(frame, 12) == 0x86dd ==> 54 + U16At(frame, 18) == |frame|)
  }

  lemma TrueLengthRead(frame: seq<byte>)
    requires Extract(frame).Some? && TrueLength(frame) && |frame| < 0x1_0000
    ensures Extract(frame).value.totalLen == |frame[14..]|
  {
    LengthIsHeaders(frame);
  }

  lemma LengthsOnTheWire(d: Director, hops: seq<Addr>, port: nat, proto: byte, inner: seq<byte>, sums: Sums, len: nat)
    requires ValidDirector(d) && 1 <= |hops| <= MAX_HOPS && port < 0x1_0000 && ValidSums(sums)
    requires len == 16 + 4 * (|hops| - 1) + |inner| && 20 + len < 0x1_0000
    ensures var p := WithSums(OnTheWire(d, hops, port, proto, |inner|, inner), sums);
            |p| == 20 + len && U16At(p, 2) == 20 + len && U16At(p, 24) == len
  {
    SentHeader(d, hops, port, proto, |inner|, inner, sums, len);
  }

  /** For a frame that is as long as it says and fits with the new headers, the outer lengths are true. */
  lemma OuterLengthsTrue(d: Director, t: Table, cfg: HashConfig, frame: seq<byte>, sums: Sums)
    requires ValidDirector(d) && ValidTable(t) && Extract(frame).Some? && ValidSums(sums) && TrueLength(frame)
    requires |frame| + 22 + 4 * (|RouteHops(t, Extract(frame).value, cfg)| - 1) < 0x1_0000
    ensures var p := Sent(d, t, cfg, frame, sums);
            |p| >= 28 && U16At(p, 2) == |p| && U16At(p, 24) == |p| - 20
  {
    var f := Extract(frame).value;
    var hops := RouteHops(t, f, cfg);
    TrueLengthRead(frame);
    LengthsOnTheWire(d, hops, SourcePort(RouteHash(t, f, cfg), f.hint), GueProto(f.family), frame[14..], sums,
                     16 + 4 * (|hops| - 1) + |frame[14..]|);
  }

  // ---- The UDP checksum on the journey ----

  /** A packet that parses, whose UDP length fits, and whose checksum field is still empty. */
  predicate Fillable(p: seq<byte>, n: nat) {
    && Redirect.IpPacket(p) && Redirect.ParseOuter(p).Some? && Redirect.ParseOuter(p).value.udpOfs == 20
    && ProxyChain.LengthOk(p, 20) && ProxyChain.UdpLength(p, 20) == n
    && p[26] == p[27] == 0
  }

  lemma FilledIsSound(p: seq<byte>, n: nat)
    requires Fillable(p, n)
    ensures ProxyChain.Sound(WithChecksum(p, 20, UdpChecksum(p, 20, n)))
    ensures var q := WithChecksum(p, 20, UdpChecksum(p, 20, n));
            && Redirect.ParseOuter(q) == Redirect.ParseOuter(p) && ProxyChain.UdpLength(q, 20) == n
            && Redirect.CheckField(q, 20) == UdpChecksum(p, 20, n)
  {
    var c := UdpChecksum(p, 20, n);
    var q := WithChecksum(p, 20, c);
    FilledChecksumIsValid(p, 20, n);
    SplitBytes(c);
    SumsKeepLeg(p, q, ProxyChain.LegOf(p, Redirect.ParseOuter(p).value));
    assert q[24] == p[24] && q[25] == p[25];
  }

  /**
   A packet with the headers of an encapsulated one in front of `inner`. The outer addresses and the IP header
   checksum do not matter here.
   */
  predicate LaidOut(p: seq<byte>, hops: seq<Addr>, port: nat, proto: byte, innerLen: nat, inner: seq<byte>)
    requires 1 <= |hops| <= MAX_HOPS && port < 0x1_0000
  {
    && |p| == 36 + 4 * (|hops| - 1) + |inner| && p[0] == 0x45 && p[9] == Redirect.PROTO_UDP
    && p[20..28] == UdpHeader(hops, port, innerLen) && p[28..36 + 4 * (|hops| - 1)] == GueHeader(hops, proto)
  }

  /** Whatever IP header checksum it is sent with, an encapsulated packet is laid out so. */
  lemma WireIsLaidOut(d: Director, hops: seq<Addr>, port: nat, proto: byte, innerLen: nat, inner: seq<byte>, ip: nat)
    requires ValidDirector(d) && 1 <= |hops| <= MAX_HOPS && port < 0x1_0000 && ip <= M
    ensures LaidOut(WriteField(OnTheWire(d, hops, port, proto, innerLen, inner), 10, ip), hops, port, proto, innerLen, inner)
  {
    var p := OnTheWire(d, hops, port, proto, innerLen, inner);
    WireLayout(d, hops, port, proto, innerLen, inner);
    assert p[0] == p[..20][0] && p[9] == p[..20][9];
    IpSumKeepsLayout(p, hops, port, proto, innerLen, inner, ip);
  }

  lemma IpSumKeepsLayout(p: seq<byte>, hops: seq<Addr>, port: nat, proto: byte, innerLen: nat, inner: seq<byte>, ip: nat)
    requires 1 <= |hops| <= MAX_HOPS && port < 0x1_0000 && ip <= M && LaidOut(p, hops, port, proto, innerLen, inner)
    ensures LaidOut(WriteField(p, 10, ip), hops, port, proto, innerLen, inner)
  {
    var q, g := WriteField(p, 10, ip), 36 + 4 * (|hops| - 1);
    assert q[20..28] == p[20..28] && q[28..g] == p[28..g];
  }

  lemma UdpFieldsOfSlice(p: seq<byte>, udp: seq<byte>, n: nat)
    requires |p| >= 28 && p[20..28] == udp && U16At(udp, 4) == n && udp[6] == udp[7] == 0 && 8 <= n && 20 + n <= |p|
    ensures ProxyChain.LengthOk(p, 20) && ProxyChain.UdpLength(p, 20) == n && p[26] == p[27] == 0
  {
    U16OfSlice(p, 20, 28, 4);
    assert p[26] == udp[6] && p[27] == udp[7];
  }

  lemma LaidOutIsFillable(p: seq<byte>, hops: seq<Addr>, port: nat, proto: byte, innerLen: nat, inner: seq<byte>)
    requires 1 <= |hops| <= MAX_HOPS && port < 0x1_0000 && LaidOut(p, hops, port, proto, innerLen, inner)
    requires innerLen <= |inner| && 36 + 4 * (|hops| - 1) + innerLen < 0x1_0000
    ensures Fillable(p, 16 + 4 * (|hops| - 1) + innerLen)
  {
    var n := 16 + 4 * (|hops| - 1) + innerLen;
    WireParses(p, hops, proto);
    var udp := UdpHeader(hops, port, innerLen);
    assert udp[4..6] == U16Bytes(n);
    assert U16At(udp, 4) == U16At(udp[4..6], 0);
    UdpFieldsOfSlice(p, udp, n);
  }

  /** The packet as each host receives it, once its checksum is filled in, if that can be done. */
  function FilledJourney(p: seq<byte>, n: nat, net: ProxyChain.Net): Option<seq<seq<byte>>> {
    if Fillable(p, n) && Redirect.IpPacket(WithChecksum(p, 20, UdpChecksum(p, 20, n))) then
      Some(ProxyChain.Trace(WithChecksum(p, 20, UdpChecksum(p, 20, n)), net))
    else None
  }

  /** With its checksum filled in, `p` reaches every host on its journey with a valid checksum or none. */
  ghost predicate TravelsSound(p: seq<byte>, n: nat, net: ProxyChain.Net) {
    match FilledJourney(p, n, net)
    case None => false
    case Some(tr) => ProxyChain.AllSound(tr)
  }

  lemma FilledTravelsSound(p: seq<byte>, n: nat, net: ProxyChain.Net)
    requires Fillable(p, n) && n >= 15
    ensures TravelsSound(p, n, net)
  {
    FilledIsSound(p, n);
    ProxyChain.JourneyKeepsChecksum(WithChecksum(p, 20, UdpChecksum(p, 20, n)), net);
  }

  /** Every packet encapsulated within the 16-bit length travels with a valid checksum or none, whatever the hosts know. */
  lemma SentIsSound(p: seq<byte>, hops: seq<Addr>, port: nat, proto: byte, innerLen: nat, inner: seq<byte>, n: nat,
                    net: ProxyChain.Net)
    requires 1 <= |hops| <= MAX_HOPS && port < 0x1_0000 && LaidOut(p, hops, port, proto, innerLen, inner)
    requires n == 16 + 4 * (|hops| - 1) + innerLen && n + 20 < 0x1_0000 && innerLen <= |inner|
    ensures TravelsSound(p, n, net)
  {
    LaidOutIsFillable(p, hops, port, proto, innerLen, inner);
    FilledTravelsSound(p, n, net);
  }

  // ---- What the proxies look up ----

  function TupleOf(w: Flow): Redirect.Tuple {
    Redirect.Tuple(w.client, w.cport, w.vip, w.vport)
  }

  /** The TCP flags byte of a frame without IPv4 options. */
  function FlagsByte(frame: seq<byte>, family: Family): byte
    requires |frame| >= (if family == V4 then 54 else 74)
  {
    if family == V4 then frame[47] else frame[67]
  }

  /** A TCP segment of the flow that does not open it; `ackOnly` tells whether it could complete a handshake. */
  predicate IsDataSegment(frame: seq<byte>, w: Flow, ackOnly: bool) {
    && IsSegment(frame, w) && w.proto == Redirect.PROTO_TCP
    && |frame| >= (if w.family == V4 then 54 else 74)
    && var b := FlagsByte(frame, w.family);
       && !Redirect.Flag(b, 2)
       && ackOnly == (Redirect.Flag(b, 16) && !Redirect.Flag(b, 1) && !Redirect.Flag(b, 4))
  }

  /** Anything that belongs to an existing connection: its segments, and too-big messages about it. */
  predicate BelongsTo(frame: seq<byte>, w: Flow, ackOnly: bool) {
    IsDataSegment(frame, w, ackOnly) || (IsTooBigAbout(frame, w) && !ackOnly)
  }

  function InnerOfFamily(family: Family, q: seq<byte>): Redirect.Inner {
    if family == V4 then Redirect.InnerV4(q) else Redirect.InnerV6(q)
  }

  /** Whatever belongs to a connection, the proxies look up the connection's own tuple. */
  lemma ProxiesLookUpFlow(frame: seq<byte>, w: Flow, ackOnly: bool)
    requires BelongsTo(frame, w, ackOnly)
    ensures InnerOfFamily(w.family, frame[14..]) == Redirect.Segment(TupleOf(w), false, ackOnly)
  {
    var q := frame[14..];
    if IsTooBigAbout(frame, w) {
      MessageTuple(frame, q, w);
    } else {
      SegmentTuple(frame, q, w, ackOnly);
    }
  }

  lemma SegmentTuple(frame: seq<byte>, q: seq<byte>, w: Flow, ackOnly: bool)
    requires IsDataSegment(frame, w, ackOnly) && q == frame[14..]
    ensures InnerOfFamily(w.family, q) == Redirect.Segment(TupleOf(w), false, ackOnly)
  {
    if w.family == V4 {
      assert q[12..16] == frame[26..30] && q[16..20] == frame[30..34];
      assert q[20..][0..2] == frame[34..36] && q[20..][2..4] == frame[36..38];
    } else {
      assert q[8..24] == frame[22..38] && q[24..40] == frame[38..54];
      assert q[40..][0..2] == frame[54..56] && q[40..][2..4] == frame[56..58];
    }
  }

  lemma MessageTuple(frame: seq<byte>, q: seq<byte>, w: Flow)
    requires IsTooBigAbout(frame, w) && q == frame[14..]
    ensures InnerOfFamily(w.family, q) == Redirect.Segment(TupleOf(w), false, false)
  {
    if w.family == V4 {
      assert q[40..44] == frame[54..58] && q[44..48] == frame[58..62];
      assert q[48..50] == frame[62..64] && q[50..52] == frame[64..66];
      assert q[48..][0..2] == q[48..50] && q[48..][2..4] == q[50..52];
    } else {
      assert q[56..72] == frame[70..86] && q[72..88] == frame[86..102];
      assert q[88..][0..2] == frame[102..104] && q[88..][2..4] == frame[104..106];
    }
  }

  // ---- The journey ----

  /** The routing fields of a flow, whatever packet they were read from. */
  function FlowFields(w: Flow): Fields {
    Fields(w.family, 0, w.client, w.vip, w.cport, w.vport, if |w.cport| == 2 then U16At(w.cport, 0) else 0, w.proto)
  }

  /** Only the total length tells apart what the director reads from packets of one connection. */
  lemma DirectorReadsFlow(frame: seq<byte>, w: Flow, ackOnly: bool)
    requires BelongsTo(frame, w, ackOnly)
    ensures Extract(frame).Some? && Extract(frame).value.(totalLen := 0) == FlowFields(w)
  {
    var f := Extract(frame);
    assert f.Some? && U16At(w.cport, 0) == f.value.hint;
  }

  lemma RoutedByFlow(t: Table, cfg: HashConfig, f: Fields, g: Fields)
    requires ValidTable(t) && f == g.(totalLen := f.totalLen)
    ensures RouteHops(t, f, cfg) == RouteHops(t, g, cfg) && RouteHash(t, f, cfg) == RouteHash(t, g, cfg)
  {
  }

  /** Two frames get the same hash, hop list, outer source port and GUE protocol from a table. */
  ghost predicate RoutedAlike(t: Table, cfg: HashConfig, a: seq<byte>, b: seq<byte>) {
    && ValidTable(t) && Extract(a).Some? && Extract(b).Some?
    && var f, g := Extract(a).value, Extract(b).value;
       && RouteHash(t, f, cfg) == RouteHash(t, g, cfg)
       && RouteHops(t, f, cfg) == RouteHops(t, g, cfg)
       && SourcePort(RouteHash(t, f, cfg), f.hint) == SourcePort(RouteHash(t, g, cfg), g.hint)
       && GueProto(f.family) == GueProto(g.family)
  }

  /** Where the TCP header of an IPv4 frame lies, options included. */
  function L4Offset(frame: seq<byte>): nat
    requires |frame| >= 34
  {
    14 + (frame[14] % 16) as int * 4
  }

  predicate IsTcpV4(frame: seq<byte>) {
    && |frame| >= 38 && U16At(frame, 12) == 0x0800 && frame[14] % 16 >= 5 && frame[23] == Redirect.PROTO_TCP
    && |frame| >= L4Offset(frame) + 20
  }

  /**
   The director reads the ports behind a header of 20 bytes, the proxies behind the header's own length. For an
   IPv4 segment with options they agree on the flow exactly when the first options happen to equal the ports.
   */
  lemma DirectorReadsTupleExactly(frame: seq<byte>)
    requires IsTcpV4(frame)
    ensures Extract(frame).Some? && Redirect.InnerV4(frame[14..]).Segment?
    ensures var f, l4 := Extract(frame).value, L4Offset(frame);
            Redirect.InnerV4(frame[14..]).tuple == Redirect.Tuple(f.src, f.sport, f.dst, f.dport)
            <==> frame[34..38] == frame[l4..l4 + 4]
  {
    var q, l4 := frame[14..], L4Offset(frame);
    assert q[12..16] == frame[26..30] && q[16..20] == frame[30..34];
    var th := q[l4 - 14..];
    assert th[0..2] == frame[l4..l4 + 2] && th[2..4] == frame[l4 + 2..l4 + 4];
    SamePorts(frame[34..38], frame[l4..l4 + 4]);
    assert frame[34..36] == frame[34..38][..2] && frame[36..38] == frame[34..38][2..];
    assert frame[l4..l4 + 2] == frame[l4..l4 + 4][..2] && frame[l4 + 2..l4 + 4] == frame[l4..l4 + 4][2..];
  }

  lemma SamePorts(a: seq<byte>, b: seq<byte>)
    requires |a| == |b| == 4
    ensures a == b <==> a[..2] == b[..2] && a[2..] == b[2..]
  {
    assert a == a[..2] + a[2..] && b == b[..2] + b[2..];
  }

  /** A segment with four no-operation options, from port 40000 to port 443. */
  function SegmentWithOptions(): (frame: seq<byte>)
    ensures IsTcpV4(frame) && L4Offset(frame) == 38
  {
    Zeros(12) + [0x08, 0x00, 0x46] + Zeros(8) + [Redirect.PROTO_TCP] + Zeros(10) + [1, 1, 1, 1] + [0x9c, 0x40, 0x01, 0xbb] + Zeros(16)
  }

  lemma OptionsAreReadAsPorts()
    ensures var frame := SegmentWithOptions();
            && Extract(frame).Some? && Redirect.InnerV4(frame[14..]).Segment?
            && Extract(frame).value.sport == [1, 1] && Redirect.InnerV4(frame[14..]).tuple.sport == [0x9c, 0x40]
  {
    var frame := SegmentWithOptions();
    DirectorReadsTupleExactly(frame);
    assert frame[14..][24..][0..2] == [0x9c, 0x40];
  }

  /** Whatever belongs to one connection is routed alike by every table, under every choice of hash fields. */
  lemma TooBigRoutedAlike(t: Table, cfg: HashConfig, seg: seq<byte>, msg: seq<byte>, w: Flow, ackOnly: bool)
    requires ValidTable(t) && IsDataSegment(seg, w, ackOnly) && IsTooBigAbout(msg, w)
    ensures RoutedAlike(t, cfg, seg, msg)
  {
    DirectorReadsFlow(seg, w, ackOnly);
    DirectorReadsFlow(msg, w, false);
    RoutedByFlow(t, cfg, Extract(seg).value, Extract(msg).value);
  }

  /**
   The journey of `p` ends where the hop list says it does, with the original packet intact, and the
   last host accepts it as known exactly when the hop list delivers it.
   */
  ghost predicate Arrives(p: seq<byte>, net: ProxyChain.Net, hops: seq<Addr>, knows: Addr -> bool, payload: seq<byte>) {
    && Redirect.IpPacket(p) && hops != []
    && ArrivesAs(LastOf(ProxyChain.Trace(p, net)), net, hops, knows, payload)
  }

  function LastOf(tr: seq<seq<byte>>): seq<byte>
    requires tr != []
  {
    tr[|tr| - 1]
  }

  ghost predicate ArrivesAs(q: seq<byte>, net: ProxyChain.Net, hops: seq<Addr>, knows: Addr -> bool, payload: seq<byte>)
    requires hops != []
  {
    && Redirect.IpPacket(q)
    && Redirect.Destination(q) == hops[HopChain.StopFrom(hops, knows, 0)]
    && |payload| <= |q| && q[|q| - |payload|..] == payload
    && (Redirect.Decide(q, net(Redirect.Destination(q))) == Redirect.AcceptKnown <==> HopChain.Delivered(hops, knows))
  }

  lemma LastLegArrives(q: seq<byte>, l: ProxyChain.Leg, j: nat, knows: Addr -> bool, net: ProxyChain.Net)
    requires j == HopChain.StopFrom(ProxyChain.Path(l), knows, 0) && ProxyChain.Carries(q, ProxyChain.LegAt(l, j))
    requires Redirect.Decide(q, net(ProxyChain.Path(l)[j]))
          == ProxyChain.VerdictFor(HopChain.ReasonAt(ProxyChain.Path(l), knows, j))
    ensures ArrivesAs(q, net, ProxyChain.Path(l), knows, l.payload)
  {
    var o := Redirect.ParseOuter(q).value;
    assert l.payload == q[o.innerOfs..] && |q| - |l.payload| == o.innerOfs;
  }

  lemma LegArrives(p: seq<byte>, l: ProxyChain.Leg, t: Redirect.Tuple, ackOnly: bool, net: ProxyChain.Net)
    requires ProxyChain.Carries(p, l) && ProxyChain.LegInner(l) == Redirect.Segment(t, false, ackOnly)
    ensures Arrives(p, net, ProxyChain.Path(l), ProxyChain.KnowsFlow(net, t, ackOnly), l.payload)
  {
    ProxyChain.JourneyFollowsHopList(p, l, t, ackOnly, net);
    var tr, knows := ProxyChain.Trace(p, net), ProxyChain.KnowsFlow(net, t, ackOnly);
    var j := HopChain.StopFrom(ProxyChain.Path(l), knows, 0);
    LastLegArrives(tr[j], l, j, knows, net);
  }

  lemma FrameArrives(d: Director, t: Table, cfg: HashConfig, frame: seq<byte>, sums: Sums, w: Flow, ackOnly: bool,
                     net: ProxyChain.Net)
    requires ValidDirector(d) && ValidTable(t) && BelongsTo(frame, w, ackOnly) && ValidSums(sums)
    ensures Extract(frame).Some?
    ensures Arrives(Sent(d, t, cfg, frame, sums), net, RouteHops(t, FlowFields(w), cfg),
                    ProxyChain.KnowsFlow(net, TupleOf(w), ackOnly), frame[14..])
  {
    DirectorReadsFlow(frame, w, ackOnly);
    ProxiesLookUpFlow(frame, w, ackOnly);
    RoutedByFlow(t, cfg, Extract(frame).value, FlowFields(w));
    var hops, proto := RouteHops(t, FlowFields(w), cfg), GueProto(w.family);
    SentCarries(d, t, cfg, frame, sums);
    PathOfFirstLeg(d, hops, proto, frame[14..]);
    LegArrives(Sent(d, t, cfg, frame, sums), FirstLeg(d, hops, proto, frame[14..]), TupleOf(w), ackOnly, net);
  }

  // ---- Opening a connection ----

  /** A TCP segment of the flow with its SYN flag set. */
  predicate IsSynSegment(frame: seq<byte>, w: Flow) {
    && IsSegment(frame, w) && w.proto == Redirect.PROTO_TCP
    && |frame| >= (if w.family == V4 then 54 else 74)
    && Redirect.Flag(FlagsByte(frame, w.family), 2)
  }

  lemma SynTuple(frame: seq<byte>, q: seq<byte>, w: Flow)
    requires IsSynSegment(frame, w) && q == frame[14..]
    ensures InnerOfFamily(w.family, q).Segment? && InnerOfFamily(w.family, q).syn
  {
  }

  /** The packet goes to host `h`, which takes it as the opening of a connection; it goes no further. */
  ghost predicate OpensOn(p: seq<byte>, net: ProxyChain.Net, h: Addr) {
    && Redirect.IpPacket(p) && Redirect.Destination(p) == h
    && ProxyChain.Trace(p, net) == [p] && Redirect.Decide(p, net(h)) == Redirect.AcceptSyn
  }

  /** A SYN goes no further than the first hop, which takes it whatever it knows: the `Open` step of the protocol. */
  lemma SynIsTakenByFirstHop(d: Director, t: Table, cfg: HashConfig, frame: seq<byte>, sums: Sums, w: Flow, net: ProxyChain.Net)
    requires ValidDirector(d) && ValidTable(t) && IsSynSegment(frame, w) && ValidSums(sums)
    ensures Extract(frame).Some?
    ensures OpensOn(Sent(d, t, cfg, frame, sums), net, RouteHops(t, FlowFields(w), cfg)[0])
  {
    SynReadsFlow(frame, w);
    var f := Extract(frame).value;
    RoutedByFlow(t, cfg, f, FlowFields(w));
    SentCarries(d, t, cfg, frame, sums);
    SynLeg(d, RouteHops(t, f, cfg), frame, w);
    SynDecision(Sent(d, t, cfg, frame, sums), FirstLeg(d, RouteHops(t, f, cfg), GueProto(f.family), frame[14..]), net);
  }

  lemma SynLeg(d: Director, hops: seq<Addr>, frame: seq<byte>, w: Flow)
    requires hops != [] && IsSynSegment(frame, w)
    ensures var l := FirstLeg(d, hops, GueProto(w.family), frame[14..]);
            l.dst == hops[0] && ProxyChain.LegInner(l).Segment? && ProxyChain.LegInner(l).syn
  {
    SynTuple(frame, frame[14..], w);
  }

  lemma SynReadsFlow(frame: seq<byte>, w: Flow)
    requires IsSynSegment(frame, w)
    ensures Extract(frame).Some? && Extract(frame).value.(totalLen := 0) == FlowFields(w)
  {
    var f := Extract(frame);
    assert f.Some? && U16At(w.cport, 0) == f.value.hint;
  }

  lemma SynDecision(p: seq<byte>, l: ProxyChain.Leg, net: ProxyChain.Net)
    requires ProxyChain.Carries(p, l) && ProxyChain.LegInner(l).Segment? && ProxyChain.LegInner(l).syn
    ensures OpensOn(p, net, l.dst)
  {
  }

  // ---- Built tables and the protocol ----

  /** A loaded table is what the builder may write for these backends, in the file's address order. */
  ghost predicate BuiltFrom(t: Table, score: ScoreFn<Addr>, backends: seq<TableBuilder.Backend<Addr>>) {
    && ValidTable(t) && |t.backends| == |backends|
    && (forall i :: 0 <= i < |backends| ==> t.backends[i] == backends[i].ip)
    && forall r :: 0 <= r < TABLE_ENTRIES ==> TableBuilder.RowOk(score, r, backends, t.entries[r])
  }

  lemma RowInRange(score: ScoreFn<Addr>, row: nat, backends: seq<TableBuilder.Backend<Addr>>, e: (nat, nat))
    requires TableBuilder.RowOk(score, row, backends, e)
    ensures e.0 < |backends| && e.1 < |backends|
  {
  }

  /** Build a table and load it: what a director gets to run with. */
  method BuildAndLoad(score: ScoreFn<Addr>, backends: seq<TableBuilder.Backend<Addr>>, hash: seq<byte> -> bv64)
      returns (t: Table)
    requires |TableBuilder.Available(backends)| >= 2
    ensures BuiltFrom(t, score, backends) && t.hash == hash && |t.entries| == 65536
  {
    var entries := TableBuilder.BuildTable(score, backends, TABLE_ENTRIES);
    forall r | 0 <= r < TABLE_ENTRIES
      ensures entries[r].0 < |backends| && entries[r].1 < |backends|
    {
      RowInRange(score, r, backends, entries[r]);
    }
    t := Table(hash, seq(|backends|, i requires 0 <= i < |backends| => backends[i].ip), entries);
  }

  function FlowRow(t: Table, fields: HashFields, w: Flow): nat {
    RowIndex(t.hash(HashInput(FlowFields(w), fields)))
  }

  /** An owner among the first two hops gets the packet, whatever hops follow. */
  lemma EarlyOwnerIsReached(hops: seq<Addr>, knows: Addr -> bool, owner: Addr)
    requires |hops| >= 2 && hops[0] != hops[1] && (owner == hops[0] || owner == hops[1])
    requires (knows(hops[0]) <==> hops[0] == owner) && (knows(hops[1]) <==> hops[1] == owner)
    ensures HopChain.Delivered(hops, knows) && hops[HopChain.StopFrom(hops, knows, 0)] == owner
  {
    assert HopChain.Keeps(hops, knows, 0) <==> hops[0] == owner;
    assert HopChain.Keeps(hops, knows, 1) <== hops[1] == owner;
  }

  /** Director `dir` runs with a table built from its view in state `s`, and `w` hashes to its row of the protocol. */
  ghost predicate Runs<D>(su: SecondChance.Setup<Addr, Flow>, s: SecondChance.State<Addr, Flow, D>, dir: D,
                          backends: seq<TableBuilder.Backend<Addr>>, t: Table, fields: HashFields, w: Flow) {
    && dir in s.views && TableBuilder.DistinctAddresses(backends)
    && TableBuilder.ViewOf(backends) == s.views[dir]
    && BuiltFrom(t, su.score, backends)
    && su.rowOf(w) == FlowRow(t, fields, w)
  }

  /** The row of a built table is the row of the protocol under the view the table was built from. */
  lemma BuiltRowIsProtocolRow<H, F, D>(su: SecondChance.Setup<H, F>, s: SecondChance.State<H, F, D>, dir: D,
                                       backends: seq<TableBuilder.Backend<H>>, e: (nat, nat), w: F)
    requires SecondChance.Valid(su, s) && dir in s.views
    requires TableBuilder.DistinctAddresses(backends) && TableBuilder.ViewOf(backends) == s.views[dir]
    requires TableBuilder.RowOk(su.score, su.rowOf(w), backends, e)
    ensures e.0 < |backends| && e.1 < |backends|
    ensures [backends[e.0].ip, backends[e.1].ip] == SecondChance.Hops(su, s, dir, w)
  {
    TableBuilder.ViewCoversAddresses(backends);
    TableBuilder.RowIsRankedPair(su.score, su.rowOf(w), backends, e);
  }

  lemma BuiltRowHoldsOwner<H, F, D>(su: SecondChance.Setup<H, F>, s: SecondChance.State<H, F, D>, dir: D,
                                    backends: seq<TableBuilder.Backend<H>>, e: (nat, nat), w: F)
      returns (a: H, b: H)
    requires SecondChance.Valid(su, s) && dir in s.views && SecondChance.OwnersCovered(su, s) && w in s.conns
    requires TableBuilder.DistinctAddresses(backends) && TableBuilder.ViewOf(backends) == s.views[dir]
    requires TableBuilder.RowOk(su.score, su.rowOf(w), backends, e)
    ensures e.0 < |backends| && e.1 < |backends| && a == backends[e.0].ip && b == backends[e.1].ip
    ensures a != b && a in s.backends && b in s.backends && (s.conns[w] == a || s.conns[w] == b)
  {
    BuiltRowIsProtocolRow(su, s, dir, backends, e, w);
    var hops := SecondChance.Hops(su, s, dir, w);
    a, b := hops[0], hops[1];
  }

  /** A director routes a flow to its row's two hosts in the order of the protocol: first hop first. */
  lemma RouteIsProtocolRow<D>(su: SecondChance.Setup<Addr, Flow>, s: SecondChance.State<Addr, Flow, D>, dir: D,
                              backends: seq<TableBuilder.Backend<Addr>>, t: Table, fields: HashFields, w: Flow)
    requires SecondChance.Valid(su, s) && Runs(su, s, dir, backends, t, fields, w)
    ensures RowHosts(t, FlowFields(w), fields) == SecondChance.Hops(su, s, dir, w)
  {
    var e: (nat, nat) := t.entries[FlowRow(t, fields, w)];
    EntryIsProtocolRow(su, s, dir, backends, t.backends, e, w);
  }

  ghost predicate AddressesOf<H>(ips: seq<H>, backends: seq<TableBuilder.Backend<H>>) {
    |ips| == |backends| && forall i :: 0 <= i < |backends| ==> ips[i] == backends[i].ip
  }

  lemma EntryIsProtocolRow<H, F, D>(su: SecondChance.Setup<H, F>, s: SecondChance.State<H, F, D>, dir: D,
                                    backends: seq<TableBuilder.Backend<H>>, ips: seq<H>, e: (nat, nat), w: F)
    requires SecondChance.Valid(su, s) && dir in s.views && AddressesOf(ips, backends)
    requires TableBuilder.DistinctAddresses(backends) && TableBuilder.ViewOf(backends) == s.views[dir]
    requires TableBuilder.RowOk(su.score, su.rowOf(w), backends, e)
    ensures e.0 < |ips| && e.1 < |ips| && [ips[e.0], ips[e.1]] == SecondChance.Hops(su, s, dir, w)
  {
    BuiltRowIsProtocolRow(su, s, dir, backends, e, w);
  }

  /**
   The `Open` step of the protocol, on bytes: what a director sends for a SYN goes to the first host of the flow's
   row under that director's own view, and that host takes it.
   */
  lemma SynOpensOnProtocolHost<D>(su: SecondChance.Setup<Addr, Flow>, s: SecondChance.State<Addr, Flow, D>, dir: D,
                                  backends: seq<TableBuilder.Backend<Addr>>, t: Table, d: Director, cfg: HashConfig,
                                  frame: seq<byte>, sums: Sums, w: Flow, net: ProxyChain.Net)
    requires SecondChance.Valid(su, s) && Runs(su, s, dir, backends, t, cfg.fields, w)
    requires ValidDirector(d) && IsSynSegment(frame, w) && ValidSums(sums)
    ensures Extract(frame).Some?
    ensures OpensOn(Sent(d, t, cfg, frame, sums), net, SecondChance.Hops(su, s, dir, w)[0])
    ensures var open := SecondChance.Event<Addr, Flow, D>.Open(dir, w);
            SecondChance.Enabled(su, s, open) ==>
              OpensOn(Sent(d, t, cfg, frame, sums), net, SecondChance.Step(su, s, open).conns[w])
  {
    RouteIsProtocolRow(su, s, dir, backends, t, cfg.fields, w);
    SynIsTakenByFirstHop(d, t, cfg, frame, sums, w, net);
  }

  /**
   The hop list of every packet is made of protocol rows, each in its own order: the row under the fields in use,
   then the row under the old fields while they change.
   */
  lemma HopListIsProtocolRows<D>(su: SecondChance.Setup<Addr, Flow>, old': SecondChance.Setup<Addr, Flow>,
                                 s: SecondChance.State<Addr, Flow, D>, dir: D, backends: seq<TableBuilder.Backend<Addr>>,
                                 t: Table, cfg: HashConfig, w: Flow)
    requires SecondChance.Valid(su, s) && Runs(su, s, dir, backends, t, cfg.fields, w)
    requires cfg.alt.Some? ==> SecondChance.Valid(old', s) && Runs(old', s, dir, backends, t, cfg.alt.value, w)
    ensures RouteHops(t, FlowFields(w), cfg)
         == SecondChance.Hops(su, s, dir, w) + if cfg.alt.Some? then SecondChance.Hops(old', s, dir, w) else []
  {
    RouteIsProtocolRow(su, s, dir, backends, t, cfg.fields, w);
    if cfg.alt.Some? {
      RouteIsProtocolRow(old', s, dir, backends, t, cfg.alt.value, w);
    }
  }

  /** The packet ends at `owner`, which accepts it as its own, original packet intact. */
  ghost predicate AcceptedBy(p: seq<byte>, net: ProxyChain.Net, owner: Addr, payload: seq<byte>) {
    && Redirect.IpPacket(p)
    && var q := LastOf(ProxyChain.Trace(p, net));
       && Redirect.IpPacket(q) && Redirect.Destination(q) == owner
       && Redirect.Decide(q, net(owner)) == Redirect.AcceptKnown
       && |payload| <= |q| && q[|q| - |payload|..] == payload
  }

  lemma ArrivalDecides(p: seq<byte>, net: ProxyChain.Net, hops: seq<Addr>, knows: Addr -> bool, payload: seq<byte>, owner: Addr)
    requires Arrives(p, net, hops, knows, payload)
    requires HopChain.Delivered(hops, knows) ==> hops[HopChain.StopFrom(hops, knows, 0)] == owner
    ensures AcceptedBy(p, net, owner, payload) <==> HopChain.Delivered(hops, knows)
  {
  }

  lemma AcceptedWhenEarly(t: Table, d: Director, cfg: HashConfig, frame: seq<byte>, sums: Sums, w: Flow, ackOnly: bool,
                          net: ProxyChain.Net, a: Addr, b: Addr, owner: Addr)
    requires ValidDirector(d) && ValidTable(t) && BelongsTo(frame, w, ackOnly) && ValidSums(sums)
    requires RowHosts(t, FlowFields(w), cfg.fields) == [a, b] && a != b && (owner == a || owner == b)
    requires net(a).Knows(TupleOf(w), ackOnly) <==> a == owner
    requires net(b).Knows(TupleOf(w), ackOnly) <==> b == owner
    ensures Extract(frame).Some?
    ensures AcceptedBy(Sent(d, t, cfg, frame, sums), net, owner, frame[14..])
  {
    var hops, knows := RouteHops(t, FlowFields(w), cfg), ProxyChain.KnowsFlow(net, TupleOf(w), ackOnly);
    assert hops[0] == a && hops[1] == b;
    EarlyOwnerIsReached(hops, knows, owner);
    FrameArrives(d, t, cfg, frame, sums, w, ackOnly, net);
    ArrivalDecides(Sent(d, t, cfg, frame, sums), net, hops, knows, frame[14..], owner);
  }

  lemma OwnerAccepts<D>(su: SecondChance.Setup<Addr, Flow>, now: SecondChance.State<Addr, Flow, D>, dir: D,
                        backends: seq<TableBuilder.Backend<Addr>>, t: Table, d: Director, cfg: HashConfig,
                        frame: seq<byte>, sums: Sums, w: Flow, ackOnly: bool, net: ProxyChain.Net)
    requires SecondChance.Valid(su, now) && SecondChance.OwnersCovered(su, now) && w in now.conns
    requires Runs(su, now, dir, backends, t, cfg.fields, w)
    requires forall h {:trigger net(h)} | h in now.backends :: net(h).Knows(TupleOf(w), ackOnly) <==> h == now.conns[w]
    requires ValidDirector(d) && BelongsTo(frame, w, ackOnly) && ValidSums(sums)
    ensures Extract(frame).Some?
    ensures AcceptedBy(Sent(d, t, cfg, frame, sums), net, now.conns[w], frame[14..])
  {
    var a, b := BuiltRowHoldsOwner(su, now, dir, backends, t.entries[FlowRow(t, cfg.fields, w)], w);
    assert RowHosts(t, FlowFields(w), cfg.fields) == [a, b];
    AcceptedWhenEarly(t, d, cfg, frame, sums, w, ackOnly, net, a, b, now.conns[w]);
  }

  /**
   After every run of opens, closes, status changes, additions and removals, whatever belongs to a live
   connection, routed by any director's table, ends at the host that owns the connection and is accepted
   there. Old hash fields behind the new ones do no harm.
   */
  lemma OwnerAcceptsFromTable<D>(su: SecondChance.Setup<Addr, Flow>, s: SecondChance.State<Addr, Flow, D>,
                                 events: seq<SecondChance.Event<Addr, Flow, D>>, dir: D,
                                 backends: seq<TableBuilder.Backend<Addr>>, t: Table, d: Director, cfg: HashConfig,
                                 frame: seq<byte>, sums: Sums, w: Flow, ackOnly: bool, net: ProxyChain.Net)
    requires SecondChance.Valid(su, s) && s.conns == map[] && SecondChance.IsRun(su, s, events)
    requires Runs(su, SecondChance.After(su, s, events), dir, backends, t, cfg.fields, w)
    requires var now := SecondChance.After(su, s, events);
             && w in now.conns
             && forall h {:trigger net(h)} | h in now.backends :: net(h).Knows(TupleOf(w), ackOnly) <==> h == now.conns[w]
    requires ValidDirector(d) && BelongsTo(frame, w, ackOnly) && ValidSums(sums)
    ensures Extract(frame).Some?
    ensures AcceptedBy(Sent(d, t, cfg, frame, sums), net, SecondChance.After(su, s, events).conns[w], frame[14..])
  {
    SecondChance.RunKeepsOwners(su, s, events);
    OwnerAccepts(su, SecondChance.After(su, s, events), dir, backends, t, d, cfg, frame, sums, w, ackOnly, net);
  }

  // ---- Changing hash fields ----

  /** Host `h` knows the connection exactly if it is the owner. */
  predicate OwnerOnly(net: ProxyChain.Net, w: Flow, ackOnly: bool, h: Addr, owner: Addr) {
    net(h).Knows(TupleOf(w), ackOnly) <==> h == owner
  }

  /**
   What becomes of a packet with the hops of a new pair and then an old one. An owner on the new pair or
   first on the old one accepts it; an owner that is only second on the old one accepts it exactly when the
   new second and the old first are different hosts.
   */
  ghost predicate ReachesThroughChange(p: seq<byte>, net: ProxyChain.Net, payload: seq<byte>,
                                       np: Addr, ns: Addr, op: Addr, os: Addr, owner: Addr) {
    && (owner == np || owner == ns || owner == op ==> AcceptedBy(p, net, owner, payload))
    && (owner == os && os != np && os != ns ==> (AcceptedBy(p, net, owner, payload) <==> ns != op))
  }

  lemma FourHopsDecide(p: seq<byte>, net: ProxyChain.Net, knows: Addr -> bool, payload: seq<byte>,
                       np: Addr, ns: Addr, op: Addr, os: Addr, owner: Addr)
    requires Arrives(p, net, [np, ns, op, os], knows, payload) && np != ns && op != os
    requires (knows(np) <==> np == owner) && (knows(ns) <==> ns == owner)
    requires (knows(op) <==> op == owner) && (knows(os) <==> os == owner)
    ensures ReachesThroughChange(p, net, payload, np, ns, op, os, owner)
  {
    HopChain.FourHopsDeliver(np, ns, op, os, knows, owner);
    ArrivalDecides(p, net, [np, ns, op, os], knows, payload, owner);
  }

  lemma FourHopsOf(t: Table, f: Fields, cfg: HashConfig, np: Addr, ns: Addr, op: Addr, os: Addr)
    requires ValidTable(t) && cfg.alt.Some?
    requires RowHosts(t, f, cfg.fields) == [np, ns] && RowHosts(t, f, cfg.alt.value) == [op, os]
    ensures RouteHops(t, f, cfg) == [np, ns, op, os]
  {
  }

  /** While hash fields change, whatever belongs to a connection goes to the new pair and then to the old one. */
  lemma HashFieldChangeDelivers(t: Table, d: Director, cfg: HashConfig, frame: seq<byte>, sums: Sums, w: Flow, ackOnly: bool,
                                net: ProxyChain.Net, np: Addr, ns: Addr, op: Addr, os: Addr, owner: Addr)
    requires ValidDirector(d) && ValidTable(t) && BelongsTo(frame, w, ackOnly) && ValidSums(sums) && cfg.alt.Some?
    requires RowHosts(t, FlowFields(w), cfg.fields) == [np, ns] && np != ns
    requires RowHosts(t, FlowFields(w), cfg.alt.value) == [op, os] && op != os
    requires OwnerOnly(net, w, ackOnly, np, owner) && OwnerOnly(net, w, ackOnly, ns, owner)
    requires OwnerOnly(net, w, ackOnly, op, owner) && OwnerOnly(net, w, ackOnly, os, owner)
    ensures Extract(frame).Some?
    ensures ReachesThroughChange(Sent(d, t, cfg, frame, sums), net, frame[14..], np, ns, op, os, owner)
  {
    FrameArrives(d, t, cfg, frame, sums, w, ackOnly, net);
    FourHopsOf(t, FlowFields(w), cfg, np, ns, op, os);
    FourHopsDecide(Sent(d, t, cfg, frame, sums), net, ProxyChain.KnowsFlow(net, TupleOf(w), ackOnly), frame[14..],
                   np, ns, op, os, owner);
  }
}
