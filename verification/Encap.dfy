/**
 The director's answer to a frame: the hop list its tables give, and the GUE packet that carries
 the original packet to the first hop. Encapsulating and then parsing as a proxy does is a round
 trip.
 */
module Encap {
  import opened Bytes
  import opened PacketParsing
  import Redirect
  import ProxyChain

  const MAX_HOPS: nat := 4
  const TABLE_ENTRIES: nat := 0x1_0000
  const GUE_PORT: nat := 19523

  /** A loaded table: the hash under its key, its backend addresses, and two backend indices a row. */
  datatype Table = Table(hash: seq<byte> -> bv64, backends: seq<Addr>, entries: seq<(nat, nat)>)

  predicate ValidTable(t: Table) {
    && |t.entries| == TABLE_ENTRIES
    && forall i :: 0 <= i < |t.entries| ==> t.entries[i].0 < |t.backends| && t.entries[i].1 < |t.backends|
  }

  /** Hash fields in use, and the old ones while a change of hash fields is under way. */
  datatype HashConfig = HashConfig(fields: HashFields, alt: Option<HashFields>)

  // ---- Routing ----

  /** The low 16 bits of the hash. */
  function RowIndex(h: bv64): (i: nat)
    ensures i < TABLE_ENTRIES
  {
    ((h & 0xffff) as bv16) as nat
  }

  /** The row is the hash modulo the number of rows. */
  lemma RowIsHashModulo(h: bv64)
    ensures RowIndex(h) == (h % 0x1_0000) as nat
  {
  }

  /** The row the hash of the chosen fields selects: the indices of its primary and its secondary host. */
  function RowFor(t: Table, f: Fields, cfg: HashFields): (row: (nat, nat))
    requires ValidTable(t)
    ensures row.0 < |t.backends| && row.1 < |t.backends|
  {
    t.entries[RowIndex(t.hash(HashInput(f, cfg)))]
  }

  function RowHosts(t: Table, f: Fields, cfg: HashFields): (hops: seq<Addr>)
    requires ValidTable(t)
    ensures |hops| == 2
  {
    var (p, s) := RowFor(t, f, cfg);
    [t.backends[p], t.backends[s]]
  }

  function RouteHops(t: Table, f: Fields, cfg: HashConfig): (hops: seq<Addr>)
    requires ValidTable(t)
    ensures |hops| == 2 || |hops| == 4
  {
    RowHosts(t, f, cfg.fields) + if cfg.alt.Some? then RowHosts(t, f, cfg.alt.value) else []
  }

  /** Set bit 15 and mix the flow hint into the low 15 bits. */
  function SourcePort(h: bv64, hint: nat): (port: nat)
    requires hint < 0x1_0000
    ensures 0x8000 <= port < 0x1_0000
  {
    HighBit(((h ^ (hint as bv64)) & 0x7fff) as bv16);
    (0x8000 | (((h ^ (hint as bv64)) & 0x7fff) as bv16)) as nat
  }

  lemma HighBit(b: bv16)
    ensures (0x8000 | b) as nat >= 0x8000
  {
  }

  /** Bit 15 is set, and the low 15 bits are those of the hash, mixed with the hint. */
  lemma PortIsMixedHash(h: bv64, hint: nat)
    requires hint < 0x1_0000
    ensures SourcePort(h, hint) == 0x8000 + ((h ^ (hint as bv64)) % 0x8000) as nat
  {
  }

  function RouteHash(t: Table, f: Fields, cfg: HashConfig): bv64 {
    t.hash(HashInput(f, cfg.fields))
  }

  /** The hop list under construction. */
  class HopBuffer {
    const ipv4Hops: array<Addr>
    var hopCount: nat
    var pktHash: bv64

    ghost predicate Valid()
      reads this
    {
      ipv4Hops.Length == MAX_HOPS && hopCount <= MAX_HOPS
    }

    ghost function Contents(): seq<Addr>
      reads this, ipv4Hops
      requires Valid()
    {
      ipv4Hops[..hopCount]
    }

    constructor ()
      ensures Valid() && Contents() == [] && fresh(ipv4Hops)
    {
      ipv4Hops := new Addr[MAX_HOPS];
      hopCount := 0;
      pktHash := 0;
    }

    /** `glb_add_packet_route`: two more hops, or none and an error when there is no room. */
    method AddRoute(t: Table, f: Fields, cfg: HashFields) returns (ok: bool)
      requires Valid() && ValidTable(t)
      modifies this, ipv4Hops
      ensures Valid()
      ensures ok <==> old(hopCount) + 2 <= MAX_HOPS
      ensures var row := RowFor(t, f, cfg);
              Contents() == old(Contents()) + if ok then [t.backends[row.0], t.backends[row.1]] else []
      ensures pktHash == if ok && old(hopCount) == 0 then t.hash(HashInput(f, cfg)) else old(pktHash)
    {
      var h := t.hash(HashInput(f, cfg));
      var entry := t.entries[RowIndex(h)];
      var primary, secondary := t.backends[entry.0], t.backends[entry.1];
      ok := Append(h, primary, secondary);
    }

    method Append(h: bv64, primary: Addr, secondary: Addr) returns (ok: bool)
      requires Valid()
      modifies this, ipv4Hops
      ensures Valid()
      ensures ok <==> old(hopCount) + 2 <= MAX_HOPS
      ensures Contents() == old(Contents()) + if ok then [primary, secondary] else []
      ensures pktHash == if ok && old(hopCount) == 0 then h else old(pktHash)
    {
      if hopCount + 2 > MAX_HOPS {
        return false;
      }
      if hopCount == 0 {
        pktHash := h;
      }
      ipv4Hops[hopCount] := primary;
      ipv4Hops[hopCount + 1] := secondary;
      hopCount := hopCount + 2;
      ok := true;
    }

    /** `glb_calculate_packet_route` after parsing: there is always room for the old hash fields too. */
    method Calculate(t: Table, f: Fields, cfg: HashConfig) returns (ok: bool)
      requires Valid() && hopCount == 0 && ValidTable(t)
      modifies this, ipv4Hops
      ensures Valid() && ok
      ensures Contents() == RouteHops(t, f, cfg) && pktHash == RouteHash(t, f, cfg)
    {
      ok := AddRoute(t, f, cfg.fields);
      if cfg.alt.Some? {
        ok := AddRoute(t, f, cfg.alt.value);
      }
    }
  }

  // ---- Encapsulation ----

  /** The director's own addresses. */
  datatype Director = Director(gatewayMac: seq<byte>, localMac: seq<byte>, ip: Addr)

  predicate ValidDirector(d: Director) {
    |d.gatewayMac| == |d.localMac| == 6
  }

  function GueProto(f: Family): byte {
    if f == V4 then Redirect.PROTO_IPIP else Redirect.PROTO_IPV6
  }

  function EthernetHeader(d: Director): seq<byte> {
    d.gatewayMac + d.localMac + [0x08, 0x00]
  }

  /** The outer IPv4 header; lengths are cut to 16 bits, as the field is. */
  function IpHeader(d: Director, hops: seq<Addr>, innerLen: nat): (s: seq<byte>)
    requires |hops| >= 1
    ensures |s| == 20
  {
    [0x45, 0] + U16Bytes((20 + 8 + 8 + 4 * (|hops| - 1) + innerLen) % 0x1_0000)
    + [0, 0, 0x40, 0x00, 64, Redirect.PROTO_UDP, 0, 0] + d.ip + hops[0]
  }

  function UdpHeader(hops: seq<Addr>, port: nat, innerLen: nat): (s: seq<byte>)
    requires |hops| >= 1 && port < 0x1_0000
    ensures |s| == 8
  {
    U16Bytes(port) + U16Bytes(GUE_PORT) + U16Bytes((8 + 8 + 4 * (|hops| - 1) + innerLen) % 0x1_0000) + [0, 0]
  }

  function GueHeader(hops: seq<Addr>, proto: byte): (s: seq<byte>)
    requires 1 <= |hops| <= MAX_HOPS
    ensures |s| == 8 + 4 * (|hops| - 1)
  {
    var rest := |hops| - 1;
    [(1 + rest) as byte, proto, 0, 0, 0, 0, 0, rest as byte] + Flatten(hops[1..])
  }

  /** All bytes in front of the inner IP packet. */
  function EncapBytes(d: Director, hops: seq<Addr>, port: nat, proto: byte, innerLen: nat): (s: seq<byte>)
    requires ValidDirector(d) && 1 <= |hops| <= MAX_HOPS && port < 0x1_0000
    ensures |s| == EncapSize(|hops|)
  {
    EthernetHeader(d) + IpHeader(d, hops, innerLen) + UdpHeader(hops, port, innerLen) + GueHeader(hops, proto)
  }

  /** ROUTE_CONTEXT_ENCAP_SIZE */
  function EncapSize(hopCount: nat): nat
    requires hopCount >= 1
  {
    14 + 20 + 8 + 8 + 4 * (hopCount - 1)
  }

  /** `glb_encapsulate_packet`: fills the room in front of the inner packet and touches nothing behind it. */
  method Encapsulate(buf: array<byte>, d: Director, hops: seq<Addr>, pktHash: bv64, f: Fields) returns (size: nat)
    requires ValidDirector(d) && 1 <= |hops| <= MAX_HOPS && WellFormed(f) && EncapSize(|hops|) <= buf.Length
    modifies buf
    ensures size == EncapSize(|hops|)
    ensures buf[..size] == EncapBytes(d, hops, SourcePort(pktHash, f.hint), GueProto(f.family), f.totalLen)
    ensures buf[size..] == old(buf[size..])
  {
    size := PushHeaders(buf, EthernetHeader(d), IpHeader(d, hops, f.totalLen),
                        UdpHeader(hops, SourcePort(pktHash, f.hint), f.totalLen), GueHeader(hops, GueProto(f.family)));
  }

  method PushHeaders(buf: array<byte>, eth: seq<byte>, ip: seq<byte>, udp: seq<byte>, gue: seq<byte>) returns (size: nat)
    requires |eth| + |ip| + |udp| + |gue| <= buf.Length
    modifies buf
    ensures size == |eth| + |ip| + |udp| + |gue|
    ensures buf[..size] == eth + ip + udp + gue
    ensures forall i :: size <= i < buf.Length ==> buf[i] == old(buf[i])
  {
    size := Push(buf, 0, eth);
    size := Push(buf, size, ip);
    size := Push(buf, size, udp);
    size := Push(buf, size, gue);
  }

  // ---- Round trip ----

  /** The encapsulated packet without its Ethernet header, as the first proxy receives it. */
  function OnTheWire(d: Director, hops: seq<Addr>, port: nat, proto: byte, innerLen: nat, inner: seq<byte>): (p: seq<byte>)
    requires ValidDirector(d) && 1 <= |hops| <= MAX_HOPS && port < 0x1_0000
    ensures |p| == EncapSize(|hops|) - 14 + |inner|
  {
    EncapBytes(d, hops, port, proto, innerLen)[14..] + inner
  }

  lemma WireLayout(d: Director, hops: seq<Addr>, port: nat, proto: byte, innerLen: nat, inner: seq<byte>)
    requires ValidDirector(d) && 1 <= |hops| <= MAX_HOPS && port < 0x1_0000
    ensures var p := OnTheWire(d, hops, port, proto, innerLen, inner);
            var g := 28 + 8 + 4 * (|hops| - 1);
            && p[..20] == IpHeader(d, hops, innerLen)
            && p[20..28] == UdpHeader(hops, port, innerLen)
            && p[28..g] == GueHeader(hops, proto)
            && p[g..] == inner
  {
    var e := EncapBytes(d, hops, port, proto, innerLen);
    assert e[14..] == IpHeader(d, hops, innerLen) + UdpHeader(hops, port, innerLen) + GueHeader(hops, proto);
  }

  /**
   The proxy's parser finds what the director put in: the first hop as destination, the others as the
   hop list with next_hop 0, and the untouched original packet behind the headers.
   */
  lemma RoundTrip(d: Director, hops: seq<Addr>, port: nat, proto: byte, innerLen: nat, inner: seq<byte>)
    requires ValidDirector(d) && 1 <= |hops| <= MAX_HOPS && port < 0x1_0000
    ensures ProxyChain.Carries(OnTheWire(d, hops, port, proto, innerLen, inner),
                               ProxyChain.Leg(d.ip, hops[0], 0, hops[1..], proto, inner))
  {
    var p, rest := OnTheWire(d, hops, port, proto, innerLen, inner), |hops| - 1;
    WireLayout(d, hops, port, proto, innerLen, inner);
    assert p[0] == p[..20][0] && p[9] == p[..20][9];
    WireParses(p, hops, proto);
    var o := Redirect.Outer(20, 32, 36 + 4 * rest, 0, rest, proto);
    WireHops(p, o, hops, proto);
    assert p[12..16] == p[..20][12..16] && p[16..20] == p[..20][16..20];
  }

  lemma WireParses(p: seq<byte>, hops: seq<Addr>, proto: byte)
    requires 1 <= |hops| <= MAX_HOPS && |p| >= 36 + 4 * (|hops| - 1)
    requires p[0] == 0x45 && p[9] == Redirect.PROTO_UDP && p[28..36 + 4 * (|hops| - 1)] == GueHeader(hops, proto)
    ensures Redirect.IpPacket(p)
    ensures var rest := |hops| - 1;
            Redirect.ParseOuter(p) == Some(Redirect.Outer(20, 32, 36 + 4 * rest, 0, rest, proto))
  {
    var gue := p[28..36 + 4 * (|hops| - 1)];
    assert p[28] == gue[0] && p[29] == gue[1] && p[34] == gue[6] && p[35] == gue[7];
  }

  lemma WireHops(p: seq<byte>, o: Redirect.Outer, hops: seq<Addr>, proto: byte)
    requires 1 <= |hops| <= MAX_HOPS && o.crOfs == 32 && o.hopCount == |hops| - 1 && |p| >= 36 + 4 * (|hops| - 1)
    requires p[28..36 + 4 * (|hops| - 1)] == GueHeader(hops, proto)
    ensures ProxyChain.HopList(p, o) == hops[1..]
  {
    var end := 36 + 4 * o.hopCount;
    var gue := p[28..end];
    forall i | 0 <= i < o.hopCount
      ensures ProxyChain.HopList(p, o)[i] == hops[1..][i]
    {
      FlattenAt(hops[1..], i);
      SliceOfSlice(p, 28, end, 8 + 4 * i, 12 + 4 * i);
      SliceOfSlice(gue, 8, |gue|, 4 * i, 4 * i + 4);
      assert gue[8..|gue|] == Flatten(hops[1..]);
    }
  }

  /**
   Given an honest inner length, the outer IP and UDP length fields tell the truth exactly when the
   whole packet fits the 16-bit length. The UDP ports are always as given.
   */
  lemma LengthsConsistent(d: Director, hops: seq<Addr>, port: nat, proto: byte, inner: seq<byte>)
    requires ValidDirector(d) && 1 <= |hops| <= MAX_HOPS && port < 0x1_0000
    ensures var p := OnTheWire(d, hops, port, proto, |inner|, inner);
            && U16At(p, 20) == port && U16At(p, 22) == GUE_PORT
            && (U16At(p, 2) == |p| <==> |p| < 0x1_0000)
            && (|p| < 0x1_0000 ==> ProxyChain.UdpLength(p, 20) == |p| - 20
                                   && ProxyChain.LengthOk(p, 20))
  {
    var p := OnTheWire(d, hops, port, proto, |inner|, inner);
    WireLayout(d, hops, port, proto, |inner|, inner);
    HeaderFields(d, hops, port, |inner|);
    U16OfSlice(p, 0, 20, 2);
    U16OfSlice(p, 20, 28, 0);
    U16OfSlice(p, 20, 28, 2);
    U16OfSlice(p, 20, 28, 4);
    assert p[0..20] == p[..20];
  }

  lemma HeaderFields(d: Director, hops: seq<Addr>, port: nat, innerLen: nat)
    requires |hops| >= 1 && port < 0x1_0000
    ensures U16At(IpHeader(d, hops, innerLen), 2) == (36 + 4 * (|hops| - 1) + innerLen) % 0x1_0000
    ensures var udp := UdpHeader(hops, port, innerLen);
            && U16At(udp, 0) == port && U16At(udp, 2) == GUE_PORT
            && U16At(udp, 4) == (16 + 4 * (|hops| - 1) + innerLen) % 0x1_0000
            && udp[6] == udp[7] == 0
  {
    var ip, udp := IpHeader(d, hops, innerLen), UdpHeader(hops, port, innerLen);
    assert ip[2..4] == U16Bytes((36 + 4 * (|hops| - 1) + innerLen) % 0x1_0000);
    assert udp[0..2] == U16Bytes(port) && udp[2..4] == U16Bytes(GUE_PORT);
    assert udp[4..6] == U16Bytes((16 + 4 * (|hops| - 1) + innerLen) % 0x1_0000);
    U16OfSlice(ip, 2, 4, 0);
    U16OfSlice(udp, 0, 2, 0);
    U16OfSlice(udp, 2, 4, 0);
    U16OfSlice(udp, 4, 6, 0);
  }
}
