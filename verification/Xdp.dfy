/**
 The second director: an XDP program that routes by flattened tables, one pair of addresses a row,
 and writes the encapsulation field by field. It agrees with the DPDK director on hash, hop list and
 bytes, up to the two outer checksums: it folds the IP header checksum only once and leaves the UDP
 checksum unused.
 */
module Xdp {
  import opened Bytes
  import opened Checksum
  import opened PacketParsing
  import opened Encap
  import Redirect

  // ---- Hashing ----

  predicate AnyField(cfg: HashFields) {
    cfg.srcAddr || cfg.dstAddr || cfg.srcPort || cfg.dstPort
  }

  const MAX_HASH_DATA_SIZE: nat := 16 + 16 + 2 + 2
  const MINUS_ONE: bv64 := 0xffff_ffff_ffff_ffff

  /** `glb_compute_hash` with the guards for the eBPF verifier compiled in. */
  function GuardedHash(hash: seq<byte> -> bv64, f: Fields, cfg: HashFields): bv64 {
    var input := HashInput(f, cfg);
    if 0 < |input| <= MAX_HASH_DATA_SIZE then hash(input) else MINUS_ONE
  }

  /** The guards change nothing as long as some field is hashed, and otherwise only by luck. */
  lemma GuardedHashAgrees(hash: seq<byte> -> bv64, f: Fields, cfg: HashFields)
    requires WellFormed(f)
    ensures GuardedHash(hash, f, cfg) == hash(HashInput(f, cfg)) <==> AnyField(cfg) || hash([]) == MINUS_ONE
  {
  }

  /** Without any field all packets go to the last row. */
  lemma NoFieldMeansLastRow(hash: seq<byte> -> bv64, f: Fields, cfg: HashFields)
    requires !AnyField(cfg)
    ensures RowIndex(GuardedHash(hash, f, cfg)) == 65535
  {
    RowIsHashModulo(MINUS_ONE);
  }

  // ---- Flattened tables ----

  ghost predicate Flattened(rows: map<nat, (Addr, Addr)>, t: Table)
    requires ValidTable(t)
  {
    && (forall e: nat :: e in rows <==> e < TABLE_ENTRIES)
    && forall e | e in rows :: rows[e] == (t.backends[t.entries[e].0], t.backends[t.entries[e].1])
  }

  /** The loop of `ReloadForwardingTable` that resolves both indices of every row. */
  method FlattenTable(t: Table) returns (rows: map<nat, (Addr, Addr)>)
    requires ValidTable(t)
    ensures Flattened(rows, t)
  {
    rows := map[];
    for e: nat := 0 to TABLE_ENTRIES
      invariant forall k: nat :: k in rows <==> k < e
      invariant forall k | k in rows :: rows[k] == (t.backends[t.entries[k].0], t.backends[t.entries[k].1])
    {
      var entry := t.entries[e];
      rows := rows[e := (t.backends[entry.0], t.backends[entry.1])];
    }
  }

  /** How the two directors' settings correspond: unset alternate fields mean no second route. */
  function Settings(fields: HashFields, alt: HashFields): HashConfig {
    HashConfig(fields, if AnyField(alt) then Some(alt) else None)
  }

  /** The hosts of the row the guarded hash selects. */
  function GuardedRow(t: Table, f: Fields, cfg: HashFields): seq<Addr>
    requires ValidTable(t)
  {
    var (p, s) := t.entries[RowIndex(GuardedHash(t.hash, f, cfg))];
    [t.backends[p], t.backends[s]]
  }

  function GuardedHops(t: Table, f: Fields, fields: HashFields, alt: HashFields): seq<Addr>
    requires ValidTable(t)
  {
    GuardedRow(t, f, fields) + if AnyField(alt) then GuardedRow(t, f, alt) else []
  }

  /** With at least one hash field set, hop list and hash are those of the DPDK director. */
  lemma RoutesAgree(t: Table, f: Fields, fields: HashFields, alt: HashFields)
    requires ValidTable(t) && WellFormed(f) && AnyField(fields)
    ensures GuardedHops(t, f, fields, alt) == RouteHops(t, f, Settings(fields, alt))
    ensures GuardedHash(t.hash, f, fields) == RouteHash(t, f, Settings(fields, alt))
  {
  }

  /**
   The routing part of `xdp_glb_director_process`: over the flattened rows it gets the hosts of the row of
   the original table, and of the second row if any alternate field is set.
   */
  method Route(rows: map<nat, (Addr, Addr)>, hash: seq<byte> -> bv64, f: Fields, fields: HashFields, alt: HashFields,
               ghost t: Table)
      returns (route: Option<(seq<Addr>, bv64)>)
    requires ValidTable(t) && Flattened(rows, t) && hash == t.hash
    ensures route == Some((GuardedHops(t, f, fields, alt), GuardedHash(t.hash, f, fields)))
  {
    var pktHash := GuardedHash(hash, f, fields);
    var first := LookUp(rows, pktHash);
    if first == [] {
      return None;
    }
    var hops := first;
    if alt.dstAddr || alt.dstPort || alt.srcAddr || alt.srcPort {
      var second := LookUp(rows, GuardedHash(hash, f, alt));
      if second == [] {
        return None;
      }
      hops := hops + second;
    }
    assert hops == GuardedHops(t, f, fields, alt);
    route := Some((hops, pktHash));
  }

  /** The row of a hash as a list of hops; empty when the row is missing. */
  function LookUp(rows: map<nat, (Addr, Addr)>, h: bv64): seq<Addr> {
    var i := RowIndex(h);
    if i in rows then [rows[i].0, rows[i].1] else []
  }

  // ---- The IP header checksum ----

  function WordAt(h: seq<byte>, i: nat): nat
    requires 2 * i + 2 <= |h|
  {
    h[2 * i] as int + 0x100 * h[2 * i + 1] as int
  }

  function TenWords(h: seq<byte>): nat
    requires |h| == 20
  {
    WordAt(h, 0) + WordAt(h, 1) + WordAt(h, 2) + WordAt(h, 3) + WordAt(h, 4)
    + WordAt(h, 5) + WordAt(h, 6) + WordAt(h, 7) + WordAt(h, 8) + WordAt(h, 9)
  }

  function FoldOnce(n: nat): nat {
    n % 0x1_0000 + n / 0x1_0000
  }

  /** `compute_ipv4_checksum`: one fold, complement, cut to 16 bits. */
  function OnceFoldedChecksum(sum: nat): (c: nat)
    ensures c <= M
  {
    M - FoldOnce(sum) % 0x1_0000
  }

  /** RFC 1071: fold until no carry is left, then complement. */
  function Rfc1071Checksum(sum: nat): int {
    M - Fold(sum)
  }

  /** One fold is enough exactly when it leaves no carry; otherwise the result is one too large. */
  lemma OnceFoldedExactly(sum: nat)
    requires sum <= 10 * M
    ensures OnceFoldedChecksum(sum) == Rfc1071Checksum(sum) <==> FoldOnce(sum) <= M
    ensures FoldOnce(sum) > M ==> OnceFoldedChecksum(sum) == Rfc1071Checksum(sum) + 1
  {
    var n := FoldOnce(sum);
    if sum > M {
      assert Fold(sum) == Fold(n);
      if n > M {
        assert Fold(n) == Fold(n - M);
      }
    }
  }

  /** `h` with its checksum filled in. */
  function Summed(h: seq<byte>): (r: seq<byte>)
    requires |h| == 20
    ensures |r| == 20
  {
    WriteField(h, 10, OnceFoldedChecksum(TenWords(h)))
  }

  lemma {:induction false} LastWordOfSum(s: seq<byte>)
    requires |s| >= 2 && |s| % 2 == 0
    ensures RawSum(s) == RawSum(s[..|s| - 2]) + s[|s| - 2] as int + 0x100 * s[|s| - 1] as int
  {
    assert s[..|s| - 1][..|s| - 2] == s[..|s| - 2];
  }

  lemma TenWordsIsRawSum(h: seq<byte>)
    requires |h| == 20
    ensures TenWords(h) == RawSum(h) <= 10 * M
  {
    SumOfWords(h, 10);
    assert WordSum(h, 1) == WordAt(h, 0);
    assert WordSum(h, 3) == WordSum(h, 1) + WordAt(h, 1) + WordAt(h, 2);
    assert WordSum(h, 5) == WordSum(h, 3) + WordAt(h, 3) + WordAt(h, 4);
    assert WordSum(h, 7) == WordSum(h, 5) + WordAt(h, 5) + WordAt(h, 6);
    assert WordSum(h, 9) == WordSum(h, 7) + WordAt(h, 7) + WordAt(h, 8);
    assert h[..20] == h;
  }

  function WordSum(h: seq<byte>, n: nat): nat
    requires 2 * n <= |h|
  {
    if n == 0 then 0 else WordSum(h, n - 1) + WordAt(h, n - 1)
  }

  lemma {:induction false} SumOfWords(h: seq<byte>, n: nat)
    requires 2 * n <= |h|
    ensures RawSum(h[..2 * n]) == WordSum(h, n)
  {
    if n > 0 {
      SumOfWords(h, n - 1);
      var s := h[..2 * n];
      LastWordOfSum(s);
      assert s[..|s| - 2] == h[..2 * (n - 1)];
    }
  }

  lemma OnceFoldedCompletes(sum: nat)
    requires 0 < sum <= 10 * M
    ensures (sum + OnceFoldedChecksum(sum)) % M == 0 <==> FoldOnce(sum) <= M
  {
  }

  /** The header the XDP director sends is valid exactly when one fold was enough. */
  lemma HeaderValidExactly(h: seq<byte>)
    requires |h| == 20 && h[10] == h[11] == 0 && h[0] == 0x45
    ensures SumsToOnes(NetSum(Summed(h))) <==> FoldOnce(TenWords(h)) <= M
  {
    TenWordsIsRawSum(h);
    WriteFieldSum(h, 10, OnceFoldedChecksum(TenWords(h)));
    OnceFoldedCompletes(RawSum(h));
    ByteOrderIndependence(Summed(h));
    SumsToOnesExactly(RawSum(Summed(h)));
  }

  // ---- Encapsulation ----

  function GueFixedPart(hops: seq<Addr>, proto: byte): (s: seq<byte>)
    requires 1 <= |hops| <= MAX_HOPS
    ensures |s| == 8
  {
    var rest := |hops| - 1;
    [(1 + rest) as byte, proto, 0, 0, 0, 0, 0, rest as byte]
  }

  lemma FlattenUnrolled(rest: seq<Addr>)
    requires |rest| <= 3
    ensures Flatten(rest) == (if |rest| >= 1 then rest[0] else []) + (if |rest| >= 2 then rest[1] else [])
                           + (if |rest| >= 3 then rest[2] else [])
  {
    if |rest| >= 1 {
      assert Flatten(rest) == rest[0] + Flatten(rest[1..]);
      if |rest| >= 2 {
        assert Flatten(rest[1..]) == rest[1] + Flatten(rest[2..]);
        if |rest| >= 3 {
          assert Flatten(rest[2..]) == rest[2] + Flatten(rest[3..]);
        }
      }
    }
  }

  /** The three guarded copies: all hops behind the first, and no byte more. */
  method CopyHops(buf: array<byte>, at: nat, hops: seq<Addr>)
    requires 1 <= |hops| <= MAX_HOPS && at + 4 * (|hops| - 1) <= buf.Length
    modifies buf
    ensures buf[..at + 4 * (|hops| - 1)] == old(buf[..at]) + Flatten(hops[1..])
    ensures forall i :: at + 4 * (|hops| - 1) <= i < buf.Length ==> buf[i] == old(buf[i])
  {
    var rest := |hops| - 1;
    FlattenUnrolled(hops[1..]);
    var next := at;
    if rest >= 1 && at + 4 <= buf.Length {
      next := Push(buf, next, hops[1]);
    }
    if rest >= 2 && at + 8 <= buf.Length {
      next := Push(buf, next, hops[2]);
    }
    if rest >= 3 && at + 12 <= buf.Length {
      next := Push(buf, next, hops[3]);
    }
  }

  /** What the DPDK director writes before it fills in checksums, with the IP header checksum filled in. */
  function SentBytes(d: Director, hops: seq<Addr>, port: nat, proto: byte, innerLen: nat): (s: seq<byte>)
    requires ValidDirector(d) && 1 <= |hops| <= MAX_HOPS && port < 0x1_0000
    ensures |s| == EncapSize(|hops|)
  {
    WriteField(EncapBytes(d, hops, port, proto, innerLen), 24, OnceFoldedChecksum(TenWords(IpHeader(d, hops, innerLen))))
  }

  /** Bytes `from` to `to` may change. */
  twostate predicate OnlyWithin(buf: array<byte>, from: nat, to: nat)
    reads buf
  {
    forall i :: 0 <= i < buf.Length && !(from <= i < to) ==> buf[i] == old(buf[i])
  }

  /** The Ethernet header, field by field. */
  method FillEthernet(buf: array<byte>, gateway: seq<byte>, local: seq<byte>)
    requires |gateway| == |local| == 6 && buf.Length >= 14
    modifies buf
    ensures buf[..14] == gateway + local + [0x08, 0x00] && OnlyWithin(buf, 0, 14)
  {
    var _ := Push(buf, 6, local);
    assert buf[6..12] == local;
    var _ := Push(buf, 0, gateway);
    assert buf[..6] == gateway;
    buf[12], buf[13] := 0x08, 0x00;
    assert buf[..14] == buf[..6] + buf[6..12] + buf[12..14];
  }

  /** The fields in front of the addresses, with the checksum still zero. */
  function IpStart(hops: seq<Addr>, innerLen: nat): (s: seq<byte>)
    requires |hops| >= 1
    ensures |s| == 12
  {
    [0x45, 0] + U16Bytes((20 + 8 + 8 + 4 * (|hops| - 1) + innerLen) % 0x1_0000) + [0, 0, 0x40, 0x00, 64, Redirect.PROTO_UDP, 0, 0]
  }

  method FillIpStart(buf: array<byte>, hops: seq<Addr>, innerLen: nat)
    requires |hops| >= 1 && buf.Length >= 34
    modifies buf
    ensures buf[14..26] == IpStart(hops, innerLen) && OnlyWithin(buf, 14, 26)
  {
    var len := (20 + 8 + 8 + 4 * (|hops| - 1) + innerLen) % 0x1_0000;
    buf[14], buf[15] := 0x45, 0;
    buf[16], buf[17] := (len / 0x100) as byte, (len % 0x100) as byte;
    buf[18], buf[19] := 0, 0;
    buf[20], buf[21] := 0x40, 0x00;
    buf[22], buf[23] := 64, Redirect.PROTO_UDP;
    buf[24], buf[25] := 0, 0;
  }

  method FillAddresses(buf: array<byte>, source: Addr, dst: Addr)
    requires buf.Length >= 34
    modifies buf
    ensures buf[26..30] == source && buf[30..34] == dst && OnlyWithin(buf, 26, 34)
  {
    buf[26], buf[27], buf[28], buf[29] := source[0], source[1], source[2], source[3];
    buf[30], buf[31], buf[32], buf[33] := dst[0], dst[1], dst[2], dst[3];
  }

  /** `compute_ipv4_checksum` over the ten words in place, stored in host order. */
  method FillIpChecksum(buf: array<byte>)
    requires buf.Length >= 34
    modifies buf
    ensures buf[14..34] == Summed(old(buf[14..34])) && OnlyWithin(buf, 14, 34)
  {
    ghost var ip := buf[14..34];
    var sum := OnceFoldedChecksum(TenWords(buf[14..34]));
    buf[24], buf[25] := (sum % 0x100) as byte, (sum / 0x100) as byte;
    assert buf[14..34] == ip[10 := (sum % 0x100) as byte][11 := (sum / 0x100) as byte];
  }

  /** The outer IP header, field by field, and its checksum over what was just written. */
  method FillIp(buf: array<byte>, ghost d: Director, source: Addr, hops: seq<Addr>, innerLen: nat)
    requires d.ip == source && |hops| >= 1 && buf.Length >= 34
    modifies buf
    ensures buf[14..34] == Summed(IpHeader(d, hops, innerLen)) && OnlyWithin(buf, 14, 34)
  {
    FillIpStart(buf, hops, innerLen);
    ghost var start := buf[14..26];
    FillAddresses(buf, source, hops[0]);
    assert buf[14..26] == start;
    assert buf[14..34] == buf[14..26] + buf[26..30] + buf[30..34];
    FillIpChecksum(buf);
  }

  /** The UDP header, field by field; its checksum stays unused. */
  method FillUdp(buf: array<byte>, hops: seq<Addr>, port: nat, innerLen: nat)
    requires |hops| >= 1 && port < 0x1_0000 && buf.Length >= 42
    modifies buf
    ensures buf[34..42] == UdpHeader(hops, port, innerLen) && OnlyWithin(buf, 34, 42)
  {
    var len := (8 + 8 + 4 * (|hops| - 1) + innerLen) % 0x1_0000;
    buf[34], buf[35] := (port / 0x100) as byte, (port % 0x100) as byte;
    buf[36], buf[37] := (GUE_PORT / 0x100) as byte, (GUE_PORT % 0x100) as byte;
    buf[38], buf[39] := (len / 0x100) as byte, (len % 0x100) as byte;
    buf[40], buf[41] := 0, 0;
  }

  /** The fixed part of the GUE header, field by field. */
  method FillGue(buf: array<byte>, hops: seq<Addr>, proto: byte)
    requires 1 <= |hops| <= MAX_HOPS && buf.Length >= 50
    modifies buf
    ensures buf[42..50] == GueFixedPart(hops, proto) && OnlyWithin(buf, 42, 50)
  {
    var rest := |hops| - 1;
    buf[46], buf[47] := 0, 0;
    buf[48] := 0;
    buf[49] := rest as byte;
    buf[42] := (1 + rest) as byte;
    buf[43] := proto;
    buf[44], buf[45] := 0, 0;
  }

  /**
   `glb_encapsulate_packet` of the XDP director, in the space made in front of the inner packet. The packet
   is dropped when no gateway or no source address is configured. The local MAC address is the one the
   frame was sent to.
   */
  method Encapsulate(buf: array<byte>, gateway: Option<seq<byte>>, local: seq<byte>, source: Option<Addr>, hops: seq<Addr>,
                     pktHash: bv64, f: Fields)
      returns (sent: bool)
    requires |local| == 6 && (gateway.Some? ==> |gateway.value| == 6)
    requires 1 <= |hops| <= MAX_HOPS && WellFormed(f) && EncapSize(|hops|) <= buf.Length
    modifies buf
    ensures sent <==> gateway.Some? && source.Some?
    ensures sent ==> buf[..EncapSize(|hops|)] == SentBytes(Director(gateway.value, local, source.value), hops,
                                                           SourcePort(pktHash, f.hint), GueProto(f.family), f.totalLen)
    ensures buf[EncapSize(|hops|)..] == old(buf[EncapSize(|hops|)..])
    ensures gateway.None? ==> buf[..] == old(buf[..])
  {
    if gateway.None? {
      return false;
    }
    FillEthernet(buf, gateway.value, local);
    if source.None? {
      return false;
    }
    var port, proto := SourcePort(pktHash, f.hint), GueProto(f.family);
    FillHeaders(buf, Director(gateway.value, local, source.value), source.value, hops, port, proto, f.totalLen);
    CopyHops(buf, 50, hops);
    SummedInPlace(Director(gateway.value, local, source.value), hops, port, proto, f.totalLen);
    sent := true;
  }

  /** The headers behind the Ethernet header, which is already in place. */
  method FillHeaders(buf: array<byte>, ghost d: Director, source: Addr, hops: seq<Addr>, port: nat, proto: byte, innerLen: nat)
    requires d.ip == source && 1 <= |hops| <= MAX_HOPS && port < 0x1_0000 && buf.Length >= 50
    requires |EthernetHeader(d)| == 14 && buf[..14] == EthernetHeader(d)
    modifies buf
    ensures OnlyWithin(buf, 14, 50)
    ensures buf[..50] == EthernetHeader(d) + Summed(IpHeader(d, hops, innerLen)) + UdpHeader(hops, port, innerLen)
                       + GueFixedPart(hops, proto)
  {
    FillIp(buf, d, source, hops, innerLen);
    assert buf[..14] == old(buf[..14]);
    ghost var ip := buf[14..34];
    FillUdp(buf, hops, port, innerLen);
    assert buf[14..34] == ip;
    ghost var udp := buf[34..42];
    FillGue(buf, hops, proto);
    assert buf[..14] == old(buf[..14]) && buf[14..34] == ip && buf[34..42] == udp;
    assert buf[..50] == buf[..14] + buf[14..34] + buf[34..42] + buf[42..50];
  }

  lemma SummedInPlace(d: Director, hops: seq<Addr>, port: nat, proto: byte, innerLen: nat)
    requires ValidDirector(d) && 1 <= |hops| <= MAX_HOPS && port < 0x1_0000
    ensures EthernetHeader(d) + Summed(IpHeader(d, hops, innerLen)) + UdpHeader(hops, port, innerLen)
            + GueFixedPart(hops, proto) + Flatten(hops[1..])
         == SentBytes(d, hops, port, proto, innerLen)
  {
    assert GueHeader(hops, proto) == GueFixedPart(hops, proto) + Flatten(hops[1..]);
    SumsInPlace(EthernetHeader(d), IpHeader(d, hops, innerLen), UdpHeader(hops, port, innerLen), GueFixedPart(hops, proto),
                Flatten(hops[1..]));
  }

  lemma SumsInPlace(eth: seq<byte>, ip: seq<byte>, udp: seq<byte>, gue: seq<byte>, rest: seq<byte>)
    requires |eth| == 14 && |ip| == 20
    ensures eth + Summed(ip) + udp + gue + rest
         == WriteField(eth + ip + udp + (gue + rest), 24, OnceFoldedChecksum(TenWords(ip)))
  {
  }

  // ---- When the header sent is valid ----

  lemma HeaderSent(d: Director, hops: seq<Addr>, port: nat, proto: byte, innerLen: nat)
    requires ValidDirector(d) && 1 <= |hops| <= MAX_HOPS && port < 0x1_0000
    ensures SentBytes(d, hops, port, proto, innerLen)[14..34] == Summed(IpHeader(d, hops, innerLen))
  {
  }

  /** For every packet encapsulated, the IP header sent is valid exactly when one fold leaves no carry. */
  lemma SentHeaderValidExactly(d: Director, hops: seq<Addr>, port: nat, proto: byte, innerLen: nat)
    requires ValidDirector(d) && 1 <= |hops| <= MAX_HOPS && port < 0x1_0000
    ensures SumsToOnes(NetSum(SentBytes(d, hops, port, proto, innerLen)[14..34]))
            <==> FoldOnce(TenWords(IpHeader(d, hops, innerLen))) <= M
  {
    HeaderSent(d, hops, port, proto, innerLen);
    HeaderValidExactly(IpHeader(d, hops, innerLen));
  }

  /** An acknowledgement of 40 bytes from 198.51.100.7:40000 to 203.0.113.1:443. */
  const ACK_FRAME: seq<byte> := [2, 0, 0, 0, 0, 1, 2, 0, 0, 0, 0, 2, 0x08, 0x00]
    + [0x45, 0, 0, 40, 0, 1, 0x40, 0, 64, 6, 0, 0, 198, 51, 100, 7, 203, 0, 113, 1]
    + [0x9c, 0x40, 0x01, 0xbb, 0, 0, 0, 1, 0, 0, 0, 1, 0x50, 0x10, 0xff, 0xff, 0, 0, 0, 0]

  const EXAMPLE: Director := Director([2, 0, 0, 0, 0, 3], [2, 0, 0, 0, 0, 1], [10, 0, 9, 164])
  const EXAMPLE_HOPS: seq<Addr> := [[10, 0, 29, 250], [10, 0, 29, 12]]

  lemma ExampleHeader()
    ensures IpHeader(EXAMPLE, EXAMPLE_HOPS, 40)
         == [0x45, 0, 0, 80, 0, 0, 0x40, 0, 64, 17, 0, 0, 10, 0, 9, 164, 10, 0, 29, 250]
  {
  }

  lemma ExampleParses()
    ensures Extract(ACK_FRAME).Some? && Extract(ACK_FRAME).value.totalLen == 40
  {
  }

  /** An ordinary acknowledgement, sent from 10.0.9.164 to a row on 10.0.29.250 and 10.0.29.12, for which it is not. */
  lemma OneFoldIsNotAlwaysEnough(pktHash: bv64)
    ensures ValidDirector(EXAMPLE) && |EXAMPLE_HOPS| == 2 && Extract(ACK_FRAME).Some?
    ensures var f := Extract(ACK_FRAME).value;
            var bytes := SentBytes(EXAMPLE, EXAMPLE_HOPS, SourcePort(pktHash, f.hint), GueProto(f.family), f.totalLen);
            !SumsToOnes(NetSum(bytes[14..34]))
  {
    ExampleParses();
    var f := Extract(ACK_FRAME).value;
    ExampleHeader();
    assert TenWords(IpHeader(EXAMPLE, EXAMPLE_HOPS, 40)) == 0x1_ffff;
    SentHeaderValidExactly(EXAMPLE, EXAMPLE_HOPS, SourcePort(pktHash, f.hint), GueProto(f.family), 40);
  }

  /** The same through the code: whatever the frame hashes to, the packet is sent with an invalid header. */
  method SendExample(pktHash: bv64) returns (buf: array<byte>)
    ensures buf.Length >= 34 && !SumsToOnes(NetSum(buf[14..34]))
  {
    ExampleParses();
    var f := Extract(ACK_FRAME).value;
    buf := new byte[54](i => 0);
    var sent := Encapsulate(buf, Some(EXAMPLE.gatewayMac), EXAMPLE.localMac, Some(EXAMPLE.ip), EXAMPLE_HOPS, pktHash, f);
    OneFoldIsNotAlwaysEnough(pktHash);
    assert buf[..54] == buf[..];
    assert buf[14..34] == buf[..54][14..34];
  }
}
