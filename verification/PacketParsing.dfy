/**
 The director's view of a frame: the addresses, ports and hints it routes by, and the bytes it
 hashes. Messages that say a packet was too big are read through to the packet they quote.
 */
module PacketParsing {
  import opened Bytes
  import SipHash

  datatype Family = V4 | V6

  /** The fields the parser leaves in the route context. */
  datatype Fields = Fields(family: Family, totalLen: nat, src: seq<byte>, dst: seq<byte>,
                           sport: seq<byte>, dport: seq<byte>, hint: nat, origProto: byte)

  predicate WellFormed(f: Fields) {
    && |f.src| == |f.dst| == (if f.family == V4 then 4 else 16)
    && |f.sport| == |f.dport| == 2
    && f.totalLen < 0x1_0000 && f.hint < 0x1_0000
  }

  const ICMPV4: byte := 1
  const ICMPV6: byte := 58
  const NO_PORT: seq<byte> := [0, 0]

  // ---- What the fields are ----

  function ExtractV4(frame: seq<byte>): (r: Option<Fields>)
    ensures r.Some? ==> WellFormed(r.value) && r.value.family == V4
  {
    if |frame| < 34 then None
    else
      var len := U16At(frame, 16);
      if frame[23] == ICMPV4 then
        if |frame| < 42 then None
        else if frame[34] == 3 then
          if |frame| < 66 then None
          else Some(Fields(V4, len, frame[58..62], frame[54..58], frame[64..66], frame[62..64], U16At(frame, 64), frame[51]))
        else Some(Fields(V4, len, frame[26..30], frame[30..34], NO_PORT, NO_PORT, U16At(frame, 18), frame[23]))
      else if |frame| < 38 then None
      else Some(Fields(V4, len, frame[26..30], frame[30..34], frame[34..36], frame[36..38], U16At(frame, 34), frame[23]))
  }

  function ExtractV6(frame: seq<byte>): (r: Option<Fields>)
    ensures r.Some? ==> WellFormed(r.value) && r.value.family == V6
  {
    if |frame| < 54 then None
    else
      var len := (40 + U16At(frame, 18)) % 0x1_0000;
      if frame[20] == ICMPV6 then
        if |frame| < 58 then None
        else if frame[54] == 2 then
          if |frame| < 106 then None
          else Some(Fields(V6, len, frame[86..102], frame[70..86], frame[104..106], frame[102..104], U16At(frame, 104), frame[68]))
        else Some(Fields(V6, len, frame[22..38], frame[38..54], NO_PORT, NO_PORT, U16At(frame, 16), frame[20]))
      else if |frame| < 58 then None
      else Some(Fields(V6, len, frame[22..38], frame[38..54], frame[54..56], frame[56..58], U16At(frame, 54), frame[20]))
  }

  function Extract(frame: seq<byte>): (r: Option<Fields>)
    ensures r.Some? ==> WellFormed(r.value)
  {
    if |frame| < 14 then None
    else if U16At(frame, 12) == 0x0800 then ExtractV4(frame)
    else if U16At(frame, 12) == 0x86dd then ExtractV6(frame)
    else None
  }

  // ---- The parser, reading headers into a bounded linearisation space ----

  /** Ethernet, IPv6, ICMPv6, packet-too-big, IPv6 and ports: the most the parser ever reads. */
  const MAX_PARSED_HEADER_SIZE: nat := 14 + 40 + 4 + 4 + 40 + 4

  class RouteContext {
    /** The XDP director reads straight from the frame, the DPDK one copies into the linearisation space. */
    const raw: bool
    var linearised: nat
    var family: Family
    var totalLen: nat
    var src: seq<byte>
    var dst: seq<byte>
    var sport: seq<byte>
    var dport: seq<byte>
    var hint: nat
    var origProto: byte

    constructor (raw: bool)
      ensures linearised == 0 && this.raw == raw
    {
      this.raw := raw;
      linearised := 0;
      family, totalLen, hint, origProto := V4, 0, 0, 0;
      src, dst, sport, dport := [], [], [], [];
    }

    ghost function Contents(): Fields
      reads this
    {
      Fields(family, totalLen, src, dst, sport, dport, hint, origProto)
    }

    /**
     `SAFELY_GET_HEADER_OR_RETURN`: whether the `len` bytes at `offset` can be had. It gives up when
     the frame is too short or, copying, when the linearisation space is used up.
     */
    method GetHeader(frame: seq<byte>, offset: nat, len: nat) returns (ok: bool)
      modifies this`linearised
      ensures linearised == old(linearised) + if raw then 0 else len
      ensures ok <==> (raw || linearised <= MAX_PARSED_HEADER_SIZE) && offset + len <= |frame|
    {
      if raw {
        return offset + len <= |frame|;
      }
      linearised := linearised + len;
      if linearised > MAX_PARSED_HEADER_SIZE {
        return false;
      }
      ok := offset + len <= |frame|;
    }

    method Store(s: seq<byte>, d: seq<byte>, sp: seq<byte>, dp: seq<byte>, h: nat)
      modifies this`src, this`dst, this`sport, this`dport, this`hint
      ensures src == s && dst == d && sport == sp && dport == dp && hint == h
    {
      src, dst, sport, dport, hint := s, d, sp, dp, h;
    }

    /** `extract_packet_fields_ipv4` */
    method ParseV4(frame: seq<byte>) returns (ok: bool)
      requires linearised <= 14
      modifies this
      ensures ok <==> ExtractV4(frame).Some?
      ensures ok ==> Contents() == ExtractV4(frame).value
    {
      var ip := 14;
      ok := GetHeader(frame, ip, 20);
      if !ok {
        return;
      }
      family := V4;
      totalLen := U16At(frame, ip + 2);
      origProto := frame[ip + 9];
      if frame[ip + 9] == ICMPV4 {
        var icmp := ip + 20;
        ok := GetHeader(frame, icmp, 8);
        if !ok {
          return;
        }
        if frame[icmp] == 3 {
          // a packet sent by the server comes back quoted, so everything is reversed
          var orig, l4 := icmp + 8, icmp + 28;
          ok := GetHeader(frame, orig, 20);
          if !ok {
            return;
          }
          ok := GetHeader(frame, l4, 4);
          if !ok {
            return;
          }
          Store(frame[orig + 16..orig + 20], frame[orig + 12..orig + 16],
                frame[l4 + 2..l4 + 4], frame[l4..l4 + 2], U16At(frame, l4 + 2));
          origProto := frame[orig + 9];
        } else {
          Store(frame[ip + 12..ip + 16], frame[ip + 16..ip + 20], NO_PORT, NO_PORT, U16At(frame, ip + 4));
        }
      } else {
        var l4 := ip + 20;
        ok := GetHeader(frame, l4, 4);
        if !ok {
          return;
        }
        Store(frame[ip + 12..ip + 16], frame[ip + 16..ip + 20], frame[l4..l4 + 2], frame[l4 + 2..l4 + 4], U16At(frame, l4));
      }
    }

    /** `extract_packet_fields_ipv6` */
    method ParseV6(frame: seq<byte>) returns (ok: bool)
      requires linearised <= 14
      modifies this
      ensures ok <==> ExtractV6(frame).Some?
      ensures ok ==> Contents() == ExtractV6(frame).value
    {
      var ip := 14;
      ok := GetHeader(frame, ip, 40);
      if !ok {
        return;
      }
      family := V6;
      totalLen := (40 + U16At(frame, ip + 4)) % 0x1_0000;
      origProto := frame[ip + 6];
      if frame[ip + 6] == ICMPV6 {
        var icmp := ip + 40;
        ok := GetHeader(frame, icmp, 4);
        if !ok {
          return;
        }
        if frame[icmp] == 2 {
          // the MTU word is skipped; the quoted header and its ports are read as one
          var orig, l4 := icmp + 8, icmp + 48;
          ok := GetHeader(frame, orig, 44);
          if !ok {
            return;
          }
          Store(frame[orig + 24..orig + 40], frame[orig + 8..orig + 24],
                frame[l4 + 2..l4 + 4], frame[l4..l4 + 2], U16At(frame, l4 + 2));
          origProto := frame[orig + 6];
        } else {
          Store(frame[ip + 8..ip + 24], frame[ip + 24..ip + 40], NO_PORT, NO_PORT, U16At(frame, ip + 2));
        }
      } else {
        var l4 := ip + 40;
        ok := GetHeader(frame, l4, 4);
        if !ok {
          return;
        }
        Store(frame[ip + 8..ip + 24], frame[ip + 24..ip + 40], frame[l4..l4 + 2], frame[l4 + 2..l4 + 4], U16At(frame, l4));
      }
    }

    /**
     `glb_extract_packet_fields`, for both directors. Started with an empty linearisation space it never
     runs out of it: either way it fails only on frames that are too short or neither IPv4 nor IPv6.
     */
    method Parse(frame: seq<byte>) returns (ok: bool)
      requires linearised == 0
      modifies this
      ensures ok <==> Extract(frame).Some?
      ensures ok ==> Contents() == Extract(frame).value
    {
      totalLen, hint, origProto := 0, 0, 0;
      src, dst, sport, dport := [], [], NO_PORT, NO_PORT;
      ok := GetHeader(frame, 0, 14);
      if !ok {
        return;
      }
      var etherType := U16At(frame, 12);
      if etherType == 0x0800 {
        ok := ParseV4(frame);
      } else if etherType == 0x86dd {
        ok := ParseV6(frame);
      } else {
        ok := false;
      }
    }
  }

  // ---- The hash input ----

  datatype HashFields = HashFields(srcAddr: bool, dstAddr: bool, srcPort: bool, dstPort: bool)

  function Chosen(b: bool, s: seq<byte>): seq<byte> {
    if b then s else []
  }

  /** The bytes that are hashed: the chosen fields in a fixed order. */
  function HashInput(f: Fields, cfg: HashFields): seq<byte> {
    Chosen(cfg.srcAddr, f.src) + Chosen(cfg.dstAddr, f.dst) + Chosen(cfg.srcPort, f.sport) + Chosen(cfg.dstPort, f.dport)
  }

  /** The hash input holds exactly the chosen fields: addresses before ports, source before destination. */
  lemma HashInputLayout(f: Fields, cfg: HashFields)
    ensures var input := HashInput(f, cfg);
            var a := if cfg.srcAddr then |f.src| else 0;
            var b := a + if cfg.dstAddr then |f.dst| else 0;
            var c := b + if cfg.srcPort then |f.sport| else 0;
            && |input| == c + (if cfg.dstPort then |f.dport| else 0)
            && (cfg.srcAddr ==> input[..a] == f.src) && (cfg.dstAddr ==> input[a..b] == f.dst)
            && (cfg.srcPort ==> input[b..c] == f.sport) && (cfg.dstPort ==> input[c..] == f.dport)
  {
  }

  /** Push `s` at the moving pointer of a zeroed buffer. */
  method Push(buf: array<byte>, at: nat, s: seq<byte>) returns (next: nat)
    requires at + |s| <= buf.Length
    modifies buf
    ensures next == at + |s|
    ensures buf[..next] == old(buf[..at]) + s
    ensures forall i :: next <= i < buf.Length ==> buf[i] == old(buf[i])
  {
    next := at;
    for i := 0 to |s|
      invariant next == at + i
      invariant buf[..next] == old(buf[..at]) + s[..i]
      invariant forall k :: next <= k < buf.Length ==> buf[k] == old(buf[k])
    {
      buf[next] := s[i];
      next := next + 1;
    }
    assert s[..|s|] == s;
  }

  /** The buffer half of `glb_compute_hash`: 40 zeroed bytes with the chosen fields pushed in. */
  method FillHashBuffer(f: Fields, cfg: HashFields) returns (buf: array<byte>, len: nat)
    requires WellFormed(f)
    ensures len <= 36 && len == |HashInput(f, cfg)| && buf.Length == SipHash.REQUIRED_IN_SIZE
    ensures buf[..len] == HashInput(f, cfg) && SipHash.ZeroPadded(buf[..], len)
  {
    buf := new byte[SipHash.REQUIRED_IN_SIZE](i => 0);
    len := 0;
    if cfg.srcAddr {
      len := Push(buf, len, f.src);
    }
    if cfg.dstAddr {
      len := Push(buf, len, f.dst);
    }
    if cfg.srcPort {
      len := Push(buf, len, f.sport);
    }
    if cfg.dstPort {
      len := Push(buf, len, f.dport);
    }
  }

  /** `glb_compute_hash`: whatever fields are chosen, the unrolled hash gets a buffer it accepts. */
  method ComputeHash<W(!new)>(o: SipHash.WordOps<W>, f: Fields, secret: seq<byte>, cfg: HashFields) returns (hash: W)
    requires SipHash.Lawful(o) && |secret| == 16 && WellFormed(f)
    ensures hash == SipHash.Hash(o, secret, HashInput(f, cfg))
  {
    var buf, len := FillHashBuffer(f, cfg);
    var input := buf[..];
    var h := SipHash.Unrolled(o, input, len, secret);
    assert input[..len] == HashInput(f, cfg);
    hash := h.value;
  }

  // ---- Messages about packets that were too big ----

  /** One TCP or UDP flow as the client starts it. */
  datatype Flow = Flow(family: Family, client: seq<byte>, cport: seq<byte>, vip: seq<byte>, vport: seq<byte>, proto: byte)

  /** A frame of the flow from client to server; IPv4 headers without options. */
  predicate IsSegment(frame: seq<byte>, w: Flow) {
    match w.family
    case V4 =>
      && |frame| >= 38 && U16At(frame, 12) == 0x0800 && frame[14] % 16 == 5 && frame[23] == w.proto != ICMPV4
      && frame[26..30] == w.client && frame[30..34] == w.vip && frame[34..36] == w.cport && frame[36..38] == w.vport
    case V6 =>
      && |frame| >= 58 && U16At(frame, 12) == 0x86dd && frame[20] == w.proto != ICMPV6
      && frame[22..38] == w.client && frame[38..54] == w.vip && frame[54..56] == w.cport && frame[56..58] == w.vport
  }

  /** An ICMP fragmentation-needed or ICMPv6 packet-too-big frame that quotes a packet from server to client. */
  predicate IsTooBigAbout(frame: seq<byte>, w: Flow) {
    match w.family
    case V4 =>
      && |frame| >= 66 && U16At(frame, 12) == 0x0800 && frame[14] % 16 == 5 && frame[23] == ICMPV4
      && frame[34] == 3 && frame[35] == 4 && frame[42] % 16 == 5 && frame[51] == w.proto
      && frame[54..58] == w.vip && frame[58..62] == w.client && frame[62..64] == w.vport && frame[64..66] == w.cport
    case V6 =>
      && |frame| >= 106 && U16At(frame, 12) == 0x86dd && frame[20] == ICMPV6 && frame[54] == 2 && frame[68] == w.proto
      && frame[70..86] == w.vip && frame[86..102] == w.client && frame[102..104] == w.vport && frame[104..106] == w.cport
  }

  /** The length carried along is the IP header's own: the total length, or payload and header together. */
  lemma LengthIsHeaders(frame: seq<byte>)
    requires Extract(frame).Some?
    ensures U16At(frame, 12) == 0x0800 || U16At(frame, 12) == 0x86dd
    ensures U16At(frame, 12) == 0x0800 ==> |frame| >= 34 && Extract(frame).value.totalLen == U16At(frame, 16)
    ensures U16At(frame, 12) == 0x86dd ==>
              |frame| >= 54 && Extract(frame).value.totalLen == (40 + U16At(frame, 18)) % 0x1_0000
  {
  }

  /** An ICMP or ICMPv6 echo request. */
  predicate IsEcho(frame: seq<byte>, f: Family) {
    match f
    case V4 => |frame| >= 42 && U16At(frame, 12) == 0x0800 && frame[23] == 1 && frame[34] == 8 && frame[35] == 0
    case V6 => |frame| >= 58 && U16At(frame, 12) == 0x86dd && frame[20] == 58 && frame[54] == 128 && frame[55] == 0
  }

  /** Of an echo request the director reads the addresses, no ports, and a number that differs from packet to packet. */
  lemma EchoFields(frame: seq<byte>, f: Family)
    requires IsEcho(frame, f)
    ensures Extract(frame).Some?
    ensures var r := Extract(frame).value;
            && r.family == f && r.sport == r.dport == [0, 0]
            && (f == V4 ==> r.src == frame[26..30] && r.dst == frame[30..34] && r.origProto == 1 && r.hint == U16At(frame, 18))
            && (f == V6 ==> r.src == frame[22..38] && r.dst == frame[38..54] && r.origProto == 58 && r.hint == U16At(frame, 16))
  {
  }

  /** The director reads the same routing fields from the message as from the flow's own segments. */
  lemma TooBigReadsAsFlow(seg: seq<byte>, msg: seq<byte>, w: Flow)
    requires IsSegment(seg, w) && IsTooBigAbout(msg, w)
    ensures Extract(seg).Some? && Extract(msg).Some?
    ensures var a, b := Extract(seg).value, Extract(msg).value;
            && a == b.(totalLen := a.totalLen)
            && a.src == w.client && a.sport == w.cport && a.dst == w.vip && a.dport == w.vport
            && a.family == w.family && a.origProto == w.proto && a.hint == U16At(w.cport, 0)
            && forall cfg :: HashInput(a, cfg) == HashInput(b, cfg)
  {
    assert U16At(w.cport, 0) == Extract(seg).value.hint;
    assert U16At(w.cport, 0) == Extract(msg).value.hint;
  }
}
