/**
 A packet whose UDP length ends before the GUE header. The proxies adjust the checksum for next_hop
 although the datagram does not cover it, so the first forward invalidates a valid checksum.
 */
module ShortDatagram {
  import opened Bytes
  import opened Checksum
  import opened EndToEnd
  import ProxyChain
  import Redirect

  /** From 10.0.0.1 to 10.0.0.7. */
  const IP: seq<byte> := [
    0x45, 0x00, 0x00, 0x50, 0x00, 0x00, 0x40, 0x00, 0x40, 0x11, 0x00, 0x00, 10, 0, 0, 1, 10, 0, 0, 7
  ]

  /** Length 8, and no checksum yet. */
  const UDP: seq<byte> := [0x80, 0x01, 0x4c, 0x43, 0x00, 0x08, 0x00, 0x00]

  /** One more hop, to 10.0.0.2. */
  const GUE: seq<byte> := [0x02, 0x04, 0x00, 0x00, 0x00, 0x00, 0x00, 0x01, 10, 0, 0, 2]

  /** A TCP segment from 198.51.100.7:40000 to 203.0.113.1:443 with only the ACK flag set. */
  const INNER_IP: seq<byte> := [
    0x45, 0x00, 0x00, 0x28, 0x00, 0x01, 0x40, 0x00, 0x40, 0x06, 0x00, 0x00, 198, 51, 100, 7, 203, 0, 113, 1
  ]

  const TCP: seq<byte> := [
    0x9c, 0x40, 0x01, 0xbb, 0x00, 0x00, 0x00, 0x01, 0x00, 0x00, 0x00, 0x01, 0x50, 0x10, 0xff, 0xff, 0x00, 0x00, 0x00, 0x00
  ]

  predicate HasHeaders(p: seq<byte>) {
    |p| >= 40 && p[..20] == IP && p[20..28] == UDP && p[28..40] == GUE
  }

  const OUTER := Redirect.Outer(20, 32, 40, 0, 1, Redirect.PROTO_IPIP)

  lemma Addresses()
    ensures IP[12..16] == [10, 0, 0, 1] && IP[16..20] == [10, 0, 0, 7] && GUE[8..12] == [10, 0, 0, 2]
    ensures UDP == [0x80, 0x01, 0x4c, 0x43] + [0x00, 0x08, 0x00, 0x00] && UDP[4..6] == [0x00, 0x08]
  {
  }

  lemma HeaderParts(p: seq<byte>)
    requires HasHeaders(p)
    ensures p[12..16] == [10, 0, 0, 1] && p[16..20] == [10, 0, 0, 7] && p[36..40] == [10, 0, 0, 2]
    ensures p[24..26] == [0x00, 0x08]
  {
    SliceOfSlice(p, 0, 20, 12, 16);
    SliceOfSlice(p, 0, 20, 16, 20);
    SliceOfSlice(p, 28, 40, 8, 12);
    SliceOfSlice(p, 20, 28, 4, 6);
    Addresses();
  }

  lemma HeadersParse(p: seq<byte>)
    requires HasHeaders(p)
    ensures Redirect.IpPacket(p) && Redirect.ParseOuter(p) == Some(OUTER)
  {
    assert p[0] == p[..20][0] && p[9] == p[..20][9];
    assert p[28] == p[28..40][0] && p[29] == p[28..40][1] && p[34] == p[28..40][6] && p[35] == p[28..40][7];
  }

  lemma SumOfFour(a: Addr)
    ensures RawSum(a) == a[0] as int + 0x100 * a[1] as int + a[2] as int + 0x100 * a[3] as int
  {
    Raw32Meaning(a);
  }

  lemma SumOfUdp()
    ensures RawSum(UDP) == 19660 && RawSum([0x00, 0x08]) == 0x800
  {
    Addresses();
    var ports: Addr, rest: Addr := [0x80, 0x01, 0x4c, 0x43], [0x00, 0x08, 0x00, 0x00];
    RawSumConcat(ports, rest);
    SumOfFour(ports);
    SumOfFour(rest);
    assert [0x00, 0x08][..1] == [0x00];
    assert RawSum([0x00]) == 0;
  }

  lemma ChecksumOfHeaders(p: seq<byte>)
    requires HasHeaders(p)
    ensures UdpChecksum(p, 20, 8) == 37407
  {
    HeaderParts(p);
    SumOfFour(p[12..16]);
    SumOfFour(p[16..20]);
    SumOfUdp();
    ProxyChain.CoverSum(p[12..16], p[16..20], p[24..26], p[20..28]);
  }

  lemma FillableHeaders(p: seq<byte>)
    requires HasHeaders(p)
    ensures Fillable(p, 8)
  {
    HeadersParse(p);
    assert p[24] == p[20..28][4] && p[25] == p[20..28][5] && p[26] == p[20..28][6] && p[27] == p[20..28][7];
  }

  /** The forward's checksum field is not zero, so it counts as used. */
  lemma ForwardedFieldIsUsed()
    ensures Redirect.NewCheck(37407, 0, [10, 0, 0, 1], [10, 0, 0, 2]) != 0
  {
    var src: Addr, alt: Addr := [10, 0, 0, 1], [10, 0, 0, 2];
    var k := ProxyChain.NewCheckMeaning(37407, 0, src, alt);
    SumOfFour(src);
    SumOfFour(alt);
    CongruentByMultiple(37150, k);
  }

  /** With its checksum filled in the packet is sound, whatever it carries; forwarded, it is not. */
  lemma ForwardBreaksShortDatagram(p: seq<byte>)
    requires HasHeaders(p)
    ensures Fillable(p, 8)
    ensures var q := WithChecksum(p, 20, UdpChecksum(p, 20, 8));
            ProxyChain.Sound(q) && Redirect.CanForward(q, OUTER) && !ProxyChain.Sound(Redirect.Forwarded(q, OUTER))
  {
    FillableHeaders(p);
    HeadersParse(p);
    HeaderParts(p);
    ChecksumOfHeaders(p);
    FilledIsSound(p, 8);
    var q := WithChecksum(p, 20, UdpChecksum(p, 20, 8));
    assert q[12..16] == p[12..16] && q[36..40] == p[36..40];
    ForwardedFieldIsUsed();
    NewField(q);
    ProxyChain.ForwardSoundExactly(q, OUTER);
  }

  lemma NewField(q: seq<byte>)
    requires Redirect.CanForward(q, OUTER) && Redirect.CheckField(q, 20) == 37407
    requires q[12..16] == [10, 0, 0, 1] && q[36..40] == [10, 0, 0, 2]
    ensures Redirect.CheckField(Redirect.Forwarded(q, OUTER), 20)
            == Redirect.NewCheck(37407, 0, [10, 0, 0, 1], [10, 0, 0, 2])
  {
    SplitBytes(Redirect.NewCheck(37407, 0, [10, 0, 0, 1], [10, 0, 0, 2]));
  }

  lemma SegmentIsAck(s: seq<byte>)
    requires s == INNER_IP + TCP
    ensures Redirect.InnerV4(s).Segment? && !Redirect.InnerV4(s).syn
  {
    assert s[0] == 0x45 && s[9] == 0x06;
    assert s[20..][13] == 0x10;
  }

  lemma UnknownIsForwarded(q: seq<byte>)
    requires Redirect.IpPacket(q) && Redirect.ParseOuter(q) == Some(OUTER) && q[16..20] != q[36..40]
    requires Redirect.InnerV4(q[40..]).Segment? && !Redirect.InnerV4(q[40..]).syn
    ensures Redirect.Decide(q, Redirect.Host({}, {})) == Redirect.Forward
  {
  }

  /** And a host that knows no connection does forward it. */
  lemma HostForwardsShortDatagram(p: seq<byte>)
    requires p == IP + UDP + GUE + (INNER_IP + TCP)
    ensures HasHeaders(p) && Fillable(p, 8)
    ensures var q := WithChecksum(p, 20, UdpChecksum(p, 20, 8));
            Redirect.IpPacket(q) && Redirect.Decide(q, Redirect.Host({}, {})) == Redirect.Forward
  {
    assert p[..20] == IP && p[20..28] == UDP && p[28..40] == GUE;
    ForwardBreaksShortDatagram(p);
    HeaderParts(p);
    var q := WithChecksum(p, 20, UdpChecksum(p, 20, 8));
    assert q[40..] == p[40..] == INNER_IP + TCP;
    assert q[16..20] == p[16..20] && q[36..40] == p[36..40];
    assert q[16..20][3] == 7 && q[36..40][3] == 2;
    SegmentIsAck(q[40..]);
    UnknownIsForwarded(q);
  }
}
