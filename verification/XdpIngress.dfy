/**
 A frame at the XDP director, from the wire to the owner. Binds are expanded into a map from single
 addresses and ports to tables, looked up by what the parser reads. So a packet-too-big message always
 has the table of the flow it is about, and what is sent differs from what the DPDK director sends for
 the same frame only in the two outer checksums.
 */
module XdpIngress {
  import opened Bytes
  import opened Checksum
  import opened PacketParsing
  import opened Encap
  import opened EndToEnd
  import opened BindClassifier
  import Ingress
  import ProxyChain
  import Redirect
  import SecondChance
  import TableBuilder
  import Xdp

  // ---- Expanding the binds ----

  /** The key of `glb_binds`: the address of the other family stays zero. */
  datatype BindKey = BindKey(ipv4: seq<byte>, ipv6: seq<byte>, proto: byte, port: nat)

  function KeyFor(f: Family, addr: seq<byte>, proto: byte, port: nat): BindKey {
    if f == V4 then BindKey(addr, Zeros(16), proto, port) else BindKey(Zeros(4), addr, proto, port)
  }

  type Binds = map<BindKey, nat>

  function LookUp(m: Binds, k: BindKey): Option<nat> {
    if k in m then Some(m[k]) else None
  }

  /** `k` is one of the bind's first `n` ports. */
  predicate NamesPort(b: Bind, n: nat, k: BindKey) {
    k == KeyFor(b.family, b.addr, b.proto, k.port) && b.portStart <= k.port < b.portStart + n
  }

  function EchoKey(b: Bind): BindKey {
    KeyFor(b.family, b.addr, Icmp(b.family), 0)
  }

  /** How many ports the bind has. */
  function Ports(b: Bind): nat {
    if b.portStart <= b.portEnd then b.portEnd - b.portStart + 1 else 0
  }

  /** The bind puts `k` into the map: one of its ports, or echo requests to its address. */
  predicate Names(b: Bind, k: BindKey) {
    NamesPort(b, Ports(b), k) || k == EchoKey(b)
  }

  /** The 16-bit loop over the ports comes to an end: a range up to 65535 wraps around instead. */
  predicate LoopEnds(b: Bind) {
    b.portEnd < 0xffff || b.portStart > b.portEnd
  }

  predicate FitsWord(b: Bind) {
    b.portStart <= 0xffff && b.portEnd <= 0xffff
  }

  /** The map after putting the first `n` ports of the bind. */
  ghost predicate PortsPut(m: Binds, m': Binds, b: Bind, t: nat, n: nat) {
    forall k :: LookUp(m', k) == if NamesPort(b, n, k) then Some(t) else LookUp(m, k)
  }

  /** The loop over the ports of one bind; none when the limit is reached and the process gives up. */
  method AddPorts(m: Binds, count: nat, max: nat, b: Bind, t: nat) returns (r: Option<Binds>)
    requires FitsWord(b) && count <= max
    ensures r.Some? <==> LoopEnds(b) && count + Ports(b) <= max
    ensures r.Some? ==> PortsPut(m, r.value, b, t, Ports(b)) && |r.value| <= |m| + Ports(b)
  {
    var m': Binds, c: nat, p: nat := m, count, b.portStart;
    while p <= b.portEnd
      invariant count <= c <= max && p <= 0xffff
      invariant LoopEnds(b) ==> p == b.portStart + (c - count) && c - count <= Ports(b)
      invariant LoopEnds(b) ==> PortsPut(m, m', b, t, c - count) && |m'| <= |m| + (c - count)
      decreases max - c
    {
      if c == max {
        return None;
      }
      var key := KeyFor(b.family, b.addr, b.proto, p);
      if LoopEnds(b) {
        NextPort(m, m', b, t, c - count);
      }
      m' := m'[key := t];
      c := c + 1;
      p := (p + 1) % 0x1_0000;
    }
    r := Some(m');
  }

  lemma NextPort(m: Binds, m': Binds, b: Bind, t: nat, n: nat)
    requires PortsPut(m, m', b, t, n)
    ensures var key := KeyFor(b.family, b.addr, b.proto, b.portStart + n);
            PortsPut(m, m'[key := t], b, t, n + 1) && |m'[key := t]| <= |m'| + 1
  {
    var key := KeyFor(b.family, b.addr, b.proto, b.portStart + n);
    SizeOfPut(m', key, t);
    var next: Binds := m'[key := t];
    forall k: BindKey
      ensures LookUp(next, k) == if NamesPort(b, n + 1, k) then Some(t) else LookUp(m, k)
    {
      assert NamesPort(b, n + 1, k) <==> NamesPort(b, n, k) || k == key;
      assert LookUp(m', k) == if NamesPort(b, n, k) then Some(t) else LookUp(m, k);
    }
  }

  lemma SizeOfPut(m: Binds, k: BindKey, t: nat)
    ensures |m[k := t]| <= |m| + 1
  {
    assert m[k := t].Keys == m.Keys + {k};
  }

  /** One bind: its ports, and echo requests. */
  method AddBind(m: Binds, count: nat, max: nat, b: Bind, t: nat) returns (r: Option<Binds>)
    requires FitsWord(b) && count <= max
    ensures r.Some? <==> LoopEnds(b) && count + Ports(b) + 1 <= max
    ensures r.Some? ==> |r.value| <= |m| + Ports(b) + 1
    ensures r.Some? ==> forall k :: LookUp(r.value, k) == if Names(b, k) then Some(t) else LookUp(m, k)
  {
    r := AddPorts(m, count, max, b, t);
    if r.Some? {
      if count + Ports(b) == max {
        return None;
      }
      SizeOfPut(r.value, EchoKey(b), t);
      r := Some(r.value[EchoKey(b) := t]);
    }
  }

  /** What `k` leads to after the first `i` binds of table `t`, if it led to `before` in front of them. */
  function ResolveTable(binds: seq<Bind>, i: nat, t: nat, before: Option<nat>, k: BindKey): Option<nat>
    requires i <= |binds|
  {
    if i == 0 then before
    else if Names(binds[i - 1], k) then Some(t)
    else ResolveTable(binds, i - 1, t, before, k)
  }

  /** What `k` leads to after the first `n` tables: the last one that names it, or what it led to before. */
  function Resolve(tables: seq<seq<Bind>>, n: nat, before: Option<nat>, k: BindKey): Option<nat>
    requires n <= |tables|
  {
    if n == 0 then before
    else ResolveTable(tables[n - 1], |tables[n - 1]|, n - 1, Resolve(tables, n - 1, before, k), k)
  }

  /** How many entries the first `i` binds ask for. */
  function Expanded(binds: seq<Bind>, i: nat): nat
    requires i <= |binds|
  {
    if i == 0 then 0 else Expanded(binds, i - 1) + Ports(binds[i - 1]) + 1
  }

  function AllExpanded(tables: seq<seq<Bind>>, n: nat): nat
    requires n <= |tables|
  {
    if n == 0 then 0 else AllExpanded(tables, n - 1) + Expanded(tables[n - 1], |tables[n - 1]|)
  }

  lemma {:induction false} ExpandedGrows(binds: seq<Bind>, i: nat, j: nat)
    requires i <= j <= |binds|
    ensures Expanded(binds, i) <= Expanded(binds, j)
    decreases j
  {
    if i < j {
      ExpandedGrows(binds, i, j - 1);
    }
  }

  lemma {:induction false} AllExpandedGrows(tables: seq<seq<Bind>>, i: nat, j: nat)
    requires i <= j <= |tables|
    ensures AllExpanded(tables, i) <= AllExpanded(tables, j)
    decreases j
  {
    if i < j {
      AllExpandedGrows(tables, i, j - 1);
    }
  }

  ghost predicate AllLoopsEnd(binds: seq<Bind>, i: nat)
    requires i <= |binds|
  {
    forall j :: 0 <= j < i ==> LoopEnds(binds[j])
  }

  ghost predicate AllFit(binds: seq<Bind>) {
    forall j :: 0 <= j < |binds| ==> FitsWord(binds[j])
  }

  ghost predicate TablePut(m: Binds, m': Binds, binds: seq<Bind>, i: nat, t: nat)
    requires i <= |binds|
  {
    forall k :: LookUp(m', k) == ResolveTable(binds, i, t, LookUp(m, k), k)
  }

  /** The binds of one table. */
  method AddTable(m: Binds, count: nat, max: nat, binds: seq<Bind>, t: nat) returns (r: Option<Binds>)
    requires AllFit(binds) && count <= max
    ensures r.Some? <==> AllLoopsEnd(binds, |binds|) && count + Expanded(binds, |binds|) <= max
    ensures r.Some? ==> TablePut(m, r.value, binds, |binds|, t) && |r.value| <= |m| + Expanded(binds, |binds|)
  {
    var m': Binds, c: nat := m, count;
    for i: nat := 0 to |binds|
      invariant AllLoopsEnd(binds, i) && c == count + Expanded(binds, i) <= max
      invariant TablePut(m, m', binds, i, t) && |m'| <= |m| + Expanded(binds, i)
    {
      var step := AddBind(m', c, max, binds[i], t);
      if step.None? {
        ExpandedGrows(binds, i + 1, |binds|);
        return None;
      }
      m', c := step.value, c + Ports(binds[i]) + 1;
    }
    r := Some(m');
  }

  /** The map of a reload succeeds exactly when every port loop ends and the entries stay within the limit. */
  ghost predicate Loads(tables: seq<seq<Bind>>, n: nat, max: nat)
    requires n <= |tables|
  {
    (forall t :: 0 <= t < n ==> AllLoopsEnd(tables[t], |tables[t]|)) && AllExpanded(tables, n) <= max
  }

  ghost predicate MapFor(before: Binds, m: Binds, tables: seq<seq<Bind>>, n: nat)
    requires n <= |tables|
  {
    forall k :: LookUp(m, k) == Resolve(tables, n, LookUp(before, k), k)
  }

  /**
   `ReloadForwardingTable`, as far as binds go: entries are put over those of the last load, none is taken
   out. None when the process gives up.
   */
  method LoadBinds(before: Binds, tables: seq<seq<Bind>>, max: nat) returns (r: Option<Binds>)
    requires forall t :: 0 <= t < |tables| ==> AllFit(tables[t])
    ensures r.Some? <==> Loads(tables, |tables|, max)
    ensures r.Some? ==> MapFor(before, r.value, tables, |tables|) && |r.value| <= |before| + AllExpanded(tables, |tables|)
  {
    var m: Binds, c: nat := before, 0;
    for t: nat := 0 to |tables|
      invariant Loads(tables, t, max) && c == AllExpanded(tables, t)
      invariant MapFor(before, m, tables, t) && |m| <= |before| + c
    {
      var step := AddTable(m, c, max, tables[t], t);
      if step.None? {
        AllExpandedGrows(tables, t + 1, |tables|);
        return None;
      }
      m, c := step.value, c + Expanded(tables[t], |tables[t]|);
    }
    r := Some(m);
  }

  // ---- Looking a frame up ----

  /** The key the program looks a frame up by: what the parser read, through the packet a message quotes. */
  function KeyOfFields(f: Fields): BindKey
    requires WellFormed(f)
  {
    KeyFor(f.family, f.dst, f.origProto, U16At(f.dport, 0))
  }

  function FlowKey(w: Flow): BindKey
    requires |w.vport| == 2
  {
    KeyFor(w.family, w.vip, w.proto, U16At(w.vport, 0))
  }

  /** Segments of a flow and messages about it, whatever their code and destination, are looked up by the same key. */
  lemma SameKey(frame: seq<byte>, w: Flow)
    requires IsSegment(frame, w) || IsTooBigAbout(frame, w)
    ensures |w.vport| == 2 && Extract(frame).Some? && KeyOfFields(Extract(frame).value) == FlowKey(w)
  {
  }

  /**
   A bind names a flow's key exactly when it would catch the flow's segments in the DPDK director and its
   address is the flow's: this director does not look at prefix lengths.
   */
  lemma NamesFlowExactly(b: Bind, w: Flow)
    requires b.family == w.family && w.proto != Icmp(w.family) && |w.vip| == |b.addr| && |w.vport| == 2
    ensures Names(b, FlowKey(w)) <==> BoundTo(w, b) && b.addr == w.vip
  {
  }

  /** An echo request is looked up by a key that exactly the binds for its very address name. */
  lemma EchoNamedExactly(frame: seq<byte>, b: Bind)
    requires IsEcho(frame, b.family)
    ensures Extract(frame).Some?
    ensures Names(b, KeyOfFields(Extract(frame).value))
            <==> b.addr == if b.family == V4 then frame[30..34] else frame[38..54]
  {
    EchoFields(frame, b.family);
  }

  /** No bind for the other family names the flow's key, unless both addresses are zero. */
  lemma OtherFamilyNamesNothing(b: Bind, w: Flow)
    requires b.family != w.family && |w.vport| == 2 && exists i :: 0 <= i < |w.vip| && w.vip[i] != 0
    requires |w.vip| == (if w.family == V4 then 4 else 16)
    ensures !Names(b, FlowKey(w))
  {
    var i :| 0 <= i < |w.vip| && w.vip[i] != 0;
    assert Zeros(|w.vip|)[i] == 0;
  }

  /** Some bind of the table names the key. */
  ghost predicate TableNames(binds: seq<Bind>, k: BindKey) {
    exists i :: 0 <= i < |binds| && Names(binds[i], k)
  }

  lemma {:induction false} ResolveTableExactly(binds: seq<Bind>, i: nat, t: nat, before: Option<nat>, k: BindKey)
    requires i <= |binds|
    ensures ResolveTable(binds, i, t, before, k) == if exists j :: 0 <= j < i && Names(binds[j], k) then Some(t) else before
  {
    if i > 0 {
      ResolveTableExactly(binds, i - 1, t, before, k);
    }
  }

  /** The lookup leads to the last table that names the key; without one, to whatever an earlier load left there. */
  lemma {:induction false} ResolveExactly(tables: seq<seq<Bind>>, n: nat, before: Option<nat>, k: BindKey)
    requires n <= |tables|
    ensures var r := Resolve(tables, n, before, k);
            && (forall t :: 0 <= t < n ==> (TableNames(tables[t], k) && (forall u :: t < u < n ==> !TableNames(tables[u], k))
                                           ==> r == Some(t)))
            && ((forall t :: 0 <= t < n ==> !TableNames(tables[t], k)) ==> r == before)
  {
    if n > 0 {
      ResolveExactly(tables, n - 1, before, k);
      ResolveTableExactly(tables[n - 1], |tables[n - 1]|, n - 1, Resolve(tables, n - 1, before, k), k);
    }
  }

  // ---- What is sent ----

  datatype Action = Pass | Drop | Transmit(frame: seq<byte>)

  /** A table as the program finds it: flattened rows and the keyed hash. */
  datatype Loaded = Loaded(rows: map<nat, (Addr, Addr)>, hash: seq<byte> -> bv64)

  ghost predicate LoadedFrom(loaded: seq<Loaded>, tables: seq<Table>) {
    |loaded| == |tables| && forall t | 0 <= t < |tables| ::
      ValidTable(tables[t]) && loaded[t].hash == tables[t].hash && Xdp.Flattened(loaded[t].rows, tables[t])
  }

  /** The table a frame is looked up to, among `n`. */
  function TableOf(frame: seq<byte>, binds: Binds, n: nat): (r: Option<nat>)
    ensures r.Some? ==> r.value < n && Extract(frame).Some?
  {
    if Extract(frame).None? then None
    else
      var r := LookUp(binds, KeyOfFields(Extract(frame).value));
      if r.Some? && r.value < n then r else None
  }

  /** The frame sent through table `t`: new headers in front of the original IP packet. */
  function XdpFrame(d: Director, t: Table, fields: HashFields, alt: HashFields, frame: seq<byte>): (s: seq<byte>)
    requires ValidDirector(d) && ValidTable(t) && Extract(frame).Some?
  {
    var f := Extract(frame).value;
    Xdp.SentBytes(d, Xdp.GuardedHops(t, f, fields, alt), SourcePort(Xdp.GuardedHash(t.hash, f, fields), f.hint),
                  GueProto(f.family), f.totalLen) + frame[14..]
  }

  /** The headers written in the space in front of the inner packet. */
  method Send(inner: seq<byte>, gateway: Option<seq<byte>>, local: seq<byte>, source: Option<Addr>, hops: seq<Addr>,
              pktHash: bv64, f: Fields)
      returns (a: Action)
    requires |local| == 6 && (gateway.Some? ==> |gateway.value| == 6) && 1 <= |hops| <= MAX_HOPS && WellFormed(f)
    ensures a == if gateway.Some? && source.Some? then
                   Transmit(Xdp.SentBytes(Director(gateway.value, local, source.value), hops, SourcePort(pktHash, f.hint),
                                          GueProto(f.family), f.totalLen) + inner)
                 else Drop
  {
    var size := EncapSize(|hops|);
    var buf := new byte[size + |inner|];
    var end := Push(buf, size, inner);
    assert buf[size..] == inner;
    var sent := Xdp.Encapsulate(buf, gateway, local, source, hops, pktHash, f);
    if !sent {
      return Drop;
    }
    assert buf[..] == buf[..size] + buf[size..];
    a := Transmit(buf[..]);
  }

  /**
   `xdp_glb_director_process`. `room` tells whether the kernel can make space in front of the packet. A frame
   that is not understood or matches no bind is passed on to the host.
   */
  method Process(frame: seq<byte>, binds: Binds, loaded: seq<Loaded>, fields: HashFields, alt: HashFields,
                 gateway: Option<seq<byte>>, source: Option<Addr>, room: bool, ghost tables: seq<Table>)
      returns (a: Action)
    requires LoadedFrom(loaded, tables) && (gateway.Some? ==> |gateway.value| == 6)
    ensures a.Pass? <==> TableOf(frame, binds, |tables|).None?
    ensures a.Transmit? <==> TableOf(frame, binds, |tables|).Some? && room && gateway.Some? && source.Some?
    ensures a.Transmit? ==>
              a.frame == XdpFrame(Director(gateway.value, frame[..6], source.value),
                                  tables[TableOf(frame, binds, |tables|).value], fields, alt, frame)
  {
    var found := TableOf(frame, binds, |loaded|);
    if found.None? {
      return Pass;
    }
    var t, f := found.value, Extract(frame).value;
    var route := Xdp.Route(loaded[t].rows, loaded[t].hash, f, fields, alt, tables[t]);
    if !room {
      return Drop;
    }
    a := Send(frame[14..], gateway, frame[..6], source, route.value.0, route.value.1, f);
  }

  /** The checksums this director leaves: an IP checksum folded once, and no UDP checksum. */
  function XdpSums(d: Director, hops: seq<Addr>, innerLen: nat): (sums: Sums)
    requires |hops| >= 1
    ensures ValidSums(sums)
  {
    Sums(Xdp.OnceFoldedChecksum(Xdp.TenWords(IpHeader(d, hops, innerLen))), 0)
  }

  lemma SentBytesOnTheWire(d: Director, hops: seq<Addr>, port: nat, proto: byte, innerLen: nat, inner: seq<byte>)
    requires ValidDirector(d) && 1 <= |hops| <= MAX_HOPS && port < 0x1_0000
    ensures (Xdp.SentBytes(d, hops, port, proto, innerLen) + inner)[14..]
         == WithSums(OnTheWire(d, hops, port, proto, innerLen, inner), XdpSums(d, hops, innerLen))
  {
    var p, sums := OnTheWire(d, hops, port, proto, innerLen, inner), XdpSums(d, hops, innerLen);
    WireLayout(d, hops, port, proto, innerLen, inner);
    assert p[26] == p[20..28][6] && p[27] == p[20..28][7];
    FieldInPlace(EncapBytes(d, hops, port, proto, innerLen), inner, sums.ip);
    ZeroFieldStays(WriteField(p, 10, sums.ip));
  }

  lemma FieldInPlace(e: seq<byte>, inner: seq<byte>, c: nat)
    requires |e| >= 26 && c <= M
    ensures (WriteField(e, 24, c) + inner)[14..] == WriteField(e[14..] + inner, 10, c)
  {
  }

  lemma ZeroFieldStays(p: seq<byte>)
    requires |p| >= 28 && p[26] == p[27] == 0
    ensures WithChecksum(p, 20, 0) == p
  {
  }

  /** What this director sends for a frame is what the DPDK director sends, but for the two outer checksums. */
  lemma XdpSendsAlike(d: Director, t: Table, fields: HashFields, alt: HashFields, frame: seq<byte>)
    requires ValidDirector(d) && ValidTable(t) && Extract(frame).Some? && Xdp.AnyField(fields)
    ensures var cfg, f := Xdp.Settings(fields, alt), Extract(frame).value;
            XdpFrame(d, t, fields, alt, frame)[14..]
            == Sent(d, t, cfg, frame, XdpSums(d, RouteHops(t, f, cfg), f.totalLen))
  {
    var cfg, f := Xdp.Settings(fields, alt), Extract(frame).value;
    Xdp.RoutesAgree(t, f, fields, alt);
    SentBytesOnTheWire(d, RouteHops(t, f, cfg), SourcePort(RouteHash(t, f, cfg), f.hint), GueProto(f.family), f.totalLen,
                       frame[14..]);
  }

  lemma WireIgnoresMacs(d: Director, e: Director, hops: seq<Addr>, port: nat, proto: byte, innerLen: nat, inner: seq<byte>)
    requires ValidDirector(d) && ValidDirector(e) && d.ip == e.ip && 1 <= |hops| <= MAX_HOPS && port < 0x1_0000
    ensures OnTheWire(d, hops, port, proto, innerLen, inner) == OnTheWire(e, hops, port, proto, innerLen, inner)
  {
    WireLayout(d, hops, port, proto, innerLen, inner);
    WireLayout(e, hops, port, proto, innerLen, inner);
    var p, q, g := OnTheWire(d, hops, port, proto, innerLen, inner), OnTheWire(e, hops, port, proto, innerLen, inner),
                   36 + 4 * (|hops| - 1);
    assert p == p[..20] + p[20..28] + p[28..g] + p[g..];
    assert q == q[..20] + q[20..28] + q[28..g] + q[g..];
  }

  /**
   For every frame, two directors with the same source address send the same bytes from the outer IP header on,
   but for the two outer checksums. The DPDK director fills in both, this one leaves the UDP checksum unused.
   */
  lemma DirectorsSendAlike(dpdk: Director, xdp: Director, t: Table, fields: HashFields, alt: HashFields, frame: seq<byte>, sums: Sums)
    requires ValidDirector(dpdk) && ValidDirector(xdp) && dpdk.ip == xdp.ip
    requires ValidTable(t) && Extract(frame).Some? && Xdp.AnyField(fields) && ValidSums(sums)
    ensures var p, q := Sent(dpdk, t, Xdp.Settings(fields, alt), frame, sums), XdpFrame(xdp, t, fields, alt, frame)[14..];
            && |p| == |q| && (forall i :: 0 <= i < |p| && i !in {10, 11, 26, 27} ==> p[i] == q[i])
            && 28 <= |p| && Redirect.CheckField(p, 20) == sums.udp && Redirect.CheckField(q, 20) == 0
  {
    var cfg, f := Xdp.Settings(fields, alt), Extract(frame).value;
    XdpSendsAlike(xdp, t, fields, alt, frame);
    WireIgnoresMacs(dpdk, xdp, RouteHops(t, f, cfg), SourcePort(RouteHash(t, f, cfg), f.hint), GueProto(f.family), f.totalLen,
                    frame[14..]);
    var p := Unsummed(xdp, t, cfg, frame);
    SumsDifferOnly(p, sums, XdpSums(xdp, RouteHops(t, f, cfg), f.totalLen));
  }

  lemma SumsDifferOnly(p: seq<byte>, a: Sums, b: Sums)
    requires |p| >= 28 && ValidSums(a) && ValidSums(b)
    ensures forall i :: 0 <= i < |p| && i !in {10, 11, 26, 27} ==> WithSums(p, a)[i] == WithSums(p, b)[i]
    ensures Redirect.CheckField(WithSums(p, a), 20) == a.udp && Redirect.CheckField(WithSums(p, b), 20) == b.udp
  {
    SplitBytes(a.udp);
    SplitBytes(b.udp);
  }

  /**
   A packet-too-big message, whatever its code and wherever it is sent, is looked up to the same table as the
   flow's segments, given the same hash, hop list and outer source port, and looked up by the proxies under
   the same tuple.
   */
  lemma TooBigFollowsFlow(binds: Binds, tables: seq<Table>, cfg: HashConfig, seg: seq<byte>, msg: seq<byte>, w: Flow, ackOnly: bool)
    requires IsDataSegment(seg, w, ackOnly) && IsTooBigAbout(msg, w)
    ensures TableOf(seg, binds, |tables|) == TableOf(msg, binds, |tables|)
    ensures forall t | 0 <= t < |tables| && ValidTable(tables[t]) :: RoutedAlike(tables[t], cfg, seg, msg)
    ensures InnerOfFamily(w.family, seg[14..]) == Redirect.Segment(TupleOf(w), false, ackOnly)
    ensures InnerOfFamily(w.family, msg[14..]) == Redirect.Segment(TupleOf(w), false, false)
  {
    SameKey(seg, w);
    SameKey(msg, w);
    forall t | 0 <= t < |tables| && ValidTable(tables[t])
      ensures RoutedAlike(tables[t], cfg, seg, msg)
    {
      TooBigRoutedAlike(tables[t], cfg, seg, msg, w, ackOnly);
    }
    ProxiesLookUpFlow(seg, w, ackOnly);
    ProxiesLookUpFlow(msg, w, false);
  }

  /** Table `svc` is the last whose binds name the flow, so the map loaded from them leads there. */
  lemma FlowLedTo(before: Binds, binds: Binds, tables: seq<seq<Bind>>, svc: nat, frame: seq<byte>, w: Flow)
    requires MapFor(before, binds, tables, |tables|) && svc < |tables| && (IsSegment(frame, w) || IsTooBigAbout(frame, w))
    requires |w.vport| == 2 && TableNames(tables[svc], FlowKey(w))
    requires forall t :: svc < t < |tables| ==> !TableNames(tables[t], FlowKey(w))
    ensures TableOf(frame, binds, |tables|) == Some(svc)
  {
    SameKey(frame, w);
    ResolveExactly(tables, |tables|, LookUp(before, FlowKey(w)), FlowKey(w));
  }

  /** The binds of all services have been loaded into the map, and the last that names the flow is table `svc`. */
  ghost predicate LeadsTo(before: Binds, binds: Binds, services: seq<Ingress.Service>, svc: nat, w: Flow) {
    && MapFor(before, binds, Ingress.BindsOf(services), |services|) && svc < |services|
    && |w.vport| == 2 && TableNames(services[svc].binds, FlowKey(w))
    && forall t :: svc < t < |services| ==> !TableNames(services[t].binds, FlowKey(w))
  }

  /**
   The law GLB is built for, at the XDP director: after every run, whatever comes in for a live connection is
   looked up to the connection's table, and what is sent for it ends at the host that owns the connection and
   is accepted there, with the original packet intact.
   */
  lemma OwnerAcceptsAfterEveryRun<D>(su: SecondChance.Setup<Addr, Flow>, s: SecondChance.State<Addr, Flow, D>,
                                     events: seq<SecondChance.Event<Addr, Flow, D>>, dir: D,
                                     backends: seq<TableBuilder.Backend<Addr>>, before: Binds, binds: Binds,
                                     services: seq<Ingress.Service>, svc: nat, d: Director, fields: HashFields, alt: HashFields,
                                     frame: seq<byte>, w: Flow, ackOnly: bool, net: ProxyChain.Net)
    requires SecondChance.Valid(su, s) && s.conns == map[] && SecondChance.IsRun(su, s, events)
    requires LeadsTo(before, binds, services, svc, w) && BelongsTo(frame, w, ackOnly) && Xdp.AnyField(fields)
    requires Runs(su, SecondChance.After(su, s, events), dir, backends, services[svc].table, fields, w)
    requires var now := SecondChance.After(su, s, events);
             && w in now.conns
             && forall h {:trigger net(h)} | h in now.backends :: net(h).Knows(TupleOf(w), ackOnly) <==> h == now.conns[w]
    requires ValidDirector(d)
    ensures TableOf(frame, binds, |services|) == Some(svc)
    ensures AcceptedBy(XdpFrame(d, services[svc].table, fields, alt, frame)[14..], net,
                       SecondChance.After(su, s, events).conns[w], frame[14..])
  {
    FlowLedTo(before, binds, Ingress.BindsOf(services), svc, frame, w);
    var cfg, f := Xdp.Settings(fields, alt), Extract(frame).value;
    XdpSendsAlike(d, services[svc].table, fields, alt, frame);
    OwnerAcceptsFromTable(su, s, events, dir, backends, services[svc].table, d, cfg, frame,
                          XdpSums(d, RouteHops(services[svc].table, f, cfg), f.totalLen), w, ackOnly, net);
  }

  /** The `Open` step of the protocol at the XDP director: a SYN goes to the first host of the flow's row. */
  lemma SynOpensOnProtocolHost<D>(su: SecondChance.Setup<Addr, Flow>, s: SecondChance.State<Addr, Flow, D>, dir: D,
                                  backends: seq<TableBuilder.Backend<Addr>>, t: Table, d: Director, fields: HashFields,
                                  alt: HashFields, frame: seq<byte>, w: Flow, net: ProxyChain.Net)
    requires SecondChance.Valid(su, s) && Runs(su, s, dir, backends, t, fields, w) && Xdp.AnyField(fields)
    requires ValidDirector(d) && IsSynSegment(frame, w)
    ensures Extract(frame).Some?
    ensures OpensOn(XdpFrame(d, t, fields, alt, frame)[14..], net, SecondChance.Hops(su, s, dir, w)[0])
  {
    SynReadsFlow(frame, w);
    var cfg, f := Xdp.Settings(fields, alt), Extract(frame).value;
    XdpSendsAlike(d, t, fields, alt, frame);
    EndToEnd.SynOpensOnProtocolHost(su, s, dir, backends, t, d, cfg, frame, XdpSums(d, RouteHops(t, f, cfg), f.totalLen), w, net);
  }
}
