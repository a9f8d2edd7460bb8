/**
 The classifier that maps packets to tables: access control rules made from binds. Each bind gives a
 rule for its packets, one for packet-too-big messages about packets it sent, and optionally one for
 echo requests. IPv6 prefixes are matched 32 bits at a time.
 */
module BindClassifier {
  import opened Bytes
  import opened PacketParsing

  // ---- Prefixes ----

  /** A number without its last `m` bits. */
  function ShiftRight(x: nat, m: nat): nat {
    if m == 0 then x else ShiftRight(x, m - 1) / 2
  }

  /** Bit `j` of an address, counted from its first and most significant one. */
  function Bit(a: seq<byte>, j: nat): bool
    requires j < 8 * |a|
  {
    ShiftRight(a[j / 8] as int, 7 - j % 8) % 2 == 1
  }

  /** Two addresses agree in their first `n` bits. */
  predicate PrefixMatch(a: seq<byte>, b: seq<byte>, n: nat) {
    && n <= 8 * |a| && n <= 8 * |b|
    && forall j :: 0 <= j < n ==> Bit(a, j) == Bit(b, j)
  }

  /** An address as a number, first byte most significant. */
  function Number(a: seq<byte>): nat {
    if a == [] then 0 else 0x100 * Number(a[..|a| - 1]) + a[|a| - 1] as int
  }

  lemma {:induction false} ShiftTwice(x: nat, m: nat, n: nat)
    ensures ShiftRight(x, m + n) == ShiftRight(ShiftRight(x, m), n)
  {
    if n > 0 {
      ShiftTwice(x, m, n - 1);
    }
  }

  /** Shifting a number within its last byte, and past it. */
  lemma ShiftWithinByte(n: nat, b: nat)
    requires b < 0x100
    ensures var x := 0x100 * n + b;
            && ShiftRight(x, 0) == 256 * n + b && ShiftRight(x, 1) == 128 * n + b / 2
            && ShiftRight(x, 2) == 64 * n + b / 4 && ShiftRight(x, 3) == 32 * n + b / 8
            && ShiftRight(x, 4) == 16 * n + b / 16 && ShiftRight(x, 5) == 8 * n + b / 32
            && ShiftRight(x, 6) == 4 * n + b / 64 && ShiftRight(x, 7) == 2 * n + b / 128 && ShiftRight(x, 8) == n
  {
    var x := 0x100 * n + b;
    assert ShiftRight(x, 1) == 128 * n + b / 2;
    assert ShiftRight(x, 2) == 64 * n + b / 4;
    assert ShiftRight(x, 3) == 32 * n + b / 8;
    assert ShiftRight(x, 4) == 16 * n + b / 16;
    assert ShiftRight(x, 5) == 8 * n + b / 32;
    assert ShiftRight(x, 6) == 4 * n + b / 64;
    assert ShiftRight(x, 7) == 2 * n + b / 128;
  }

  lemma LastByteDecides(n: nat, b: nat, e: nat)
    requires b < 0x100 && e < 8
    ensures ShiftRight(0x100 * n + b, e) % 2 == ShiftRight(b, e) % 2
  {
    ShiftWithinByte(n, b);
    ShiftWithinByte(0, b);
    assert e in [0, 1, 2, 3, 4, 5, 6, 7];
  }

  lemma PastLastByte(n: nat, b: nat, e: nat)
    requires b < 0x100
    ensures ShiftRight(0x100 * n + b, 8 + e) == ShiftRight(n, e)
  {
    ShiftWithinByte(n, b);
    ShiftTwice(0x100 * n + b, 8, e);
  }

  /** Bit `j` is the bit of that weight of the number. */
  lemma {:induction false} BitOfNumber(a: seq<byte>, j: nat)
    requires j < 8 * |a|
    ensures Bit(a, j) <==> ShiftRight(Number(a), 8 * |a| - 1 - j) % 2 == 1
  {
    var n := |a| - 1;
    if j / 8 == n {
      LastByteDecides(Number(a[..n]), a[n] as int, 7 - j % 8);
    } else {
      BitOfNumber(a[..n], j);
      PastLastByte(Number(a[..n]), a[n] as int, 8 * n - 1 - j);
    }
  }

  lemma {:induction false} NumberFits(a: seq<byte>)
    ensures ShiftRight(Number(a), 8 * |a|) == 0
  {
    if a != [] {
      var n := |a| - 1;
      NumberFits(a[..n]);
      PastLastByte(Number(a[..n]), a[n] as int, 8 * n);
    }
  }

  /**
   Two addresses agree in their first `n` bits exactly when they are the same number once the other bits
   are shifted out: a CIDR prefix.
   */
  lemma {:induction false} PrefixIsCidr(a: seq<byte>, b: seq<byte>, n: nat)
    requires |a| == |b| && n <= 8 * |a|
    ensures PrefixMatch(a, b, n) <==> ShiftRight(Number(a), 8 * |a| - n) == ShiftRight(Number(b), 8 * |a| - n)
  {
    if n == 0 {
      NumberFits(a);
      NumberFits(b);
    } else {
      PrefixIsCidr(a, b, n - 1);
      BitOfNumber(a, n - 1);
      BitOfNumber(b, n - 1);
      assert PrefixMatch(a, b, n) <==> PrefixMatch(a, b, n - 1) && Bit(a, n - 1) == Bit(b, n - 1);
    }
  }

  /** `ipv6_cidr_offset`: how many of the bits of a prefix fall to the 32-bit word at `offset`. */
  function CidrOffset(ipBits: nat, offset: nat): (n: nat)
    ensures n <= 32
  {
    if ipBits >= (offset + 1) * 32 then 32
    else if ipBits < offset * 32 then 0
    else ipBits % 32
  }

  function WordAt(a: seq<byte>, k: nat): seq<byte>
    requires 4 * k + 4 <= |a|
  {
    a[4 * k..4 * k + 4]
  }

  lemma BitOfWord(a: seq<byte>, k: nat, j: nat)
    requires 4 * k + 4 <= |a| && j < 32
    ensures Bit(WordAt(a, k), j) == Bit(a, 32 * k + j)
  {
  }

  lemma WordBitsLieInPrefix(n: nat, k: nat, j: nat)
    requires j < CidrOffset(n, k)
    ensures 32 * k + j < n
  {
  }

  lemma PrefixBitsLieInWords(n: nat, j: nat)
    requires j < n
    ensures j % 32 < CidrOffset(n, j / 32)
  {
  }

  lemma PrefixGivesWord(a: seq<byte>, b: seq<byte>, n: nat, k: nat)
    requires |a| == |b| == 16 && k < 4 && PrefixMatch(a, b, n)
    ensures PrefixMatch(WordAt(a, k), WordAt(b, k), CidrOffset(n, k))
  {
    forall j | 0 <= j < CidrOffset(n, k)
      ensures Bit(WordAt(a, k), j) == Bit(WordAt(b, k), j)
    {
      BitOfWord(a, k, j);
      BitOfWord(b, k, j);
      WordBitsLieInPrefix(n, k, j);
    }
  }

  lemma WordGivesBit(a: seq<byte>, b: seq<byte>, n: nat, j: nat)
    requires |a| == |b| == 16 && j < n <= 128
    requires PrefixMatch(WordAt(a, j / 32), WordAt(b, j / 32), CidrOffset(n, j / 32))
    ensures Bit(a, j) == Bit(b, j)
  {
    BitOfWord(a, j / 32, j % 32);
    BitOfWord(b, j / 32, j % 32);
    PrefixBitsLieInWords(n, j);
  }

  /** Matching the four words by the lengths `CidrOffset` gives is matching one 128-bit prefix. */
  lemma WordsMatchExactly(a: seq<byte>, b: seq<byte>, n: nat)
    requires |a| == |b| == 16 && n <= 128
    ensures PrefixMatch(a, b, n)
            <==> forall k :: 0 <= k < 4 ==> PrefixMatch(WordAt(a, k), WordAt(b, k), CidrOffset(n, k))
  {
    if PrefixMatch(a, b, n) {
      forall k | 0 <= k < 4
        ensures PrefixMatch(WordAt(a, k), WordAt(b, k), CidrOffset(n, k))
      {
        PrefixGivesWord(a, b, n, k);
      }
    }
    if forall k :: 0 <= k < 4 ==> PrefixMatch(WordAt(a, k), WordAt(b, k), CidrOffset(n, k)) {
      forall j | 0 <= j < n
        ensures Bit(a, j) == Bit(b, j)
      {
        WordGivesBit(a, b, n, j);
      }
    }
  }

  // ---- Rules ----

  datatype BindData = BindData(family: Family, addr: seq<byte>, ipBits: nat, proto: byte, portStart: nat, portEnd: nat)

  predicate FitsFamily(b: BindData) {
    |b.addr| == (if b.family == V4 then 4 else 16) && b.ipBits <= 8 * |b.addr|
  }

  type Bind = b: BindData | FitsFamily(b) witness BindData(V4, [0, 0, 0, 0], 0, 0, 0, 0)

  /** One 32-bit field to match in its first `len` bits, and a range of 16-bit values. */
  datatype Masked = Masked(value: seq<byte>, len: nat)
  datatype Range = Range(lo: nat, hi: nat)

  datatype Rule = Rule(table: nat, proto: byte, dst: seq<Masked>, sport: Range, dport: Range,
                       innerSrc: seq<Masked>, innerSport: Range, innerDport: Range)

  const ANY_PORT := Range(0, 0xffff)
  const ANY_WORD := Masked([0, 0, 0, 0], 0)

  function AddrWords(b: Bind): (ws: seq<Masked>)
  {
    if b.family == V4 then [Masked(b.addr, b.ipBits)]
    else [Masked(WordAt(b.addr, 0), CidrOffset(b.ipBits, 0)), Masked(WordAt(b.addr, 1), CidrOffset(b.ipBits, 1)),
          Masked(WordAt(b.addr, 2), CidrOffset(b.ipBits, 2)), Masked(WordAt(b.addr, 3), CidrOffset(b.ipBits, 3))]
  }

  function AnyWords(f: Family): seq<Masked> {
    if f == V4 then [ANY_WORD] else [ANY_WORD, ANY_WORD, ANY_WORD, ANY_WORD]
  }

  function Icmp(f: Family): byte {
    if f == V4 then ICMPV4 else ICMPV6
  }

  /** ICMP type and code, which lie where the source port does. */
  function TooBigTypeCode(f: Family): nat {
    if f == V4 then 0x0304 else 0x0200
  }

  function EchoTypeCode(f: Family): nat {
    if f == V4 then 0x0800 else 0x8000
  }

  function Exactly(n: nat): Range {
    Range(n, n)
  }

  function TypicalRule(t: nat, b: Bind): Rule
  {
    Rule(t, b.proto, AddrWords(b), ANY_PORT, Range(b.portStart, b.portEnd), AnyWords(b.family), ANY_PORT, ANY_PORT)
  }

  function FragmentationRule(t: nat, b: Bind): Rule
  {
    Rule(t, Icmp(b.family), AddrWords(b), Exactly(TooBigTypeCode(b.family)), ANY_PORT,
         AddrWords(b), Range(b.portStart, b.portEnd), ANY_PORT)
  }

  function EchoRule(t: nat, b: Bind): Rule
  {
    Rule(t, Icmp(b.family), AddrWords(b), Exactly(EchoTypeCode(b.family)), ANY_PORT,
         AnyWords(b.family), ANY_PORT, ANY_PORT)
  }

  // ---- Matching ----

  /** What the classifier reads of a packet, at the same places whatever the packet is. */
  datatype Key = Key(proto: byte, dst: seq<seq<byte>>, sport: nat, dport: nat,
                     innerSrc: seq<seq<byte>>, innerSport: nat, innerDport: nat)

  /** `buf` is the packet's buffer: the frame, and whatever lies behind a short one. */
  function KeyOf(buf: seq<byte>, f: Family): Key
    requires |buf| >= MAX_PARSED_HEADER_SIZE
  {
    if f == V4 then
      Key(buf[23], [buf[30..34]], U16At(buf, 34), U16At(buf, 36), [buf[54..58]], U16At(buf, 62), U16At(buf, 64))
    else
      Key(buf[20], Words(buf[38..54]), U16At(buf, 54), U16At(buf, 56), Words(buf[70..86]), U16At(buf, 102), U16At(buf, 104))
  }

  function Words(a: seq<byte>): seq<seq<byte>>
    requires |a| == 16
  {
    [WordAt(a, 0), WordAt(a, 1), WordAt(a, 2), WordAt(a, 3)]
  }

  predicate InRange(n: nat, r: Range) {
    r.lo <= n <= r.hi
  }

  predicate WordsMatch(ws: seq<seq<byte>>, ms: seq<Masked>) {
    |ws| == |ms| && forall k :: 0 <= k < |ws| ==> PrefixMatch(ws[k], ms[k].value, ms[k].len)
  }

  predicate Matches(r: Rule, k: Key) {
    && k.proto == r.proto && WordsMatch(k.dst, r.dst) && InRange(k.sport, r.sport) && InRange(k.dport, r.dport)
    && WordsMatch(k.innerSrc, r.innerSrc) && InRange(k.innerSport, r.innerSport) && InRange(k.innerDport, r.innerDport)
  }

  function AddressWords(a: seq<byte>, f: Family): seq<seq<byte>>
    requires |a| == (if f == V4 then 4 else 16)
  {
    if f == V4 then [a] else Words(a)
  }

  lemma AddressMatches(a: seq<byte>, b: Bind)
    requires |a| == |b.addr|
    ensures WordsMatch(AddressWords(a, b.family), AddrWords(b)) <==> PrefixMatch(a, b.addr, b.ipBits)
  {
    var ws, ms := AddressWords(a, b.family), AddrWords(b);
    if b.family == V4 {
      assert WordsMatch(ws, ms) <==> PrefixMatch(ws[0], ms[0].value, ms[0].len);
    } else {
      WordsMatchExactly(a, b.addr, b.ipBits);
      assert forall k :: 0 <= k < 4 ==> ws[k] == WordAt(a, k) && ms[k] == Masked(WordAt(b.addr, k), CidrOffset(b.ipBits, k));
    }
  }

  lemma AnyWordsMatch(a: seq<byte>, f: Family)
    requires |a| == (if f == V4 then 4 else 16)
    ensures WordsMatch(AddressWords(a, f), AnyWords(f))
  {
  }

  /** The bind is for the flow's address and port, whatever its protocol. */
  ghost predicate Covers(w: Flow, b: Bind) {
    && b.family == w.family && PrefixMatch(w.vip, b.addr, b.ipBits)
    && |w.vport| == 2 && b.portStart <= U16At(w.vport, 0) <= b.portEnd
  }

  /** The bind is for the flow. */
  ghost predicate BoundTo(w: Flow, b: Bind) {
    Covers(w, b) && b.proto == w.proto
  }

  /** A flow's segments match a bind's rule for its packets exactly when protocol, address prefix and port say so. */
  lemma SegmentMatchesExactly(buf: seq<byte>, w: Flow, t: nat, b: Bind)
    requires |buf| >= MAX_PARSED_HEADER_SIZE && IsSegment(buf, w) && b.family == w.family
    ensures Matches(TypicalRule(t, b), KeyOf(buf, w.family)) <==> BoundTo(w, b)
  {
    AddressMatches(w.vip, b);
    AnyWordsMatch(if w.family == V4 then buf[54..58] else buf[70..86], w.family);
    var k := KeyOf(buf, w.family);
    assert k.dst == AddressWords(w.vip, w.family);
    assert k.dport == U16At(w.vport, 0);
  }

  /** Where a packet itself goes. For an ICMP error that should be the source of the packet it quotes. */
  function OuterDst(buf: seq<byte>, f: Family): (a: seq<byte>)
    requires |buf| >= MAX_PARSED_HEADER_SIZE
    ensures |a| == (if f == V4 then 4 else 16)
  {
    if f == V4 then buf[30..34] else buf[38..54]
  }

  /** The bind is for the address the message itself goes to. */
  ghost predicate Reaches(buf: seq<byte>, w: Flow, b: Bind)
    requires |buf| >= MAX_PARSED_HEADER_SIZE
  {
    b.family == w.family && PrefixMatch(OuterDst(buf, w.family), b.addr, b.ipBits)
  }

  /** The code of a packet-too-big message is zero. ICMPv6 receivers ignore it, but the rule asks for it. */
  predicate PlainCode(buf: seq<byte>, w: Flow)
    requires |buf| >= MAX_PARSED_HEADER_SIZE
  {
    w.family == V4 || buf[55] == 0
  }

  lemma MessageKey(buf: seq<byte>, w: Flow)
    requires |buf| >= MAX_PARSED_HEADER_SIZE && IsTooBigAbout(buf, w)
    ensures |w.vip| == (if w.family == V4 then 4 else 16) && |w.vport| == 2
    ensures var k := KeyOf(buf, w.family);
            && k.proto == Icmp(w.family) && (k.sport == TooBigTypeCode(w.family) <==> PlainCode(buf, w))
            && k.sport <= 0xffff && k.sport != EchoTypeCode(w.family)
            && k.dst == AddressWords(OuterDst(buf, w.family), w.family)
            && k.innerSrc == AddressWords(w.vip, w.family) && k.innerSport == U16At(w.vport, 0)
  {
  }

  /**
   A message about a flow matches a bind's fragmentation rule exactly when the bind covers the flow's
   address and port and the message's own destination, and the message's code is the one the rule names.
   The rule does not look at the quoted packet's protocol.
   */
  lemma MessageMatchesExactly(buf: seq<byte>, w: Flow, t: nat, b: Bind)
    requires |buf| >= MAX_PARSED_HEADER_SIZE && IsTooBigAbout(buf, w) && b.family == w.family
    ensures Matches(FragmentationRule(t, b), KeyOf(buf, w.family)) <==> Covers(w, b) && Reaches(buf, w, b) && PlainCode(buf, w)
  {
    MessageKey(buf, w);
    AddressMatches(w.vip, b);
    AddressMatches(OuterDst(buf, w.family), b);
  }

  /**
   A bind whose rule catches a flow's segments catches exactly those messages about the flow that go to the
   bind's addresses and have the rule's code. A bind that catches a message catches the segments exactly when it is of their protocol.
   */
  lemma TooBigMatchesSameBind(seg: seq<byte>, msg: seq<byte>, w: Flow, t: nat, b: Bind)
    requires |seg| >= MAX_PARSED_HEADER_SIZE && |msg| >= MAX_PARSED_HEADER_SIZE
    requires IsSegment(seg, w) && IsTooBigAbout(msg, w) && b.family == w.family
    ensures Matches(TypicalRule(t, b), KeyOf(seg, w.family)) ==>
              (Matches(FragmentationRule(t, b), KeyOf(msg, w.family)) <==> Reaches(msg, w, b) && PlainCode(msg, w))
    ensures Matches(FragmentationRule(t, b), KeyOf(msg, w.family)) ==>
              (Matches(TypicalRule(t, b), KeyOf(seg, w.family)) <==> b.proto == w.proto)
  {
    SegmentMatchesExactly(seg, w, t, b);
    MessageMatchesExactly(msg, w, t, b);
  }

  // ---- All rules of one bind ----

  /** An ICMP bind takes the message for one of its packets: the port test then reads the ICMP checksum. */
  ghost predicate TakenForPacket(buf: seq<byte>, w: Flow, b: Bind)
    requires |buf| >= MAX_PARSED_HEADER_SIZE
  {
    && b.proto == Icmp(w.family) && Reaches(buf, w, b)
    && b.portStart <= KeyOf(buf, w.family).dport <= b.portEnd
  }

  /** Some rule of the bind takes the message: the one for messages or, as above, the one for packets. */
  ghost predicate Takes(buf: seq<byte>, w: Flow, b: Bind)
    requires |buf| >= MAX_PARSED_HEADER_SIZE
  {
    (Covers(w, b) && Reaches(buf, w, b) && PlainCode(buf, w)) || TakenForPacket(buf, w, b)
  }

  lemma MessageTakenExactly(buf: seq<byte>, w: Flow, t: nat, b: Bind)
    requires |buf| >= MAX_PARSED_HEADER_SIZE && IsTooBigAbout(buf, w) && b.family == w.family
    ensures Matches(TypicalRule(t, b), KeyOf(buf, w.family)) <==> TakenForPacket(buf, w, b)
  {
    MessageKey(buf, w);
    AddressMatches(OuterDst(buf, w.family), b);
    AnyWordsMatch(w.vip, w.family);
  }

  /** Some rule made from the bind matches. */
  ghost predicate Catches(t: nat, b: Bind, ping: bool, k: Key) {
    exists r :: r in BindRules(t, b, ping) && Matches(r, k)
  }

  lemma CatchesAny(t: nat, b: Bind, ping: bool, k: Key)
    ensures Catches(t, b, ping, k)
            <==> || Matches(TypicalRule(t, b), k) || Matches(FragmentationRule(t, b), k)
                 || (ping && Matches(EchoRule(t, b), k))
  {
    var rs := BindRules(t, b, ping);
    assert TypicalRule(t, b) == rs[0] && FragmentationRule(t, b) == rs[1];
    assert ping ==> EchoRule(t, b) == rs[2];
  }

  lemma SegmentCaughtExactly(buf: seq<byte>, w: Flow, t: nat, b: Bind, ping: bool)
    requires |buf| >= MAX_PARSED_HEADER_SIZE && IsSegment(buf, w) && b.family == w.family
    ensures Catches(t, b, ping, KeyOf(buf, w.family)) <==> BoundTo(w, b)
  {
    CatchesAny(t, b, ping, KeyOf(buf, w.family));
    SegmentMatchesExactly(buf, w, t, b);
  }

  lemma MessageCaughtExactly(buf: seq<byte>, w: Flow, t: nat, b: Bind, ping: bool)
    requires |buf| >= MAX_PARSED_HEADER_SIZE && IsTooBigAbout(buf, w) && b.family == w.family
    ensures Catches(t, b, ping, KeyOf(buf, w.family)) <==> Takes(buf, w, b)
  {
    CatchesAny(t, b, ping, KeyOf(buf, w.family));
    MessageKey(buf, w);
    MessageMatchesExactly(buf, w, t, b);
    MessageTakenExactly(buf, w, t, b);
  }

  // ---- Filling the rule arrays ----

  function BindRules(t: nat, b: Bind, ping: bool): (rs: seq<Rule>)
    ensures |rs| == PerBind(ping)
  {
    [TypicalRule(t, b), FragmentationRule(t, b)] + if ping then [EchoRule(t, b)] else []
  }

  function PerBind(ping: bool): nat {
    if ping then 3 else 2
  }

  /** Rules for `n` binds. */
  function NumRules(n: nat, ping: bool): nat {
    if ping then 3 * n else 2 * n
  }

  /** The rules of one bind, and the array they go to. */
  datatype Chunk = Chunk(family: Family, rules: seq<Rule>)

  ghost predicate ChunksFor(t: nat, binds: seq<Bind>, ping: bool, chunks: seq<Chunk>) {
    |chunks| == |binds| && forall i :: 0 <= i < |chunks| ==> chunks[i] == Chunk(binds[i].family, BindRules(t, binds[i], ping))
  }

  function TableChunks(t: nat, binds: seq<Bind>, ping: bool): (cs: seq<Chunk>)
    ensures ChunksFor(t, binds, ping, cs)
  {
    seq(|binds|, i requires 0 <= i < |binds| => Chunk(binds[i].family, BindRules(t, binds[i], ping)))
  }

  /** The rules of one family in the first `n` chunks. */
  function RulesOf(chunks: seq<Chunk>, n: nat, f: Family): seq<Rule>
    requires n <= |chunks|
  {
    if n == 0 then [] else RulesOf(chunks, n - 1, f) + if chunks[n - 1].family == f then chunks[n - 1].rules else []
  }

  function RulesOfTable(t: nat, binds: seq<Bind>, f: Family, ping: bool): seq<Rule> {
    RulesOf(TableChunks(t, binds, ping), |binds|, f)
  }

  /** The rules of one family for the first `n` tables. */
  function AllRules(tables: seq<seq<Bind>>, n: nat, f: Family, ping: bool): seq<Rule>
    requires n <= |tables|
  {
    if n == 0 then [] else AllRules(tables, n - 1, f, ping) + RulesOfTable(n - 1, tables[n - 1], f, ping)
  }

  lemma AllRulesNext(tables: seq<seq<Bind>>, t: nat, f: Family, ping: bool)
    requires t < |tables|
    ensures AllRules(tables, t + 1, f, ping)
         == AllRules(tables, t, f, ping) + RulesOf(TableChunks(t, tables[t], ping), |tables[t]|, f)
  {
  }

  function NumBinds(tables: seq<seq<Bind>>, n: nat): nat
    requires n <= |tables|
  {
    if n == 0 then 0 else NumBinds(tables, n - 1) + |tables[n - 1]|
  }

  predicate Sized(chunks: seq<Chunk>, ping: bool) {
    forall i :: 0 <= i < |chunks| ==> |chunks[i].rules| == PerBind(ping)
  }

  lemma {:induction false} ChunkCount(chunks: seq<Chunk>, n: nat, ping: bool)
    requires n <= |chunks| && Sized(chunks, ping)
    ensures |RulesOf(chunks, n, V4)| + |RulesOf(chunks, n, V6)| == NumRules(n, ping)
  {
    if n > 0 {
      ChunkCount(chunks, n - 1, ping);
    }
  }

  lemma TableRuleCount(t: nat, binds: seq<Bind>, ping: bool)
    ensures |RulesOfTable(t, binds, V4, ping)| + |RulesOfTable(t, binds, V6, ping)| == NumRules(|binds|, ping)
  {
    TableSized(t, binds, ping);
    ChunkCount(TableChunks(t, binds, ping), |binds|, ping);
  }

  /** Over both families there are exactly two or three rules a bind. */
  lemma {:induction false} RuleCount(tables: seq<seq<Bind>>, n: nat, ping: bool)
    requires n <= |tables|
    ensures |AllRules(tables, n, V4, ping)| + |AllRules(tables, n, V6, ping)| == NumRules(NumBinds(tables, n), ping)
  {
    if n > 0 {
      RuleCount(tables, n - 1, ping);
      TableRuleCount(n - 1, tables[n - 1], ping);
    }
  }

  lemma {:induction false} NumBindsGrows(tables: seq<seq<Bind>>, m: nat, n: nat)
    requires m <= n <= |tables|
    ensures NumBinds(tables, m) <= NumBinds(tables, n)
  {
    if m < n {
      NumBindsGrows(tables, m, n - 1);
    }
  }

  /** The two rule arrays, filled through one counter each. */
  class RuleArrays {
    const acl4: array<Rule>
    const acl6: array<Rule>
    var curr4: nat
    var curr6: nat

    ghost predicate Valid()
      reads this
    {
      curr4 <= acl4.Length == acl6.Length && curr6 <= acl6.Length && acl4 != acl6
    }

    ghost function Contents(f: Family): (rs: seq<Rule>)
      reads this, acl4, acl6
      requires Valid()
      ensures |rs| <= acl4.Length
    {
      if f == V4 then acl4[..curr4] else acl6[..curr6]
    }

    constructor (capacity: nat)
      ensures Valid() && acl4.Length == capacity && fresh(acl4) && fresh(acl6)
      ensures Contents(V4) == [] && Contents(V6) == []
    {
      var empty := Rule(0, 0, [], Range(0, 0), Range(0, 0), [], Range(0, 0), Range(0, 0));
      acl4 := new Rule[capacity](i => empty);
      acl6 := new Rule[capacity](i => empty);
      curr4, curr6 := 0, 0;
    }

    method Add(f: Family, r: Rule)
      requires Valid() && |Contents(f)| < acl4.Length
      modifies this, acl4, acl6
      ensures Valid() && Contents(f) == old(Contents(f)) + [r]
      ensures forall g :: g != f ==> Contents(g) == old(Contents(g))
    {
      if f == V4 {
        acl4[curr4] := r;
        curr4 := curr4 + 1;
      } else {
        acl6[curr6] := r;
        curr6 := curr6 + 1;
      }
    }

    /** The rules of one bind, one after the other. */
    method AddAll(f: Family, rules: seq<Rule>)
      requires Valid() && |Contents(f)| + |rules| <= acl4.Length
      modifies this, acl4, acl6
      ensures Valid() && Contents(f) == old(Contents(f)) + rules
      ensures forall g :: g != f ==> Contents(g) == old(Contents(g))
    {
      for i := 0 to |rules|
        invariant Valid() && Contents(f) == old(Contents(f)) + rules[..i]
        invariant forall g :: g != f ==> Contents(g) == old(Contents(g))
      {
        Add(f, rules[i]);
        assert rules[..i + 1] == rules[..i] + [rules[i]];
      }
      assert rules[..|rules|] == rules;
    }

    /** What the arrays hold after `n` chunks, on top of what they held before. */
    ghost predicate Holds(c4: seq<Rule>, c6: seq<Rule>, chunks: seq<Chunk>, n: nat)
      reads this, acl4, acl6
      requires n <= |chunks|
    {
      Valid() && Contents(V4) == c4 + RulesOf(chunks, n, V4) && Contents(V6) == c6 + RulesOf(chunks, n, V6)
    }

    method AddChunk(chunks: seq<Chunk>, n: nat, ghost ping: bool, ghost c4: seq<Rule>, ghost c6: seq<Rule>)
      requires n < |chunks| && Holds(c4, c6, chunks, n)
      requires Sized(chunks, ping) && |c4| + |c6| + NumRules(n + 1, ping) <= acl4.Length
      modifies this, acl4, acl6
      ensures Holds(c4, c6, chunks, n + 1)
    {
      ChunkCount(chunks, n, ping);
      AddAll(chunks[n].family, chunks[n].rules);
      AppendRules(c4, chunks, n, V4);
      AppendRules(c6, chunks, n, V6);
    }

    /** The binds of one table; there is room for the rules of all binds left. */
    method AddTable(chunks: seq<Chunk>, ghost ping: bool)
      requires Valid() && |Contents(V4)| + |Contents(V6)| + NumRules(|chunks|, ping) <= acl4.Length && Sized(chunks, ping)
      modifies this, acl4, acl6
      ensures Holds(old(Contents(V4)), old(Contents(V6)), chunks, |chunks|)
    {
      ghost var c4, c6 := Contents(V4), Contents(V6);
      for i := 0 to |chunks|
        invariant Holds(c4, c6, chunks, i)
      {
        AddChunk(chunks, i, ping, c4, c6);
      }
    }
  }

  lemma TableSized(t: nat, binds: seq<Bind>, ping: bool)
    ensures Sized(TableChunks(t, binds, ping), ping)
  {
  }

  lemma AppendRules(before: seq<Rule>, chunks: seq<Chunk>, n: nat, f: Family)
    requires n < |chunks|
    ensures before + RulesOf(chunks, n + 1, f)
         == (before + RulesOf(chunks, n, f)) + if chunks[n].family == f then chunks[n].rules else []
  {
  }

  /** The arrays hold the rules of the first `n` tables, with room for all. */
  ghost predicate FilledFor(rules: RuleArrays, tables: seq<seq<Bind>>, n: nat, ping: bool)
    reads rules, rules.acl4, rules.acl6
    requires n <= |tables|
  {
    && rules.Valid() && rules.acl4.Length == NumRules(NumBinds(tables, |tables|), ping)
    && rules.Contents(V4) == AllRules(tables, n, V4, ping) && rules.Contents(V6) == AllRules(tables, n, V6, ping)
  }

  method AddNextTable(rules: RuleArrays, tables: seq<seq<Bind>>, t: nat, ping: bool)
    requires t < |tables| && FilledFor(rules, tables, t, ping)
    modifies rules, rules.acl4, rules.acl6
    ensures FilledFor(rules, tables, t + 1, ping)
  {
    RoomForTable(tables, t, ping);
    TableSized(t, tables[t], ping);
    rules.AddTable(TableChunks(t, tables[t], ping), ping);
    AllRulesNext(tables, t, V4, ping);
    AllRulesNext(tables, t, V6, ping);
  }

  lemma RoomForTable(tables: seq<seq<Bind>>, t: nat, ping: bool)
    requires t < |tables|
    ensures |AllRules(tables, t, V4, ping)| + |AllRules(tables, t, V6, ping)| + NumRules(|tables[t]|, ping)
         <= NumRules(NumBinds(tables, |tables|), ping)
  {
    RuleCount(tables, t, ping);
    NumBindsGrows(tables, t + 1, |tables|);
  }

  method CountBinds(tables: seq<seq<Bind>>) returns (total: nat)
    ensures total == NumBinds(tables, |tables|)
  {
    total := 0;
    for t := 0 to |tables|
      invariant total == NumBinds(tables, t)
    {
      total := total + |tables[t]|;
    }
  }

  /**
   The rule-building part of `create_bind_classifier`: arrays with two or three slots for every bind are
   never overrun, and hold exactly the rules of all binds, family by family and in order.
   */
  method CreateRules(tables: seq<seq<Bind>>, ping: bool) returns (rules: RuleArrays)
    ensures FilledFor(rules, tables, |tables|, ping)
  {
    var total := CountBinds(tables);
    rules := new RuleArrays(NumRules(total, ping));
    for t := 0 to |tables|
      invariant fresh(rules) && fresh(rules.acl4) && fresh(rules.acl6) && FilledFor(rules, tables, t, ping)
    {
      AddNextTable(rules, tables, t, ping);
    }
  }

  // ---- The whole classifier ----

  /** Some rule that leads to table `t` matches; which of several the library picks is open. */
  ghost predicate CaughtBy(rules: seq<Rule>, k: Key, t: nat) {
    exists r :: r in rules && Matches(r, k) && r.table == t
  }

  lemma {:induction false} RuleOfChunk(chunks: seq<Chunk>, n: nat, f: Family, r: Rule)
    requires n <= |chunks|
    ensures r in RulesOf(chunks, n, f) <==> exists i :: 0 <= i < n && chunks[i].family == f && r in chunks[i].rules
  {
    if n > 0 {
      RuleOfChunk(chunks, n - 1, f, r);
    }
  }

  /** What is in a sequence put together from parts is in one of the parts. */
  lemma {:induction false} InSomePart<T>(whole: seq<seq<T>>, parts: seq<seq<T>>, n: nat, x: T)
    requires |whole| == |parts| + 1 && n <= |parts| && whole[0] == []
    requires forall i :: 0 <= i < |parts| ==> whole[i + 1] == whole[i] + parts[i]
    ensures x in whole[n] <==> exists t :: 0 <= t < n && x in parts[t]
  {
    if n > 0 {
      InSomePart(whole, parts, n - 1, x);
      assert whole[n - 1 + 1] == whole[n - 1] + parts[n - 1];
    }
  }

  /** The rules of the first `n` tables for each `n`, and of each table. */
  ghost function Wholes(tables: seq<seq<Bind>>, f: Family, ping: bool): seq<seq<Rule>> {
    seq(|tables| + 1, n requires 0 <= n <= |tables| => AllRules(tables, n, f, ping))
  }

  ghost function Parts(tables: seq<seq<Bind>>, f: Family, ping: bool): seq<seq<Rule>> {
    seq(|tables|, t requires 0 <= t < |tables| => RulesOfTable(t, tables[t], f, ping))
  }

  lemma PartsMakeWholes(tables: seq<seq<Bind>>, f: Family, ping: bool)
    ensures forall i :: 0 <= i < |tables| ==>
              Wholes(tables, f, ping)[i + 1] == Wholes(tables, f, ping)[i] + Parts(tables, f, ping)[i]
  {
    forall i | 0 <= i < |tables|
      ensures Wholes(tables, f, ping)[i + 1] == Wholes(tables, f, ping)[i] + Parts(tables, f, ping)[i]
    {
      AllRulesNext(tables, i, f, ping);
    }
  }

  lemma RuleOfTables(tables: seq<seq<Bind>>, f: Family, ping: bool, r: Rule)
    ensures r in AllRules(tables, |tables|, f, ping) <==> exists t :: 0 <= t < |tables| && r in Parts(tables, f, ping)[t]
  {
    PartsMakeWholes(tables, f, ping);
    InSomePart(Wholes(tables, f, ping), Parts(tables, f, ping), |tables|, r);
  }

  lemma RuleOfTable(t: nat, binds: seq<Bind>, f: Family, ping: bool, r: Rule)
    ensures r in RulesOfTable(t, binds, f, ping)
            <==> exists i :: 0 <= i < |binds| && binds[i].family == f && r in BindRules(t, binds[i], ping)
  {
    var chunks := TableChunks(t, binds, ping);
    RuleOfChunk(chunks, |binds|, f, r);
    if r in RulesOfTable(t, binds, f, ping) {
      var i :| 0 <= i < |binds| && chunks[i].family == f && r in chunks[i].rules;
      assert r in BindRules(t, binds[i], ping);
    }
    if i :| 0 <= i < |binds| && binds[i].family == f && r in BindRules(t, binds[i], ping) {
      assert r in chunks[i].rules;
    }
  }

  /** Table `t` has a bind of the family one of whose rules matches. */
  ghost predicate TableCatches(tables: seq<seq<Bind>>, t: nat, f: Family, ping: bool, k: Key) {
    t < |tables| && exists i :: 0 <= i < |tables[t]| && tables[t][i].family == f && Catches(t, tables[t][i], ping, k)
  }

  lemma TableOfRule(t: nat, b: Bind, ping: bool, r: Rule)
    requires r in BindRules(t, b, ping)
    ensures r.table == t
  {
  }

  lemma CaughtByBind(tables: seq<seq<Bind>>, f: Family, ping: bool, k: Key, t: nat)
    requires CaughtBy(AllRules(tables, |tables|, f, ping), k, t)
    ensures TableCatches(tables, t, f, ping, k)
  {
    var r :| r in AllRules(tables, |tables|, f, ping) && Matches(r, k) && r.table == t;
    RuleOfTables(tables, f, ping, r);
    var u :| 0 <= u < |tables| && r in Parts(tables, f, ping)[u];
    RuleOfTable(u, tables[u], f, ping, r);
    var i :| 0 <= i < |tables[u]| && tables[u][i].family == f && r in BindRules(u, tables[u][i], ping);
    TableOfRule(u, tables[u][i], ping, r);
    assert Catches(t, tables[t][i], ping, k);
  }

  lemma BindLeadsToTable(tables: seq<seq<Bind>>, f: Family, ping: bool, k: Key, t: nat)
    requires TableCatches(tables, t, f, ping, k)
    ensures CaughtBy(AllRules(tables, |tables|, f, ping), k, t)
  {
    var i :| 0 <= i < |tables[t]| && tables[t][i].family == f && Catches(t, tables[t][i], ping, k);
    var r :| r in BindRules(t, tables[t][i], ping) && Matches(r, k);
    TableOfRule(t, tables[t][i], ping, r);
    RuleOfTable(t, tables[t], f, ping, r);
    assert r in Parts(tables, f, ping)[t];
    RuleOfTables(tables, f, ping, r);
  }

  /** The finished rule arrays lead a packet to the tables that have a bind catching it, and to no other. */
  lemma CaughtByExactly(tables: seq<seq<Bind>>, f: Family, ping: bool, k: Key, t: nat)
    ensures CaughtBy(AllRules(tables, |tables|, f, ping), k, t) <==> TableCatches(tables, t, f, ping, k)
  {
    if CaughtBy(AllRules(tables, |tables|, f, ping), k, t) {
      CaughtByBind(tables, f, ping, k, t);
    }
    if TableCatches(tables, t, f, ping, k) {
      BindLeadsToTable(tables, f, ping, k, t);
    }
  }

  /** Some bind of the list is for the flow. */
  ghost predicate Serves(binds: seq<Bind>, w: Flow) {
    exists i :: 0 <= i < |binds| && BoundTo(w, binds[i])
  }

  ghost predicate TakesMessage(binds: seq<Bind>, buf: seq<byte>, w: Flow)
    requires |buf| >= MAX_PARSED_HEADER_SIZE
  {
    exists i :: 0 <= i < |binds| && Takes(buf, w, binds[i])
  }

  /** Segments of a flow are led to exactly the tables with a bind for the flow. */
  lemma SegmentTables(buf: seq<byte>, w: Flow, tables: seq<seq<Bind>>, ping: bool, t: nat)
    requires |buf| >= MAX_PARSED_HEADER_SIZE && IsSegment(buf, w)
    ensures CaughtBy(AllRules(tables, |tables|, w.family, ping), KeyOf(buf, w.family), t)
            <==> t < |tables| && Serves(tables[t], w)
  {
    var k := KeyOf(buf, w.family);
    CaughtByExactly(tables, w.family, ping, k, t);
    if t < |tables| {
      forall i | 0 <= i < |tables[t]| && tables[t][i].family == w.family
        ensures Catches(t, tables[t][i], ping, k) <==> BoundTo(w, tables[t][i])
      {
        SegmentCaughtExactly(buf, w, t, tables[t][i], ping);
      }
    }
  }

  /** Messages about a flow are led to exactly the tables with a bind that takes them. */
  lemma MessageTables(buf: seq<byte>, w: Flow, tables: seq<seq<Bind>>, ping: bool, t: nat)
    requires |buf| >= MAX_PARSED_HEADER_SIZE && IsTooBigAbout(buf, w)
    ensures CaughtBy(AllRules(tables, |tables|, w.family, ping), KeyOf(buf, w.family), t)
            <==> t < |tables| && TakesMessage(tables[t], buf, w)
  {
    var k := KeyOf(buf, w.family);
    CaughtByExactly(tables, w.family, ping, k, t);
    if t < |tables| {
      forall i | 0 <= i < |tables[t]| && tables[t][i].family == w.family
        ensures Catches(t, tables[t][i], ping, k) <==> Takes(buf, w, tables[t][i])
      {
        MessageCaughtExactly(buf, w, t, tables[t][i], ping);
      }
    }
  }

  /** Every table that takes the message, by a bind of another protocol, also has a bind for the flow. */
  ghost predicate NoStrayTable(tables: seq<seq<Bind>>, buf: seq<byte>, w: Flow)
    requires |buf| >= MAX_PARSED_HEADER_SIZE
  {
    forall t, i | 0 <= t < |tables| && 0 <= i < |tables[t]| && tables[t][i].proto != w.proto && Takes(buf, w, tables[t][i]) ::
      Serves(tables[t], w)
  }

  /** The binds hold an ICMP bind that takes the message for one of its packets. */
  ghost predicate TakesForPacket(binds: seq<Bind>, buf: seq<byte>, w: Flow)
    requires |buf| >= MAX_PARSED_HEADER_SIZE
  {
    exists i :: 0 <= i < |binds| && TakenForPacket(buf, w, binds[i])
  }

  /** The binds hold one for the flow's address and port, of any protocol, and for the message's destination. */
  ghost predicate CoversMessage(binds: seq<Bind>, buf: seq<byte>, w: Flow)
    requires |buf| >= MAX_PARSED_HEADER_SIZE
  {
    exists i :: 0 <= i < |binds| && Covers(w, binds[i]) && Reaches(buf, w, binds[i])
  }

  /** Every table with a bind for the flow takes the message: by a covering bind and its code, or by an ICMP bind. */
  ghost predicate NoMissedTable(tables: seq<seq<Bind>>, buf: seq<byte>, w: Flow)
    requires |buf| >= MAX_PARSED_HEADER_SIZE
  {
    forall t | 0 <= t < |tables| && Serves(tables[t], w) ::
      (PlainCode(buf, w) && CoversMessage(tables[t], buf, w)) || TakesForPacket(tables[t], buf, w)
  }

  /** A message sent where it should be, with code zero, is missed by no table. */
  lemma PlainMessageIsNotMissed(tables: seq<seq<Bind>>, buf: seq<byte>, w: Flow)
    requires |buf| >= MAX_PARSED_HEADER_SIZE && OuterDst(buf, w.family) == w.vip && PlainCode(buf, w)
    ensures NoMissedTable(tables, buf, w)
  {
    forall t | 0 <= t < |tables| && Serves(tables[t], w)
      ensures CoversMessage(tables[t], buf, w)
    {
      var i :| 0 <= i < |tables[t]| && BoundTo(w, tables[t][i]);
    }
  }

  /** Two packets are led to the same tables. */
  ghost predicate SameTables(rules: seq<Rule>, k: Key, l: Key) {
    forall t: nat :: CaughtBy(rules, k, t) <==> CaughtBy(rules, l, t)
  }

  ghost predicate SameBinds(tables: seq<seq<Bind>>, buf: seq<byte>, w: Flow)
    requires |buf| >= MAX_PARSED_HEADER_SIZE
  {
    forall t :: 0 <= t < |tables| ==> (Serves(tables[t], w) <==> TakesMessage(tables[t], buf, w))
  }

  /**
   Over all rules of all binds: messages about a flow are led to the same tables as its segments if and only
   if no table is stray and none is missed. A table is stray that has no bind for the flow but a bind of
   another protocol that covers its address and port, or an ICMP bind that takes the message for a packet of
   its own. A table is missed that has a bind for the flow, when the message's code is not the rule's or the
   message is not sent to an address of the bind.
   */
  lemma ClassifiedAlikeExactly(seg: seq<byte>, msg: seq<byte>, w: Flow, tables: seq<seq<Bind>>, ping: bool)
    requires |seg| >= MAX_PARSED_HEADER_SIZE && |msg| >= MAX_PARSED_HEADER_SIZE
    requires IsSegment(seg, w) && IsTooBigAbout(msg, w)
    ensures SameTables(AllRules(tables, |tables|, w.family, ping), KeyOf(seg, w.family), KeyOf(msg, w.family))
            <==> NoStrayTable(tables, msg, w) && NoMissedTable(tables, msg, w)
  {
    var rules, k, l := AllRules(tables, |tables|, w.family, ping), KeyOf(seg, w.family), KeyOf(msg, w.family);
    SameBindsExactly(tables, msg, w);
    if SameTables(rules, k, l) {
      forall t | 0 <= t < |tables|
        ensures Serves(tables[t], w) <==> TakesMessage(tables[t], msg, w)
      {
        assert CaughtBy(rules, k, t) <==> CaughtBy(rules, l, t);
        SegmentTables(seg, w, tables, ping, t);
        MessageTables(msg, w, tables, ping, t);
      }
    }
    if SameBinds(tables, msg, w) {
      forall t: nat
        ensures CaughtBy(rules, k, t) <==> CaughtBy(rules, l, t)
      {
        SegmentTables(seg, w, tables, ping, t);
        MessageTables(msg, w, tables, ping, t);
      }
    }
  }

  /** A table without stray binds takes a message only if it serves the flow. */
  lemma TakesOnlyIfServes(tables: seq<seq<Bind>>, buf: seq<byte>, w: Flow, t: nat)
    requires |buf| >= MAX_PARSED_HEADER_SIZE && w.proto != Icmp(w.family) && t < |tables|
    requires NoStrayTable(tables, buf, w) && TakesMessage(tables[t], buf, w)
    ensures Serves(tables[t], w)
  {
    var i :| 0 <= i < |tables[t]| && Takes(buf, w, tables[t][i]);
    assert tables[t][i].proto == w.proto ==> BoundTo(w, tables[t][i]);
  }

  lemma ServesOnlyIfTakes(tables: seq<seq<Bind>>, buf: seq<byte>, w: Flow, t: nat)
    requires |buf| >= MAX_PARSED_HEADER_SIZE && t < |tables| && NoMissedTable(tables, buf, w) && Serves(tables[t], w)
    ensures TakesMessage(tables[t], buf, w)
  {
    if PlainCode(buf, w) && CoversMessage(tables[t], buf, w) {
      var i :| 0 <= i < |tables[t]| && Covers(w, tables[t][i]) && Reaches(buf, w, tables[t][i]);
      assert Takes(buf, w, tables[t][i]);
    } else {
      var i :| 0 <= i < |tables[t]| && TakenForPacket(buf, w, tables[t][i]);
      assert Takes(buf, w, tables[t][i]);
    }
  }

  lemma SameBindsExactly(tables: seq<seq<Bind>>, buf: seq<byte>, w: Flow)
    requires |buf| >= MAX_PARSED_HEADER_SIZE && w.proto != Icmp(w.family)
    ensures SameBinds(tables, buf, w) <==> NoStrayTable(tables, buf, w) && NoMissedTable(tables, buf, w)
  {
    if NoStrayTable(tables, buf, w) && NoMissedTable(tables, buf, w) {
      forall t | 0 <= t < |tables|
        ensures Serves(tables[t], w) <==> TakesMessage(tables[t], buf, w)
      {
        if TakesMessage(tables[t], buf, w) {
          TakesOnlyIfServes(tables, buf, w, t);
        }
        if Serves(tables[t], w) {
          ServesOnlyIfTakes(tables, buf, w, t);
        }
      }
    }
    if SameBinds(tables, buf, w) {
      forall t | 0 <= t < |tables| && Serves(tables[t], w)
        ensures (PlainCode(buf, w) && CoversMessage(tables[t], buf, w)) || TakesForPacket(tables[t], buf, w)
      {
        var i :| 0 <= i < |tables[t]| && Takes(buf, w, tables[t][i]);
      }
    }
  }

  ghost predicate NoIcmpBinds(tables: seq<seq<Bind>>, f: Family) {
    forall t, i | 0 <= t < |tables| && 0 <= i < |tables[t]| :: tables[t][i].proto != Icmp(f)
  }

  /**
   Without ICMP binds, and for a message sent where it should be, the condition is about the binds and the code
   alone. With the rule's code no table may be stray; with another code the message is led to no table at
   all, so the flow must have none either.
   */
  lemma ClassifiedAlikeByBinds(seg: seq<byte>, msg: seq<byte>, w: Flow, tables: seq<seq<Bind>>, ping: bool)
    requires |seg| >= MAX_PARSED_HEADER_SIZE && |msg| >= MAX_PARSED_HEADER_SIZE
    requires IsSegment(seg, w) && IsTooBigAbout(msg, w) && OuterDst(msg, w.family) == w.vip
    requires NoIcmpBinds(tables, w.family)
    ensures SameTables(AllRules(tables, |tables|, w.family, ping), KeyOf(seg, w.family), KeyOf(msg, w.family))
            <==> if PlainCode(msg, w) then
                   forall t, i | 0 <= t < |tables| && 0 <= i < |tables[t]|
                                 && Covers(w, tables[t][i]) && tables[t][i].proto != w.proto ::
                     Serves(tables[t], w)
                 else
                   forall t | 0 <= t < |tables| :: !Serves(tables[t], w)
  {
    ClassifiedAlikeExactly(seg, msg, w, tables, ping);
    if PlainCode(msg, w) {
      PlainMessageIsNotMissed(tables, msg, w);
    }
  }

  /** Without ICMP binds a message with another code than the rule's is caught by no rule. */
  lemma OtherCodeIsNotCaught(msg: seq<byte>, w: Flow, tables: seq<seq<Bind>>, ping: bool)
    requires |msg| >= MAX_PARSED_HEADER_SIZE && IsTooBigAbout(msg, w)
    requires NoIcmpBinds(tables, w.family) && !PlainCode(msg, w)
    ensures forall t: nat :: !CaughtBy(AllRules(tables, |tables|, w.family, ping), KeyOf(msg, w.family), t)
  {
    forall t: nat
      ensures !CaughtBy(AllRules(tables, |tables|, w.family, ping), KeyOf(msg, w.family), t)
    {
      MessageTables(msg, w, tables, ping, t);
    }
  }

  // ---- Echo requests ----

  /** The type and code of an ICMP message say echo request. */
  predicate SaysEcho(buf: seq<byte>, f: Family)
    requires |buf| >= MAX_PARSED_HEADER_SIZE
  {
    if f == V4 then buf[23] == 1 && buf[34] == 8 && buf[35] == 0 else buf[20] == 58 && buf[54] == 128 && buf[55] == 0
  }

  /** The bind's addresses include the packet's own destination. */
  ghost predicate AtAddress(buf: seq<byte>, b: Bind)
    requires |buf| >= MAX_PARSED_HEADER_SIZE
  {
    PrefixMatch(OuterDst(buf, b.family), b.addr, b.ipBits)
  }

  lemma OwnKey(buf: seq<byte>, f: Family)
    requires |buf| >= MAX_PARSED_HEADER_SIZE
    ensures var k := KeyOf(buf, f);
            && k.dst == AddressWords(OuterDst(buf, f), f)
            && k.proto == (if f == V4 then buf[23] else buf[20])
            && k.sport == (if f == V4 then 0x100 * buf[34] as int + buf[35] as int else 0x100 * buf[54] as int + buf[55] as int)
            && WordsMatch(k.innerSrc, AnyWords(f))
            && k.sport <= 0xffff && k.dport <= 0xffff && k.innerSport <= 0xffff && k.innerDport <= 0xffff
  {
  }

  /** A bind's echo rule matches exactly the echo requests to its addresses. */
  lemma EchoMatchesExactly(buf: seq<byte>, t: nat, b: Bind)
    requires |buf| >= MAX_PARSED_HEADER_SIZE
    ensures Matches(EchoRule(t, b), KeyOf(buf, b.family)) <==> SaysEcho(buf, b.family) && AtAddress(buf, b)
  {
    OwnKey(buf, b.family);
    AddressMatches(OuterDst(buf, b.family), b);
  }

  /** With echo rules, a bind catches an echo request exactly when it is for its address. */
  lemma EchoCaughtExactly(buf: seq<byte>, t: nat, b: Bind)
    requires |buf| >= MAX_PARSED_HEADER_SIZE && SaysEcho(buf, b.family)
    ensures Catches(t, b, true, KeyOf(buf, b.family)) <==> AtAddress(buf, b)
  {
    CatchesAny(t, b, true, KeyOf(buf, b.family));
    EchoMatchesExactly(buf, t, b);
    OwnKey(buf, b.family);
    AddressMatches(OuterDst(buf, b.family), b);
  }

  /** So it is led to exactly the tables with a bind for its address. */
  lemma EchoTables(buf: seq<byte>, f: Family, tables: seq<seq<Bind>>, t: nat)
    requires |buf| >= MAX_PARSED_HEADER_SIZE && SaysEcho(buf, f)
    ensures CaughtBy(AllRules(tables, |tables|, f, true), KeyOf(buf, f), t)
            <==> t < |tables| && exists i :: 0 <= i < |tables[t]| && tables[t][i].family == f && AtAddress(buf, tables[t][i])
  {
    var k := KeyOf(buf, f);
    CaughtByExactly(tables, f, true, k, t);
    if t < |tables| {
      forall i | 0 <= i < |tables[t]| && tables[t][i].family == f
        ensures Catches(t, tables[t][i], true, k) <==> AtAddress(buf, tables[t][i])
      {
        EchoCaughtExactly(buf, t, tables[t][i]);
      }
    }
  }

  // ---- A stray table ----

  predicate PlainFlow(w: Flow) {
    w.family == V4 && |w.client| == |w.vip| == 4 && |w.cport| == |w.vport| == 2 && w.proto != ICMPV4
  }

  /** An IPv4 segment of the flow, and a fragmentation-needed message about it, sent to the address it quotes. */
  function SegmentOf(w: Flow): (s: seq<byte>)
    requires PlainFlow(w)
    ensures |s| == MAX_PARSED_HEADER_SIZE && IsSegment(s, w)
  {
    var s := Zeros(12) + [0x08, 0x00, 0x45] + Zeros(8) + [w.proto] + Zeros(2) + w.client + w.vip + w.cport + w.vport + Zeros(68);
    assert s[26..30] == w.client && s[30..34] == w.vip && s[34..36] == w.cport && s[36..38] == w.vport;
    s
  }

  function MessageAbout(w: Flow): (s: seq<byte>)
    requires PlainFlow(w)
    ensures |s| == MAX_PARSED_HEADER_SIZE && IsTooBigAbout(s, w) && OuterDst(s, w.family) == w.vip
  {
    var s := Zeros(12) + [0x08, 0x00, 0x45] + Zeros(8) + [ICMPV4] + Zeros(6) + w.vip + [3, 4] + Zeros(6)
             + [0x45] + Zeros(8) + [w.proto] + Zeros(2) + w.vip + w.client + w.vport + w.cport + Zeros(40);
    assert s[30..34] == w.vip && s[54..58] == w.vip && s[58..62] == w.client && s[62..64] == w.vport && s[64..66] == w.cport;
    s
  }

  const WEB: Flow := Flow(V4, [192, 0, 2, 9], [0x9c, 0x40], [203, 0, 113, 1], [0x01, 0xbb], 6)

  /** One address and port, 443, bound for TCP in table 0 and for UDP in table 1. */
  const TWO_TABLES: seq<seq<Bind>> :=
    [[BindData(V4, [203, 0, 113, 1], 32, 6, 443, 443)], [BindData(V4, [203, 0, 113, 1], 32, 17, 443, 443)]]

  /** Segments of the TCP flow go to table 0 alone, but a message about it is also caught by the UDP bind of table 1. */
  lemma OtherTableCatchesMessage(ping: bool)
    ensures var rules := AllRules(TWO_TABLES, 2, V4, ping);
            && (forall t: nat :: CaughtBy(rules, KeyOf(SegmentOf(WEB), V4), t) <==> t == 0)
            && CaughtBy(rules, KeyOf(MessageAbout(WEB), V4), 1)
  {
    var rules := AllRules(TWO_TABLES, 2, V4, ping);
    assert BoundTo(WEB, TWO_TABLES[0][0]) && Covers(WEB, TWO_TABLES[1][0]);
    forall t: nat
      ensures CaughtBy(rules, KeyOf(SegmentOf(WEB), V4), t) <==> t == 0
    {
      SegmentTables(SegmentOf(WEB), WEB, TWO_TABLES, ping, t);
    }
    MessageTables(MessageAbout(WEB), WEB, TWO_TABLES, ping, 1);
  }

  // ---- A missed table ----

  predicate PlainFlow6(w: Flow) {
    w.family == V6 && |w.client| == |w.vip| == 16 && |w.cport| == |w.vport| == 2 && w.proto != ICMPV6
  }

  /** An IPv6 segment of the flow, and a packet-too-big message about it with a code of the sender's choice. */
  function SegmentOf6(w: Flow): (s: seq<byte>)
    requires PlainFlow6(w)
    ensures |s| == MAX_PARSED_HEADER_SIZE && IsSegment(s, w)
  {
    var s := Zeros(12) + [0x86, 0xdd] + Zeros(6) + [w.proto] + Zeros(1) + w.client + w.vip + w.cport + w.vport + Zeros(48);
    assert s[22..38] == w.client && s[38..54] == w.vip && s[54..56] == w.cport && s[56..58] == w.vport;
    s
  }

  function MessageAbout6(w: Flow, code: byte): (s: seq<byte>)
    requires PlainFlow6(w)
    ensures |s| == MAX_PARSED_HEADER_SIZE && IsTooBigAbout(s, w) && OuterDst(s, w.family) == w.vip && s[55] == code
  {
    var s := Zeros(12) + [0x86, 0xdd] + Zeros(6) + [ICMPV6] + Zeros(17) + w.vip + [2, code] + Zeros(12)
             + [w.proto] + Zeros(1) + w.vip + w.client + w.vport + w.cport;
    assert s[38..54] == w.vip && s[70..86] == w.vip && s[86..102] == w.client && s[102..104] == w.vport && s[104..106] == w.cport;
    s
  }

  const SITE: seq<byte> := [0x20, 0x01, 0x0d, 0xb8] + Zeros(11) + [1]
  const WEB6: Flow := Flow(V6, [0x20, 0x01, 0x0d, 0xb8] + Zeros(11) + [2], [0x9c, 0x40], SITE, [0x01, 0xbb], 6)

  const ONE_TABLE: seq<seq<Bind>> := [[BindData(V6, SITE, 128, 6, 443, 443)]]

  /** One table with one bind: segments of the flow go there, but a message with code 1 about it goes nowhere. */
  lemma NoTableCatchesMessage(ping: bool)
    ensures var rules, msg := AllRules(ONE_TABLE, 1, V6, ping), MessageAbout6(WEB6, 1);
            && NoStrayTable(ONE_TABLE, msg, WEB6)
            && CaughtBy(rules, KeyOf(SegmentOf6(WEB6), V6), 0)
            && (forall t: nat :: !CaughtBy(rules, KeyOf(msg, V6), t))
  {
    assert BoundTo(WEB6, ONE_TABLE[0][0]);
    SegmentTables(SegmentOf6(WEB6), WEB6, ONE_TABLE, ping, 0);
    OtherCodeIsNotCaught(MessageAbout6(WEB6, 1), WEB6, ONE_TABLE, ping);
  }
}
