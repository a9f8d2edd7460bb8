/**
 The receive, distribute and transmit loop. Packets come back from the workers tagged with where
 they go; the loop shards them over one 32-entry burst buffer a flow path and flushes a buffer when
 it is full and all buffers at the end of a round.
 */
module TxLoop {

  const PKT_BURST_SZ: nat := 32
  const TARGET_DROP: nat := 0
  const TARGET_KNI: nat := 1

  /** The low byte says that it is a flow path, the bits above which one. */
  function TargetFlowPath(f: nat): nat {
    0x2 + 0x100 * f
  }

  function GetTargetFlowPath(target: nat): nat {
    target / 0x100
  }

  datatype Packet = Packet(id: nat, target: nat)

  datatype Route = ToKni | ToDrop | ToPath(path: nat)

  function RouteOf(p: Packet): Route {
    if p.target == TARGET_KNI then ToKni
    else if p.target == TARGET_DROP then ToDrop
    else ToPath(GetTargetFlowPath(p.target))
  }

  /** A tag that receiving or a worker may have left on a packet. */
  ghost predicate Tagged(p: Packet, paths: nat) {
    p.target == TARGET_DROP || p.target == TARGET_KNI || exists f :: 0 <= f < paths && p.target == TargetFlowPath(f)
  }

  /** Tags are read back as they were written, and a flow path is in range. */
  lemma TagsReadBack(p: Packet, paths: nat)
    ensures forall f: nat :: RouteOf(p.(target := TargetFlowPath(f))) == ToPath(f)
    ensures Tagged(p, paths) && RouteOf(p).ToPath? ==> RouteOf(p).path < paths
  {
  }

  // ---- Receiving and working ----

  /** What the bursts of the first `n` paths look like when each is tagged with its path. */
  ghost predicate ReceivedFrom(pkts: seq<Packet>, rx: seq<seq<Packet>>, n: nat)
    requires n <= |rx|
  {
    && |pkts| <= PKT_BURST_SZ * n
    && (forall i :: 0 <= i < |pkts| ==> Tagged(pkts[i], |rx|))
    && forall r :: Only(pkts, r) == if r.ToPath? && r.path < n then Retag(rx[r.path], r.path) else []
  }

  /** Where the burst of path `f` starts when all are laid end to end. */
  function StartOf(rx: seq<seq<Packet>>, f: nat): nat
    requires f <= |rx|
  {
    if f == 0 then 0 else StartOf(rx, f - 1) + |rx[f - 1]|
  }

  /** The bursts of the first `n` paths lie one behind the other, each packet tagged with its path. */
  ghost predicate BurstsInOrder(pkts: seq<Packet>, rx: seq<seq<Packet>>, n: nat)
    requires n <= |rx|
  {
    && |pkts| == StartOf(rx, n)
    && forall f {:trigger StartOf(rx, f)} :: 0 <= f < n ==> LiesAt(pkts, StartOf(rx, f), Retag(rx[f], f))
  }

  predicate LiesAt(pkts: seq<Packet>, start: nat, burst: seq<Packet>) {
    start + |burst| <= |pkts| && pkts[start..start + |burst|] == burst
  }

  lemma StillLiesAt(pkts: seq<Packet>, more: seq<Packet>, start: nat, burst: seq<Packet>)
    requires LiesAt(pkts, start, burst)
    ensures LiesAt(pkts + more, start, burst)
  {
    assert (pkts + more)[start..start + |burst|] == pkts[start..start + |burst|];
  }

  lemma LiesLast(pkts: seq<Packet>, burst: seq<Packet>)
    ensures LiesAt(pkts + burst, |pkts|, burst)
  {
  }

  lemma OneMoreBurst(pkts: seq<Packet>, rx: seq<seq<Packet>>, n: nat)
    requires n < |rx| && BurstsInOrder(pkts, rx, n)
    ensures BurstsInOrder(pkts + Retag(rx[n], n), rx, n + 1)
  {
    var last := Retag(rx[n], n);
    forall f | 0 <= f < n + 1
      ensures LiesAt(pkts + last, StartOf(rx, f), Retag(rx[f], f))
    {
      if f < n {
        StillLiesAt(pkts, last, StartOf(rx, f), Retag(rx[f], f));
      } else {
        LiesLast(pkts, last);
      }
    }
  }

  lemma RetagTags(burst: seq<Packet>, f: nat, paths: nat)
    requires f < paths
    ensures forall i :: 0 <= i < |Retag(burst, f)| ==> Tagged(Retag(burst, f)[i], paths)
  {
  }

  lemma OnlyOneMore(pkts: seq<Packet>, rx: seq<seq<Packet>>, n: nat, r: Route)
    requires n < |rx| && Only(pkts, r) == if r.ToPath? && r.path < n then Retag(rx[r.path], r.path) else []
    ensures Only(pkts + Retag(rx[n], n), r) == if r.ToPath? && r.path < n + 1 then Retag(rx[r.path], r.path) else []
  {
    OnlyConcat(pkts, Retag(rx[n], n), r);
    OnlyRetagged(rx[n], n, r);
  }

  lemma ReceiveOneMore(pkts: seq<Packet>, rx: seq<seq<Packet>>, n: nat)
    requires n < |rx| && |rx[n]| <= PKT_BURST_SZ && ReceivedFrom(pkts, rx, n)
    ensures ReceivedFrom(pkts + Retag(rx[n], n), rx, n + 1)
  {
    var burst := Retag(rx[n], n);
    RetagTags(rx[n], n, |rx|);
    forall r
      ensures Only(pkts + burst, r) == if r.ToPath? && r.path < n + 1 then Retag(rx[r.path], r.path) else []
    {
      OnlyOneMore(pkts, rx, n, r);
    }
  }

  /**
   `processor_burst_rx_on_flows`: the bursts of all paths one after the other, each packet tagged with its
   path. A burst that is too large makes it give up with nothing.
   */
  method ReceiveOnFlows(rx: seq<seq<Packet>>) returns (pkts: seq<Packet>)
    ensures if forall f :: 0 <= f < |rx| ==> |rx[f]| <= PKT_BURST_SZ
            then ReceivedFrom(pkts, rx, |rx|) && BurstsInOrder(pkts, rx, |rx|) else pkts == []
  {
    pkts := [];
    for f := 0 to |rx|
      invariant ReceivedFrom(pkts, rx, f) && BurstsInOrder(pkts, rx, f)
      invariant forall g :: 0 <= g < f ==> |rx[g]| <= PKT_BURST_SZ
    {
      if |rx[f]| > PKT_BURST_SZ {
        return [];
      }
      OneMoreBurst(pkts, rx, f);
      ReceiveOneMore(pkts, rx, f);
      pkts := pkts + Retag(rx[f], f);
    }
  }

  function Retag(burst: seq<Packet>, f: nat): (r: seq<Packet>)
    ensures |r| == |burst| && forall i :: 0 <= i < |r| ==> r[i] == burst[i].(target := TargetFlowPath(f))
  {
    seq(|burst|, i requires 0 <= i < |burst| => burst[i].(target := TargetFlowPath(f)))
  }

  /** What a worker makes of a packet. */
  datatype Work = NotClassified | Encapsulated | EncapFailed

  /** `processor_worker` on one burst: the tag stays, or becomes KNI or drop; nothing else changes. */
  method WorkOn(pkts: array<Packet>, classifierOk: bool, work: seq<Work>)
    requires pkts.Length == |work|
    modifies pkts
    ensures forall i :: 0 <= i < pkts.Length ==>
              pkts[i] == old(pkts[i]).(target :=
                if !classifierOk || work[i] == EncapFailed then TARGET_DROP
                else if work[i] == NotClassified then TARGET_KNI
                else old(pkts[i].target))
    ensures forall i, paths :: 0 <= i < pkts.Length && Tagged(old(pkts[i]), paths) ==> Tagged(pkts[i], paths)
  {
    for i := 0 to pkts.Length
      invariant forall k :: i <= k < pkts.Length ==> pkts[k] == old(pkts[k])
      invariant forall k :: 0 <= k < i ==>
                  pkts[k] == old(pkts[k]).(target :=
                    if !classifierOk || work[k] == EncapFailed then TARGET_DROP
                    else if work[k] == NotClassified then TARGET_KNI
                    else old(pkts[k].target))
    {
      if !classifierOk {
        pkts[i] := pkts[i].(target := TARGET_DROP);
      } else if work[i] == NotClassified {
        pkts[i] := pkts[i].(target := TARGET_KNI);
      } else if work[i] == EncapFailed {
        pkts[i] := pkts[i].(target := TARGET_DROP);
      }
    }
  }

  // ---- Sharding, on values ----

  /** The packets of `s` that go one way, in order. */
  function Only(s: seq<Packet>, r: Route): seq<Packet> {
    if s == [] then []
    else Only(s[..|s| - 1], r) + if RouteOf(s[|s| - 1]) == r then [s[|s| - 1]] else []
  }

  lemma {:induction false} OnlyConcat(a: seq<Packet>, b: seq<Packet>, r: Route)
    ensures Only(a + b, r) == Only(a, r) + Only(b, r)
  {
    if b == [] {
      assert a + b == a;
    } else {
      var n := |b| - 1;
      assert (a + b)[..|a + b| - 1] == a + b[..n];
      OnlyConcat(a, b[..n], r);
    }
  }

  lemma {:induction false} OnlyAll(s: seq<Packet>, q: Route, r: Route)
    requires forall i :: 0 <= i < |s| ==> RouteOf(s[i]) == q
    ensures Only(s, r) == if r == q then s else []
  {
    if s != [] {
      OnlyAll(s[..|s| - 1], q, r);
      assert s == s[..|s| - 1] + [s[|s| - 1]];
    }
  }

  lemma OnlyRetagged(burst: seq<Packet>, f: nat, r: Route)
    ensures Only(Retag(burst, f), r) == if r == ToPath(f) then Retag(burst, f) else []
  {
    OnlyAll(Retag(burst, f), ToPath(f), r);
  }

  lemma {:induction false} CountInItsRoute(s: seq<Packet>, p: Packet)
    ensures multiset(s)[p] == multiset(Only(s, RouteOf(p)))[p]
  {
    if s != [] {
      var n := |s| - 1;
      assert s == s[..n] + [s[n]];
      CountInItsRoute(s[..n], p);
    }
  }

  /** Sequences that agree route by route hold the same packets. */
  lemma SameRoutesSamePackets(a: seq<Packet>, b: seq<Packet>)
    requires forall r :: Only(a, r) == Only(b, r)
    ensures multiset(a) == multiset(b)
  {
    forall p
      ensures multiset(a)[p] == multiset(b)[p]
    {
      CountInItsRoute(a, p);
      CountInItsRoute(b, p);
    }
  }

  // ---- What becomes of packets ----

  datatype Outcome = Transmitted(path: nat) | HandedToKni | Freed

  datatype Entry = Entry(pkt: Packet, outcome: Outcome)

  function PacketsOf(log: seq<Entry>): (s: seq<Packet>)
    ensures |s| == |log| && forall i :: 0 <= i < |s| ==> s[i] == log[i].pkt
  {
    seq(|log|, i requires 0 <= i < |log| => log[i].pkt)
  }

  /**
   A packet is transmitted on its own path, or handed to KNI if KNI is on and it is for KNI. It is freed
   when it is to be dropped, when it is for KNI and KNI is off, or when the NIC or KNI refused it, which
   they never do if they are `willing`.
   */
  predicate OutcomeOk(e: Entry, performKni: bool, willing: bool) {
    match e.outcome
    case Transmitted(f) => RouteOf(e.pkt) == ToPath(f)
    case HandedToKni => RouteOf(e.pkt) == ToKni && performKni
    case Freed => RouteOf(e.pkt) == ToDrop || (RouteOf(e.pkt) == ToKni && !performKni) || !willing
  }

  // ---- What was done, by route and by outcome ----

  /** The same outcome for each packet. */
  function Each(s: seq<Packet>, o: Outcome): (log: seq<Entry>)
    ensures |log| == |s| && forall i :: 0 <= i < |s| ==> log[i] == Entry(s[i], o)
  {
    seq(|s|, i requires 0 <= i < |s| => Entry(s[i], o))
  }

  /** The entries of packets that go one way, in order. */
  function EntriesOn(log: seq<Entry>, r: Route): seq<Entry> {
    if log == [] then []
    else EntriesOn(log[..|log| - 1], r) + if RouteOf(log[|log| - 1].pkt) == r then [log[|log| - 1]] else []
  }

  /** The packets with one outcome, in order. */
  function With(log: seq<Entry>, o: Outcome): seq<Packet> {
    if log == [] then []
    else With(log[..|log| - 1], o) + if log[|log| - 1].outcome == o then [log[|log| - 1].pkt] else []
  }

  lemma {:induction false} EntriesOnConcat(a: seq<Entry>, b: seq<Entry>, r: Route)
    ensures EntriesOn(a + b, r) == EntriesOn(a, r) + EntriesOn(b, r)
  {
    if b == [] {
      assert a + b == a;
    } else {
      var n := |b| - 1;
      assert (a + b)[..|a + b| - 1] == a + b[..n];
      EntriesOnConcat(a, b[..n], r);
    }
  }

  lemma {:induction false} EntriesOnAll(log: seq<Entry>, q: Route, r: Route)
    requires forall i :: 0 <= i < |log| ==> RouteOf(log[i].pkt) == q
    ensures EntriesOn(log, r) == if r == q then log else []
  {
    if log != [] {
      EntriesOnAll(log[..|log| - 1], q, r);
      assert log == log[..|log| - 1] + [log[|log| - 1]];
    }
  }

  lemma {:induction false} PacketsOfEntriesOn(log: seq<Entry>, r: Route)
    ensures PacketsOf(EntriesOn(log, r)) == Only(PacketsOf(log), r)
  {
    if log != [] {
      var n := |log| - 1;
      PacketsOfEntriesOn(log[..n], r);
      assert PacketsOf(log)[..n] == PacketsOf(log[..n]);
    }
  }

  lemma {:induction false} WithConcat(a: seq<Entry>, b: seq<Entry>, o: Outcome)
    ensures With(a + b, o) == With(a, o) + With(b, o)
  {
    if b == [] {
      assert a + b == a;
    } else {
      var n := |b| - 1;
      assert (a + b)[..|a + b| - 1] == a + b[..n];
      WithConcat(a, b[..n], o);
    }
  }

  lemma {:induction false} WithEach(s: seq<Packet>, q: Outcome, o: Outcome)
    ensures With(Each(s, q), o) == if o == q then s else []
  {
    if s != [] {
      var n := |s| - 1;
      WithEach(s[..n], q, o);
      assert Each(s, q)[..n] == Each(s[..n], q);
      assert s == s[..n] + [s[n]];
    }
  }

  // ---- The NIC's side ----

  /** One burst offered to the NIC: the first `taken` packets are the NIC's from then on. */
  datatype Tx = Tx(path: nat, offered: seq<Packet>, taken: nat)

  type TxCall = c: Tx | c.taken <= |c.offered| witness Tx(0, [], 0)

  /** The packets offered on a path, burst after burst; those the NIC took; and those it left. */
  function Offered(calls: seq<TxCall>, f: nat): seq<Packet> {
    if calls == [] then []
    else
      var c := calls[|calls| - 1];
      Offered(calls[..|calls| - 1], f) + if c.path == f then c.offered else []
  }

  function Taken(calls: seq<TxCall>, f: nat): seq<Packet> {
    if calls == [] then []
    else
      var c := calls[|calls| - 1];
      Taken(calls[..|calls| - 1], f) + if c.path == f then c.offered[..c.taken] else []
  }

  function Refused(calls: seq<TxCall>, f: nat): seq<Packet> {
    if calls == [] then []
    else
      var c := calls[|calls| - 1];
      Refused(calls[..|calls| - 1], f) + if c.path == f then c.offered[c.taken..] else []
  }

  /** All bursts on path `from` and above are full. */
  ghost predicate FullFrom(calls: seq<TxCall>, from: nat) {
    forall i :: 0 <= i < |calls| && calls[i].path >= from ==> |calls[i].offered| == 32
  }

  /** All bursts but the last of each path are full. */
  ghost predicate FullButLast(calls: seq<TxCall>) {
    forall i, j :: 0 <= i < j < |calls| && calls[i].path == calls[j].path ==> |calls[i].offered| == 32
  }

  lemma OneMoreFlush(calls: seq<TxCall>, after: seq<TxCall>, count: nat, f: nat)
    requires count <= |calls| && calls <= after && |after| <= |calls| + 1
    requires FullFrom(calls[count..], f) && FullButLast(calls[count..]) && (|after| > |calls| ==> after[|calls|].path == f)
    ensures FullFrom(after[count..], f + 1) && FullButLast(after[count..])
  {
    var old', now := calls[count..], after[count..];
    assert forall i :: 0 <= i < |old'| ==> now[i] == old'[i];
  }

  /** What becomes of one burst, and of all bursts of a path. */
  function AfterCall(c: TxCall): seq<Entry> {
    Each(c.offered[..c.taken], Transmitted(c.path)) + Each(c.offered[c.taken..], Freed)
  }

  function FlushedBy(calls: seq<TxCall>, f: nat): seq<Entry> {
    if calls == [] then []
    else
      var c := calls[|calls| - 1];
      FlushedBy(calls[..|calls| - 1], f) + if c.path == f then AfterCall(c) else []
  }

  lemma PacketsAfterCall(c: TxCall)
    ensures PacketsOf(AfterCall(c)) == c.offered
  {
  }

  lemma {:induction false} FlushedPackets(calls: seq<TxCall>, f: nat)
    ensures PacketsOf(FlushedBy(calls, f)) == Offered(calls, f)
  {
    if calls != [] {
      var n := |calls| - 1;
      FlushedPackets(calls[..n], f);
      PacketsAfterCall(calls[n]);
    }
  }

  lemma AfterCallMeaning(c: TxCall)
    ensures With(AfterCall(c), Transmitted(c.path)) == c.offered[..c.taken]
    ensures With(AfterCall(c), Freed) == c.offered[c.taken..]
  {
    var sent, left := Each(c.offered[..c.taken], Transmitted(c.path)), Each(c.offered[c.taken..], Freed);
    WithConcat(sent, left, Transmitted(c.path));
    WithConcat(sent, left, Freed);
    WithEach(c.offered[..c.taken], Transmitted(c.path), Transmitted(c.path));
    WithEach(c.offered[..c.taken], Transmitted(c.path), Freed);
    WithEach(c.offered[c.taken..], Freed, Transmitted(c.path));
    WithEach(c.offered[c.taken..], Freed, Freed);
  }

  /** On a path, what is transmitted is what the NIC took of each burst, and what is freed is what it left. */
  lemma {:induction false} NicOwnsWhatItTook(calls: seq<TxCall>, f: nat)
    ensures With(FlushedBy(calls, f), Transmitted(f)) == Taken(calls, f)
    ensures With(FlushedBy(calls, f), Freed) == Refused(calls, f)
  {
    if calls != [] {
      var n := |calls| - 1;
      NicOwnsWhatItTook(calls[..n], f);
      if calls[n].path == f {
        AfterCallMeaning(calls[n]);
        WithConcat(FlushedBy(calls[..n], f), AfterCall(calls[n]), Transmitted(f));
        WithConcat(FlushedBy(calls[..n], f), AfterCall(calls[n]), Freed);
      } else {
        assert FlushedBy(calls, f) == FlushedBy(calls[..n], f);
      }
    }
  }

  lemma {:induction false} TakenAndRefused(calls: seq<TxCall>, f: nat)
    ensures multiset(Taken(calls, f)) + multiset(Refused(calls, f)) == multiset(Offered(calls, f))
  {
    if calls != [] {
      var n := |calls| - 1;
      TakenAndRefused(calls[..n], f);
      var c := calls[n];
      assert c.offered == c.offered[..c.taken] + c.offered[c.taken..];
    }
  }

  // ---- KNI's side ----

  /** Whether there is a KNI, whether it takes its n-th packet, and how many it had been offered before. */
  datatype Kni = Kni(perform: bool, takes: nat -> bool, from: nat)

  /** The n-th packet offered is handed over exactly if KNI takes it, and freed otherwise. */
  function KniEntries(s: seq<Packet>, kni: Kni): (log: seq<Entry>)
    ensures |log| == |s|
    ensures forall i :: 0 <= i < |s| ==>
              log[i] == Entry(s[i], if kni.perform && kni.takes(kni.from + i) then HandedToKni else Freed)
  {
    seq(|s|, i requires 0 <= i < |s| => Entry(s[i], if kni.perform && kni.takes(kni.from + i) then HandedToKni else Freed))
  }

  // ---- The account ----

  /** Packets waiting in the burst buffers that go one way. */
  function Waiting(bursts: seq<seq<Packet>>, f: nat): seq<Packet> {
    if f < |bursts| then bursts[f] else []
  }

  /**
   Every packet of `done` has had exactly its outcome or waits in the buffer of its path. On each path the
   bursts offered so far and the waiting packets are the packets of that path, in order; what became of
   them is what the NIC made of each burst. KNI's packets end as KNI takes them, the others are freed.
   */
  ghost predicate Accounted(log: seq<Entry>, calls: seq<TxCall>, bursts: seq<seq<Packet>>, done: seq<Packet>, kni: Kni) {
    && (forall f: nat :: OnPath(log, calls, bursts, done, f))
    && EntriesOn(log, ToKni) == KniEntries(Only(done, ToKni), kni)
    && EntriesOn(log, ToDrop) == Each(Only(done, ToDrop), Freed)
    && (forall f, i :: 0 <= f < |bursts| && 0 <= i < |bursts[f]| ==> RouteOf(bursts[f][i]) == ToPath(f))
  }

  ghost predicate OnPath(log: seq<Entry>, calls: seq<TxCall>, bursts: seq<seq<Packet>>, done: seq<Packet>, f: nat) {
    && EntriesOn(log, ToPath(f)) == FlushedBy(calls, f)
    && Offered(calls, f) + Waiting(bursts, f) == Only(done, ToPath(f))
  }

  lemma OnlyAppend(s: seq<Packet>, p: Packet, r: Route)
    ensures Only(s + [p], r) == Only(s, r) + if RouteOf(p) == r then [p] else []
  {
  }

  lemma PacketsOfConcat(a: seq<Entry>, b: seq<Entry>)
    ensures PacketsOf(a + b) == PacketsOf(a) + PacketsOf(b)
  {
  }

  lemma QueueKeepsAccount(log: seq<Entry>, calls: seq<TxCall>, bursts: seq<seq<Packet>>, done: seq<Packet>, kni: Kni,
                          p: Packet, f: nat)
    requires Accounted(log, calls, bursts, done, kni) && f < |bursts| && RouteOf(p) == ToPath(f)
    ensures Accounted(log, calls, bursts[f := bursts[f] + [p]], done + [p], kni)
  {
    var after := bursts[f := bursts[f] + [p]];
    OnlyAppend(done, p, ToKni);
    OnlyAppend(done, p, ToDrop);
    forall g: nat
      ensures OnPath(log, calls, after, done + [p], g)
    {
      assert OnPath(log, calls, bursts, done, g);
      OnlyAppend(done, p, ToPath(g));
      if g == f {
        assert Offered(calls, f) + (bursts[f] + [p]) == Offered(calls, f) + bursts[f] + [p];
      }
    }
  }

  lemma CallAppends(calls: seq<TxCall>, c: TxCall, g: nat)
    ensures FlushedBy(calls + [c], g) == FlushedBy(calls, g) + if c.path == g then AfterCall(c) else []
    ensures Offered(calls + [c], g) == Offered(calls, g) + if c.path == g then c.offered else []
  {
    assert (calls + [c])[..|calls|] == calls;
  }

  lemma EntriesAfterCall(log: seq<Entry>, c: TxCall, r: Route)
    requires forall i :: 0 <= i < |c.offered| ==> RouteOf(c.offered[i]) == ToPath(c.path)
    ensures EntriesOn(log + AfterCall(c), r) == EntriesOn(log, r) + if r == ToPath(c.path) then AfterCall(c) else []
  {
    PacketsAfterCall(c);
    assert forall i :: 0 <= i < |AfterCall(c)| ==> AfterCall(c)[i].pkt == PacketsOf(AfterCall(c))[i];
    EntriesOnConcat(log, AfterCall(c), r);
    EntriesOnAll(AfterCall(c), ToPath(c.path), r);
  }

  lemma FlushKeepsPath(log: seq<Entry>, calls: seq<TxCall>, bursts: seq<seq<Packet>>, done: seq<Packet>, c: TxCall, g: nat)
    requires OnPath(log, calls, bursts, done, g) && c.path < |bursts| && c.offered == bursts[c.path]
    requires forall i :: 0 <= i < |c.offered| ==> RouteOf(c.offered[i]) == ToPath(c.path)
    ensures OnPath(log + AfterCall(c), calls + [c], bursts[c.path := []], done, g)
  {
    EntriesAfterCall(log, c, ToPath(g));
    CallAppends(calls, c, g);
    OfferMovesBurst(Offered(calls, g), bursts, c.path, g);
  }

  /** Offering a burst moves it from the waiting packets to those offered. */
  lemma OfferMovesBurst(offered: seq<Packet>, bursts: seq<seq<Packet>>, f: nat, g: nat)
    requires f < |bursts|
    ensures offered + (if f == g then bursts[f] else []) + Waiting(bursts[f := []], g) == offered + Waiting(bursts, g)
  {
  }

  lemma FlushKeepsAccount(log: seq<Entry>, calls: seq<TxCall>, bursts: seq<seq<Packet>>, done: seq<Packet>, kni: Kni, c: TxCall)
    requires Accounted(log, calls, bursts, done, kni) && c.path < |bursts| && c.offered == bursts[c.path]
    ensures Accounted(log + AfterCall(c), calls + [c], bursts[c.path := []], done, kni)
  {
    EntriesAfterCall(log, c, ToKni);
    EntriesAfterCall(log, c, ToDrop);
    var log', calls', bursts' := log + AfterCall(c), calls + [c], bursts[c.path := []];
    forall g: nat
      ensures OnPath(log', calls', bursts', done, g)
    {
      assert OnPath(log, calls, bursts, done, g);
      FlushKeepsPath(log, calls, bursts, done, c, g);
    }
  }

  /** The account since a mark, after a call to the NIC. */
  lemma CallKeepsAccount(log: seq<Entry>, calls: seq<TxCall>, bursts: seq<seq<Packet>>, done: seq<Packet>, kni: Kni, c: TxCall,
                         entries: nat, count: nat)
    requires entries <= |log| && count <= |calls| && c.path < |bursts| && c.offered == bursts[c.path]
    requires Accounted(log[entries..], calls[count..], bursts, done, kni)
    ensures Accounted((log + AfterCall(c))[entries..], (calls + [c])[count..], bursts[c.path := []], done, kni)
  {
    FlushKeepsAccount(log[entries..], calls[count..], bursts, done, kni, c);
    assert (log + AfterCall(c))[entries..] == log[entries..] + AfterCall(c);
    assert (calls + [c])[count..] == calls[count..] + [c];
  }

  lemma DirectKeepsPaths(log: seq<Entry>, calls: seq<TxCall>, bursts: seq<seq<Packet>>, done: seq<Packet>, e: Entry, f: nat)
    requires OnPath(log, calls, bursts, done, f) && !RouteOf(e.pkt).ToPath?
    ensures OnPath(log + [e], calls, bursts, done + [e.pkt], f)
  {
    OnlyAppend(done, e.pkt, ToPath(f));
    EntriesOnConcat(log, [e], ToPath(f));
    EntriesOnAll([e], RouteOf(e.pkt), ToPath(f));
  }

  /** What a packet that goes to no path comes to, as the next one after `done`. */
  function DirectOutcome(p: Packet, done: seq<Packet>, kni: Kni): Outcome {
    if RouteOf(p) == ToKni && kni.perform && kni.takes(kni.from + |Only(done, ToKni)|) then HandedToKni else Freed
  }

  lemma EntryAppend(log: seq<Entry>, e: Entry, r: Route)
    ensures EntriesOn(log + [e], r) == EntriesOn(log, r) + if RouteOf(e.pkt) == r then [e] else []
  {
    assert (log + [e])[..|log|] == log;
  }

  lemma KniAppend(s: seq<Packet>, p: Packet, kni: Kni)
    ensures KniEntries(s + [p], kni)
         == KniEntries(s, kni) + [Entry(p, if kni.perform && kni.takes(kni.from + |s|) then HandedToKni else Freed)]
  {
  }

  lemma DirectKeepsKni(log: seq<Entry>, done: seq<Packet>, kni: Kni, p: Packet)
    requires !RouteOf(p).ToPath? && EntriesOn(log, ToKni) == KniEntries(Only(done, ToKni), kni)
    ensures EntriesOn(log + [Entry(p, DirectOutcome(p, done, kni))], ToKni) == KniEntries(Only(done + [p], ToKni), kni)
  {
    OnlyAppend(done, p, ToKni);
    EntryAppend(log, Entry(p, DirectOutcome(p, done, kni)), ToKni);
    if RouteOf(p) == ToKni {
      KniAppend(Only(done, ToKni), p, kni);
    }
  }

  lemma DirectKeepsDrops(log: seq<Entry>, done: seq<Packet>, p: Packet, o: Outcome)
    requires EntriesOn(log, ToDrop) == Each(Only(done, ToDrop), Freed) && (RouteOf(p) == ToDrop ==> o == Freed)
    ensures EntriesOn(log + [Entry(p, o)], ToDrop) == Each(Only(done + [p], ToDrop), Freed)
  {
    OnlyAppend(done, p, ToDrop);
    EntryAppend(log, Entry(p, o), ToDrop);
    if RouteOf(p) == ToDrop {
      EachAppend(Only(done, ToDrop), p, Freed);
    }
  }

  lemma EachAppend(s: seq<Packet>, p: Packet, o: Outcome)
    ensures Each(s + [p], o) == Each(s, o) + [Entry(p, o)]
  {
  }

  lemma DirectKeepsAccount(log: seq<Entry>, calls: seq<TxCall>, bursts: seq<seq<Packet>>, done: seq<Packet>, kni: Kni, p: Packet)
    requires Accounted(log, calls, bursts, done, kni) && !RouteOf(p).ToPath?
    ensures Accounted(log + [Entry(p, DirectOutcome(p, done, kni))], calls, bursts, done + [p], kni)
  {
    var e := Entry(p, DirectOutcome(p, done, kni));
    var log', done' := log + [e], done + [p];
    forall f: nat
      ensures OnPath(log', calls, bursts, done', f)
    {
      assert OnPath(log, calls, bursts, done, f);
      DirectKeepsPaths(log, calls, bursts, done, e, f);
    }
    DirectKeepsKni(log, done, kni, p);
    DirectKeepsDrops(log, done, p, e.outcome);
  }

  ghost predicate AllEmpty(bursts: seq<seq<Packet>>) {
    forall f :: 0 <= f < |bursts| ==> bursts[f] == []
  }

  lemma RouteConserved(log: seq<Entry>, calls: seq<TxCall>, bursts: seq<seq<Packet>>, done: seq<Packet>, kni: Kni, r: Route)
    requires Accounted(log, calls, bursts, done, kni) && AllEmpty(bursts)
    ensures Only(PacketsOf(log), r) == Only(done, r)
  {
    PacketsOfEntriesOn(log, r);
    if r.ToPath? {
      assert OnPath(log, calls, bursts, done, r.path);
      FlushedPackets(calls, r.path);
    } else {
      assert PacketsOf(EntriesOn(log, r)) == Only(done, r);
    }
  }

  /** Once the buffers are empty, every packet has ended exactly once and, path by path, in order. */
  lemma EmptyBuffersConserve(log: seq<Entry>, calls: seq<TxCall>, bursts: seq<seq<Packet>>, done: seq<Packet>, kni: Kni)
    requires Accounted(log, calls, bursts, done, kni) && AllEmpty(bursts)
    ensures multiset(PacketsOf(log)) == multiset(done)
    ensures forall r :: Only(PacketsOf(log), r) == Only(done, r)
  {
    forall r
      ensures Only(PacketsOf(log), r) == Only(done, r)
    {
      RouteConserved(log, calls, bursts, done, kni, r);
    }
    SameRoutesSamePackets(PacketsOf(log), done);
  }

  /**
   Once the buffers are empty, the bursts offered on a path are together the packets of that path, in order. Of
   every burst the packets transmitted are the prefix the NIC took, and the packets freed are the rest.
   */
  lemma EmptyBuffersSplit(log: seq<Entry>, calls: seq<TxCall>, bursts: seq<seq<Packet>>, done: seq<Packet>, kni: Kni, f: nat)
    requires Accounted(log, calls, bursts, done, kni) && AllEmpty(bursts)
    ensures Offered(calls, f) == Only(done, ToPath(f))
    ensures With(EntriesOn(log, ToPath(f)), Transmitted(f)) == Taken(calls, f)
    ensures With(EntriesOn(log, ToPath(f)), Freed) == Refused(calls, f)
  {
    assert OnPath(log, calls, bursts, done, f);
    NicOwnsWhatItTook(calls, f);
  }

  /** So if no two packets are the same, none is both handed to the NIC and freed. */
  lemma {:induction false} NoPacketTwice(calls: seq<TxCall>, f: nat, p: Packet)
    requires multiset(Offered(calls, f))[p] <= 1 && p in Taken(calls, f)
    ensures p !in Refused(calls, f)
  {
    TakenAndRefused(calls, f);
    assert p in multiset(Taken(calls, f));
    assert p in Refused(calls, f) <==> p in multiset(Refused(calls, f));
  }

  // ---- The loop, on arrays ----

  class Distributor {
    const paths: nat
    const performKni: bool
    /** How many packets the NIC takes of its n-th burst if it is offered that many, and whether KNI takes its n-th packet. */
    const nicTakes: nat -> nat
    const kniTakes: nat -> bool
    const slots: array2<Packet>
    const numPackets: array<nat>
    /** What the NIC was offered and took, how many packets KNI was offered, and what became of every packet. */
    var calls: seq<TxCall>
    var kniCalls: nat
    var log: seq<Entry>

    ghost predicate Willing() {
      (forall n: nat :: nicTakes(n) >= PKT_BURST_SZ) && forall n: nat :: kniTakes(n)
    }

    /** The n-th burst offered to the NIC was not empty and not too large, and the NIC took what it takes of it. */
    ghost predicate CallOk(c: TxCall, n: nat) {
      && c.path < paths && 0 < |c.offered| <= 32
      && c.taken == if nicTakes(n) < |c.offered| then nicTakes(n) else |c.offered|
    }

    ghost predicate Shaped()
      reads numPackets
    {
      && slots.Length0 == paths && slots.Length1 == PKT_BURST_SZ && numPackets.Length == paths
      && forall f :: 0 <= f < paths ==> numPackets[f] <= PKT_BURST_SZ
    }

    ghost predicate Valid()
      reads numPackets, this`calls
    {
      Shaped() && forall n :: 0 <= n < |calls| ==> CallOk(calls[n], n)
    }

    /** No buffer is full, so there is room for one more packet in each. */
    ghost predicate HasRoom()
      reads numPackets, this`calls
    {
      Valid() && forall f :: 0 <= f < paths ==> numPackets[f] < PKT_BURST_SZ
    }

    ghost function Burst(f: nat): (s: seq<Packet>)
      reads slots, numPackets
      requires Shaped() && f < paths
      ensures |s| == numPackets[f]
    {
      var n := numPackets[f];
      seq(n, i requires 0 <= i < n reads slots => slots[f, i])
    }

    ghost function Bursts(): (s: seq<seq<Packet>>)
      reads slots, numPackets
      requires Shaped()
      ensures |s| == paths && forall f :: 0 <= f < paths ==> s[f] == Burst(f)
    {
      seq(paths, f requires 0 <= f < paths reads slots, numPackets requires Shaped() => Burst(f))
    }

    constructor (paths: nat, performKni: bool, nicTakes: nat -> nat, kniTakes: nat -> bool)
      ensures Valid() && HasRoom() && log == [] && calls == [] && kniCalls == 0
      ensures this.paths == paths && this.performKni == performKni
      ensures this.nicTakes == nicTakes && this.kniTakes == kniTakes
      ensures forall f :: 0 <= f < paths ==> Burst(f) == []
    {
      this.paths, this.performKni, this.nicTakes, this.kniTakes := paths, performKni, nicTakes, kniTakes;
      calls, kniCalls, log := [], 0, [];
      slots := new Packet[paths, PKT_BURST_SZ];
      numPackets := new nat[paths](i => 0);
    }

    /** `rte_eth_tx_burst`: the NIC takes the first packets of the burst and says how many. */
    method TransmitBurst(f: nat, burst: seq<Packet>) returns (sent: nat)
      requires Valid() && f < paths && 0 < |burst| <= PKT_BURST_SZ
      modifies this`log, this`calls
      ensures sent == if nicTakes(|old(calls)|) < |burst| then nicTakes(|old(calls)|) else |burst|
      ensures Valid() && calls == old(calls) + [Tx(f, burst, sent)]
      ensures log == old(log) + Each(burst[..sent], Transmitted(f))
    {
      sent := nicTakes(|calls|);
      if sent > |burst| {
        sent := |burst|;
      }
      calls := calls + [Tx(f, burst, sent)];
      log := log + Each(burst[..sent], Transmitted(f));
    }

    /** `burst_free_missed_mbufs`: frees the packets from `sent` on, one by one. */
    method FreeMissed(pkts: seq<Packet>, sent: nat)
      requires sent <= |pkts|
      modifies this`log
      ensures log == old(log) + Each(pkts[sent..], Freed)
    {
      for i := sent to |pkts|
        invariant log == old(log) + Each(pkts[sent..i], Freed)
      {
        log := log + [Entry(pkts[i], Freed)];
        assert Each(pkts[sent..i + 1], Freed) == Each(pkts[sent..i], Freed) + [Entry(pkts[i], Freed)];
      }
    }

    /**
     `flush_packet_burst`: the NIC is handed the first packets of the buffer, as many as it takes; the others are
     freed, and the buffer is empty.
     */
    method Flush(f: nat)
      requires Valid() && f < paths
      modifies this`log, this`calls, numPackets
      ensures Valid() && Bursts() == old(Bursts())[f := []]
      ensures var b, n := old(Burst(f)), |old(calls)|;
              if b == [] then log == old(log) && calls == old(calls)
              else
                var k := if nicTakes(n) < |b| then nicTakes(n) else |b|;
                && calls == old(calls) + [Tx(f, b, k)]
                && log == old(log) + (Each(b[..k], Transmitted(f)) + Each(b[k..], Freed))
    {
      ghost var before := Bursts();
      if numPackets[f] > 0 {
        var burst := ReadBurst(f);
        var sent := TransmitBurst(f, burst);
        FreeMissed(burst, sent);
        numPackets[f] := 0;
      }
      assert forall g :: 0 <= g < paths && g != f ==> Burst(g) == before[g];
      assert Burst(f) == [];
    }

    method ReadBurst(f: nat) returns (s: seq<Packet>)
      requires Valid() && f < paths
      ensures s == Burst(f)
    {
      s := [];
      for i := 0 to numPackets[f]
        invariant |s| == i && forall k :: 0 <= k < i ==> s[k] == slots[f, k]
      {
        s := s + [slots[f, i]];
      }
    }

    /** Where the log, the NIC's calls and KNI's count stood at the start of a round. */
    ghost predicate AccountedSince(base: Mark, done: seq<Packet>)
      reads this`log, this`calls, this`kniCalls, slots, numPackets
      requires Shaped()
    {
      && base.entries <= |log| && base.calls <= |calls|
      && kniCalls == base.kni + (if performKni then |Only(done, ToKni)| else 0)
      && Accounted(log[base.entries..], calls[base.calls..], Bursts(), done, Kni(performKni, kniTakes, base.kni))
    }

    /** The buffer of a path takes one more packet; it is flushed as soon as it is full. */
    method Queue(pkt: Packet, f: nat, ghost base: Mark, ghost done: seq<Packet>)
      requires HasRoom() && f < paths && RouteOf(pkt) == ToPath(f) && AccountedSince(base, done)
      modifies this`log, this`calls, slots, numPackets
      ensures HasRoom() && AccountedSince(base, done + [pkt])
      ensures OutcomesOk(old(log), log) && old(calls) <= calls && FullFrom(calls[|old(calls)|..], 0)
    {
      Append(pkt, f);
      QueueKeepsAccount(log[base.entries..], calls[base.calls..], old(Bursts()), done,
                        Kni(performKni, kniTakes, base.kni), pkt, f);
      OnlyAppend(done, pkt, ToKni);
      if numPackets[f] == PKT_BURST_SZ {
        FlushAccounted(f, base, done + [pkt]);
      }
    }

    method Append(pkt: Packet, f: nat)
      requires HasRoom() && f < paths
      modifies slots, numPackets
      ensures Valid() && Bursts() == old(Bursts())[f := old(Burst(f)) + [pkt]]
      ensures numPackets[f] == old(numPackets[f]) + 1
      ensures forall g :: 0 <= g < paths && g != f ==> numPackets[g] == old(numPackets[g])
    {
      ghost var before := Bursts();
      slots[f, numPackets[f]] := pkt;
      numPackets[f] := numPackets[f] + 1;
      assert forall g :: 0 <= g < paths && g != f ==> Burst(g) == before[g];
      assert Burst(f) == before[f] + [pkt];
    }

    /** The entries added to the log since `before` are right for their packets. */
    ghost predicate OutcomesOk(before: seq<Entry>, now: seq<Entry>) {
      before <= now && forall i :: |before| <= i < |now| ==> OutcomeOk(now[i], performKni, Willing())
    }

    method FlushAccounted(f: nat, ghost base: Mark, ghost done: seq<Packet>)
      requires Valid() && f < paths && AccountedSince(base, done)
      modifies this`log, this`calls, numPackets
      ensures Valid() && AccountedSince(base, done)
      ensures OutcomesOk(old(log), log) && |old(calls)| <= |calls| <= |old(calls)| + 1 && old(calls) <= calls
      ensures |calls| > |old(calls)| ==> calls[|old(calls)|].path == f && |calls[|old(calls)|].offered| == old(numPackets[f])
      ensures numPackets[f] == 0 && forall g :: 0 <= g < paths && g != f ==> numPackets[g] == old(numPackets[g])
    {
      ghost var bursts := Bursts();
      Flush(f);
      if bursts[f] == [] {
        assert bursts[f := []] == bursts;
      } else {
        ghost var c := calls[|old(calls)|];
        assert calls == old(calls) + [c] && log == old(log) + AfterCall(c);
        CallKeepsAccount(old(log), old(calls), bursts, done, Kni(performKni, kniTakes, base.kni), c, base.entries, base.calls);
      }
      assert numPackets[f] == |Bursts()[f]|;
      forall g | 0 <= g < paths && g != f
        ensures numPackets[g] == old(numPackets[g])
      {
        assert numPackets[g] == |Bursts()[g]| == |bursts[g]|;
      }
    }

    /** One returned packet: to KNI, freed, or into the buffer of its path. */
    method Shard(pkt: Packet, ghost base: Mark, ghost done: seq<Packet>)
      requires HasRoom() && Tagged(pkt, paths) && AccountedSince(base, done)
      modifies this`log, this`calls, this`kniCalls, slots, numPackets
      ensures HasRoom() && AccountedSince(base, done + [pkt])
      ensures OutcomesOk(old(log), log) && old(calls) <= calls && FullFrom(calls[|old(calls)|..], 0)
    {
      var target := pkt.target;
      TagsReadBack(pkt, paths);
      if target == TARGET_KNI && performKni {
        var taken := kniTakes(kniCalls);
        kniCalls := kniCalls + 1;
        Settle(pkt, if taken then HandedToKni else Freed, base, done);
      } else if target == TARGET_KNI || target == TARGET_DROP {
        Settle(pkt, Freed, base, done);
      } else {
        Queue(pkt, GetTargetFlowPath(target), base, done);
      }
    }

    /** A packet that goes to no path ends at once. */
    method Settle(pkt: Packet, o: Outcome, ghost base: Mark, ghost done: seq<Packet>)
      requires HasRoom() && !RouteOf(pkt).ToPath? && OutcomeOk(Entry(pkt, o), performKni, Willing())
      requires base.entries <= |log| && base.calls <= |calls|
      requires kniCalls == base.kni + (if performKni then |Only(done + [pkt], ToKni)| else 0)
      requires Accounted(log[base.entries..], calls[base.calls..], Bursts(), done, Kni(performKni, kniTakes, base.kni))
      requires o == DirectOutcome(pkt, done, Kni(performKni, kniTakes, base.kni))
      modifies this`log
      ensures HasRoom() && AccountedSince(base, done + [pkt])
      ensures OutcomesOk(old(log), log)
    {
      DirectKeepsAccount(log[base.entries..], calls[base.calls..], Bursts(), done, Kni(performKni, kniTakes, base.kni), pkt);
      log := log + [Entry(pkt, o)];
      assert log[base.entries..] == old(log)[base.entries..] + [Entry(pkt, o)];
      assert Bursts() == old(Bursts());
    }

    ghost predicate Empty()
      reads numPackets, this`calls
    {
      Valid() && forall f :: 0 <= f < paths ==> numPackets[f] == 0
    }

    /**
     One round of `processor_rx_dist_tx` over the packets the workers returned. Every packet ends exactly
     once and rightly, packets of one path keep their order, and all buffers are empty again. On each path the
     NIC is offered the path's packets in bursts that are full but for the last; it is handed the prefix it takes
     of every burst, and the rest of the burst is freed. The n-th packet for KNI is handed over exactly if KNI
     takes it.
     */
    method Round(returned: seq<Packet>)
      requires Empty() && forall i :: 0 <= i < |returned| ==> Tagged(returned[i], paths)
      modifies this`log, this`calls, this`kniCalls, slots, numPackets
      ensures Empty() && OutcomesOk(old(log), log) && old(calls) <= calls && FullButLast(calls[|old(calls)|..])
      ensures multiset(PacketsOf(log[|old(log)|..])) == multiset(returned)
      ensures forall r :: Only(PacketsOf(log[|old(log)|..]), r) == Only(returned, r)
      ensures forall f: nat :: SplitOn(Mark(|old(log)|, |old(calls)|, old(kniCalls)), returned, f)
      ensures EntriesOn(log[|old(log)|..], ToKni)
           == KniEntries(Only(returned, ToKni), Kni(performKni, kniTakes, old(kniCalls)))
      ensures EntriesOn(log[|old(log)|..], ToDrop) == Each(Only(returned, ToDrop), Freed)
    {
      ghost var base := Mark(|log|, |calls|, kniCalls);
      StartsAccounted(Bursts(), Kni(performKni, kniTakes, kniCalls));
      assert log[base.entries..] == [] && calls[base.calls..] == [];
      ShardAll(returned, base);
      FlushAll(base, returned);
      Conserved(base, returned);
    }

    /** The loop over the returned packets. */
    method ShardAll(returned: seq<Packet>, ghost base: Mark)
      requires HasRoom() && AccountedSince(base, []) && forall i :: 0 <= i < |returned| ==> Tagged(returned[i], paths)
      modifies this`log, this`calls, this`kniCalls, slots, numPackets
      ensures HasRoom() && AccountedSince(base, returned)
      ensures OutcomesOk(old(log), log) && old(calls) <= calls && FullFrom(calls[|old(calls)|..], 0)
    {
      for i := 0 to |returned|
        invariant HasRoom() && AccountedSince(base, returned[..i])
        invariant OutcomesOk(old(log), log) && old(calls) <= calls && FullFrom(calls[|old(calls)|..], 0)
      {
        Shard(returned[i], base, returned[..i]);
        assert returned[..i + 1] == returned[..i] + [returned[i]];
      }
      assert returned[..|returned|] == returned;
    }

    /** The loop over the paths at the end of a round. */
    method FlushAll(ghost base: Mark, ghost done: seq<Packet>)
      requires Valid() && AccountedSince(base, done) && FullFrom(calls[base.calls..], 0)
      modifies this`log, this`calls, numPackets
      ensures Empty() && AccountedSince(base, done)
      ensures OutcomesOk(old(log), log) && old(calls) <= calls && FullButLast(calls[base.calls..])
    {
      for f := 0 to paths
        invariant Valid() && AccountedSince(base, done)
        invariant OutcomesOk(old(log), log) && old(calls) <= calls
        invariant FullFrom(calls[base.calls..], f) && FullButLast(calls[base.calls..])
        invariant forall g :: 0 <= g < f ==> numPackets[g] == 0
      {
        ghost var before := calls;
        FlushAccounted(f, base, done);
        OneMoreFlush(before, calls, base.calls, f);
      }
    }

    /** What was done on a path since `base`: the NIC was handed a prefix of every burst, and the rest was freed. */
    ghost predicate SplitOn(base: Mark, done: seq<Packet>, f: nat)
      reads this`log, this`calls
    {
      && base.entries <= |log| && base.calls <= |calls|
      && var added, now := log[base.entries..], calls[base.calls..];
         && Offered(now, f) == Only(done, ToPath(f))
         && With(EntriesOn(added, ToPath(f)), Transmitted(f)) == Taken(now, f)
         && With(EntriesOn(added, ToPath(f)), Freed) == Refused(now, f)
    }

    lemma Conserved(base: Mark, done: seq<Packet>)
      requires Empty() && AccountedSince(base, done)
      ensures multiset(PacketsOf(log[base.entries..])) == multiset(done)
      ensures forall r :: Only(PacketsOf(log[base.entries..]), r) == Only(done, r)
      ensures forall f: nat :: SplitOn(base, done, f)
    {
      var kni := Kni(performKni, kniTakes, base.kni);
      EmptyBuffersConserve(log[base.entries..], calls[base.calls..], Bursts(), done, kni);
      forall f: nat
        ensures SplitOn(base, done, f)
      {
        EmptyBuffersSplit(log[base.entries..], calls[base.calls..], Bursts(), done, kni, f);
      }
    }
  }

  /** A point in the history of the loop. */
  datatype Mark = Mark(entries: nat, calls: nat, kni: nat)

  lemma StartsAccounted(bursts: seq<seq<Packet>>, kni: Kni)
    requires AllEmpty(bursts)
    ensures Accounted([], [], bursts, [], kni)
  {
    forall f: nat
      ensures OnPath([], [], bursts, [], f)
    {
    }
  }
}
