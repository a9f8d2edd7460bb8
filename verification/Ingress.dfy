/**
 A frame at a director, from the wire to the owner: the classifier leads it to a table, the table to
 a hop list, and the proxies to the host that owns the connection. Which of several matching rules
 the classifier's library picks is left open, so everything is stated for whichever it picks.
 */
module Ingress {
  import opened Bytes
  import opened PacketParsing
  import opened Encap
  import opened EndToEnd
  import BindClassifier
  import ProxyChain
  import Redirect
  import SecondChance
  import TableBuilder

  /** One table of the configuration and the binds that lead to it. */
  datatype Service = Service(table: Table, binds: seq<BindClassifier.Bind>)

  function BindsOf(services: seq<Service>): (tables: seq<seq<BindClassifier.Bind>>)
    ensures |tables| == |services| && forall t :: 0 <= t < |tables| ==> tables[t] == services[t].binds
  {
    seq(|services|, t requires 0 <= t < |services| => services[t].binds)
  }

  /** The rules the director loads for one family. */
  function RulesFor(services: seq<Service>, f: Family, ping: bool): seq<BindClassifier.Rule> {
    BindClassifier.AllRules(BindsOf(services), |services|, f, ping)
  }

  /** The buffer a frame lies in: the frame, and whatever is behind a short one. */
  predicate Holds(buf: seq<byte>, frame: seq<byte>) {
    frame <= buf && |buf| >= MAX_PARSED_HEADER_SIZE
  }

  lemma SegmentInBuffer(buf: seq<byte>, frame: seq<byte>, w: Flow)
    requires Holds(buf, frame) && IsSegment(frame, w)
    ensures IsSegment(buf, w)
  {
    assert forall i, j :: 0 <= i <= j <= |frame| ==> buf[i..j] == frame[i..j];
  }

  lemma MessageInBuffer(buf: seq<byte>, frame: seq<byte>, w: Flow)
    requires Holds(buf, frame) && IsTooBigAbout(frame, w)
    ensures IsTooBigAbout(buf, w)
  {
    assert forall i, j :: 0 <= i <= j <= |frame| ==> buf[i..j] == frame[i..j];
  }

  /** Whichever matching rule is picked, the frame goes to table `svc`, and some rule does match. */
  ghost predicate LedTo(services: seq<Service>, ping: bool, f: Family, buf: seq<byte>, svc: nat)
    requires |buf| >= MAX_PARSED_HEADER_SIZE
  {
    forall t: nat :: BindClassifier.CaughtBy(RulesFor(services, f, ping), BindClassifier.KeyOf(buf, f), t) <==> t == svc
  }

  /** Table `svc`, and no other, has a bind for the flow. */
  ghost predicate OnlyService(services: seq<Service>, svc: nat, w: Flow) {
    svc < |services| && forall t :: 0 <= t < |services| ==> (BindClassifier.Serves(services[t].binds, w) <==> t == svc)
  }

  lemma SegmentLedTo(services: seq<Service>, svc: nat, ping: bool, buf: seq<byte>, w: Flow)
    requires |buf| >= MAX_PARSED_HEADER_SIZE && IsSegment(buf, w) && OnlyService(services, svc, w)
    ensures LedTo(services, ping, w.family, buf, svc)
  {
    forall t: nat
      ensures BindClassifier.CaughtBy(RulesFor(services, w.family, ping), BindClassifier.KeyOf(buf, w.family), t) <==> t == svc
    {
      BindClassifier.SegmentTables(buf, w, BindsOf(services), ping, t);
    }
  }

  /** The message is taken by exactly the tables with a bind for the flow: none is stray, none is missed. */
  ghost predicate TakenAlike(services: seq<Service>, buf: seq<byte>, w: Flow)
    requires |buf| >= MAX_PARSED_HEADER_SIZE
  {
    BindClassifier.NoStrayTable(BindsOf(services), buf, w) && BindClassifier.NoMissedTable(BindsOf(services), buf, w)
  }

  lemma MessageLedTo(services: seq<Service>, svc: nat, ping: bool, buf: seq<byte>, w: Flow)
    requires |buf| >= MAX_PARSED_HEADER_SIZE && IsTooBigAbout(buf, w)
    requires w.proto != BindClassifier.Icmp(w.family)
    requires OnlyService(services, svc, w) && TakenAlike(services, buf, w)
    ensures LedTo(services, ping, w.family, buf, svc)
  {
    BindClassifier.SameBindsExactly(BindsOf(services), buf, w);
    forall t: nat
      ensures BindClassifier.CaughtBy(RulesFor(services, w.family, ping), BindClassifier.KeyOf(buf, w.family), t) <==> t == svc
    {
      BindClassifier.MessageTables(buf, w, BindsOf(services), ping, t);
    }
  }

  /** A segment of the connection, or a message about it that the connection's table takes and no other. */
  ghost predicate ComesInFor(buf: seq<byte>, frame: seq<byte>, services: seq<Service>, w: Flow, ackOnly: bool) {
    && Holds(buf, frame) && w.proto != BindClassifier.Icmp(w.family)
    && (|| IsDataSegment(frame, w, ackOnly)
        || (&& IsTooBigAbout(frame, w) && !ackOnly
            && TakenAlike(services, buf, w)))
  }

  lemma FrameLedTo(services: seq<Service>, svc: nat, ping: bool, buf: seq<byte>, frame: seq<byte>, w: Flow, ackOnly: bool)
    requires ComesInFor(buf, frame, services, w, ackOnly) && OnlyService(services, svc, w)
    ensures LedTo(services, ping, w.family, buf, svc)
  {
    if IsDataSegment(frame, w, ackOnly) {
      SegmentInBuffer(buf, frame, w);
      SegmentLedTo(services, svc, ping, buf, w);
    } else {
      MessageInBuffer(buf, frame, w);
      MessageLedTo(services, svc, ping, buf, w);
    }
  }

  /**
   A packet-too-big message is led to the same tables as the flow's segments if and only if there is no
   stray table and no missed one. By every table it is given the same hash, hop list and outer source port as the segments,
   under every choice of hash fields, and the proxies look up the same tuple for both.
   */
  lemma TooBigFollowsFlow(services: seq<Service>, ping: bool, cfg: HashConfig, seg: seq<byte>, msg: seq<byte>,
                          segBuf: seq<byte>, msgBuf: seq<byte>, w: Flow, ackOnly: bool)
    requires IsDataSegment(seg, w, ackOnly) && IsTooBigAbout(msg, w)
    requires Holds(segBuf, seg) && Holds(msgBuf, msg)
    ensures BindClassifier.SameTables(RulesFor(services, w.family, ping), BindClassifier.KeyOf(segBuf, w.family),
                                      BindClassifier.KeyOf(msgBuf, w.family))
            <==> TakenAlike(services, msgBuf, w)
    ensures forall t | 0 <= t < |services| && ValidTable(services[t].table) :: RoutedAlike(services[t].table, cfg, seg, msg)
    ensures InnerOfFamily(w.family, seg[14..]) == Redirect.Segment(TupleOf(w), false, ackOnly)
    ensures InnerOfFamily(w.family, msg[14..]) == Redirect.Segment(TupleOf(w), false, false)
  {
    SegmentInBuffer(segBuf, seg, w);
    MessageInBuffer(msgBuf, msg, w);
    BindClassifier.ClassifiedAlikeExactly(segBuf, msgBuf, w, BindsOf(services), ping);
    forall t | 0 <= t < |services| && ValidTable(services[t].table)
      ensures RoutedAlike(services[t].table, cfg, seg, msg)
    {
      TooBigRoutedAlike(services[t].table, cfg, seg, msg, w, ackOnly);
    }
    ProxiesLookUpFlow(seg, w, ackOnly);
    ProxiesLookUpFlow(msg, w, false);
  }

  /**
   The law GLB is built for, on bytes: after every run of opens, closes, status changes, additions and
   removals, whatever comes in for a live connection at any director is led to the connection's table,
   whichever matching rule is picked, and what the director then sends ends at the host that owns the
   connection and is accepted there, with the original packet intact.
   */
  lemma OwnerAcceptsAfterEveryRun<D>(su: SecondChance.Setup<Addr, Flow>, s: SecondChance.State<Addr, Flow, D>,
                                     events: seq<SecondChance.Event<Addr, Flow, D>>, dir: D,
                                     backends: seq<TableBuilder.Backend<Addr>>, services: seq<Service>, svc: nat, ping: bool,
                                     d: Director, cfg: HashConfig, buf: seq<byte>, frame: seq<byte>, sums: Sums, w: Flow,
                                     ackOnly: bool, net: ProxyChain.Net)
    requires SecondChance.Valid(su, s) && s.conns == map[] && SecondChance.IsRun(su, s, events)
    requires OnlyService(services, svc, w) && ComesInFor(buf, frame, services, w, ackOnly)
    requires Runs(su, SecondChance.After(su, s, events), dir, backends, services[svc].table, cfg.fields, w)
    requires var now := SecondChance.After(su, s, events);
             && w in now.conns
             && forall h {:trigger net(h)} | h in now.backends :: net(h).Knows(TupleOf(w), ackOnly) <==> h == now.conns[w]
    requires ValidDirector(d) && ValidSums(sums)
    ensures LedTo(services, ping, w.family, buf, svc) && Extract(frame).Some?
    ensures AcceptedBy(Sent(d, services[svc].table, cfg, frame, sums), net, SecondChance.After(su, s, events).conns[w],
                       frame[14..])
  {
    FrameLedTo(services, svc, ping, buf, frame, w, ackOnly);
    OwnerAcceptsFromTable(su, s, events, dir, backends, services[svc].table, d, cfg, frame, sums, w, ackOnly, net);
  }
}
