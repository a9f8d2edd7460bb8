/**
 A new host rolled out director by director: while some directors still have the old table and others
 already the new one, both are in use. This says exactly which connections, opened through either
 table, are delivered through the other, and how a rollout loses none.
 */
module Rollout {
  import opened Rendezvous
  import HopChain
  import SecondChance

  /** The hosts of the old table, and the one the new table adds. */
  datatype Plan<!H, !F> = Plan(score: ScoreFn<H>, rowOf: F -> nat, hosts: set<H>, added: H)

  /** Directors with their views, those that already have the new table, and the live connections. */
  datatype State<H, F, D> = State(views: map<D, View<H>>, moved: set<D>, conns: map<F, H>)

  datatype Event<H, F, D> =
    | Open(dir: D, flow: F)
    | Close(flow: F)
    | SetStatus(dir: D, host: H, status: Status)
    | Move(dir: D, status: Status)               // the director loads the new table

  ghost predicate ValidPlan<H, F>(pl: Plan<H, F>) {
    |pl.hosts| >= 2 && pl.added !in pl.hosts && NoTies(pl.score, pl.hosts + {pl.added})
  }

  ghost function Hosts<H, F>(pl: Plan<H, F>, moved: bool): set<H> {
    if moved then pl.hosts + {pl.added} else pl.hosts
  }

  lemma HostsArePairable<H, F>(pl: Plan<H, F>, moved: bool)
    requires ValidPlan(pl)
    ensures |Hosts(pl, moved)| >= 2 && NoTies(pl.score, Hosts(pl, moved))
  {
    AdditionIsMinimal(pl.score, 0, pl.hosts, pl.added);
  }

  ghost predicate Valid<H, F, D>(pl: Plan<H, F>, s: State<H, F, D>) {
    ValidPlan(pl) && forall d | d in s.views :: SecondChance.CoversBackends(s.views[d], Hosts(pl, d in s.moved))
  }

  // ---- Rows of both tables ----

  /** The ranked pair of a flow's row, in the new table or the old. */
  ghost function PairOf<H, F>(pl: Plan<H, F>, moved: bool, f: F): (H, H)
    requires ValidPlan(pl)
  {
    HostsArePairable(pl, moved);
    Pair(pl.score, pl.rowOf(f), Hosts(pl, moved))
  }

  ghost predicate InPair<H, F>(pl: Plan<H, F>, moved: bool, f: F, x: H)
    requires ValidPlan(pl)
  {
    x == PairOf(pl, moved, f).0 || x == PairOf(pl, moved, f).1
  }

  /** The host is in the flow's row of both tables. */
  ghost predicate Common<H, F>(pl: Plan<H, F>, f: F, x: H)
    requires ValidPlan(pl)
  {
    InPair(pl, false, f, x) && InPair(pl, true, f, x)
  }

  /** The old first host always is, the old second exactly when the new host stays out; and no other. */
  lemma CommonExactly<H, F>(pl: Plan<H, F>, f: F, x: H)
    requires ValidPlan(pl)
    ensures var (p, q) := PairOf(pl, false, f);
            Common(pl, f, x) <==> x == p || (x == q && !InPair(pl, true, f, pl.added))
  {
    AdditionIsMinimal(pl.score, pl.rowOf(f), pl.hosts, pl.added);
  }

  /** All of a new row's hosts but the new one are hosts of the old row. */
  lemma NewRowIsOldButForAdded<H, F>(pl: Plan<H, F>, f: F, x: H)
    requires ValidPlan(pl) && InPair(pl, true, f, x)
    ensures Common(pl, f, x) <==> x != pl.added
  {
    AdditionIsMinimal(pl.score, pl.rowOf(f), pl.hosts, pl.added);
  }

  // ---- Delivery ----

  ghost function Hops<H, F, D>(pl: Plan<H, F>, s: State<H, F, D>, d: D, f: F): (hops: seq<H>)
    requires Valid(pl, s) && d in s.views
    ensures |hops| == 2 && hops[0] != hops[1]
    ensures {hops[0], hops[1]} == {PairOf(pl, d in s.moved, f).0, PairOf(pl, d in s.moved, f).1}
  {
    var (p, q) := PairOf(pl, d in s.moved, f);
    HostsArePairable(pl, d in s.moved);
    var (a, b) := Entry(s.views[d], p, q);
    [a, b]
  }

  /** The flow's owner, and no other host, knows it. */
  ghost predicate OnlyOwnerKnows<H, F>(pl: Plan<H, F>, knows: H -> bool, owner: H) {
    forall h {:trigger knows(h)} | h in Hosts(pl, true) :: knows(h) <==> h == owner
  }

  lemma DeliveredExactly<H, F, D>(pl: Plan<H, F>, s: State<H, F, D>, d: D, f: F, owner: H, knows: H -> bool)
    requires Valid(pl, s) && d in s.views && OnlyOwnerKnows(pl, knows, owner)
    ensures HopChain.Delivered(Hops(pl, s, d, f), knows) <==> InPair(pl, d in s.moved, f, owner)
  {
    var hops := Hops(pl, s, d, f);
    assert hops[0] in {hops[0], hops[1]} && hops[1] in {hops[0], hops[1]};
    HostsArePairable(pl, d in s.moved);
    assert hops == [hops[0], hops[1]];
    HopChain.PairDelivers(hops[0], hops[1], knows, owner);
  }

  /** A connection opened through one table is delivered through the other exactly when it lands in both rows. */
  lemma OpenedThroughOtherExactly<H, F, D>(pl: Plan<H, F>, s: State<H, F, D>, d: D, e: D, f: F, knows: H -> bool)
    requires Valid(pl, s) && d in s.views && e in s.views && (d in s.moved) != (e in s.moved)
    requires OnlyOwnerKnows(pl, knows, Hops(pl, s, d, f)[0])
    ensures HopChain.Delivered(Hops(pl, s, e, f), knows) <==> Common(pl, f, Hops(pl, s, d, f)[0])
  {
    var owner := Hops(pl, s, d, f)[0];
    assert owner in {Hops(pl, s, d, f)[0], Hops(pl, s, d, f)[1]};
    DeliveredExactly(pl, s, e, f, owner, knows);
  }

  /**
   Opened through the old table: delivered through the new one exactly when the old row was not swapped or the
   new host stays out of it.
   */
  lemma OpenedThroughOldExactly<H, F, D>(pl: Plan<H, F>, s: State<H, F, D>, d: D, e: D, f: F, knows: H -> bool)
    requires Valid(pl, s) && d in s.views && e in s.views && d !in s.moved && e in s.moved
    requires OnlyOwnerKnows(pl, knows, Hops(pl, s, d, f)[0])
    ensures var (p, q) := PairOf(pl, false, f);
            HopChain.Delivered(Hops(pl, s, e, f), knows)
            <==> !(Bad(s.views[d][p]) && s.views[d][q].state == Active) || !InPair(pl, true, f, pl.added)
  {
    OpenedThroughOtherExactly(pl, s, d, e, f, knows);
    CommonExactly(pl, f, Hops(pl, s, d, f)[0]);
  }

  /** Opened through the new table: delivered through the old one exactly when it did not land on the new host. */
  lemma OpenedThroughNewExactly<H, F, D>(pl: Plan<H, F>, s: State<H, F, D>, d: D, e: D, f: F, knows: H -> bool)
    requires Valid(pl, s) && d in s.views && e in s.views && d in s.moved && e !in s.moved
    requires OnlyOwnerKnows(pl, knows, Hops(pl, s, d, f)[0])
    ensures HopChain.Delivered(Hops(pl, s, e, f), knows) <==> Hops(pl, s, d, f)[0] != pl.added
  {
    OpenedThroughOtherExactly(pl, s, d, e, f, knows);
    assert Hops(pl, s, d, f)[0] in {Hops(pl, s, d, f)[0], Hops(pl, s, d, f)[1]};
    NewRowIsOldButForAdded(pl, f, Hops(pl, s, d, f)[0]);
  }

  // ---- Runs ----

  /** A new connection must land in both rows; the lemma above shows that nothing less will do. */
  ghost predicate Enabled<H, F, D>(pl: Plan<H, F>, s: State<H, F, D>, e: Event<H, F, D>)
    requires Valid(pl, s)
  {
    match e
    case Open(d, f) => d in s.views && f !in s.conns && Common(pl, f, Hops(pl, s, d, f)[0])
    case Close(f) => f in s.conns
    case SetStatus(d, h, st) => d in s.views && h in s.views[d] && st.state != Inactive
    case Move(d, st) => d in s.views && d !in s.moved && st.state != Inactive
  }

  ghost function Step<H, F, D>(pl: Plan<H, F>, s: State<H, F, D>, e: Event<H, F, D>): State<H, F, D>
    requires Valid(pl, s) && Enabled(pl, s, e)
  {
    match e
    case Open(d, f) => s.(conns := s.conns[f := Hops(pl, s, d, f)[0]])
    case Close(f) => s.(conns := s.conns - {f})
    case SetStatus(d, h, st) => s.(views := s.views[d := s.views[d][h := st]])
    case Move(d, st) => s.(views := s.views[d := s.views[d][pl.added := st]], moved := s.moved + {d})
  }

  lemma StatusSetIsValid<H, F, D>(pl: Plan<H, F>, s: State<H, F, D>, d: D, h: H, st: Status)
    requires Valid(pl, s) && d in s.views && h in s.views[d] && st.state != Inactive
    ensures Valid(pl, s.(views := s.views[d := s.views[d][h := st]]))
  {
    var known := Hosts(pl, d in s.moved);
    SecondChance.ViewAfterAdd(s.views[d], known, h, st);
    assert known + {h} == known;
  }

  lemma MovedIsValid<H, F, D>(pl: Plan<H, F>, s: State<H, F, D>, d: D, st: Status)
    requires Valid(pl, s) && d in s.views && d !in s.moved && st.state != Inactive
    ensures Valid(pl, s.(views := s.views[d := s.views[d][pl.added := st]], moved := s.moved + {d}))
  {
    SecondChance.ViewAfterAdd(s.views[d], pl.hosts, pl.added, st);
  }

  lemma StepKeepsValid<H, F, D>(pl: Plan<H, F>, s: State<H, F, D>, e: Event<H, F, D>)
    requires Valid(pl, s) && Enabled(pl, s, e)
    ensures Valid(pl, Step(pl, s, e))
  {
    match e
    case Open(d, f) =>
    case Close(f) =>
    case SetStatus(d, h, st) =>
      StatusSetIsValid(pl, s, d, h, st);
    case Move(d, st) =>
      MovedIsValid(pl, s, d, st);
  }

  ghost predicate IsRun<H, F, D>(pl: Plan<H, F>, s: State<H, F, D>, events: seq<Event<H, F, D>>)
    requires Valid(pl, s)
    decreases |events|
  {
    events == [] ||
    (Enabled(pl, s, events[0]) && (StepKeepsValid(pl, s, events[0]); IsRun(pl, Step(pl, s, events[0]), events[1..])))
  }

  ghost function After<H, F, D>(pl: Plan<H, F>, s: State<H, F, D>, events: seq<Event<H, F, D>>): (t: State<H, F, D>)
    requires Valid(pl, s) && IsRun(pl, s, events)
    ensures Valid(pl, t)
    decreases |events|
  {
    if events == [] then s
    else
      StepKeepsValid(pl, s, events[0]);
      After(pl, Step(pl, s, events[0]), events[1..])
  }

  /** Every live connection is on a host of both rows. */
  ghost predicate AllCommon<H, F, D>(pl: Plan<H, F>, s: State<H, F, D>)
    requires ValidPlan(pl)
  {
    forall f | f in s.conns :: Common(pl, f, s.conns[f])
  }

  lemma {:induction false} RunKeepsCommon<H, F, D>(pl: Plan<H, F>, s: State<H, F, D>, events: seq<Event<H, F, D>>)
    requires Valid(pl, s) && AllCommon(pl, s) && IsRun(pl, s, events)
    ensures AllCommon(pl, After(pl, s, events))
    decreases |events|
  {
    if events != [] {
      StepKeepsValid(pl, s, events[0]);
      RunKeepsCommon(pl, Step(pl, s, events[0]), events[1..]);
    }
  }

  /** At every point of a rollout, packets of every live connection are delivered through every director. */
  lemma NoConnectionIsLost<H, F, D>(pl: Plan<H, F>, s: State<H, F, D>, events: seq<Event<H, F, D>>, d: D, f: F, knows: H -> bool)
    requires Valid(pl, s) && AllCommon(pl, s) && IsRun(pl, s, events)
    requires var t := After(pl, s, events); d in t.views && f in t.conns && OnlyOwnerKnows(pl, knows, t.conns[f])
    ensures HopChain.Delivered(Hops(pl, After(pl, s, events), d, f), knows)
  {
    RunKeepsCommon(pl, s, events);
    var t := After(pl, s, events);
    DeliveredExactly(pl, t, d, f, t.conns[f], knows);
  }

  /** When the last director has moved, the protocol goes on with the new set of hosts and every owner in its row. */
  lemma RolloutEnds<H, F, D>(pl: Plan<H, F>, s: State<H, F, D>)
    requires Valid(pl, s) && AllCommon(pl, s) && s.moved == s.views.Keys
    ensures var su := SecondChance.Setup(pl.score, pl.rowOf);
            var t := SecondChance.State(pl.hosts + {pl.added}, s.views, s.conns);
            SecondChance.Valid(su, t) && SecondChance.OwnersCovered(su, t)
  {
    HostsArePairable(pl, true);
    var su := SecondChance.Setup(pl.score, pl.rowOf);
    var t := SecondChance.State(pl.hosts + {pl.added}, s.views, s.conns);
    assert SecondChance.Valid(su, t);
    forall f | f in t.conns
      ensures t.conns[f] in SecondChance.RowMembers(su, t, f)
    {
      assert InPair(pl, true, f, s.conns[f]);
    }
  }

  // ---- A rollout that needs no guard ----

  /** Every old host is active and healthy, and the new one is drained wherever it is known. */
  ghost predicate Calm<H, F, D>(pl: Plan<H, F>, s: State<H, F, D>) {
    forall d, h | d in s.views && h in s.views[d] ::
      if h == pl.added then s.views[d][h].state == Draining else s.views[d][h] == Status(Active, true)
  }

  /** Then every new connection lands on its old row's first host, through either table. */
  lemma CalmOpensOnOldFirst<H, F, D>(pl: Plan<H, F>, s: State<H, F, D>, d: D, f: F)
    requires Valid(pl, s) && Calm(pl, s) && d in s.views
    ensures Hops(pl, s, d, f)[0] == PairOf(pl, false, f).0 && Common(pl, f, Hops(pl, s, d, f)[0])
  {
    AdditionIsMinimal(pl.score, pl.rowOf(f), pl.hosts, pl.added);
    var (p, q) := PairOf(pl, d in s.moved, f);
    HostsArePairable(pl, d in s.moved);
    assert p in s.views[d] && q in s.views[d];
    AddedLeadsOverOldFirst(pl, f);
  }

  /** A new host in front of a row pushes the old first host to second. */
  lemma AddedLeadsOverOldFirst<H, F>(pl: Plan<H, F>, f: F)
    requires ValidPlan(pl)
    ensures PairOf(pl, true, f).0 == pl.added ==> PairOf(pl, true, f).1 == PairOf(pl, false, f).0
    ensures PairOf(pl, true, f).0 != pl.added ==> PairOf(pl, true, f).0 == PairOf(pl, false, f).0
  {
    HostsArePairable(pl, true);
    HostsArePairable(pl, false);
  }

  /** What happens in such a rollout: connections come and go, and directors move with the new host drained. */
  predicate CalmEvent<H, F, D>(s: State<H, F, D>, e: Event<H, F, D>) {
    match e
    case Open(d, f) => d in s.views && f !in s.conns
    case Close(f) => f in s.conns
    case SetStatus(_, _, _) => false
    case Move(d, st) => d in s.views && d !in s.moved && st.state == Draining
  }

  lemma CalmStep<H, F, D>(pl: Plan<H, F>, s: State<H, F, D>, e: Event<H, F, D>)
    requires Valid(pl, s) && Calm(pl, s) && CalmEvent(s, e)
    ensures Enabled(pl, s, e) && Calm(pl, Step(pl, s, e))
  {
    if e.Open? {
      CalmOpensOnOldFirst(pl, s, e.dir, e.flow);
    }
  }

  ghost predicate IsCalmRun<H, F, D>(pl: Plan<H, F>, s: State<H, F, D>, events: seq<Event<H, F, D>>)
    requires Valid(pl, s) && Calm(pl, s)
    decreases |events|
  {
    events == [] ||
    (CalmEvent(s, events[0]) &&
     (CalmStep(pl, s, events[0]); StepKeepsValid(pl, s, events[0]); IsCalmRun(pl, Step(pl, s, events[0]), events[1..])))
  }

  /** A calm rollout is a rollout: no open needs to be held back, whichever director it comes to. */
  lemma {:induction false} CalmRolloutIsRun<H, F, D>(pl: Plan<H, F>, s: State<H, F, D>, events: seq<Event<H, F, D>>)
    requires Valid(pl, s) && Calm(pl, s) && IsCalmRun(pl, s, events)
    ensures IsRun(pl, s, events) && Calm(pl, After(pl, s, events))
    decreases |events|
  {
    if events != [] {
      CalmStep(pl, s, events[0]);
      StepKeepsValid(pl, s, events[0]);
      CalmRolloutIsRun(pl, Step(pl, s, events[0]), events[1..]);
    }
  }

  // ---- What a rollout leaves, from its events alone ----

  function OpenAfter<H, F(==), D>(events: seq<Event<H, F, D>>, f: F, open: bool): bool {
    if events == [] then open
    else
      var e := events[0];
      OpenAfter(events[1..], f, if e.Open? && e.flow == f then true else if e.Close? && e.flow == f then false else open)
  }

  predicate Moves<H, F, D(==)>(events: seq<Event<H, F, D>>, d: D) {
    events != [] && ((events[0].Move? && events[0].dir == d) || Moves(events[1..], d))
  }

  lemma StepMoves<H, F, D>(pl: Plan<H, F>, s: State<H, F, D>, e: Event<H, F, D>, d: D, f: F)
    requires Valid(pl, s) && Enabled(pl, s, e) && d in s.views
    ensures var t := Step(pl, s, e);
            && (f in t.conns <==> if e.Open? && e.flow == f then true else if e.Close? && e.flow == f then false else f in s.conns)
            && (d in t.moved <==> d in s.moved || (e.Move? && e.dir == d)) && d in t.views
  {
  }

  /**
   For every rollout: a director has the new table exactly if it had it or moved, and then knows the new host; a flow
   is open exactly if it was opened after it was last closed.
   */
  lemma {:induction false} RunMeaning<H, F, D>(pl: Plan<H, F>, s: State<H, F, D>, events: seq<Event<H, F, D>>, d: D, f: F)
    requires Valid(pl, s) && IsRun(pl, s, events) && d in s.views
    ensures var t := After(pl, s, events);
            && (f in t.conns <==> OpenAfter(events, f, f in s.conns))
            && (d in t.moved <==> d in s.moved || Moves(events, d))
            && d in t.views && (d in t.moved <==> pl.added in t.views[d])
    decreases |events|
  {
    if events != [] {
      StepMoves(pl, s, events[0], d, f);
      StepKeepsValid(pl, s, events[0]);
      RunMeaning(pl, Step(pl, s, events[0]), events[1..], d, f);
    }
  }
}
