/**
 The second-chance protocol as a state machine: directors with their own views of state and
 health, one agreed set of backends, and live connections that only their owner knows. The
 theorem is about whole runs: no packet of a live connection is ever lost to another host.
 */
module SecondChance {
  import opened Rendezvous
  import HopChain

  /** What does not change in a run: the scores, and the row each flow hashes to. */
  datatype Setup<!H, !F> = Setup(score: ScoreFn<H>, rowOf: F -> nat)

  datatype State<H, F, D> = State(backends: set<H>, views: map<D, View<H>>, conns: map<F, H>)

  datatype Event<H, F, D> =
    | Open(dir: D, flow: F)                          // a SYN of a new flow arrives at a director
    | Close(flow: F)
    | SetStatus(dir: D, host: H, status: Status)     // health flip, drain, undrain or fill, seen by one director
    | Add(host: H, statuses: map<D, Status>)
    | Remove(host: H)

  ghost predicate Valid<H, F, D>(su: Setup<H, F>, s: State<H, F, D>) {
    && |s.backends| >= 2
    && NoTies(su.score, s.backends)
    && forall d | d in s.views :: CoversBackends(s.views[d], s.backends)
  }

  /** A view has a status for each backend; inactive ones are not backends of any row. */
  ghost predicate CoversBackends<H>(view: View<H>, backends: set<H>) {
    view.Keys == backends && forall h | h in backends :: view[h].state != Inactive
  }

  /** The ranked pair of a flow's row. */
  ghost function RowPair<H, F, D>(su: Setup<H, F>, s: State<H, F, D>, f: F): (H, H)
    requires Valid(su, s)
  {
    Pair(su.score, su.rowOf(f), s.backends)
  }

  /** The hop list a director puts into a packet of flow `f`. */
  ghost function Hops<H, F, D>(su: Setup<H, F>, s: State<H, F, D>, d: D, f: F): (hops: seq<H>)
    requires Valid(su, s) && d in s.views
    ensures |hops| == 2 && hops[0] != hops[1]
    ensures hops[0] in RowMembers(su, s, f) && hops[1] in RowMembers(su, s, f)
  {
    var (p, q) := RowPair(su, s, f);
    var (a, b) := Entry(s.views[d], p, q);
    [a, b]
  }

  ghost function RowMembers<H, F, D>(su: Setup<H, F>, s: State<H, F, D>, f: F): set<H>
    requires Valid(su, s)
  {
    var (p, q) := RowPair(su, s, f);
    {p, q}
  }

  /** A new host with distinct scores and a status for each director. */
  ghost predicate MayJoin<H, F, D>(su: Setup<H, F>, s: State<H, F, D>, h: H, sts: map<D, Status>) {
    && h !in s.backends
    && NoTies(su.score, s.backends + {h})
    && sts.Keys == s.views.Keys && forall d | d in sts :: sts[d].state != Inactive
  }

  /** The new host would not enter the pair of the flow's row. */
  ghost predicate StaysOut<H, F, D>(su: Setup<H, F>, s: State<H, F, D>, h: H, f: F)
    requires Valid(su, s) && h !in s.backends && NoTies(su.score, s.backends + {h})
  {
    assert |s.backends + {h}| == |s.backends| + 1;
    var (p, q) := Pair(su.score, su.rowOf(f), s.backends + {h});
    h != p && h != q
  }

  /** The connection sits on its row's first-ranked host, or the new host leaves the pair alone. */
  ghost predicate Undisturbed<H, F, D>(su: Setup<H, F>, s: State<H, F, D>, h: H, f: F)
    requires Valid(su, s) && h !in s.backends && NoTies(su.score, s.backends + {h}) && f in s.conns
  {
    s.conns[f] == RowPair(su, s, f).0 || StaysOut(su, s, h, f)
  }

  /** What the operator must respect, and nothing else: every other event is allowed at any time. */
  ghost predicate Enabled<H, F, D>(su: Setup<H, F>, s: State<H, F, D>, e: Event<H, F, D>)
    requires Valid(su, s)
  {
    match e
    case Open(d, f) => d in s.views && f !in s.conns
    case Close(f) => f in s.conns
    case SetStatus(d, h, st) => d in s.views && h in s.backends && st.state != Inactive
    case Add(h, sts) =>
      && MayJoin(su, s, h, sts)
      && forall f | f in s.conns :: Undisturbed(su, s, h, f)
    case Remove(h) =>
      && h in s.backends
      && |s.backends| >= 3
      && forall f | f in s.conns :: s.conns[f] != h
  }

  ghost function Step<H, F, D>(su: Setup<H, F>, s: State<H, F, D>, e: Event<H, F, D>): State<H, F, D>
    requires Valid(su, s) && Enabled(su, s, e)
  {
    match e
    case Open(d, f) => s.(conns := s.conns[f := Hops(su, s, d, f)[0]])  // a SYN is taken by the first hop
    case Close(f) => s.(conns := s.conns - {f})
    case SetStatus(d, h, st) => s.(views := s.views[d := s.views[d][h := st]])
    case Add(h, sts) => Added(s, h, sts)
    case Remove(h) => Removed(s, h)
  }

  ghost function Added<H, F, D>(s: State<H, F, D>, h: H, sts: map<D, Status>): State<H, F, D>
    requires sts.Keys == s.views.Keys
  {
    s.(backends := s.backends + {h}, views := map d | d in s.views :: s.views[d][h := sts[d]])
  }

  ghost function Removed<H, F, D>(s: State<H, F, D>, h: H): State<H, F, D> {
    s.(backends := s.backends - {h}, views := map d | d in s.views :: s.views[d] - {h})
  }

  lemma ViewAfterAdd<H>(view: View<H>, backends: set<H>, h: H, st: Status)
    requires CoversBackends(view, backends) && st.state != Inactive
    ensures CoversBackends(view[h := st], backends + {h})
  {
  }

  lemma AddedIsValid<H, F, D>(su: Setup<H, F>, s: State<H, F, D>, h: H, sts: map<D, Status>)
    requires Valid(su, s) && MayJoin(su, s, h, sts)
    ensures Valid(su, Added(s, h, sts))
  {
    assert |s.backends + {h}| == |s.backends| + 1;
    forall d | d in s.views
      ensures CoversBackends(s.views[d][h := sts[d]], s.backends + {h})
    {
      ViewAfterAdd(s.views[d], s.backends, h, sts[d]);
    }
  }

  lemma ViewAfterRemove<H>(view: View<H>, backends: set<H>, h: H)
    requires CoversBackends(view, backends)
    ensures CoversBackends(view - {h}, backends - {h})
  {
  }

  lemma RemovedIsValid<H, F, D>(su: Setup<H, F>, s: State<H, F, D>, h: H)
    requires Valid(su, s) && h in s.backends && |s.backends| >= 3
    ensures Valid(su, Removed(s, h))
  {
    assert |s.backends - {h}| == |s.backends| - 1;
    forall d | d in s.views
      ensures CoversBackends(s.views[d] - {h}, s.backends - {h})
    {
      ViewAfterRemove(s.views[d], s.backends, h);
    }
  }

  /** Every live connection sits on one of the two hosts of its row. */
  ghost predicate OwnersCovered<H, F, D>(su: Setup<H, F>, s: State<H, F, D>)
    requires Valid(su, s)
  {
    forall f | f in s.conns :: s.conns[f] in RowMembers(su, s, f)
  }

  /** An addition keeps a connection on its row's pair exactly when it leaves it undisturbed. */
  lemma AdditionKeepsOwnerExactly<H, F, D>(su: Setup<H, F>, s: State<H, F, D>, h: H, sts: map<D, Status>, f: F)
    requires Valid(su, s) && MayJoin(su, s, h, sts) && f in s.conns && s.conns[f] in RowMembers(su, s, f)
    ensures Valid(su, Added(s, h, sts))
    ensures s.conns[f] in RowMembers(su, Added(s, h, sts), f) <==> Undisturbed(su, s, h, f)
  {
    AddedIsValid(su, s, h, sts);
    AdditionIsMinimal(su.score, su.rowOf(f), s.backends, h);
  }

  lemma StatusSetIsValid<H, F, D>(su: Setup<H, F>, s: State<H, F, D>, d: D, h: H, st: Status)
    requires Valid(su, s) && d in s.views && h in s.backends && st.state != Inactive
    ensures Valid(su, s.(views := s.views[d := s.views[d][h := st]]))
  {
    ViewAfterAdd(s.views[d], s.backends, h, st);
    assert s.backends + {h} == s.backends;
  }

  lemma StepKeepsValid<H, F, D>(su: Setup<H, F>, s: State<H, F, D>, e: Event<H, F, D>)
    requires Valid(su, s) && Enabled(su, s, e)
    ensures Valid(su, Step(su, s, e))
  {
    match e
    case Open(d, f) =>
    case Close(f) =>
    case SetStatus(d, h, st) =>
      StatusSetIsValid(su, s, d, h, st);
    case Add(h, sts) =>
      AddedIsValid(su, s, h, sts);
    case Remove(h) =>
      RemovedIsValid(su, s, h);
  }

  lemma StepKeepsOwners<H, F, D>(su: Setup<H, F>, s: State<H, F, D>, e: Event<H, F, D>)
    requires Valid(su, s) && Enabled(su, s, e) && OwnersCovered(su, s)
    ensures Valid(su, Step(su, s, e)) && OwnersCovered(su, Step(su, s, e))
  {
    StepKeepsValid(su, s, e);
    var t := Step(su, s, e);
    match e
    case Open(d, f) =>
    case Close(f) =>
    case SetStatus(d, h, st) =>
    case Add(h, sts) =>
      forall f | f in t.conns
        ensures t.conns[f] in RowMembers(su, t, f)
      {
        AdditionKeepsOwnerExactly(su, s, h, sts, f);
      }
    case Remove(h) =>
      forall f | f in t.conns
        ensures t.conns[f] in RowMembers(su, t, f)
      {
        RemovalIsMinimal(su.score, su.rowOf(f), s.backends, h);
      }
  }

  // ---- Runs ----

  ghost predicate IsRun<H, F, D>(su: Setup<H, F>, s: State<H, F, D>, events: seq<Event<H, F, D>>)
    requires Valid(su, s)
    decreases |events|
  {
    events == [] ||
    (Enabled(su, s, events[0]) && (StepKeepsValid(su, s, events[0]); IsRun(su, Step(su, s, events[0]), events[1..])))
  }

  ghost function After<H, F, D>(su: Setup<H, F>, s: State<H, F, D>, events: seq<Event<H, F, D>>): (t: State<H, F, D>)
    requires Valid(su, s) && IsRun(su, s, events)
    ensures Valid(su, t)
    decreases |events|
  {
    if events == [] then s
    else
      StepKeepsValid(su, s, events[0]);
      After(su, Step(su, s, events[0]), events[1..])
  }

  lemma {:induction false} RunKeepsOwners<H, F, D>(su: Setup<H, F>, s: State<H, F, D>, events: seq<Event<H, F, D>>)
    requires Valid(su, s) && OwnersCovered(su, s) && IsRun(su, s, events)
    ensures OwnersCovered(su, After(su, s, events))
    decreases |events|
  {
    if events != [] {
      StepKeepsOwners(su, s, events[0]);
      RunKeepsOwners(su, Step(su, s, events[0]), events[1..]);
    }
  }

  /** Through any director, packets of a flow reach an owner exactly when it is one of the row's two hosts. */
  lemma DeliveredToMembers<H, F, D>(su: Setup<H, F>, s: State<H, F, D>, d: D, f: F, owner: H, knows: H -> bool)
    requires Valid(su, s) && d in s.views
    requires forall h {:trigger knows(h)} | h in s.backends :: knows(h) <==> h == owner
    ensures var hops := Hops(su, s, d, f);
            && (HopChain.Delivered(hops, knows) <==> owner in RowMembers(su, s, f))
            && (HopChain.Delivered(hops, knows) ==> hops[HopChain.StopFrom(hops, knows, 0)] == owner)
  {
  }

  /**
   After every run, every non-SYN packet of every live connection, sent through any director, is
   accepted by the host that owns the connection.
   */
  lemma NoConnectionIsLost<H, F, D>(su: Setup<H, F>, s: State<H, F, D>, events: seq<Event<H, F, D>>, d: D, f: F, knows: H -> bool)
    requires Valid(su, s) && s.conns == map[] && IsRun(su, s, events)
    requires var t := After(su, s, events);
             && d in t.views && f in t.conns
             && forall h {:trigger knows(h)} | h in t.backends :: knows(h) <==> h == t.conns[f]
    ensures var t := After(su, s, events);
            var hops := Hops(su, t, d, f);
            && HopChain.Delivered(hops, knows)
            && hops[HopChain.StopFrom(hops, knows, 0)] == t.conns[f]
  {
    RunKeepsOwners(su, s, events);
    var t := After(su, s, events);
    DeliveredToMembers(su, t, d, f, t.conns[f], knows);
  }

  /**
   The guard on additions is exact: for one connection on its row's pair, adding a host keeps its
   packets deliverable exactly when it sits on the first-ranked host or the new host stays out of the pair.
   */
  lemma AdditionBreaksExactly<H, F, D>(su: Setup<H, F>, s: State<H, F, D>, h: H, sts: map<D, Status>, d: D, f: F,
                                       knows: H -> bool)
    requires Valid(su, s) && OwnersCovered(su, s) && f in s.conns && d in s.views && MayJoin(su, s, h, sts)
    requires forall x {:trigger knows(x)} | x in s.backends + {h} :: knows(x) <==> x == s.conns[f]
    ensures Valid(su, Added(s, h, sts))
    ensures HopChain.Delivered(Hops(su, Added(s, h, sts), d, f), knows)
            <==> Undisturbed(su, s, h, f)
  {
    AdditionKeepsOwnerExactly(su, s, h, sts, f);
    DeliveredToMembers(su, Added(s, h, sts), d, f, s.conns[f], knows);
  }

  /** So an addition keeps every live connection on its row's pair exactly when it is enabled. */
  lemma AdditionEnabledExactly<H, F, D>(su: Setup<H, F>, s: State<H, F, D>, h: H, sts: map<D, Status>)
    requires Valid(su, s) && OwnersCovered(su, s) && MayJoin(su, s, h, sts)
    ensures Valid(su, Added(s, h, sts))
    ensures OwnersCovered(su, Added(s, h, sts)) <==> Enabled(su, s, Event<H, F, D>.Add(h, sts))
  {
    AddedIsValid(su, s, h, sts);
    var t := Added(s, h, sts);
    forall f | f in s.conns
      ensures t.conns[f] in RowMembers(su, t, f) <==> Undisturbed(su, s, h, f)
    {
      AdditionKeepsOwnerExactly(su, s, h, sts, f);
    }
  }

  // ---- What a run leaves, from its events alone ----

  /** Whether a flow is open, a host is there, and what a director thinks of it, after one event and after many. */
  predicate OpenNext<H, F(==), D>(e: Event<H, F, D>, f: F, open: bool) {
    if e.Open? && e.flow == f then true else if e.Close? && e.flow == f then false else open
  }

  predicate OpenAfter<H, F(==), D>(events: seq<Event<H, F, D>>, f: F, open: bool) {
    if events == [] then open else OpenAfter(events[1..], f, OpenNext(events[0], f, open))
  }

  predicate PresentNext<H(==), F, D>(e: Event<H, F, D>, h: H, present: bool) {
    if e.Add? && e.host == h then true else if e.Remove? && e.host == h then false else present
  }

  predicate PresentAfter<H(==), F, D>(events: seq<Event<H, F, D>>, h: H, present: bool) {
    if events == [] then present else PresentAfter(events[1..], h, PresentNext(events[0], h, present))
  }

  function StatusNext<H(==), F, D(==)>(e: Event<H, F, D>, d: D, h: H, st: Status): Status {
    if e.SetStatus? && e.dir == d && e.host == h then e.status
    else if e.Add? && e.host == h && d in e.statuses then e.statuses[d]
    else st
  }

  function StatusAfter<H(==), F, D(==)>(events: seq<Event<H, F, D>>, d: D, h: H, st: Status): Status {
    if events == [] then st else StatusAfter(events[1..], d, h, StatusNext(events[0], d, h, st))
  }

  /** What the director thinks of the host, if the host is there. */
  ghost predicate SeenAs<H, F, D>(s: State<H, F, D>, d: D, h: H, st: Status) {
    d in s.views && (h in s.backends ==> h in s.views[d] && s.views[d][h] == st)
  }

  lemma StepOpens<H, F, D>(su: Setup<H, F>, s: State<H, F, D>, e: Event<H, F, D>, f: F)
    requires Valid(su, s) && Enabled(su, s, e)
    ensures f in Step(su, s, e).conns <==> OpenNext(e, f, f in s.conns)
  {
  }

  lemma StepAdds<H, F, D>(su: Setup<H, F>, s: State<H, F, D>, e: Event<H, F, D>, h: H)
    requires Valid(su, s) && Enabled(su, s, e)
    ensures h in Step(su, s, e).backends <==> PresentNext(e, h, h in s.backends)
  {
  }

  lemma AddedShows<H, F, D>(s: State<H, F, D>, joiner: H, sts: map<D, Status>, d: D, h: H, st: Status)
    requires sts.Keys == s.views.Keys && SeenAs(s, d, h, st)
    ensures SeenAs(Added(s, joiner, sts), d, h, if joiner == h then sts[d] else st)
  {
  }

  lemma StepShows<H, F, D>(su: Setup<H, F>, s: State<H, F, D>, e: Event<H, F, D>, d: D, h: H, st: Status)
    requires Valid(su, s) && Enabled(su, s, e) && SeenAs(s, d, h, st)
    ensures SeenAs(Step(su, s, e), d, h, StatusNext(e, d, h, st))
  {
    if e.Add? {
      AddedShows(s, e.host, e.statuses, d, h, st);
    }
  }

  /**
   For every run: a flow is open exactly if it was opened after it was last closed, a host is there exactly if it
   was added after it was last removed, and a director's view of it is the last status it was given.
   */
  lemma {:induction false} RunMeaning<H, F, D>(su: Setup<H, F>, s: State<H, F, D>, events: seq<Event<H, F, D>>, d: D, f: F, h: H,
                                              st: Status)
    requires Valid(su, s) && IsRun(su, s, events) && SeenAs(s, d, h, st)
    ensures f in After(su, s, events).conns <==> OpenAfter(events, f, f in s.conns)
    ensures h in After(su, s, events).backends <==> PresentAfter(events, h, h in s.backends)
    ensures SeenAs(After(su, s, events), d, h, StatusAfter(events, d, h, st))
    decreases |events|
  {
    if events != [] {
      var e := events[0];
      StepOpens(su, s, e, f);
      StepAdds(su, s, e, h);
      StepShows(su, s, e, d, h, st);
      StepKeepsValid(su, s, e);
      RunMeaning(su, Step(su, s, e), events[1..], d, f, h, StatusNext(e, d, h, st));
    }
  }

  /** A connection that is not closed keeps its owner through every run. */
  lemma {:induction false} OwnerStays<H, F, D>(su: Setup<H, F>, s: State<H, F, D>, events: seq<Event<H, F, D>>, f: F)
    requires Valid(su, s) && IsRun(su, s, events) && f in s.conns && forall e :: e in events ==> e != Close(f)
    ensures f in After(su, s, events).conns && After(su, s, events).conns[f] == s.conns[f]
    decreases |events|
  {
    if events != [] {
      assert events[0] in events && forall e :: e in events[1..] ==> e in events;
      StepKeepsValid(su, s, events[0]);
      OwnerStays(su, Step(su, s, events[0]), events[1..], f);
    }
  }
}
