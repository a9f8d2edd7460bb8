/**
 Hot reload as a state machine. The control loop creates a forwarding context and hands a reference
 to every worker through a ring; workers swap contexts whenever they look. Steps of the control loop
 and of all workers interleave freely, and taking a message from the pool or putting it on a ring may
 fail.
 */
module Reload {

  /** Contexts are numbered in the order they are created; 0 is the one loaded at startup. */
  type Ctx = nat

  datatype Control =
    | Idle
    | Sending(ctx: Ctx, dest: nat)       // about to get a message for worker `dest`
    | Holding(ctx: Ctx, dest: nat)       // has taken a reference for worker `dest`, about to enqueue

  datatype Worker =
    | Using(cur: Ctx)
    | Received(cur: Ctx, next: Ctx)      // dequeued a message, old context not yet released
    | Switching(next: Ctx)               // released the old context, pointer not yet moved

  /**
   `refs` holds the counts of the contexts not freed; `leaked` the references whose message could not
   be enqueued, which nobody gives back.
   */
  datatype State = State(created: nat, refs: map<Ctx, nat>, control: Control,
                         workers: seq<Worker>, rings: seq<seq<Ctx>>, leaked: seq<Ctx>)

  datatype Event =
    | Load                   // a reload request is seen
    | PoolEmpty
    | TakeReference
    | Enqueue
    | EnqueueFails
    | DropControlReference
    | Dequeue(worker: nat)
    | ReleaseOld(worker: nat)
    | Switch(worker: nat)

  /** At startup every lcore stores context 0, which has one reference. */
  function Initial(n: nat): State {
    State(1, map[0 := 1], Idle, seq(n, i => Using(0)), seq(n, i => []), [])
  }

  function Incref(refs: map<Ctx, nat>, c: Ctx): map<Ctx, nat> {
    if c in refs then refs[c := refs[c] + 1] else refs
  }

  /** `glb_fwd_config_ctx_decref`: free when the count reaches zero. */
  function Decref(refs: map<Ctx, nat>, c: Ctx): map<Ctx, nat> {
    if c !in refs then refs else if refs[c] <= 1 then refs - {c} else refs[c := refs[c] - 1]
  }

  predicate Enabled(s: State, e: Event) {
    match e
    case Load => s.control.Idle?
    case PoolEmpty => s.control.Sending? && s.control.dest < |s.workers|
    case TakeReference => s.control.Sending? && s.control.dest < |s.workers|
    case Enqueue => s.control.Holding? && s.control.dest < |s.rings|
    case EnqueueFails => s.control.Holding?
    case DropControlReference => s.control.Sending? && s.control.dest >= |s.workers|
    case Dequeue(w) => w < |s.workers| && w < |s.rings| && s.workers[w].Using? && s.rings[w] != []
    case ReleaseOld(w) => w < |s.workers| && s.workers[w].Received?
    case Switch(w) => w < |s.workers| && s.workers[w].Switching?
  }

  function Step(s: State, e: Event): State
    requires Enabled(s, e)
  {
    match e
    case Load => s.(created := s.created + 1, refs := s.refs[s.created := 1], control := Sending(s.created, 0))
    case PoolEmpty => s.(control := Sending(s.control.ctx, s.control.dest + 1))
    case TakeReference => s.(refs := Incref(s.refs, s.control.ctx), control := Holding(s.control.ctx, s.control.dest))
    case Enqueue =>
      var w := s.control.dest;
      s.(rings := s.rings[w := s.rings[w] + [s.control.ctx]], control := Sending(s.control.ctx, w + 1))
    case EnqueueFails => s.(leaked := s.leaked + [s.control.ctx], control := Sending(s.control.ctx, s.control.dest + 1))
    case DropControlReference => s.(refs := Decref(s.refs, s.control.ctx), control := Idle)
    case Dequeue(w) =>
      s.(workers := s.workers[w := Received(s.workers[w].cur, s.rings[w][0])], rings := s.rings[w := s.rings[w][1..]])
    case ReleaseOld(w) =>
      s.(refs := Decref(s.refs, s.workers[w].cur), workers := s.workers[w := Switching(s.workers[w].next)])
    case Switch(w) => s.(workers := s.workers[w := Using(s.workers[w].next)])
  }

  // ---- Who holds a reference ----

  function Is(a: Ctx, c: Ctx): nat {
    if a == c then 1 else 0
  }

  function ByWorker(w: Worker, c: Ctx): nat {
    match w
    case Using(cur) => Is(cur, c)
    case Received(cur, next) => Is(cur, c) + Is(next, c)
    case Switching(next) => Is(next, c)
  }

  function ByWorkers(ws: seq<Worker>, c: Ctx): nat {
    if ws == [] then 0 else ByWorker(ws[0], c) + ByWorkers(ws[1..], c)
  }

  function Count(r: seq<Ctx>, c: Ctx): nat {
    if r == [] then 0 else Is(r[0], c) + Count(r[1..], c)
  }

  function Queued(rings: seq<seq<Ctx>>, c: Ctx): nat {
    if rings == [] then 0 else Count(rings[0], c) + Queued(rings[1..], c)
  }

  function ByControl(k: Control, c: Ctx): nat {
    match k
    case Idle => 0
    case Sending(ctx, _) => Is(ctx, c)
    case Holding(ctx, _) => 2 * Is(ctx, c)
  }

  /** Everyone who still counts on context `c` being there: control loop, workers, queued messages. */
  function Holders(s: State, c: Ctx): nat {
    ByControl(s.control, c) + ByWorkers(s.workers, c) + Queued(s.rings, c)
  }

  lemma {:induction false} WorkerChanges(ws: seq<Worker>, i: nat, w: Worker, c: Ctx)
    requires i < |ws|
    ensures ByWorkers(ws[i := w], c) == ByWorkers(ws, c) - ByWorker(ws[i], c) + ByWorker(w, c)
    ensures ByWorker(ws[i], c) <= ByWorkers(ws, c)
  {
    if i == 0 {
      assert ws[i := w][1..] == ws[1..];
    } else {
      assert ws[i := w][1..] == ws[1..][i - 1 := w];
      WorkerChanges(ws[1..], i - 1, w, c);
    }
  }

  lemma {:induction false} RingChanges(rings: seq<seq<Ctx>>, i: nat, r: seq<Ctx>, c: Ctx)
    requires i < |rings|
    ensures Queued(rings[i := r], c) == Queued(rings, c) - Count(rings[i], c) + Count(r, c)
    ensures Count(rings[i], c) <= Queued(rings, c)
  {
    if i == 0 {
      assert rings[i := r][1..] == rings[1..];
    } else {
      assert rings[i := r][1..] == rings[1..][i - 1 := r];
      RingChanges(rings[1..], i - 1, r, c);
    }
  }

  lemma {:induction false} CountAppend(r: seq<Ctx>, x: Ctx, c: Ctx)
    ensures Count(r + [x], c) == Count(r, c) + Is(x, c)
  {
    if r == [] {
      assert r + [x] == [x];
    } else {
      assert (r + [x])[1..] == r[1..] + [x];
      CountAppend(r[1..], x, c);
    }
  }

  // ---- The reference count ----

  /** Context `c` is there exactly while its count, the references held and leaked, is not zero. */
  ghost predicate CountedAt(s: State, c: Ctx) {
    && (c in s.refs <==> Holders(s, c) + Count(s.leaked, c) > 0)
    && (c in s.refs ==> s.refs[c] == Holders(s, c) + Count(s.leaked, c))
    && (c >= s.created ==> c !in s.refs)
  }

  /** References to `c` that a step takes, gives up, and leaves behind for good. */
  function Taken(s: State, e: Event, c: Ctx): nat
    requires Enabled(s, e)
  {
    if e.Load? then Is(s.created, c) else if e.TakeReference? then Is(s.control.ctx, c) else 0
  }

  function GivenUp(s: State, e: Event, c: Ctx): nat
    requires Enabled(s, e)
  {
    if e.EnqueueFails? || e.DropControlReference? then Is(s.control.ctx, c)
    else if e.ReleaseOld? then Is(s.workers[e.worker].cur, c)
    else 0
  }

  function Left(s: State, e: Event, c: Ctx): nat
    requires Enabled(s, e)
  {
    if e.EnqueueFails? then Is(s.control.ctx, c) else 0
  }

  lemma StepMovesReferences(s: State, e: Event, c: Ctx)
    requires Enabled(s, e)
    ensures Holders(Step(s, e), c) + GivenUp(s, e, c) == Holders(s, c) + Taken(s, e, c)
    ensures Count(Step(s, e).leaked, c) == Count(s.leaked, c) + Left(s, e, c)
  {
    match e
    case Load =>
    case PoolEmpty =>
    case TakeReference =>
    case Enqueue =>
      var w := s.control.dest;
      RingChanges(s.rings, w, s.rings[w] + [s.control.ctx], c);
      CountAppend(s.rings[w], s.control.ctx, c);
    case EnqueueFails =>
      CountAppend(s.leaked, s.control.ctx, c);
    case DropControlReference =>
    case Dequeue(w) =>
      RingChanges(s.rings, w, s.rings[w][1..], c);
      WorkerChanges(s.workers, w, Received(s.workers[w].cur, s.rings[w][0]), c);
    case ReleaseOld(w) =>
      WorkerChanges(s.workers, w, Switching(s.workers[w].next), c);
    case Switch(w) =>
      WorkerChanges(s.workers, w, Using(s.workers[w].next), c);
  }

  lemma StepKeepsCount(s: State, e: Event, c: Ctx)
    requires Enabled(s, e) && CountedAt(s, c)
    ensures CountedAt(Step(s, e), c)
  {
    StepMovesReferences(s, e, c);
  }

  // ---- Runs ----

  predicate IsRun(s: State, events: seq<Event>)
    decreases |events|
  {
    events == [] || (Enabled(s, events[0]) && IsRun(Step(s, events[0]), events[1..]))
  }

  function After(s: State, events: seq<Event>): State
    requires IsRun(s, events)
    decreases |events|
  {
    if events == [] then s else After(Step(s, events[0]), events[1..])
  }

  lemma {:induction false} RunKeepsCount(s: State, events: seq<Event>, c: Ctx)
    requires IsRun(s, events) && CountedAt(s, c)
    ensures CountedAt(After(s, events), c)
    decreases |events|
  {
    if events != [] {
      StepKeepsCount(s, events[0], c);
      RunKeepsCount(Step(s, events[0]), events[1..], c);
    }
  }

  lemma {:induction false} AllUseStartup(n: nat, c: Ctx)
    ensures ByWorkers(seq(n, i => Using(0)), c) == n * Is(0, c)
    ensures Queued(seq(n, i => []), c) == 0
  {
    if n > 0 {
      AllUseStartup(n - 1, c);
      assert seq(n, i => Using(0))[1..] == seq(n - 1, i => Using(0));
      assert seq<seq<Ctx>>(n, i => [])[1..] == seq<seq<Ctx>>(n - 1, i => []);
    }
  }

  /**
   In every interleaving, a context created by a reload has as its count the workers using it, the messages
   carrying it, the control loop's own hold and the references left by failed enqueues. It is freed
   exactly when all of these are gone, so never while it is used or queued.
   */
  lemma CountIsExact(n: nat, events: seq<Event>, c: Ctx)
    requires IsRun(Initial(n), events) && (1 <= c || n == 1)
    ensures var s := After(Initial(n), events);
            && CountedAt(s, c)
            && (c < s.created && c !in s.refs ==> Holders(s, c) == 0)
            && (c < s.created && Count(s.leaked, c) == 0 ==> (c !in s.refs <==> Holders(s, c) == 0))
  {
    AllUseStartup(n, c);
    assert CountedAt(Initial(n), c);
    RunKeepsCount(Initial(n), events, c);
  }

  // ---- The startup context ----

  /** Context `c` has been freed although a worker still reads it. */
  ghost predicate FreedInUse(s: State, c: Ctx) {
    c < s.created && c !in s.refs && ByWorkers(s.workers, c) > 0
  }

  /** With two workers or more, the first one to reload frees the startup context under the others. */
  lemma StartupContextFreedInUse(n: nat) returns (events: seq<Event>)
    requires n >= 2
    ensures IsRun(Initial(n), events) && FreedInUse(After(Initial(n), events), 0)
  {
    var s0 := Initial(n);
    var s1 := Step(s0, Load);
    var s2 := Step(s1, TakeReference);
    var s3 := Step(s2, Enqueue);
    var s4 := Step(s3, Dequeue(0));
    var s5 := Step(s4, ReleaseOld(0));
    AllUseStartup(n, 0);
    WorkerChanges(s3.workers, 0, s4.workers[0], 0);
    WorkerChanges(s4.workers, 0, s5.workers[0], 0);
    events := [];
    events := RunCons(s4, ReleaseOld(0), events);
    events := RunCons(s3, Dequeue(0), events);
    events := RunCons(s2, Enqueue, events);
    events := RunCons(s1, TakeReference, events);
    events := RunCons(s0, Load, events);
  }

  lemma RunCons(s: State, e: Event, rest: seq<Event>) returns (events: seq<Event>)
    requires Enabled(s, e) && IsRun(Step(s, e), rest)
    ensures IsRun(s, events) && After(s, events) == After(Step(s, e), rest) && events == [e] + rest
  {
    events := [e] + rest;
    assert events[1..] == rest;
  }

  ghost predicate NeverFreedInUse(s: State, c: Ctx) {
    forall events | IsRun(s, events) :: !FreedInUse(After(s, events), c)
  }

  /** The startup context is never freed in use exactly when there is a single worker. */
  lemma StartupContextSafeExactly(n: nat)
    requires n >= 1
    ensures NeverFreedInUse(Initial(n), 0) <==> n == 1
  {
    if n == 1 {
      forall events | IsRun(Initial(n), events)
        ensures !FreedInUse(After(Initial(n), events), 0)
      {
        CountIsExact(n, events, 0);
      }
    } else {
      var events := StartupContextFreedInUse(n);
    }
  }

  // ---- No worker goes back ----

  /** The contexts worker `i` uses now and will use, in order. */
  function Chain(s: State, i: nat): (chain: seq<Ctx>)
    requires i < |s.workers| && i < |s.rings|
    ensures chain != []
  {
    match s.workers[i]
    case Using(cur) => [cur] + s.rings[i]
    case Received(cur, next) => [cur, next] + s.rings[i]
    case Switching(next) => [next] + s.rings[i]
  }

  /** The context a worker reads, or is about to read. */
  function Position(s: State, i: nat): Ctx
    requires i < |s.workers| && i < |s.rings|
  {
    Chain(s, i)[0]
  }

  ghost predicate Rising(chain: seq<Ctx>, below: nat) {
    && (forall j, k :: 0 <= j < k < |chain| ==> chain[j] < chain[k])
    && (forall j :: 0 <= j < |chain| ==> chain[j] < below)
  }

  /** Worker `i` has only newer contexts ahead of it, and none as new as one still to be sent to it. */
  ghost predicate OrderedAt(s: State, i: nat) {
    && i < |s.workers| && i < |s.rings|
    && Rising(Chain(s, i), s.created)
    && (!s.control.Idle? ==> s.control.ctx + 1 == s.created && (i >= s.control.dest ==> Rising(Chain(s, i), s.control.ctx)))
  }

  /** What a step does to a worker's chain: nothing, a newer context at its end, or its head dropped. */
  lemma StepMovesChain(s: State, e: Event, i: nat)
    requires Enabled(s, e) && OrderedAt(s, i)
    ensures i < |Step(s, e).workers| && i < |Step(s, e).rings|
    ensures var chain, after := Chain(s, i), Chain(Step(s, e), i);
            if e == ReleaseOld(i) then |chain| >= 2 && after == chain[1..]
            else if e.Enqueue? && s.control.dest == i then after == chain + [s.control.ctx]
            else after == chain
  {
  }

  lemma StepKeepsOrder(s: State, e: Event, i: nat)
    requires Enabled(s, e) && OrderedAt(s, i)
    ensures OrderedAt(Step(s, e), i) && Position(s, i) <= Position(Step(s, e), i)
  {
    StepMovesChain(s, e, i);
  }

  lemma {:induction false} RunKeepsOrder(s: State, events: seq<Event>, i: nat)
    requires IsRun(s, events) && OrderedAt(s, i)
    ensures OrderedAt(After(s, events), i) && Position(s, i) <= Position(After(s, events), i)
    decreases |events|
  {
    if events != [] {
      StepKeepsOrder(s, events[0], i);
      RunKeepsOrder(Step(s, events[0]), events[1..], i);
    }
  }

  /** From any reachable state on, in every interleaving, no worker ever moves to an older context. */
  lemma NoWorkerGoesBack(n: nat, before: seq<Event>, events: seq<Event>, i: nat)
    requires i < n && IsRun(Initial(n), before) && IsRun(After(Initial(n), before), events)
    ensures var s, t := After(Initial(n), before), After(After(Initial(n), before), events);
            && i < |s.workers| && i < |s.rings| && i < |t.workers| && i < |t.rings|
            && Position(s, i) <= Position(t, i)
  {
    RunKeepsOrder(Initial(n), before, i);
    RunKeepsOrder(After(Initial(n), before), events, i);
  }

  // ---- Every worker is reached ----

  /** Contexts below this one have had their turn to be sent to worker `i`. */
  function Upto(s: State, i: nat): int {
    if s.control.Idle? || i < s.control.dest then s.created else s.created - 1
  }

  /** The contexts sent to worker `i` in a run, and those whose message for it could not be made or enqueued. */
  function SentTo(s: State, events: seq<Event>, i: nat): seq<Ctx>
    requires IsRun(s, events)
    decreases |events|
  {
    if events == [] then []
    else
      (if events[0] == Enqueue && s.control.dest == i then [s.control.ctx] else [])
      + SentTo(Step(s, events[0]), events[1..], i)
  }

  function FailedFor(s: State, events: seq<Event>, i: nat): seq<Ctx>
    requires IsRun(s, events)
    decreases |events|
  {
    if events == [] then []
    else
      (if (events[0] == PoolEmpty || events[0] == EnqueueFails) && s.control.dest == i then [s.control.ctx] else [])
      + FailedFor(Step(s, events[0]), events[1..], i)
  }

  function CountOf(events: seq<Event>, e: Event): nat {
    if events == [] then 0 else (if events[0] == e then 1 else 0) + CountOf(events[1..], e)
  }

  /** A context's turn for worker `i` comes with the one event that sends it there or fails to. */
  lemma StepTakesTurn(s: State, e: Event, i: nat)
    requires Enabled(s, e) && OrderedAt(s, i)
    ensures var turn := (e == Enqueue || e == PoolEmpty || e == EnqueueFails) && s.control.dest == i;
            && Upto(Step(s, e), i) == Upto(s, i) + (if turn then 1 else 0)
            && (turn ==> s.control.ctx == Upto(s, i))
    ensures Step(s, e).created == s.created + if e == Load then 1 else 0
  {
  }

  /** What the sequence of all contexts a worker uses, has used and will use is made of. */
  ghost predicate TurnsTaken(sent: seq<Ctx>, failed: seq<Ctx>, from: int, to: int) {
    && from <= to
    && (forall j, k :: 0 <= j < k < |sent| ==> sent[j] < sent[k])
    && (forall c: Ctx :: c in sent <==> from <= c < to && c !in failed)
    && (forall c: Ctx :: c in failed ==> from <= c < to)
  }

  lemma TurnsCons(from: int, turn: bool, ok: bool, c: Ctx, sent: seq<Ctx>, failed: seq<Ctx>, to: int)
    requires turn ==> c == from
    requires TurnsTaken(sent, failed, from + (if turn then 1 else 0), to)
    ensures TurnsTaken((if turn && ok then [c] else []) + sent, (if turn && !ok then [c] else []) + failed, from, to)
  {
    var sent', failed' := (if turn && ok then [c] else []) + sent, (if turn && !ok then [c] else []) + failed;
    forall x: Ctx
      ensures (x in sent' <==> from <= x < to && x !in failed') && (x in failed' ==> from <= x < to)
    {
      assert x in failed' <==> x in failed || (turn && !ok && x == c);
      assert x in sent' <==> x in sent || (turn && ok && x == c);
    }
    forall j, k | 0 <= j < k < |sent'|
      ensures sent'[j] < sent'[k]
    {
      if turn && ok {
        assert sent'[k] == sent[k - 1] && sent[k - 1] in sent;
        assert j > 0 ==> sent'[j] == sent[j - 1];
      }
    }
  }

  lemma {:induction false} RunTakesTurns(s: State, events: seq<Event>, i: nat)
    requires IsRun(s, events) && OrderedAt(s, i)
    ensures TurnsTaken(SentTo(s, events, i), FailedFor(s, events, i), Upto(s, i), Upto(After(s, events), i))
    decreases |events|
  {
    if events != [] {
      var e := events[0];
      var t := Step(s, e);
      StepTakesTurn(s, e, i);
      StepKeepsOrder(s, e, i);
      RunTakesTurns(t, events[1..], i);
      var turn := (e == Enqueue || e == PoolEmpty || e == EnqueueFails) && s.control.dest == i;
      TurnsCons(Upto(s, i), turn, e == Enqueue, if turn then s.control.ctx else 0, SentTo(t, events[1..], i),
                FailedFor(t, events[1..], i), Upto(After(s, events), i));
    }
  }

  /** A worker's chain is what it had and what was sent to it, less one context for each it has released. */
  lemma {:induction false} RunMovesChain(s: State, events: seq<Event>, i: nat)
    requires IsRun(s, events) && OrderedAt(s, i)
    ensures OrderedAt(After(s, events), i)
    ensures var all, gone := Chain(s, i) + SentTo(s, events, i), CountOf(events, ReleaseOld(i));
            gone < |all| && Chain(After(s, events), i) == all[gone..]
    decreases |events|
  {
    if events != [] {
      var e := events[0];
      var t := Step(s, e);
      StepMovesChain(s, e, i);
      StepKeepsOrder(s, e, i);
      RunMovesChain(t, events[1..], i);
      ChainCons(Chain(s, i), SentTo(t, events[1..], i), s.control, e, i, CountOf(events[1..], ReleaseOld(i)));
    }
  }

  lemma ChainCons(chain: seq<Ctx>, rest: seq<Ctx>, k: Control, e: Event, i: nat, gone: nat)
    requires e == Enqueue ==> !k.Idle?
    requires e == ReleaseOld(i) ==> |chain| >= 2
    ensures var after := if e == ReleaseOld(i) then chain[1..]
                         else if e == Enqueue && k.dest == i then chain + [k.ctx] else chain;
            var all := chain + ((if e == Enqueue && k.dest == i then [k.ctx] else []) + rest);
            var gone' := (if e == ReleaseOld(i) then 1 else 0) + gone;
            gone < |after + rest| ==> gone' < |all| && (after + rest)[gone..] == all[gone'..]
  {
    if e == ReleaseOld(i) {
      assert chain[1..] + rest == (chain + rest)[1..];
    } else if e == Enqueue && k.dest == i {
      assert chain + [k.ctx] + rest == chain + ([k.ctx] + rest);
    }
  }

  lemma {:induction false} RunCreates(s: State, events: seq<Event>)
    requires IsRun(s, events)
    ensures After(s, events).created == s.created + CountOf(events, Load)
    decreases |events|
  {
    if events != [] {
      RunCreates(Step(s, events[0]), events[1..]);
    }
  }

  /**
   In every interleaving, with any failures: each reload creates one context. Worker `i` uses the startup context
   and then, in order, exactly those contexts whose turn for it has come and whose message did not fail for it.
   */
  lemma WorkerMissesExactly(n: nat, events: seq<Event>, i: nat)
    requires i < n && IsRun(Initial(n), events)
    ensures var s := After(Initial(n), events);
            var sent, failed := SentTo(Initial(n), events, i), FailedFor(Initial(n), events, i);
            && s.created == 1 + CountOf(events, Load)
            && i < |s.workers| && i < |s.rings|
            && CountOf(events, ReleaseOld(i)) <= |sent|
            && Chain(s, i) == ([0] + sent)[CountOf(events, ReleaseOld(i))..]
            && TurnsTaken(sent, failed, 1, Upto(s, i))
  {
    var s0 := Initial(n);
    assert Chain(s0, i) == [0];
    RunCreates(s0, events);
    RunTakesTurns(s0, events, i);
    RunMovesChain(s0, events, i);
  }

  ghost predicate NoFailures(events: seq<Event>) {
    PoolEmpty !in events && EnqueueFails !in events
  }

  lemma {:induction false} NoneFailed(s: State, events: seq<Event>, i: nat)
    requires IsRun(s, events) && NoFailures(events)
    ensures FailedFor(s, events, i) == []
    decreases |events|
  {
    if events != [] {
      assert events[0] in events && forall e :: e in events[1..] ==> e in events;
      NoneFailed(Step(s, events[0]), events[1..], i);
    }
  }

  /** Without failures, whenever the control loop is idle, the newest context is the last in every worker's chain. */
  lemma ReloadReachesEveryWorker(n: nat, events: seq<Event>, i: nat)
    requires i < n && IsRun(Initial(n), events) && NoFailures(events) && After(Initial(n), events).control.Idle?
    ensures var s := After(Initial(n), events);
            && i < |s.workers| && i < |s.rings|
            && s.created == 1 + CountOf(events, Load)
            && Chain(s, i)[|Chain(s, i)| - 1] == s.created - 1
  {
    WorkerMissesExactly(n, events, i);
    NoneFailed(Initial(n), events, i);
    var s, sent := After(Initial(n), events), SentTo(Initial(n), events, i);
    var all := [0] + sent;
    assert Chain(s, i)[|Chain(s, i)| - 1] == all[|all| - 1];
    LastTurn(sent, s.created);
  }

  lemma LastTurn(sent: seq<Ctx>, to: int)
    requires TurnsTaken(sent, [], 1, to)
    ensures ([0] + sent)[|sent|] == to - 1
  {
    if to > 1 {
      var newest: Ctx := to - 1;
      assert newest in sent;
      var k :| 0 <= k < |sent| && sent[k] == newest;
      assert sent[|sent| - 1] in sent;
    } else {
      assert forall k :: 0 <= k < |sent| ==> sent[k] in sent;
    }
  }

  // ---- A worker catches up ----

  predicate OwnStep(e: Event, i: nat) {
    e == Dequeue(i) || e == ReleaseOld(i) || e == Switch(i)
  }

  function Last(chain: seq<Ctx>): Ctx
    requires chain != []
  {
    chain[|chain| - 1]
  }

  lemma OwnStepKeepsLast(s: State, e: Event, i: nat)
    requires Enabled(s, e) && OrderedAt(s, i) && OwnStep(e, i)
    ensures OrderedAt(Step(s, e), i) && Last(Chain(Step(s, e), i)) == Last(Chain(s, i))
  {
    StepMovesChain(s, e, i);
    StepKeepsOrder(s, e, i);
  }

  /** Left to itself, a worker takes a few steps of its own and then uses the last context sent to it. */
  lemma {:induction false} WorkerCatchesUp(s: State, i: nat) returns (events: seq<Event>)
    requires OrderedAt(s, i)
    ensures IsRun(s, events) && forall e :: e in events ==> OwnStep(e, i)
    ensures var t := After(s, events);
            i < |t.workers| && i < |t.rings| && t.workers[i] == Using(Last(Chain(s, i))) && t.rings[i] == []
    decreases 3 * |s.rings[i]| + (match s.workers[i] case Received(_, _) => 2 case Switching(_) => 1 case Using(_) => 0)
  {
    if s.workers[i].Using? && s.rings[i] == [] {
      events := [];
    } else {
      var e := match s.workers[i] case Using(_) => Dequeue(i) case Received(_, _) => ReleaseOld(i) case Switching(_) => Switch(i);
      OwnStepKeepsLast(s, e, i);
      var rest := WorkerCatchesUp(Step(s, e), i);
      events := RunCons(s, e, rest);
    }
  }

  /** So after every reload without failures each worker can come to use the newest context. */
  lemma EveryWorkerCanUseNewest(n: nat, events: seq<Event>, i: nat) returns (more: seq<Event>)
    requires i < n && IsRun(Initial(n), events) && NoFailures(events) && After(Initial(n), events).control.Idle?
    ensures IsRun(After(Initial(n), events), more) && forall e :: e in more ==> OwnStep(e, i)
    ensures var t := After(After(Initial(n), events), more);
            i < |t.workers| && t.workers[i] == Using(CountOf(events, Load))
  {
    ReloadReachesEveryWorker(n, events, i);
    RunKeepsOrder(Initial(n), events, i);
    more := WorkerCatchesUp(After(Initial(n), events), i);
  }
}
