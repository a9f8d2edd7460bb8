/**
 Tunnelled health checks. A check is pending until its result channel is taken out of the map, which
 a reply, a duplicate reply and the timeout all try to do, in any order; only the first one gets it.
 */
module TunnelCheck {
  import opened Bytes
  import Dampener

  type Result = Dampener.Result

  /** A check identifier, a result channel, and a result that went into a channel for a check. */
  type Id = nat
  type Channel = nat
  datatype Delivery = Delivery(check: Id, channel: Channel, result: Result)

  datatype Event =
    | Begin(check: Id, channel: Channel)                       // the check is registered and its request sent
    | FailsEarly(check: Id, channel: Channel, error: string)   // no socket to the target: not even registered
    | PrependFails(check: Id, channel: Channel, error: string) // registered, but no request could be made of it
    | Reply(check: Id)                                         // an echo reply carries this identifier
    | Timeout(check: Id)                                       // the check's timer goes off

  datatype State = State(pending: map<Id, Channel>, log: seq<Delivery>)

  const REPLIED := Dampener.Result(true, Dampener.NoText)
  const NO_RESPONSE := Dampener.Result(false, Dampener.NoResponse)

  /** A target that cannot be reached is unhealthy; an error of the checker itself is not held against it. */
  function Unreachable(error: string): Result {
    Dampener.Result(false, Dampener.Error(error))
  }

  function CannotTest(error: string): Result {
    Dampener.Result(true, Dampener.Error(error))
  }

  /** Taking a check out of the map and, if it was there, sending it its result. */
  function Finish(s: State, check: Id, r: Result): State {
    if check in s.pending then State(s.pending - {check}, s.log + [Delivery(check, s.pending[check], r)]) else s
  }

  function Step(s: State, e: Event): State {
    match e
    case Begin(check, channel) => s.(pending := s.pending[check := channel])
    case FailsEarly(check, channel, error) => s.(log := s.log + [Delivery(check, channel, Unreachable(error))])
    case PrependFails(check, channel, error) =>
      Finish(s.(pending := s.pending[check := channel]), check, CannotTest(error))
    case Reply(check) => Finish(s, check, REPLIED)
    case Timeout(check) => Finish(s, check, NO_RESPONSE)
  }

  function After(events: seq<Event>): State {
    if events == [] then State(map[], []) else Step(After(events[..|events| - 1]), events[|events| - 1])
  }

  // ---- What a check's result ought to be, from the order of events alone ----

  /** The events a check's life starts with. */
  predicate Registers(e: Event, check: Id) {
    !e.Reply? && !e.Timeout? && e.check == check
  }

  predicate Completes(e: Event, check: Id) {
    (e.Reply? || e.Timeout?) && e.check == check
  }

  function ResultOf(e: Event): Result
    requires !e.Begin?
  {
    match e
    case FailsEarly(_, _, error) => Unreachable(error)
    case PrependFails(_, _, error) => CannotTest(error)
    case Reply(_) => REPLIED
    case Timeout(_) => NO_RESPONSE
  }

  /** Identifiers are unique: a check is registered at most once. */
  ghost predicate UniqueIds(events: seq<Event>) {
    forall i, j, check :: 0 <= i < j < |events| && Registers(events[i], check) ==> !Registers(events[j], check)
  }

  /** Whether the check has been registered, with which channel, and the first completion since. */
  datatype Progress = Unknown | Waiting(channel: Channel) | Done(delivery: Delivery)

  function Advance(p: Progress, e: Event, check: Id): Progress {
    match p
    case Unknown =>
      if !Registers(e, check) then Unknown
      else if e.Begin? then Waiting(e.channel)
      else Done(Delivery(check, e.channel, ResultOf(e)))
    case Waiting(channel) => if Completes(e, check) then Done(Delivery(check, channel, ResultOf(e))) else p
    case Done(_) => p
  }

  function ProgressOf(events: seq<Event>, check: Id): Progress {
    if events == [] then Unknown
    else Advance(ProgressOf(events[..|events| - 1], check), events[|events| - 1], check)
  }

  /** The results delivered for one check. */
  function ResultsFor(log: seq<Delivery>, check: Id): seq<Delivery> {
    if log == [] then []
    else ResultsFor(log[..|log| - 1], check) + if log[|log| - 1].check == check then [log[|log| - 1]] else []
  }

  lemma FinishedOne(s: State, check: Id, other: Id, r: Result)
    ensures ResultsFor(Finish(s, check, r).log, other)
         == ResultsFor(s.log, other) + if other == check && check in s.pending then [Delivery(check, s.pending[check], r)] else []
  {
    if check in s.pending {
      var d := Delivery(check, s.pending[check], r);
      assert (s.log + [d])[..|s.log|] == s.log;
    }
  }

  /** Not yet taken and no result, or taken and exactly the one result. */
  predicate Agrees(s: State, check: Id, p: Progress) {
    match p
    case Unknown => check !in s.pending && ResultsFor(s.log, check) == []
    case Waiting(channel) => check in s.pending && s.pending[check] == channel && ResultsFor(s.log, check) == []
    case Done(d) => check !in s.pending && ResultsFor(s.log, check) == [d]
  }

  /** The first to finish a waiting check decides; finishing any other check changes nothing. */
  lemma FinishAgrees(s: State, c: Id, check: Id, p: Progress, r: Result)
    requires Agrees(s, check, p)
    ensures Agrees(Finish(s, c, r), check, if p.Waiting? && c == check then Done(Delivery(check, p.channel, r)) else p)
  {
    FinishedOne(s, c, check, r);
  }

  lemma EarlyFailureAgrees(s: State, c: Id, channel: Channel, check: Id, p: Progress, r: Result)
    requires Agrees(s, check, p) && (c == check ==> p == Unknown)
    ensures Agrees(s.(log := s.log + [Delivery(c, channel, r)]), check,
                   if c == check then Done(Delivery(c, channel, r)) else p)
  {
    assert (s.log + [Delivery(c, channel, r)])[..|s.log|] == s.log;
  }

  lemma BeginAgrees(s: State, c: Id, channel: Channel, check: Id, p: Progress)
    requires Agrees(s, check, p) && (c == check ==> p == Unknown)
    ensures Agrees(s.(pending := s.pending[c := channel]), check, if c == check then Waiting(channel) else p)
  {
  }

  lemma StepAgrees(s: State, e: Event, check: Id, p: Progress)
    requires Agrees(s, check, p) && (p != Unknown ==> !Registers(e, check))
    ensures Agrees(Step(s, e), check, Advance(p, e, check))
  {
    if e.FailsEarly? {
      EarlyFailureAgrees(s, e.check, e.channel, check, p, Unreachable(e.error));
    } else if e.Reply? || e.Timeout? {
      FinishAgrees(s, e.check, check, p, ResultOf(e));
    } else {
      BeginAgrees(s, e.check, e.channel, check, p);
      if e.PrependFails? {
        var t := s.(pending := s.pending[e.check := e.channel]);
        FinishAgrees(t, e.check, check, if e.check == check then Waiting(e.channel) else p, CannotTest(e.error));
      }
    }
  }

  /**
   In every order of registrations, replies, duplicate replies, stray replies and timeouts, a check gets
   no result while it waits and exactly one afterwards: that of whichever completion came first, on
   the channel it was registered with.
   */
  lemma {:induction false} ExactlyOneResult(events: seq<Event>, check: Id)
    requires UniqueIds(events)
    ensures Agrees(After(events), check, ProgressOf(events, check))
  {
    if events != [] {
      var n := |events| - 1;
      var before, e := events[..n], events[n];
      assert UniqueIds(before);
      ExactlyOneResult(before, check);
      RegisteredBefore(before, check);
      StepAgrees(After(before), e, check, ProgressOf(before, check));
    }
  }

  /** A check that is not unknown has been registered by some event. */
  lemma {:induction false} RegisteredBefore(events: seq<Event>, check: Id)
    ensures ProgressOf(events, check) != Unknown ==> exists i :: 0 <= i < |events| && Registers(events[i], check)
  {
    if events != [] && ProgressOf(events, check) != Unknown {
      var n := |events| - 1;
      if ProgressOf(events[..n], check) == Unknown {
        assert Registers(events[n], check);
      } else {
        RegisteredBefore(events[..n], check);
        var i :| 0 <= i < n && Registers(events[..n][i], check);
        assert Registers(events[i], check);
      }
    }
  }

  /** A check that is waiting after `i` events is still waiting before its first completion. */
  lemma {:induction false} StillWaiting(events: seq<Event>, check: Id, channel: Channel, i: nat, j: nat)
    requires i < j <= |events| && events[i] == Begin(check, channel) && UniqueIds(events)
    requires forall k :: i < k < j ==> !Completes(events[k], check)
    ensures ProgressOf(events[..j], check) == Waiting(channel)
    decreases j
  {
    assert events[..j][..j - 1] == events[..j - 1];
    if j == i + 1 {
      NotYetKnown(events, check, i);
    } else {
      StillWaiting(events, check, channel, i, j - 1);
    }
  }

  lemma {:induction false} NotYetKnown(events: seq<Event>, check: Id, i: nat)
    requires i < |events| && Registers(events[i], check) && UniqueIds(events)
    ensures ProgressOf(events[..i], check) == Unknown
  {
    RegisteredBefore(events[..i], check);
    assert forall k :: 0 <= k < i ==> events[..i][k] == events[k] && !Registers(events[k], check);
  }

  lemma {:induction false} DoneStays(events: seq<Event>, check: Id, d: Delivery, j: nat)
    requires j <= |events| && ProgressOf(events[..j], check) == Done(d)
    ensures ProgressOf(events, check) == Done(d)
    decreases |events| - j
  {
    if j == |events| {
      assert events[..j] == events;
    } else {
      assert events[..j + 1][..j] == events[..j];
      DoneStays(events, check, d, j + 1);
    }
  }

  /**
   Whatever else happens before, between and afterwards: a check whose first completion is a reply is reported
   healthy, without text; one whose timer goes off first is reported unhealthy, for want of a response.
   */
  lemma FirstCompletionDecides(events: seq<Event>, check: Id, channel: Channel, i: nat, j: nat)
    requires UniqueIds(events) && i < j < |events| && events[i] == Begin(check, channel)
    requires (events[j] == Reply(check) || events[j] == Timeout(check)) && forall k :: i < k < j ==> !Completes(events[k], check)
    ensures ResultsFor(After(events).log, check)
         == [Delivery(check, channel, if events[j] == Reply(check) then Dampener.Result(true, Dampener.NoText)
                                      else Dampener.Result(false, Dampener.NoResponse))]
  {
    StillWaiting(events, check, channel, i, j);
    assert events[..j + 1][..j] == events[..j];
    DoneStays(events, check, Delivery(check, channel, ResultOf(events[j])), j + 1);
    ExactlyOneResult(events, check);
  }

  /**
   A target the checker cannot even reach is reported unhealthy; a request the checker cannot make is not held
   against the target. Both carry the error.
   */
  lemma FailureDecides(events: seq<Event>, check: Id, channel: Channel, error: string, i: nat)
    requires UniqueIds(events) && i < |events|
    requires events[i] == FailsEarly(check, channel, error) || events[i] == PrependFails(check, channel, error)
    ensures ResultsFor(After(events).log, check)
         == [Delivery(check, channel, Dampener.Result(events[i].PrependFails?, Dampener.Error(error)))]
  {
    NotYetKnown(events, check, i);
    assert events[..i + 1][..i] == events[..i];
    DoneStays(events, check, Delivery(check, channel, ResultOf(events[i])), i + 1);
    ExactlyOneResult(events, check);
  }

  // ---- The checker object ----

  class TunnelHealthChecker {
    var pendingChecks: map<Id, Channel>
    var log: seq<Delivery>

    ghost function Value(): State
      reads this
    {
      State(pendingChecks, log)
    }

    constructor ()
      ensures Value() == After([])
    {
      pendingChecks, log := map[], [];
    }

    method CreatePendingCheck(check: Id, channel: Channel)
      modifies this
      ensures Value() == Step(old(Value()), Begin(check, channel))
    {
      pendingChecks := pendingChecks[check := channel];
    }

    /** The channel for exactly the first caller, nothing for every other one. */
    method GetCheckCompletionChannel(check: Id) returns (channel: Option<Channel>)
      modifies this`pendingChecks
      ensures channel == if check in old(pendingChecks) then Some(old(pendingChecks)[check]) else None
      ensures pendingChecks == old(pendingChecks) - {check}
    {
      if check in pendingChecks {
        channel := Some(pendingChecks[check]);
        pendingChecks := pendingChecks - {check};
      } else {
        channel := None;
      }
    }

    /** The end of the reply path and of the timeout path. */
    method Complete(e: Event)
      requires e.Reply? || e.Timeout?
      modifies this
      ensures Value() == Step(old(Value()), e)
    {
      var channel := GetCheckCompletionChannel(e.check);
      if channel.Some? {
        log := log + [Delivery(e.check, channel.value, ResultOf(e))];
      } else {
        assert pendingChecks == old(pendingChecks);
      }
    }
  }
}
