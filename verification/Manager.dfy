/**
 The health check manager. Each round it takes the current list of targets, keeps the streams of
 targets that stay, opens streams for new ones and closes those of targets that left; then it checks
 every target once and reads one dampened result for each.
 */
module Manager {
  import opened Bytes
  import Dampener

  type Result = Dampener.Result
  type Thresholds = Dampener.Thresholds

  datatype Target = Target(checkType: string, ip: string, port: int, uri: string)

  /** A target's raw stream and the results sent into it so far, all of which its dampener has seen. */
  datatype Metadata = Metadata(stream: nat, history: seq<Result>)

  type Active = map<Target, Metadata>

  // ---- The target update phase ----

  /** Targets already taken over, targets of the last round not yet claimed, and streams opened so far. */
  datatype Update = Update(active: Active, last: Active, created: nat)

  function TakeOver(x: Update, t: Target): Update {
    if t in x.last then Update(x.active[t := x.last[t]], x.last - {t}, x.created)
    else x.(active := x.active[t := Metadata(x.created, [])], created := x.created + 1)
  }

  function TakeOverAll(x: Update, targets: seq<Target>): Update {
    if targets == [] then x
    else TakeOver(TakeOverAll(x, targets[..|targets| - 1]), targets[|targets| - 1])
  }

  predicate NoDuplicates(targets: seq<Target>) {
    forall i, j :: 0 <= i < j < |targets| ==> targets[i] != targets[j]
  }

  // ---- Streams ----

  ghost predicate Carries(m: Active, i: nat) {
    exists t :: t in m && m[t].stream == i
  }

  ghost function Owners(m: Active, i: nat): nat {
    if Carries(m, i) then 1 else 0
  }

  ghost predicate OwnStreams(m: Active, created: nat) {
    && (forall t | t in m :: m[t].stream < created)
    && (forall t, u | t in m && u in m && t != u :: m[t].stream != m[u].stream)
  }

  /** Every stream ever opened is in use by exactly one target, or has been closed exactly once. */
  ghost predicate Tidy(active: Active, created: nat, closed: multiset<nat>) {
    && OwnStreams(active, created)
    && (forall i: nat | i < created :: closed[i] + Owners(active, i) == 1)
    && (forall i: nat | i >= created :: closed[i] == 0)
  }

  /** The same in the middle of an update, when a stream may still wait to be claimed. */
  ghost predicate Balanced(x: Update, closed: multiset<nat>) {
    && OwnStreams(x.active, x.created) && OwnStreams(x.last, x.created)
    && x.active.Keys !! x.last.Keys
    && (forall i: nat | i < x.created :: closed[i] + Owners(x.active, i) + Owners(x.last, i) == 1)
    && (forall i: nat | i >= x.created :: closed[i] == 0)
  }

  /** Some stream is open that no target uses and no step will ever close. */
  ghost predicate Leaky(x: Update, closed: multiset<nat>) {
    exists i: nat :: i < x.created && LostIn(x, closed, i)
  }

  ghost predicate LostIn(x: Update, closed: multiset<nat>, i: nat) {
    closed[i] == 0 && !Carries(x.active, i) && !Carries(x.last, i)
  }

  lemma ClaimMovesStream(x: Update, t: Target, i: nat)
    requires OwnStreams(x.last, x.created) && t in x.last && t !in x.active
    ensures var y := TakeOver(x, t);
            && (Carries(y.active, i) <==> Carries(x.active, i) || i == x.last[t].stream)
            && (Carries(y.last, i) <==> Carries(x.last, i) && i != x.last[t].stream)
  {
    var y := TakeOver(x, t);
    if Carries(x.active, i) {
      var u :| u in x.active && x.active[u].stream == i;
      assert u in y.active && y.active[u].stream == i;
    }
    if i == x.last[t].stream {
      assert t in y.active && y.active[t].stream == i;
    } else if Carries(x.last, i) {
      var u :| u in x.last && x.last[u].stream == i;
      assert u in y.last && y.last[u].stream == i;
    }
  }

  lemma OpenAddsStream(x: Update, t: Target, i: nat)
    requires t !in x.last && t !in x.active
    ensures var y := TakeOver(x, t);
            && (Carries(y.active, i) <==> Carries(x.active, i) || i == x.created)
            && y.last == x.last
  {
    var y := TakeOver(x, t);
    if Carries(x.active, i) {
      var u :| u in x.active && x.active[u].stream == i;
      assert u in y.active && y.active[u].stream == i;
    }
    if i == x.created {
      assert t in y.active && y.active[t].stream == i;
    }
  }

  lemma OneMoreOwner(m: Active, created: nat, t: Target, meta: Metadata)
    requires OwnStreams(m, created) && t !in m && meta.stream < created && !Carries(m, meta.stream)
    ensures OwnStreams(m[t := meta], created)
  {
  }

  lemma ClaimKeepsBalance(x: Update, closed: multiset<nat>, t: Target)
    requires Balanced(x, closed) && t !in x.active && t in x.last
    ensures Balanced(TakeOver(x, t), closed)
  {
    var y, s := TakeOver(x, t), x.last[t].stream;
    assert Carries(x.last, s) && s < x.created;
    assert Owners(x.last, s) == 1 && Owners(x.active, s) == 0;
    OneMoreOwner(x.active, x.created, t, x.last[t]);
    forall i: nat | i < y.created
      ensures closed[i] + Owners(y.active, i) + Owners(y.last, i) == 1
    {
      ClaimMovesStream(x, t, i);
    }
  }

  lemma OpenKeepsBalance(x: Update, closed: multiset<nat>, t: Target)
    requires Balanced(x, closed) && t !in x.active && t !in x.last
    ensures Balanced(TakeOver(x, t), closed)
  {
    var y := TakeOver(x, t);
    assert !Carries(x.active, x.created) && !Carries(x.last, x.created);
    OneMoreOwner(x.active, y.created, t, Metadata(x.created, []));
    forall i: nat | i < y.created
      ensures closed[i] + Owners(y.active, i) + Owners(y.last, i) == 1
    {
      OpenAddsStream(x, t, i);
    }
  }

  /** Taking over a target a second time drops the stream it had. */
  lemma SecondTakeOverLeaks(x: Update, closed: multiset<nat>, t: Target)
    requires Balanced(x, closed) && t in x.active
    ensures Leaky(TakeOver(x, t), closed)
  {
    var y, i := TakeOver(x, t), x.active[t].stream;
    assert t !in x.last && y.last == x.last;
    assert Carries(x.active, i) && i < x.created;
    assert Owners(x.active, i) == 1 && Owners(x.last, i) == 0;
    assert LostIn(y, closed, i);
  }

  lemma LeakStays(x: Update, closed: multiset<nat>, t: Target)
    requires Leaky(x, closed)
    ensures Leaky(TakeOver(x, t), closed)
  {
    var i: nat :| i < x.created && LostIn(x, closed, i);
    assert LostIn(TakeOver(x, t), closed, i);
  }

  lemma NoDuplicatesAppend(ts: seq<Target>, t: Target)
    ensures NoDuplicates(ts + [t]) <==> NoDuplicates(ts) && t !in ts
  {
    var all := ts + [t];
    if NoDuplicates(all) {
      forall i, j | 0 <= i < j < |ts|
        ensures ts[i] != ts[j]
      {
        assert all[i] != all[j];
      }
      forall i | 0 <= i < |ts|
        ensures ts[i] != t
      {
        assert all[i] != all[|ts|];
      }
    }
  }

  lemma {:induction false} ActiveAfter(x: Update, targets: seq<Target>, u: Target)
    ensures u in TakeOverAll(x, targets).active <==> u in x.active || u in targets
  {
    if targets != [] {
      var n := |targets| - 1;
      assert targets == targets[..n] + [targets[n]];
      ActiveAfter(x, targets[..n], u);
    }
  }

  /** A whole update is balanced exactly when no target is listed twice; otherwise a stream is lost. */
  lemma {:induction false} UpdateBalancedExactly(x: Update, closed: multiset<nat>, targets: seq<Target>)
    requires Balanced(x, closed) && x.active == map[]
    ensures NoDuplicates(targets) ==> Balanced(TakeOverAll(x, targets), closed)
    ensures !NoDuplicates(targets) ==> Leaky(TakeOverAll(x, targets), closed)
  {
    if targets != [] {
      var n := |targets| - 1;
      var ts, t := targets[..n], targets[n];
      assert targets == ts + [t];
      NoDuplicatesAppend(ts, t);
      UpdateBalancedExactly(x, closed, ts);
      ActiveAfter(x, ts, t);
      TakeOverNext(TakeOverAll(x, ts), closed, t, NoDuplicates(ts));
    }
  }

  lemma TakeOverNext(y: Update, closed: multiset<nat>, t: Target, balanced: bool)
    requires if balanced then Balanced(y, closed) else Leaky(y, closed)
    ensures if balanced && t !in y.active then Balanced(TakeOver(y, t), closed) else Leaky(TakeOver(y, t), closed)
  {
    if !balanced {
      LeakStays(y, closed, t);
    } else if t in y.active {
      SecondTakeOverLeaks(y, closed, t);
    } else if t in y.last {
      ClaimKeepsBalance(y, closed, t);
    } else {
      OpenKeepsBalance(y, closed, t);
    }
  }

  /** Without duplicates, a target that stays keeps its metadata, a new one starts afresh, the rest is left over. */
  lemma {:induction false} UpdateMeaning(m: Active, created: nat, targets: seq<Target>, u: Target)
    requires NoDuplicates(targets)
    ensures var x := TakeOverAll(Update(map[], m, created), targets);
            && (u in x.active <==> u in targets)
            && (u in x.last <==> u in m && u !in targets)
            && (u in x.active && u in m ==> x.active[u] == m[u])
            && (u in x.active && u !in m ==> x.active[u].history == [])
            && (u in x.last ==> x.last[u] == m[u])
  {
    if targets != [] {
      var n := |targets| - 1;
      var ts, t := targets[..n], targets[n];
      assert targets == ts + [t];
      NoDuplicatesAppend(ts, t);
      UpdateMeaning(m, created, ts, u);
    }
  }

  // ---- A round ----

  /** What the manager remembers between rounds. */
  datatype State = State(active: Active, created: nat, closed: multiset<nat>, results: map<Target, Result>)

  const INITIAL := State(map[], 0, multiset{}, map[])

  /** The list of targets a round works with, and the one result each check delivers. */
  datatype Round = Round(targets: seq<Target>, raw: Target -> Result)

  function Checked(active: Active, raw: Target -> Result): Active {
    map t | t in active :: Metadata(active[t].stream, active[t].history + [raw(t)])
  }

  function Reports(th: Thresholds, active: Active): map<Target, Result> {
    map t | t in active :: if active[t].history == [] then Dampener.ZERO_RESULT else Dampener.Report(th, active[t].history)
  }

  /** `s'` is what a round makes of `s`; closing has no prescribed order, so streams closed are only counted. */
  ghost predicate RoundStep(th: Thresholds, s: State, r: Round, s': State) {
    var x := TakeOverAll(Update(map[], s.active, s.created), r.targets);
    && s'.active == Checked(x.active, r.raw)
    && s'.created == x.created
    && s'.results == Reports(th, s'.active)
    && forall i :: s'.closed[i] == s.closed[i] + Owners(x.last, i)
  }

  lemma CheckingKeepsStreams(active: Active, raw: Target -> Result, i: nat)
    ensures Carries(Checked(active, raw), i) <==> Carries(active, i)
  {
    var after := Checked(active, raw);
    if Carries(active, i) {
      var t :| t in active && active[t].stream == i;
      assert t in after && after[t].stream == i;
    }
  }

  /**
   After a round, every stream is in use or closed exactly once if and only if no target was listed twice:
   streams are closed when their target leaves, not before and never again.
   */
  lemma RoundTidyExactly(th: Thresholds, s: State, r: Round, s': State)
    requires Tidy(s.active, s.created, s.closed) && RoundStep(th, s, r, s')
    ensures Tidy(s'.active, s'.created, s'.closed) <==> NoDuplicates(r.targets)
  {
    var x0 := Update(map[], s.active, s.created);
    var x := TakeOverAll(x0, r.targets);
    UpdateBalancedExactly(x0, s.closed, r.targets);
    if NoDuplicates(r.targets) {
      BalancedEndsTidy(x, s.closed, r.raw, s'.closed);
    } else {
      var i: nat :| i < x.created && LostIn(x, s.closed, i);
      CheckingKeepsStreams(x.active, r.raw, i);
      assert s'.closed[i] + Owners(s'.active, i) == 0;
    }
  }

  lemma BalancedEndsTidy(x: Update, closed: multiset<nat>, raw: Target -> Result, after: multiset<nat>)
    requires Balanced(x, closed) && forall i :: after[i] == closed[i] + Owners(x.last, i)
    ensures Tidy(Checked(x.active, raw), x.created, after)
  {
    var active := Checked(x.active, raw);
    forall i: nat | i < x.created
      ensures after[i] + Owners(active, i) == 1
    {
      CheckingKeepsStreams(x.active, raw, i);
    }
    forall i: nat | i >= x.created
      ensures after[i] == 0
    {
      assert !Carries(x.last, i);
    }
  }

  // ---- All rounds ----

  /** The raw results of a target since it was last added, from the rounds alone. */
  function SinceAdded(rounds: seq<Round>, t: Target): seq<Result> {
    if rounds == [] then []
    else
      var last := rounds[|rounds| - 1];
      if t in last.targets then SinceAdded(rounds[..|rounds| - 1], t) + [last.raw(t)] else []
  }

  /** `states[k]` is the manager's state after `k` rounds. */
  ghost predicate IsRun(th: Thresholds, rounds: seq<Round>, states: seq<State>) {
    && |states| == |rounds| + 1 && states[0] == INITIAL
    && forall k :: 0 <= k < |rounds| ==> RoundStep(th, states[k], rounds[k], states[k + 1])
  }

  ghost predicate AllDistinct(rounds: seq<Round>) {
    forall k :: 0 <= k < |rounds| ==> NoDuplicates(rounds[k].targets)
  }

  /** What holds of one target after `k` rounds. */
  ghost predicate RemembersAt(s: State, rounds: seq<Round>, t: Target) {
    && (t in s.active <==> rounds != [] && t in rounds[|rounds| - 1].targets)
    && (t in s.active ==> s.active[t].history == SinceAdded(rounds, t))
  }

  lemma RoundRemembers(th: Thresholds, s: State, rounds: seq<Round>, r: Round, s': State, t: Target)
    requires RoundStep(th, s, r, s') && NoDuplicates(r.targets) && RemembersAt(s, rounds, t)
    ensures RemembersAt(s', rounds + [r], t)
  {
    UpdateMeaning(s.active, s.created, r.targets, t);
    var all := rounds + [r];
    assert all[..|all| - 1] == rounds;
    assert t !in s.active ==> SinceAdded(rounds, t) == [];
  }

  lemma {:induction false} RunRemembers(th: Thresholds, rounds: seq<Round>, states: seq<State>, k: nat, t: Target)
    requires IsRun(th, rounds, states) && AllDistinct(rounds) && k <= |rounds|
    ensures RemembersAt(states[k], rounds[..k], t)
  {
    if k > 0 {
      RunRemembers(th, rounds, states, k - 1, t);
      RoundRemembers(th, states[k - 1], rounds[..k - 1], rounds[k - 1], states[k], t);
      assert rounds[..k] == rounds[..k - 1] + [rounds[k - 1]];
    }
  }

  /**
   After every round the results are for exactly the current targets, and each is the dampener applied to
   that target's raw results since it was last added.
   */
  lemma ResultsAreDampenedHistories(th: Thresholds, rounds: seq<Round>, states: seq<State>, k: nat, t: Target)
    requires IsRun(th, rounds, states) && AllDistinct(rounds) && 1 <= k <= |rounds|
    ensures t in states[k].results <==> t in rounds[k - 1].targets
    ensures t in states[k].results ==>
              var history := SinceAdded(rounds[..k], t);
              history != [] && states[k].results[t] == Dampener.Report(th, history)
  {
    RunRemembers(th, rounds, states, k, t);
    assert rounds[..k][|rounds[..k]| - 1] == rounds[k - 1];
    assert RoundStep(th, states[k - 1], rounds[k - 1], states[k]);
  }

  /** In every run, at all times, each stream ever opened is in use by one target or has been closed once. */
  lemma {:induction false} RunIsTidy(th: Thresholds, rounds: seq<Round>, states: seq<State>, k: nat)
    requires IsRun(th, rounds, states) && AllDistinct(rounds) && k <= |rounds|
    ensures Tidy(states[k].active, states[k].created, states[k].closed)
  {
    if k > 0 {
      RunIsTidy(th, rounds, states, k - 1);
      RoundTidyExactly(th, states[k - 1], rounds[k - 1], states[k]);
    }
  }

  // ---- The manager object ----

  /** No stream is shared between targets, whatever lists of targets came in. */
  ghost predicate Separate(x: Update) {
    && OwnStreams(x.active, x.created) && OwnStreams(x.last, x.created)
    && (forall t, u | t in x.active && u in x.last :: t != u && x.active[t].stream != x.last[u].stream)
  }

  lemma TakeOverKeepsSeparate(x: Update, t: Target)
    requires Separate(x)
    ensures Separate(TakeOver(x, t))
  {
  }

  lemma CheckingKeepsOwnStreams(active: Active, raw: Target -> Result, created: nat)
    requires OwnStreams(active, created)
    ensures OwnStreams(Checked(active, raw), created)
  {
  }

  lemma OwnersWithout(m: Active, t: Target, created: nat, i: nat)
    requires OwnStreams(m, created) && t in m
    ensures OwnStreams(m - {t}, created)
    ensures Owners(m, i) == Owners(m - {t}, i) + if m[t].stream == i then 1 else 0
  {
    if Carries(m, i) && m[t].stream != i {
      var u :| u in m && m[u].stream == i;
      assert u in m - {t};
    }
  }

  class HealthCheckManager {
    const checkTypes: set<string>
    const th: Thresholds
    var nextTargets: seq<Target>
    var active: Active
    var created: nat
    var closed: multiset<nat>
    var results: map<Target, Result>

    ghost function Value(): State
      reads this
    {
      State(active, created, closed, results)
    }

    ghost predicate Valid()
      reads this
    {
      OwnStreams(active, created)
    }

    constructor (checkTypes: set<string>, th: Thresholds)
      ensures Valid() && Value() == INITIAL && nextTargets == [] && this.checkTypes == checkTypes && this.th == th
    {
      this.checkTypes, this.th, nextTargets := checkTypes, th, [];
      active, created, closed, results := map[], 0, multiset{}, map[];
    }

    /** Accepts a list only if every check type is known; reports the first that is not and changes nothing. */
    method SetTargets(targets: seq<Target>) returns (invalid: Option<string>)
      modifies this`nextTargets
      ensures invalid.None? <==> forall i :: 0 <= i < |targets| ==> targets[i].checkType in checkTypes
      ensures invalid.Some? ==> invalid.value !in checkTypes && nextTargets == old(nextTargets)
      ensures invalid.None? ==> nextTargets == targets
    {
      for i := 0 to |targets|
        invariant forall k :: 0 <= k < i ==> targets[k].checkType in checkTypes
      {
        if targets[i].checkType !in checkTypes {
          return Some(targets[i].checkType);
        }
      }
      nextTargets := targets;
      invalid := None;
    }

    /** One iteration of `Run`. */
    method RunRound(raw: Target -> Result)
      requires Valid()
      modifies this
      ensures Valid() && nextTargets == old(nextTargets)
      ensures RoundStep(th, old(Value()), Round(nextTargets, raw), Value())
    {
      var targets := nextTargets;
      var lastActive := UpdateTargets(targets);
      CloseLeftOver(lastActive);
      DoHealthCheckRound(raw);
    }

    method UpdateTargets(targets: seq<Target>) returns (lastActive: Active)
      requires Valid()
      modifies this`active, this`created
      ensures Valid() && OwnStreams(lastActive, created)
      ensures Update(active, lastActive, created) == TakeOverAll(Update(map[], old(active), old(created)), targets)
    {
      ghost var x0 := Update(map[], active, created);
      lastActive := active;
      active := map[];
      for k := 0 to |targets|
        invariant Update(active, lastActive, created) == TakeOverAll(x0, targets[..k])
        invariant Separate(Update(active, lastActive, created))
      {
        var target := targets[k];
        TakeOverKeepsSeparate(Update(active, lastActive, created), target);
        assert targets[..k + 1][..k] == targets[..k];
        if target in lastActive {
          active := active[target := lastActive[target]];
          lastActive := lastActive - {target};
        } else {
          active := active[target := Metadata(created, [])];
          created := created + 1;
        }
      }
      assert targets[..|targets|] == targets;
    }

    /** Closes the raw stream of every target that left. */
    method CloseLeftOver(lastActive: Active)
      requires OwnStreams(lastActive, created)
      modifies this`closed
      ensures forall i :: closed[i] == old(closed[i]) + Owners(lastActive, i)
    {
      var left := lastActive;
      while left != map[]
        invariant OwnStreams(left, created)
        invariant forall i :: closed[i] + Owners(left, i) == old(closed[i]) + Owners(lastActive, i)
        decreases |left|
      {
        var target :| target in left;
        forall i: nat
          ensures Owners(left, i) == Owners(left - {target}, i) + if left[target].stream == i then 1 else 0
        {
          OwnersWithout(left, target, created, i);
        }
        closed := closed + multiset{left[target].stream};
        left := left - {target};
      }
    }

    /** `doHealthCheckRound`: check every target, then read one dampened result for each. */
    method DoHealthCheckRound(raw: Target -> Result)
      requires Valid()
      modifies this`active, this`results
      ensures Valid()
      ensures active == Checked(old(active), raw) && results == Reports(th, active)
    {
      CheckingKeepsOwnStreams(active, raw, created);
      CheckAll(raw);
      ReadAll();
    }

    method CheckAll(raw: Target -> Result)
      modifies this`active
      ensures active == Checked(old(active), raw)
    {
      var todo := active.Keys;
      while todo != {}
        invariant todo <= active.Keys == old(active).Keys
        invariant forall t | t in active ::
                    active[t] == if t in todo then old(active)[t] else Checked(old(active), raw)[t]
        decreases |todo|
      {
        var target :| target in todo;
        active := active[target := Metadata(active[target].stream, active[target].history + [raw(target)])];
        todo := todo - {target};
      }
    }

    method ReadAll()
      modifies this`results
      ensures results == Reports(th, active)
    {
      var read: map<Target, Result> := map[];
      var todo := active.Keys;
      while todo != {}
        invariant todo <= active.Keys && read.Keys == active.Keys - todo
        invariant forall t | t in read :: read[t] == Reports(th, active)[t]
        decreases |todo|
      {
        var target :| target in todo;
        var history := active[target].history;
        read := read[target := if history == [] then Dampener.ZERO_RESULT else Dampener.Report(th, history)];
        todo := todo - {target};
      }
      results := read;
    }
  }

  /** `SyncBackendsToCheckManager`: the targets of all backends, pushed through a map, come out without duplicates. */
  method UniqueTargets(all: seq<Target>) returns (backends: seq<Target>)
    ensures NoDuplicates(backends)
    ensures forall t :: t in backends <==> t in all
  {
    var unique: set<Target> := {};
    for i := 0 to |all|
      invariant forall t :: t in unique <==> t in all[..i]
    {
      unique := unique + {all[i]};
    }
    backends := [];
    ghost var whole := unique;
    while unique != {}
      invariant unique <= whole && NoDuplicates(backends)
      invariant forall t :: t in backends <==> t in whole - unique
      decreases |unique|
    {
      var target :| target in unique;
      NoDuplicatesAppend(backends, target);
      backends := backends + [target];
      unique := unique - {target};
    }
  }
}
