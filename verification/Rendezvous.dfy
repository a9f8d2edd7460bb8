/**
 One row of a forwarding table: the two best-ranked hosts by rendezvous score, and the swap
 that puts a draining or unhealthy first host second. Hosts and scores are parameters, so
 everything here holds for any hash.
 */
module Rendezvous {

  type ScoreFn<!H> = (nat, H) -> nat

  datatype BackendState = Filling | Active | Draining | Inactive

  datatype Status = Status(state: BackendState, healthy: bool)

  /** One director's view of the backends of a table. */
  type View<H> = map<H, Status>

  /** `a` scores strictly below every other host of `s` in this row. */
  ghost predicate Leads<H>(score: ScoreFn<H>, row: nat, s: set<H>, a: H) {
    a in s && forall b | b in s && b != a :: score(row, a) < score(row, b)
  }

  /** `p` and `q` are the first and second host of `s` in this row. */
  ghost predicate IsPair<H>(score: ScoreFn<H>, row: nat, s: set<H>, p: H, q: H) {
    Leads(score, row, s, p) && Leads(score, row, s - {p}, q)
  }

  ghost predicate NoTies<H>(score: ScoreFn<H>, s: set<H>) {
    forall row: nat, a, b {:trigger score(row, a), score(row, b)} | a in s && b in s && a != b :: score(row, a) != score(row, b)
  }

  lemma {:induction false} LeaderExists<H>(score: ScoreFn<H>, row: nat, s: set<H>) returns (a: H)
    requires s != {} && NoTies(score, s)
    ensures Leads(score, row, s, a)
    decreases s
  {
    a :| a in s;
    if s != {a} {
      var rest := s - {a};
      assert rest != {} by {
        assert s == {a} + rest;
      }
      var c := LeaderExists(score, row, rest);
      if score(row, c) < score(row, a) {
        a := c;
      }
    }
  }

  /** The first and second host of a row: what a fresh ranking by score puts in front. */
  ghost function Pair<H>(score: ScoreFn<H>, row: nat, s: set<H>): (pair: (H, H))
    requires |s| >= 2 && NoTies(score, s)
    ensures IsPair(score, row, s, pair.0, pair.1)
    ensures pair.0 != pair.1 && pair.0 in s && pair.1 in s
  {
    PairExists(score, row, s);
    var p, q :| IsPair(score, row, s, p, q);
    (p, q)
  }

  lemma PairExists<H>(score: ScoreFn<H>, row: nat, s: set<H>)
    requires |s| >= 2 && NoTies(score, s)
    ensures exists p, q :: IsPair(score, row, s, p, q)
  {
    var p := LeaderExists(score, row, s);
    assert |s - {p}| == |s| - 1;
    var q := LeaderExists(score, row, s - {p});
    assert IsPair(score, row, s, p, q);
  }

  lemma PairUnique<H>(score: ScoreFn<H>, row: nat, s: set<H>, p: H, q: H)
    requires |s| >= 2 && NoTies(score, s) && IsPair(score, row, s, p, q)
    ensures Pair(score, row, s) == (p, q)
  {
  }

  /**
   Adding one host disturbs a row minimally. The old first stays in the pair; the old second
   stays exactly when the new host does not enter; and then the pair does not move at all.
   */
  lemma AdditionIsMinimal<H>(score: ScoreFn<H>, row: nat, s: set<H>, b: H)
    requires |s| >= 2 && b !in s && NoTies(score, s + {b})
    ensures |s + {b}| >= 2 && NoTies(score, s)
    ensures var (p, q) := Pair(score, row, s);
            var (p', q') := Pair(score, row, s + {b});
            && p in {p', q'}
            && (q in {p', q'} <==> b !in {p', q'})
            && (b !in {p', q'} ==> (p', q') == (p, q))
  {
    assert |s + {b}| == |s| + 1;
    assert NoTies(score, s) by {
      forall r: nat, x, y | x in s && y in s && x != y
        ensures score(r, x) != score(r, y)
      {
        assert x in s + {b} && y in s + {b};
      }
    }
    var (p, q) := Pair(score, row, s);
    var t := s + {b};
    if score(row, b) < score(row, p) {
      PairUnique(score, row, t, b, p);
    } else if score(row, b) < score(row, q) {
      PairUnique(score, row, t, p, b);
    } else {
      PairUnique(score, row, t, p, q);
    }
  }

  /** Removing one host keeps every surviving member of the pair, and a pair without that host does not move. */
  lemma RemovalIsMinimal<H>(score: ScoreFn<H>, row: nat, s: set<H>, b: H)
    requires b in s && |s| >= 3 && NoTies(score, s)
    ensures |s - {b}| >= 2 && NoTies(score, s - {b})
    ensures var (p, q) := Pair(score, row, s);
            var (p', q') := Pair(score, row, s - {b});
            && (p != b ==> p in {p', q'})
            && (q != b ==> q in {p', q'})
            && (b !in {p, q} ==> (p', q') == (p, q))
  {
  }

  // ---- The swap ----

  /** In the binary table draining and inactive share one state value. */
  predicate Bad(st: Status) {
    st.state == Draining || st.state == Inactive || !st.healthy
  }

  /**
   How a ranked pair is written. The second test compares the secondary's state, not its health, with
   the value that means active.
   */
  function Swapped<T>(first: Status, second: Status, p: T, q: T): (T, T) {
    if Bad(first) && second.state == Active then (q, p) else (p, q)
  }

  /** The pair is swapped exactly when the first is draining, inactive or unhealthy and the second is in state active. */
  lemma SwappedExactly<T>(first: Status, second: Status, p: T, q: T)
    requires p != q
    ensures Swapped(first, second, p, q) in {(p, q), (q, p)}
    ensures Swapped(first, second, p, q) == (q, p)
            <==> (first.state == Draining || first.state == Inactive || first.healthy == false) && second.state == Active
  {
  }

  /** The entry of a ranked pair of hosts under one director's view. */
  function Entry<H>(view: View<H>, p: H, q: H): (H, H)
    requires p in view && q in view
  {
    Swapped(view[p], view[q], p, q)
  }

  /** Whatever two directors believe about state and health, they send a row to the same two hosts. */
  lemma ViewsAgreeOnMembers<H>(score: ScoreFn<H>, row: nat, s: set<H>, v: View<H>, w: View<H>)
    requires |s| >= 2 && NoTies(score, s) && s <= v.Keys && s <= w.Keys
    ensures var (p, q) := Pair(score, row, s);
            var (a, b) := Entry(v, p, q);
            var (c, d) := Entry(w, p, q);
            && {a, b} == {c, d} == {p, q}
            && ((a, b) == (c, d) || (a, b) == (d, c))
  {
  }

  /**
   Exactly when a bad host is first in a row: it leads and the second is not in state active, or it
   is second in state active behind another bad host.
   */
  lemma BadFirstExactly<H>(score: ScoreFn<H>, row: nat, s: set<H>, view: View<H>, b: H)
    requires |s| >= 2 && NoTies(score, s) && s <= view.Keys && b in s && Bad(view[b])
    ensures var (p, q) := Pair(score, row, s);
            Entry(view, p, q).0 == b
            <==> || (b == p && view[q].state != Active)
                 || (b == q && view[b].state == Active && Bad(view[p]))
  {
  }

  /** The host a row is sent to first. */
  ghost function First<H>(score: ScoreFn<H>, row: nat, s: set<H>, view: View<H>): H
    requires |s| >= 2 && NoTies(score, s) && s <= view.Keys
  {
    var (p, q) := Pair(score, row, s);
    Entry(view, p, q).0
  }

  /**
   While every other host is in state active, a draining or unhealthy host is first in no row, provided it
   is not itself in state active or the others are healthy.
   */
  lemma BadFirstNowhere<H>(score: ScoreFn<H>, row: nat, s: set<H>, view: View<H>, b: H)
    requires |s| >= 2 && NoTies(score, s) && s <= view.Keys && b in s && Bad(view[b])
    requires forall h | h in s && h != b :: view[h].state == Active
    requires view[b].state != Active || forall h | h in s && h != b :: view[h].healthy
    ensures First(score, row, s, view) != b
  {
    BadFirstExactly(score, row, s, view, b);
  }

  /**
   Over a whole table the proviso is exact: with every other host in state active, a bad host is first in
   some row exactly when it is itself in state active and second in a row behind an unhealthy host.
   */
  lemma BadFirstSomewhereExactly<H>(score: ScoreFn<H>, rows: nat, s: set<H>, view: View<H>, b: H)
    requires |s| >= 2 && NoTies(score, s) && s <= view.Keys && b in s && Bad(view[b])
    requires forall h | h in s && h != b :: view[h].state == Active
    ensures (exists row: nat :: row < rows && First(score, row, s, view) == b)
            <==> view[b].state == Active
                 && exists row: nat :: row < rows && Pair(score, row, s).1 == b && !view[Pair(score, row, s).0].healthy
  {
    forall row: nat
      ensures First(score, row, s, view) == b
              <==> view[b].state == Active && Pair(score, row, s).1 == b && !view[Pair(score, row, s).0].healthy
    {
      BadFirstExactly(score, row, s, view, b);
    }
  }

  /**
   State active alone does not do: when all hosts are in state active and unhealthy, every row of every
   table puts its second-ranked host, an unhealthy one, first.
   */
  lemma UnhealthySecondIsPromoted<H>(score: ScoreFn<H>, row: nat, s: set<H>, view: View<H>)
    requires |s| >= 2 && NoTies(score, s) && s <= view.Keys
    requires forall h | h in s :: view[h] == Status(Active, false)
    ensures First(score, row, s, view) == Pair(score, row, s).1 && Bad(view[First(score, row, s, view)])
  {
  }
}
