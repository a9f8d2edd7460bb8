/**
 `glb-director-cli build-config`: the loop that fills one table. A single array of sortable
 backends is scored and sorted in place for every row, on top of the order the row before left
 behind.
 */
module TableBuilder {
  import opened Bytes
  import opened Rendezvous
  import SipHash

  /** A backend of the table, with its address. */
  datatype Backend<H> = Backend(ip: H, status: Status)

  /** An element of the array that is sorted: the backend's index and its score in the current row. */
  datatype Sortable = Sortable(index: nat, hash: nat)

  // ---- Sorting in place ----

  predicate Sorted(s: seq<Sortable>) {
    forall i, j :: 0 <= i < j < |s| ==> s[i].hash <= s[j].hash
  }

  method Swap(a: array<Sortable>, i: nat, j: nat)
    requires i < a.Length && j < a.Length
    modifies a
    ensures a[..] == old(a[..])[i := old(a[j])][j := old(a[i])]
    ensures multiset(a[..]) == multiset(old(a[..]))
  {
    a[i], a[j] := a[j], a[i];
  }

  /** The first `n` elements are in place. */
  predicate SortedBelow(s: seq<Sortable>, n: nat) {
    forall x, y :: 0 <= x < n && x < y < |s| ==> s[x].hash <= s[y].hash
  }

  lemma SelectionStep(s: seq<Sortable>, i: nat, k: nat)
    requires i <= k < |s| && SortedBelow(s, i) && forall y :: i <= y < |s| ==> s[k].hash <= s[y].hash
    ensures SortedBelow(s[i := s[k]][k := s[i]], i + 1)
  {
  }

  /** `qsort` by `sortable_backend_cmp`: all that is used of it is that the result is sorted and a permutation. */
  method SortByHash(a: array<Sortable>)
    modifies a
    ensures Sorted(a[..])
    ensures multiset(a[..]) == multiset(old(a[..]))
  {
    for i := 0 to a.Length
      invariant multiset(a[..]) == multiset(old(a[..]))
      invariant SortedBelow(a[..], i)
    {
      var least := IndexOfLeast(a, i);
      SelectionStep(a[..], i, least);
      Swap(a, i, least);
    }
  }

  method IndexOfLeast(a: array<Sortable>, from: nat) returns (k: nat)
    requires from < a.Length
    ensures from <= k < a.Length
    ensures forall y :: from <= y < a.Length ==> a[k].hash <= a[y].hash
  {
    k := from;
    for j := from + 1 to a.Length
      invariant from <= k < a.Length
      invariant forall y :: from <= y < j ==> a[k].hash <= a[y].hash
    {
      if a[j].hash < a[k].hash {
        k := j;
      }
    }
  }

  // ---- One array for all rows ----

  /** The array holds each available backend exactly once, in some order. */
  ghost predicate HoldsEach(s: seq<Sortable>, avail: set<nat>) {
    && (forall i, j :: 0 <= i < j < |s| ==> s[i].index != s[j].index)
    && (forall i :: 0 <= i < |s| ==> s[i].index in avail)
    && (forall x | x in avail :: exists i :: 0 <= i < |s| && s[i].index == x)
  }

  ghost predicate Scored(s: seq<Sortable>, score: nat -> nat) {
    forall i :: 0 <= i < |s| ==> s[i].hash == score(s[i].index)
  }

  lemma PermutationHoldsEach(s: seq<Sortable>, t: seq<Sortable>, avail: set<nat>, score: nat -> nat)
    requires multiset(s) == multiset(t) && HoldsEach(s, avail) && Scored(s, score)
    ensures HoldsEach(t, avail) && Scored(t, score)
  {
    forall i | 0 <= i < |t|
      ensures t[i].index in avail && t[i].hash == score(t[i].index)
    {
      assert t[i] in multiset(t);
      assert t[i] in s;
    }
    forall x | x in avail
      ensures exists i :: 0 <= i < |t| && t[i].index == x
    {
      var i :| 0 <= i < |s| && s[i].index == x;
      assert s[i] in multiset(t);
      assert s[i] in t;
    }
    forall i, j | 0 <= i < j < |t|
      ensures t[i].index != t[j].index
    {
      if t[i].index == t[j].index {
        assert t[i] == t[j] == Sortable(t[i].index, score(t[i].index));
        TwiceInMultiset(t, i, j);
        AtMostOnce(s, t[i]);
      }
    }
  }

  lemma TwiceInMultiset<T>(t: seq<T>, i: nat, j: nat)
    requires i < j < |t| && t[i] == t[j]
    ensures multiset(t)[t[i]] >= 2
  {
    assert t == t[..j] + [t[j]] + t[j + 1..];
    assert t[i] in multiset(t[..j]) by {
      assert t[..j][i] == t[i];
    }
  }

  lemma {:induction false} AtMostOnce<H>(s: seq<H>, x: H)
    requires forall i, j :: 0 <= i < j < |s| ==> s[i] != s[j]
    ensures multiset(s)[x] <= 1
  {
    if s != [] {
      var n := |s| - 1;
      assert s == s[..n] + [s[n]];
      AtMostOnce(s[..n], x);
      assert s[n] == x ==> x !in s[..n];
    }
  }

  method ScoreRow(a: array<Sortable>, ghost avail: set<nat>, score: nat -> nat)
    requires HoldsEach(a[..], avail)
    modifies a
    ensures HoldsEach(a[..], avail) && Scored(a[..], score)
  {
    for b := 0 to a.Length
      invariant forall i :: 0 <= i < a.Length ==> a[i].index == old(a[i].index)
      invariant forall i :: 0 <= i < b ==> a[i].hash == score(a[i].index)
    {
      a[b] := a[b].(hash := score(a[b].index));
    }
    assert forall i :: 0 <= i < a.Length ==> a[..][i].index == old(a[..])[i].index;
  }

  ghost function Available<H>(backends: seq<Backend<H>>): set<nat> {
    set i | 0 <= i < |backends| && backends[i].status.state != Inactive
  }

  /** A backend takes part while it is filling, active or draining. */
  lemma AvailableStates<H>(backends: seq<Backend<H>>, i: nat)
    requires i < |backends|
    ensures i in Available(backends) <==> backends[i].status.state in {Filling, Active, Draining}
  {
  }

  /** The score of a backend in one row, by index. */
  function IndexScore<H>(score: ScoreFn<H>, row: nat, backends: seq<Backend<H>>): nat -> nat {
    (i: nat) => ScoreAt(score, row, backends, i)
  }

  function ScoreAt<H>(score: ScoreFn<H>, row: nat, backends: seq<Backend<H>>, i: nat): nat {
    if i < |backends| then score(row, backends[i].ip) else 0
  }

  /** Backends `p` and `q` may lead this row: nothing available scores below them. Ties may fall either way. */
  ghost predicate MayLead<H>(score: ScoreFn<H>, row: nat, backends: seq<Backend<H>>, p: nat, q: nat) {
    var f, avail := IndexScore(score, row, backends), Available(backends);
    && p in avail && q in avail && p != q && f(p) <= f(q)
    && forall x | x in avail && x != p && x != q :: f(q) <= f(x)
  }

  /** The entry for two leaders, swapped by their statuses. */
  function EntryOf<H>(backends: seq<Backend<H>>, p: nat, q: nat): (nat, nat)
    requires p < |backends| && q < |backends|
  {
    Swapped(backends[p].status, backends[q].status, p, q)
  }

  ghost predicate RowOk<H>(score: ScoreFn<H>, row: nat, backends: seq<Backend<H>>, e: (nat, nat)) {
    exists p: nat, q: nat :: MayLead(score, row, backends, p, q) && e == EntryOf(backends, p, q)
  }

  /** One row: score, sort in place, take the first two, swap if the first is bad and the second active. */
  method BuildRow<H>(a: array<Sortable>, score: ScoreFn<H>, row: nat, backends: seq<Backend<H>>) returns (e: (nat, nat))
    requires a.Length >= 2 && HoldsEach(a[..], Available(backends))
    modifies a
    ensures HoldsEach(a[..], Available(backends))
    ensures RowOk(score, row, backends, e)
  {
    ghost var avail := Available(backends);
    var f := IndexScore(score, row, backends);
    ScoreRow(a, avail, f);
    ghost var before := a[..];
    SortByHash(a);
    PermutationHoldsEach(before, a[..], avail, f);
    var primary, secondary := a[0].index, a[1].index;
    LeadersMayLead(a[..], score, row, backends);
    var firstIdx := 0;
    if Bad(backends[primary].status) && backends[secondary].status.state == Active {
      firstIdx := 1;
    }
    e := (a[firstIdx].index, a[1 - firstIdx].index);
    assert e == EntryOf(backends, primary, secondary);
  }

  lemma LeadersMayLead<H>(s: seq<Sortable>, score: ScoreFn<H>, row: nat, backends: seq<Backend<H>>)
    requires |s| >= 2 && HoldsEach(s, Available(backends)) && Sorted(s) && Scored(s, IndexScore(score, row, backends))
    ensures MayLead(score, row, backends, s[0].index, s[1].index)
  {
  }

  lemma HoldsEachAppend(s: seq<Sortable>, seen: set<nat>, i: nat)
    requires HoldsEach(s, seen) && i !in seen
    ensures HoldsEach(s + [Sortable(i, 0)], seen + {i})
  {
    var t := s + [Sortable(i, 0)];
    forall x | x in seen + {i}
      ensures exists k :: 0 <= k < |t| && t[k].index == x
    {
      if x == i {
        assert t[|s|].index == x;
      } else {
        var k :| 0 <= k < |s| && s[k].index == x;
        assert t[k].index == x;
      }
    }
  }

  ghost function AvailableBelow<H>(backends: seq<Backend<H>>, n: nat): set<nat>
    requires n <= |backends|
  {
    set i | 0 <= i < n && backends[i].status.state != Inactive
  }

  lemma AvailableNext<H>(backends: seq<Backend<H>>, n: nat)
    requires n < |backends|
    ensures AvailableBelow(backends, n + 1)
         == AvailableBelow(backends, n) + if backends[n].status.state != Inactive then {n} else {}
  {
  }

  /** Collect the backends that are not inactive, in table order. */
  method CollectAvailable<H>(backends: seq<Backend<H>>) returns (found: seq<Sortable>)
    ensures HoldsEach(found, Available(backends)) && |found| == |Available(backends)|
  {
    found := [];
    ghost var seen: set<nat> := {};
    for i := 0 to |backends|
      invariant seen == AvailableBelow(backends, i)
      invariant HoldsEach(found, seen) && |found| == |seen|
    {
      AvailableNext(backends, i);
      if backends[i].status.state != Inactive {
        HoldsEachAppend(found, seen, i);
        found, seen := found + [Sortable(i, 0)], seen + {i};
      }
    }
    assert seen == Available(backends);
  }

  /** The rows of a table, each built on the order the row before left in the array. */
  method BuildRows<H>(a: array<Sortable>, score: ScoreFn<H>, backends: seq<Backend<H>>, rows: nat)
      returns (entries: seq<(nat, nat)>)
    requires a.Length >= 2 && HoldsEach(a[..], Available(backends))
    modifies a
    ensures |entries| == rows && HoldsEach(a[..], Available(backends))
    ensures forall r :: 0 <= r < rows ==> RowOk(score, r, backends, entries[r])
  {
    entries := [];
    for row := 0 to rows
      invariant |entries| == row
      invariant HoldsEach(a[..], Available(backends))
      invariant forall r :: 0 <= r < row ==> RowOk(score, r, backends, entries[r])
    {
      var e := BuildRow(a, score, row, backends);
      entries := entries + [e];
    }
  }

  /**
   The whole table. Whatever order a row leaves the array in, the next row's entry is the one a fresh
   ranking allows, and the array still holds each available backend once.
   */
  method BuildTable<H>(score: ScoreFn<H>, backends: seq<Backend<H>>, rows: nat) returns (entries: seq<(nat, nat)>)
    requires |Available(backends)| >= 2
    ensures |entries| == rows
    ensures forall r :: 0 <= r < rows ==> RowOk(score, r, backends, entries[r])
  {
    var found := CollectAvailable(backends);
    var a := new Sortable[|found|](k requires 0 <= k < |found| => found[k]);
    assert a[..] == found;
    entries := BuildRows(a, score, backends, rows);
  }

  // ---- What the table says about addresses ----

  ghost predicate DistinctAddresses<H>(backends: seq<Backend<H>>) {
    forall i, j :: 0 <= i < j < |backends| ==> backends[i].ip != backends[j].ip
  }

  ghost function Addresses<H>(backends: seq<Backend<H>>): set<H> {
    set i | i in Available(backends) :: backends[i].ip
  }

  ghost function ViewOf<H>(backends: seq<Backend<H>>): View<H> {
    map a | a in Addresses(backends) :: StatusOf(backends, a)
  }

  ghost function StatusOf<H>(backends: seq<Backend<H>>, a: H): Status
    requires a in Addresses(backends)
  {
    var i :| i in Available(backends) && backends[i].ip == a;
    backends[i].status
  }

  lemma LeadersAreThePair<H>(score: ScoreFn<H>, row: nat, backends: seq<Backend<H>>, p: nat, q: nat)
    requires DistinctAddresses(backends) && MayLead(score, row, backends, p, q)
    requires |Addresses(backends)| >= 2 && NoTies(score, Addresses(backends))
    ensures Pair(score, row, Addresses(backends)) == (backends[p].ip, backends[q].ip)
  {
  }

  lemma ViewCoversAddresses<H>(backends: seq<Backend<H>>)
    ensures ViewOf(backends).Keys == Addresses(backends)
  {
  }

  lemma StatusByIndex<H>(backends: seq<Backend<H>>, p: nat)
    requires DistinctAddresses(backends) && p in Available(backends)
    ensures backends[p].ip in ViewOf(backends) && ViewOf(backends)[backends[p].ip] == backends[p].status
  {
  }

  /**
   With distinct addresses and no ties, an entry the builder may write is the ranked pair of the row,
   swapped as the view demands: the row of the protocol.
   */
  lemma RowIsRankedPair<H>(score: ScoreFn<H>, row: nat, backends: seq<Backend<H>>, e: (nat, nat))
    requires DistinctAddresses(backends) && RowOk(score, row, backends, e)
    requires |Addresses(backends)| >= 2 && NoTies(score, Addresses(backends))
    ensures e.0 < |backends| && e.1 < |backends|
    ensures var (p, q) := Pair(score, row, Addresses(backends));
            (backends[e.0].ip, backends[e.1].ip) == Entry(ViewOf(backends), p, q)
  {
    var p: nat, q: nat :| MayLead(score, row, backends, p, q) && e == EntryOf(backends, p, q);
    LeadersAreThePair(score, row, backends, p, q);
    StatusByIndex(backends, p);
    StatusByIndex(backends, q);
  }

  // ---- The reference rule ----

  function Insert<H>(key: H -> nat, h: H, s: seq<H>): seq<H> {
    if s == [] then [h] else if key(h) <= key(s[0]) then [h] + s else [s[0]] + Insert(key, h, s[1..])
  }

  /** A stable sort of a copy of the hosts by their score in the row. */
  function RankedHosts<H>(key: H -> nat, hosts: seq<H>): seq<H> {
    if hosts == [] then [] else Insert(key, hosts[0], RankedHosts(key, hosts[1..]))
  }

  function RowKey<H>(score: ScoreFn<H>, row: nat): H -> nat {
    (h: H) => score(row, h)
  }

  ghost predicate Ascending<H>(key: H -> nat, s: seq<H>) {
    forall i, j :: 0 <= i < j < |s| ==> key(s[i]) <= key(s[j])
  }

  lemma {:induction false} InsertKeepsHosts<H>(key: H -> nat, h: H, s: seq<H>)
    ensures multiset(Insert(key, h, s)) == multiset(s) + multiset{h}
  {
    if s != [] && key(h) > key(s[0]) {
      InsertKeepsHosts(key, h, s[1..]);
      assert s == [s[0]] + s[1..];
    }
  }

  lemma {:induction false} InsertSorts<H>(key: H -> nat, h: H, s: seq<H>)
    requires Ascending(key, s)
    ensures Ascending(key, Insert(key, h, s))
  {
    if s != [] && key(h) > key(s[0]) {
      var t := Insert(key, h, s[1..]);
      InsertSorts(key, h, s[1..]);
      InsertKeepsHosts(key, h, s[1..]);
      forall i | 0 <= i < |t|
        ensures key(s[0]) <= key(t[i])
      {
        assert t[i] in multiset(t);
        assert t[i] == h || t[i] in s[1..];
      }
    }
  }

  lemma {:induction false} RankedHostsSorts<H>(key: H -> nat, hosts: seq<H>)
    ensures Ascending(key, RankedHosts(key, hosts)) && multiset(RankedHosts(key, hosts)) == multiset(hosts)
  {
    if hosts != [] {
      RankedHostsSorts(key, hosts[1..]);
      InsertSorts(key, hosts[0], RankedHosts(key, hosts[1..]));
      InsertKeepsHosts(key, hosts[0], RankedHosts(key, hosts[1..]));
      assert hosts == [hosts[0]] + hosts[1..];
    }
  }

  /** The first two hosts of the reference ranking are the pair of the row. */
  lemma ReferenceRanksPair<H>(score: ScoreFn<H>, row: nat, hosts: seq<H>)
    requires forall i, j :: 0 <= i < j < |hosts| ==> hosts[i] != hosts[j]
    requires var s := set h: H | h in hosts; |s| >= 2 && NoTies(score, s)
    ensures var s := set h: H | h in hosts;
            var ranked := RankedHosts(RowKey(score, row), hosts);
            |ranked| >= 2 && Pair(score, row, s) == (ranked[0], ranked[1])
  {
    var key, s := RowKey(score, row), set h: H | h in hosts;
    var ranked := RankedHosts(key, hosts);
    RankedHostsSorts(key, hosts);
    AscendingLeadsWithPair(score, row, s, hosts, ranked);
  }

  lemma AscendingLeadsWithPair<H>(score: ScoreFn<H>, row: nat, s: set<H>, hosts: seq<H>, ranked: seq<H>)
    requires forall i, j :: 0 <= i < j < |hosts| ==> hosts[i] != hosts[j]
    requires multiset(ranked) == multiset(hosts) && (forall h :: h in s <==> h in hosts)
    requires |s| >= 2 && NoTies(score, s)
    requires forall i, j :: 0 <= i < j < |ranked| ==> score(row, ranked[i]) <= score(row, ranked[j])
    ensures |ranked| >= 2 && Pair(score, row, s) == (ranked[0], ranked[1])
  {
    forall h
      ensures h in s <==> h in ranked
    {
      assert h in multiset(ranked) <==> h in multiset(hosts);
    }
    var (p, q) := Pair(score, row, s);
    var i :| 0 <= i < |ranked| && ranked[i] == p;
    var j :| 0 <= j < |ranked| && ranked[j] == q;
    if ranked[0] == ranked[1] {
      TwiceInMultiset(ranked, 0, 1);
      AtMostOnce(hosts, ranked[0]);
    }
    forall x | x in s && x != ranked[0]
      ensures score(row, ranked[0]) < score(row, x)
    {
      var k :| 0 <= k < |ranked| && ranked[k] == x;
    }
    forall x | x in s && x != ranked[0] && x != ranked[1]
      ensures score(row, ranked[1]) < score(row, x)
    {
      var k :| 0 <= k < |ranked| && ranked[k] == x;
    }
    PairUnique(score, row, s, ranked[0], ranked[1]);
  }

  /** The entry holds the first two of `ranked`, in that order unless the first is bad and the second active. */
  ghost predicate HoldsLeaders<H>(backends: seq<Backend<H>>, e: (nat, nat), ranked: seq<H>) {
    && e.0 < |backends| && e.1 < |backends|
    && |ranked| >= 2 && ranked[0] in ViewOf(backends) && ranked[1] in ViewOf(backends)
    && (backends[e.0].ip, backends[e.1].ip) ==
       if Bad(ViewOf(backends)[ranked[0]]) && ViewOf(backends)[ranked[1]].state == Active
       then (ranked[1], ranked[0]) else (ranked[0], ranked[1])
  }

  /** An entry the builder may write into a row, and the available hosts in any order, each once. */
  ghost predicate BuiltFor<H>(score: ScoreFn<H>, row: nat, backends: seq<Backend<H>>, e: (nat, nat), hosts: seq<H>) {
    && DistinctAddresses(backends) && RowOk(score, row, backends, e)
    && |Addresses(backends)| >= 2 && NoTies(score, Addresses(backends))
    && (forall i, j :: 0 <= i < j < |hosts| ==> hosts[i] != hosts[j]) && (set h: H | h in hosts) == Addresses(backends)
  }

  /**
   Whatever order the row before left behind, a row's entry holds the two hosts a fresh ranking by the
   reference rule puts first, in that order unless the first is bad and the second active.
   */
  lemma BuilderMatchesReference<H>(score: ScoreFn<H>, row: nat, backends: seq<Backend<H>>, e: (nat, nat), hosts: seq<H>)
    requires BuiltFor(score, row, backends, e, hosts)
    ensures HoldsLeaders(backends, e, RankedHosts(RowKey(score, row), hosts))
  {
    RowIsRankedPair(score, row, backends, e);
    ReferenceRanksPair(score, row, hosts);
  }

  lemma {:induction false} InsertAgrees<H(!new)>(key: H -> nat, other: H -> nat, h: H, s: seq<H>)
    requires forall x :: key(x) == other(x)
    ensures Insert(key, h, s) == Insert(other, h, s)
  {
    if s != [] {
      InsertAgrees(key, other, h, s[1..]);
    }
  }

  lemma {:induction false} RankedAgree<H(!new)>(key: H -> nat, other: H -> nat, hosts: seq<H>)
    requires forall x :: key(x) == other(x)
    ensures RankedHosts(key, hosts) == RankedHosts(other, hosts)
  {
    if hosts != [] {
      RankedAgree(key, other, hosts[1..]);
      InsertAgrees(key, other, hosts[0], RankedHosts(key, hosts[1..]));
    }
  }

  ghost predicate SameScores<H(!new)>(score: ScoreFn<H>, reference: ScoreFn<H>, row: nat) {
    forall h :: score(row, h) == reference(row, h)
  }

  lemma BuilderMatchesEqualScores<H(!new)>(score: ScoreFn<H>, reference: ScoreFn<H>, row: nat, backends: seq<Backend<H>>,
                                           e: (nat, nat), hosts: seq<H>)
    requires BuiltFor(score, row, backends, e, hosts) && SameScores(score, reference, row)
    ensures HoldsLeaders(backends, e, RankedHosts(RowKey(reference, row), hosts))
  {
    BuilderMatchesReference(score, row, backends, e, hosts);
    RankedAgree(RowKey(score, row), RowKey(reference, row), hosts);
  }

  // ---- The scores ----

  function RowBytes(row: nat): seq<byte> {
    [(row / 0x100_0000 % 0x100) as byte, (row / 0x1_0000 % 0x100) as byte, (row / 0x100 % 0x100) as byte, (row % 0x100) as byte]
  }

  /** The row number, most significant byte first; no two rows below 2^32 share it. */
  lemma RowBytesMeaning(row: nat)
    requires row < 0x1_0000_0000
    ensures var s := RowBytes(row);
            |s| == 4 && 0x100_0000 * s[0] as int + 0x1_0000 * s[1] as int + 0x100 * s[2] as int + s[3] as int == row
  {
    RowDigits(row);
  }

  lemma RowDigits(row: nat)
    requires row < 0x1_0000_0000
    ensures row / 0x100_0000 < 0x100
    ensures row == 0x100_0000 * (row / 0x100_0000) + 0x1_0000 * (row / 0x1_0000 % 0x100) + 0x100 * (row / 0x100 % 0x100) + row % 0x100
  {
    var a, b := row / 0x100, row / 0x1_0000;
    assert a / 0x100 == b && b / 0x100 == row / 0x100_0000;
    assert row == 0x100 * a + row % 0x100 && a == 0x100 * b + a % 0x100 && b == 0x100 * (b / 0x100) + b % 0x100;
  }

  lemma RowBytesInjective(r: nat, q: nat)
    requires r < 0x1_0000_0000 && q < 0x1_0000_0000 && RowBytes(r) == RowBytes(q)
    ensures r == q
  {
    RowBytesMeaning(r);
    RowBytesMeaning(q);
  }

  /** A 64-bit hash as eight bytes, low byte first. */
  function Digest(h: bv64): seq<byte> {
    [Octet(h), Octet(h >> 8), Octet(h >> 16), Octet(h >> 24), Octet(h >> 32), Octet(h >> 40), Octet(h >> 48), Octet(h >> 56)]
  }

  function Octet(h: bv64): byte {
    ((h & 0xff) as bv8) as byte
  }

  /** `bswap_64` */
  function ByteSwap(h: bv64): bv64 {
    ((h & 0xff) << 56) | (((h >> 8) & 0xff) << 48) | (((h >> 16) & 0xff) << 40) | (((h >> 24) & 0xff) << 32)
    | (((h >> 32) & 0xff) << 24) | (((h >> 40) & 0xff) << 16) | (((h >> 48) & 0xff) << 8) | ((h >> 56) & 0xff)
  }

  /** Eight digest bytes read as one big-endian number, which is what a hexadecimal digest denotes. */
  function BigEndian(d: seq<byte>): bv64
    requires |d| == 8
  {
    (SipHash.Widen64(d[0]) << 56) | (SipHash.Widen64(d[1]) << 48) | (SipHash.Widen64(d[2]) << 40) | (SipHash.Widen64(d[3]) << 32)
    | (SipHash.Widen64(d[4]) << 24) | (SipHash.Widen64(d[5]) << 16) | (SipHash.Widen64(d[6]) << 8) | SipHash.Widen64(d[7])
  }

  lemma ByteKeepsBits(b: bv8)
    ensures (b as byte) as bv8 == b
  {
  }

  lemma LowBitsKept(h: bv64)
    ensures ((h & 0xff) as bv8) as bv64 == h & 0xff
  {
  }

  lemma OctetWidened(h: bv64)
    ensures SipHash.Widen64(Octet(h)) == h & 0xff
  {
    ByteKeepsBits((h & 0xff) as bv8);
    LowBitsKept(h);
  }

  /** The builder's byte-swapped hash is the number the reference rule sorts by. */
  lemma SwapIsHexDigest(h: bv64)
    ensures ByteSwap(h) == BigEndian(Digest(h))
  {
    OctetWidened(h);
    OctetWidened(h >> 8);
    OctetWidened(h >> 16);
    OctetWidened(h >> 24);
    OctetWidened(h >> 32);
    OctetWidened(h >> 40);
    OctetWidened(h >> 48);
    OctetWidened(h >> 56);
  }

  lemma OctetsMakeWord(h: bv64, a: bv64, b: bv64, c: bv64, d: bv64, e: bv64, f: bv64, g: bv64, i: bv64)
    requires a == h & 0xff && b == (h >> 8) & 0xff && c == (h >> 16) & 0xff && d == (h >> 24) & 0xff
    requires e == (h >> 32) & 0xff && f == (h >> 40) & 0xff && g == (h >> 48) & 0xff && i == (h >> 56) & 0xff
    ensures ((((((a | (b << 8)) | (c << 16)) | (d << 24)) | (e << 32)) | (f << 40)) | (g << 48)) | (i << 56) == h
  {
  }

  lemma WordOfOctets(s: seq<byte>)
    requires |s| == 8
    ensures var a, b, c, d := SipHash.Widen64(s[0]), SipHash.Widen64(s[1]), SipHash.Widen64(s[2]), SipHash.Widen64(s[3]);
            var e, f, g, i := SipHash.Widen64(s[4]), SipHash.Widen64(s[5]), SipHash.Widen64(s[6]), SipHash.Widen64(s[7]);
            SipHash.Word(SipHash.WORD64, s)
            == ((((((a | (b << 8)) | (c << 16)) | (d << 24)) | (e << 32)) | (f << 40)) | (g << 48)) | (i << 56)
  {
  }

  lemma WordReadsBack(s: seq<byte>, h: bv64)
    requires |s| == 8 && SipHash.Widen64(s[0]) == h & 0xff && SipHash.Widen64(s[1]) == (h >> 8) & 0xff
    requires SipHash.Widen64(s[2]) == (h >> 16) & 0xff && SipHash.Widen64(s[3]) == (h >> 24) & 0xff
    requires SipHash.Widen64(s[4]) == (h >> 32) & 0xff && SipHash.Widen64(s[5]) == (h >> 40) & 0xff
    requires SipHash.Widen64(s[6]) == (h >> 48) & 0xff && SipHash.Widen64(s[7]) == (h >> 56) & 0xff
    ensures SipHash.Word(SipHash.WORD64, s) == h
  {
    WordOfOctets(s);
    OctetsMakeWord(h, SipHash.Widen64(s[0]), SipHash.Widen64(s[1]), SipHash.Widen64(s[2]), SipHash.Widen64(s[3]),
                   SipHash.Widen64(s[4]), SipHash.Widen64(s[5]), SipHash.Widen64(s[6]), SipHash.Widen64(s[7]));
  }

  /** A digest is read back as the word it was made of, the way the hash reads its input. */
  lemma DigestReadsBack(h: bv64)
    ensures |Digest(h)| == 8 && SipHash.Word(SipHash.WORD64, Digest(h)) == h
  {
    OctetWidened(h);
    OctetWidened(h >> 8);
    OctetWidened(h >> 16);
    OctetWidened(h >> 24);
    OctetWidened(h >> 32);
    OctetWidened(h >> 40);
    OctetWidened(h >> 48);
    OctetWidened(h >> 56);
    WordReadsBack(Digest(h), h);
  }

  /** A host's score in a row as the builder computes it: the hash of the row's hash and the address, byte-swapped. */
  function BuilderScoreAt(hash: seq<byte> -> bv64, row: nat, ip: Addr): nat {
    ByteSwap(hash(Digest(hash(RowBytes(row))) + ip)) as nat
  }

  /** The number the reference rule sorts by: the hexadecimal digest of the row's seed and the address. */
  function ReferenceScoreAt(hash: seq<byte> -> bv64, row: nat, ip: Addr): nat {
    BigEndian(Digest(hash(Digest(hash(RowBytes(row))) + ip))) as nat
  }

  lemma ScoresAgree(hash: seq<byte> -> bv64, row: nat, ip: Addr)
    ensures BuilderScoreAt(hash, row, ip) == ReferenceScoreAt(hash, row, ip)
  {
    SwapIsHexDigest(hash(Digest(hash(RowBytes(row))) + ip));
  }

  /**
   The score is the hash of twelve bytes: the row's own hash, low byte first, and the address. The row's own hash is
   that of its four bytes, high byte first. Scores are compared by the bytes of the digest, first byte first.
   */
  lemma ScoreMeaning(hash: seq<byte> -> bv64, row: nat, ip: Addr, rowBytes: seq<byte>, m: seq<byte>)
    requires row < 0x1_0000_0000 && |rowBytes| == 4 && |m| == 12
    requires 0x100_0000 * rowBytes[0] as int + 0x1_0000 * rowBytes[1] as int + 0x100 * rowBytes[2] as int + rowBytes[3] as int == row
    requires m[..8] == Digest(hash(rowBytes)) && m[8..] == ip
    ensures BuilderScoreAt(hash, row, ip) == BigEndian(Digest(hash(m))) as nat
  {
    RowBytesMeaning(row);
    SameDigits(rowBytes, RowBytes(row));
    assert m == m[..8] + m[8..];
    SwapIsHexDigest(hash(m));
  }

  lemma SameDigits(a: seq<byte>, b: seq<byte>)
    requires |a| == |b| == 4
    requires 0x100_0000 * a[0] as int + 0x1_0000 * a[1] as int + 0x100 * a[2] as int + a[3] as int
          == 0x100_0000 * b[0] as int + 0x1_0000 * b[1] as int + 0x100 * b[2] as int + b[3] as int
    ensures a == b
  {
    assert a[0] == b[0] && a[1] == b[1] && a[2] == b[2] && a[3] == b[3];
  }

  /** The digest whose bytes are 1 to 8 is the number 0x0102030405060708. */
  lemma BigEndianExample()
    ensures BigEndian([1, 2, 3, 4, 5, 6, 7, 8]) == 0x0102030405060708
  {
  }

  function KeyedHash(seed: seq<byte>): seq<byte> -> bv64
    requires |seed| == 16
  {
    (m: seq<byte>) => SipHash.Hash(SipHash.WORD64, seed, m)
  }

  /** The scores a table with this seed is built by, and those the reference rule sorts by. */
  function BuilderScore(seed: seq<byte>): ScoreFn<Addr>
    requires |seed| == 16
  {
    (row: nat, ip: Addr) => BuilderScoreAt(KeyedHash(seed), row, ip)
  }

  function ReferenceScore(seed: seq<byte>): ScoreFn<Addr>
    requires |seed| == 16
  {
    (row: nat, ip: Addr) => ReferenceScoreAt(KeyedHash(seed), row, ip)
  }

  lemma KeyedScoresAgree(seed: seq<byte>, row: nat)
    requires |seed| == 16
    ensures SameScores(BuilderScore(seed), ReferenceScore(seed), row)
  {
    forall ip: Addr
      ensures BuilderScore(seed)(row, ip) == ReferenceScore(seed)(row, ip)
    {
      ScoresAgree(KeyedHash(seed), row, ip);
    }
  }

  /**
   A row built with SipHash under a table's seed holds the first two hosts of the reference ranking by
   hexadecimal digest under the same seed.
   */
  lemma KeyedBuilderMatchesReference(seed: seq<byte>, row: nat, backends: seq<Backend<Addr>>, e: (nat, nat), hosts: seq<Addr>)
    requires |seed| == 16 && BuiltFor(BuilderScore(seed), row, backends, e, hosts)
    ensures HoldsLeaders(backends, e, RankedHosts(RowKey(ReferenceScore(seed), row), hosts))
  {
    KeyedScoresAgree(seed, row);
    BuilderMatchesEqualScores(BuilderScore(seed), ReferenceScore(seed), row, backends, e, hosts);
  }
}
