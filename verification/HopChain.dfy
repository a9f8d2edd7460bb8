/**
 The path of a non-SYN packet along its hop list. Each host keeps the packet if it knows the
 flow, if it is the last hop, or if the next hop is itself; otherwise it passes it on.
 */
module HopChain {

  datatype Reason = Known | LastResort | ForwardToSelf

  /** Whether the host at position `i` keeps the packet, whatever the reason. */
  predicate Keeps<H(==)>(hops: seq<H>, knows: H -> bool, i: nat)
    requires i < |hops|
  {
    knows(hops[i]) || i + 1 >= |hops| || hops[i + 1] == hops[i]
  }

  function ReasonAt<H(==)>(hops: seq<H>, knows: H -> bool, i: nat): Reason
    requires i < |hops|
  {
    if knows(hops[i]) then Known else if i + 1 >= |hops| then LastResort else ForwardToSelf
  }

  /** Where the packet stops when it is handed to the host at position `i`. */
  function StopFrom<H(==)>(hops: seq<H>, knows: H -> bool, i: nat): (j: nat)
    requires i < |hops|
    ensures i <= j < |hops| && Keeps(hops, knows, j)
    ensures forall k :: i <= k < j ==> !Keeps(hops, knows, k)
    decreases |hops| - i
  {
    if Keeps(hops, knows, i) then i else StopFrom(hops, knows, i + 1)
  }

  lemma {:induction false} StopAfterFirst<H>(hops: seq<H>, knows: H -> bool, i: nat)
    requires 0 < i < |hops|
    ensures StopFrom(hops, knows, i) == 1 + StopFrom(hops[1..], knows, i - 1)
    decreases |hops| - i
  {
    assert Keeps(hops, knows, i) == Keeps(hops[1..], knows, i - 1);
    if !Keeps(hops, knows, i) {
      StopAfterFirst(hops, knows, i + 1);
    }
  }

  /** The packet is accepted by a host that knows its flow. */
  predicate Delivered<H(==)>(hops: seq<H>, knows: H -> bool) {
    hops != [] && ReasonAt(hops, knows, StopFrom(hops, knows, 0)) == Known
  }

  /**
   If only `owner` knows the flow, the packet reaches it exactly when some occurrence of `owner`
   has no repeated neighbours before it. When it does, it is the owner that accepts.
   */
  lemma DeliveredExactly<H>(hops: seq<H>, knows: H -> bool, owner: H)
    requires forall h {:trigger knows(h)} | h in hops :: knows(h) <==> h == owner
    ensures Delivered(hops, knows)
            <==> exists i :: 0 <= i < |hops| && hops[i] == owner && forall k :: 0 <= k < i ==> hops[k] != hops[k + 1]
    ensures Delivered(hops, knows) ==> hops[StopFrom(hops, knows, 0)] == owner
  {
    if hops != [] {
      var j := StopFrom(hops, knows, 0);
      if Delivered(hops, knows) {
        assert knows(hops[j]);
        assert forall k :: 0 <= k < j ==> hops[k] != hops[k + 1] by {
          forall k | 0 <= k < j
            ensures hops[k] != hops[k + 1]
          {
            assert !Keeps(hops, knows, k);
          }
        }
      }
      if i: nat :| i < |hops| && hops[i] == owner && forall k :: 0 <= k < i ==> hops[k] != hops[k + 1] {
        assert Keeps(hops, knows, i);
        assert j <= i;
        assert j < i ==> hops[j] != hops[j + 1];
      }
    }
  }

  /** Two distinct hops: the owner gets the packet exactly when it is one of them. */
  lemma PairDelivers<H>(first: H, second: H, knows: H -> bool, owner: H)
    requires first != second
    requires knows(first) <==> first == owner
    requires knows(second) <==> second == owner
    ensures Delivered([first, second], knows) <==> owner in {first, second}
    ensures Delivered([first, second], knows) ==> [first, second][StopFrom([first, second], knows, 0)] == owner
  {
  }

  /**
   A change of hash fields appends the old pair to the new one. An owner that is in the new pair or is
   the old primary always gets its packets. An owner that is only the old secondary gets them exactly
   when the new secondary and the old primary differ: if they coincide, that host sees itself as the
   next hop and keeps the packet.
   */
  lemma FourHopsDeliver<H>(np: H, ns: H, op: H, os: H, knows: H -> bool, owner: H)
    requires np != ns && op != os
    requires (knows(np) <==> np == owner) && (knows(ns) <==> ns == owner)
    requires (knows(op) <==> op == owner) && (knows(os) <==> os == owner)
    ensures owner in {np, ns, op} ==> Delivered([np, ns, op, os], knows)
    ensures owner == os && os !in {np, ns} ==> (Delivered([np, ns, op, os], knows) <==> ns != op)
    ensures owner !in {np, ns, op, os} ==> !Delivered([np, ns, op, os], knows)
    ensures Delivered([np, ns, op, os], knows)
            ==> [np, ns, op, os][StopFrom([np, ns, op, os], knows, 0)] == owner
  {
    var hops := [np, ns, op, os];
    DeliveredExactly(hops, knows, owner);
    if owner == np {
      assert hops[0] == owner;
    } else if owner == ns {
      assert hops[1] == owner && hops[0] != hops[1];
    } else if owner == op {
      assert hops[2] == owner && hops[0] != hops[1] && hops[1] != hops[2];
    } else if owner == os && ns != op {
      assert hops[3] == owner && hops[0] != hops[1] && hops[1] != hops[2] && hops[2] != hops[3];
    }
  }
}
