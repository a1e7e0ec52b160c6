/** The per-message reassembly buffer of `handleCommunication`
    (public/app.js:215-229): a fixed number of slots, one per part, and a count
    of the slots written so far. */
module Fragments {
  import opened Wrappers

  /** `{ fragments: new Array(total), receivedCount }`: an empty slot is None. */
  datatype Assembly = Assembly(fragments: seq<Option<string>>, receivedCount: nat)

  /** The number of written slots. */
  function Filled(slots: seq<Option<string>>): (n: nat)
    ensures n <= |slots|
  {
    if slots == [] then 0 else (if slots[0].Some? then 1 else 0) + Filled(slots[1..])
  }

  /** The counter agrees with the slots. */
  predicate Consistent(a: Assembly)
  {
    a.receivedCount == Filled(a.fragments)
  }

  /** A fresh buffer for a message of `total` parts. */
  function NewAssembly(total: nat): (a: Assembly)
    ensures |a.fragments| == total && a.receivedCount == 0
    ensures forall i :: 0 <= i < total ==> a.fragments[i].None?
    ensures Consistent(a)
  {
    EmptyFilled(seq(total, _ => None));
    Assembly(seq(total, _ => None), 0)
  }

  /** The part numbered `part` (counted from 1) arrives: it is written, and
      counted, only when its slot is still empty (public/app.js:222-226). */
  function Place(a: Assembly, part: nat, fragment: string): (b: Assembly)
    requires 1 <= part <= |a.fragments|
    ensures |b.fragments| == |a.fragments|
    ensures b.fragments[part - 1] == if a.fragments[part - 1].None? then Some(fragment) else a.fragments[part - 1]
    ensures forall i :: 0 <= i < |a.fragments| && i != part - 1 ==> b.fragments[i] == a.fragments[i]
    ensures a.fragments[part - 1].Some? ==> b == a
    ensures Consistent(a) ==> Consistent(b)
  {
    if a.fragments[part - 1] == None then
      FilledUpdate(a.fragments, part - 1, fragment);
      Assembly(a.fragments[part - 1 := Some(fragment)], a.receivedCount + 1)
    else a
  }

  /** `fragments.join('')`: the slots in part order, an empty slot adding nothing. */
  function JoinSlots(slots: seq<Option<string>>): string
  {
    if slots == [] then ""
    else (match slots[0] case Some(f) => f case None => "") + JoinSlots(slots[1..])
  }

  /** The plain concatenation of the parts of a message. */
  function Concat(parts: seq<string>): string
  {
    if parts == [] then "" else parts[0] + Concat(parts[1..])
  }

  lemma {:induction false} EmptyFilled(slots: seq<Option<string>>)
    requires forall i :: 0 <= i < |slots| ==> slots[i].None?
    ensures Filled(slots) == 0
  {
    if slots != [] {
      EmptyFilled(slots[1..]);
    }
  }

  /** Writing an empty slot adds exactly one to the count of written slots. */
  lemma {:induction false} FilledUpdate(slots: seq<Option<string>>, i: nat, f: string)
    requires i < |slots| && slots[i].None?
    ensures Filled(slots[i := Some(f)]) == Filled(slots) + 1
  {
    if i > 0 {
      assert slots[i := Some(f)][1..] == slots[1..][i - 1 := Some(f)];
      FilledUpdate(slots[1..], i - 1, f);
    }
  }

  /** A count equal to the number of slots means every slot is written. */
  lemma {:induction false} AllFilled(slots: seq<Option<string>>)
    requires Filled(slots) == |slots|
    ensures forall i :: 0 <= i < |slots| ==> slots[i].Some?
  {
    if slots != [] {
      AllFilled(slots[1..]);
      assert forall i :: 1 <= i < |slots| ==> slots[i] == slots[1..][i - 1];
    }
  }

  /** Once every slot holds its part, the join is the concatenation of the parts. */
  lemma {:induction false} JoinFilled(slots: seq<Option<string>>, parts: seq<string>)
    requires |slots| == |parts|
    requires forall i :: 0 <= i < |slots| ==> slots[i] == Some(parts[i])
    ensures JoinSlots(slots) == Concat(parts)
  {
    if slots != [] {
      JoinFilled(slots[1..], parts[1..]);
    }
  }

  /** The buffer after the parts numbered in `arrivals` come in, in that order,
      for a message whose parts are `parts`. */
  function Deliver(parts: seq<string>, arrivals: seq<nat>): (a: Assembly)
    requires forall k :: 0 <= k < |arrivals| ==> 1 <= arrivals[k] <= |parts|
    ensures |a.fragments| == |parts|
  {
    if arrivals == [] then NewAssembly(|parts|)
    else
      var last := arrivals[|arrivals| - 1];
      Place(Deliver(parts, arrivals[..|arrivals| - 1]), last, parts[last - 1])
  }

  /** Whatever the order and the repetitions, after a run of arrivals slot i
      holds part i exactly when part i + 1 has arrived, and the count agrees with
      the written slots, so it is the number of distinct parts seen. */
  lemma {:induction false} DeliverSlots(parts: seq<string>, arrivals: seq<nat>)
    requires forall k :: 0 <= k < |arrivals| ==> 1 <= arrivals[k] <= |parts|
    ensures Consistent(Deliver(parts, arrivals))
    ensures forall i :: 0 <= i < |parts| ==>
      Deliver(parts, arrivals).fragments[i] == if i + 1 in arrivals then Some(parts[i]) else None
  {
    if arrivals != [] {
      var front := arrivals[..|arrivals| - 1];
      DeliverSlots(parts, front);
      forall p | 1 <= p <= |parts|
        ensures (p in arrivals) <==> (p in front || p == arrivals[|arrivals| - 1])
      {
        assert arrivals == front + [arrivals[|arrivals| - 1]];
      }
    }
  }

  /** Arrival order does not matter: once every part has arrived, in any order
      and with any repetitions, the count has reached the total and the join is
      the in-order concatenation of the parts. */
  lemma ArrivalOrderIrrelevant(parts: seq<string>, arrivals: seq<nat>)
    requires forall k :: 0 <= k < |arrivals| ==> 1 <= arrivals[k] <= |parts|
    requires forall p :: 1 <= p <= |parts| ==> p in arrivals
    ensures Deliver(parts, arrivals).receivedCount == |parts|
    ensures JoinSlots(Deliver(parts, arrivals).fragments) == Concat(parts)
  {
    var a := Deliver(parts, arrivals);
    DeliverSlots(parts, arrivals);
    forall i | 0 <= i < |parts|
      ensures a.fragments[i] == Some(parts[i])
    {
      assert i + 1 in arrivals;
    }
    AllSomeFilled(a.fragments);
    JoinFilled(a.fragments, parts);
  }

  /** The count reaches the total only when every part has arrived: a message
      is never completed early. */
  lemma CompleteOnlyWhenAllArrived(parts: seq<string>, arrivals: seq<nat>)
    requires forall k :: 0 <= k < |arrivals| ==> 1 <= arrivals[k] <= |parts|
    requires Deliver(parts, arrivals).receivedCount == |parts|
    ensures forall p :: 1 <= p <= |parts| ==> p in arrivals
  {
    var a := Deliver(parts, arrivals);
    DeliverSlots(parts, arrivals);
    AllFilled(a.fragments);
    forall p | 1 <= p <= |parts|
      ensures p in arrivals
    {
      assert a.fragments[p - 1].Some?;
    }
  }

  lemma {:induction false} AllSomeFilled(slots: seq<Option<string>>)
    requires forall i :: 0 <= i < |slots| ==> slots[i].Some?
    ensures Filled(slots) == |slots|
  {
    if slots != [] {
      AllSomeFilled(slots[1..]);
    }
  }
}
