/** The abstract lock every concrete lock is proved to implement: it is free or
    held by one thread, and its history is a list of acquisitions and releases. */
module Mutex {
  import opened Basics

  datatype Event = Acquire(t: nat) | Release(t: nat)

  predicate CanFollow(holder: Option<nat>, e: Event) {
    match e
    case Acquire(_) => holder == None
    case Release(t) => holder == Some(t)
  }

  function After(e: Event): Option<nat> {
    match e
    case Acquire(t) => Some(t)
    case Release(_) => None
  }

  /** The holder once the events have happened. */
  function HolderAfter(holder: Option<nat>, es: seq<Event>): Option<nat> {
    if es == [] then holder else After(es[|es| - 1])
  }

  /** Every acquisition finds the lock free and only the holder releases it. */
  predicate Legal(holder: Option<nat>, es: seq<Event>)
    decreases es
  {
    es == [] || (CanFollow(holder, es[0]) && Legal(After(es[0]), es[1..]))
  }

  lemma {:induction false} LegalConcat(holder: Option<nat>, xs: seq<Event>, ys: seq<Event>)
    requires Legal(holder, xs) && Legal(HolderAfter(holder, xs), ys)
    ensures Legal(holder, xs + ys)
    ensures HolderAfter(holder, xs + ys) == HolderAfter(HolderAfter(holder, xs), ys)
    decreases xs
  {
    if xs == [] {
      assert xs + ys == ys;
    } else {
      assert (xs + ys)[1..] == xs[1..] + ys;
      LegalConcat(After(xs[0]), xs[1..], ys);
    }
  }

  lemma {:induction false} LegalSplit(holder: Option<nat>, xs: seq<Event>, ys: seq<Event>)
    requires Legal(holder, xs + ys)
    ensures Legal(holder, xs) && Legal(HolderAfter(holder, xs), ys)
    decreases xs
  {
    if xs == [] {
      assert xs + ys == ys;
    } else {
      assert (xs + ys)[1..] == xs[1..] + ys;
      LegalSplit(After(xs[0]), xs[1..], ys);
    }
  }

  /** The threads that acquired the lock, in that order. */
  function Acquirers(es: seq<Event>): seq<nat> {
    if es == [] then [] else (if es[0].Acquire? then [es[0].t] else []) + Acquirers(es[1..])
  }

  lemma Regroup(xs: seq<nat>, ys: seq<nat>, zs: seq<nat>)
    ensures (xs + ys) + zs == xs + (ys + zs)
  {
  }

  lemma {:induction false} AcquirersConcat(xs: seq<Event>, ys: seq<Event>)
    ensures Acquirers(xs + ys) == Acquirers(xs) + Acquirers(ys)
    decreases xs
  {
    if xs == [] {
      assert xs + ys == ys;
    } else {
      var first := if xs[0].Acquire? then [xs[0].t] else [];
      assert (xs + ys)[1..] == xs[1..] + ys && (xs + ys)[0] == xs[0];
      AcquirersConcat(xs[1..], ys);
      calc {
        Acquirers(xs + ys);
        first + Acquirers(xs[1..] + ys);
        first + (Acquirers(xs[1..]) + Acquirers(ys));
        (first + Acquirers(xs[1..])) + Acquirers(ys);
      }
    }
  }
}
