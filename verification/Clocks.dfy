/**
  The clock of server_monitor.c and its two wrappers, now_ms and sleep_ms.  Time runs on by an
  arbitrary amount at every action; the clock may fail to be read and may interrupt any finite number
  of sleeps.  Time is kept in nanoseconds; the program sees its floor in milliseconds.  Ghost logs
  keep what has happened.
*/
module Clocks {
  import opened Common

  function InNanos(ms: int): int {
    ms * 1_000_000
  }

  function FloorMs(nanos: int): int {
    nanos / 1_000_000
  }

  const NANOS_PER_SECOND := 1_000_000_000

  datatype Timespec = Timespec(sec: int, nsec: int)

  function Nanos(t: Timespec): int {
    t.sec * NANOS_PER_SECOND + t.nsec
  }

  /** One call of now_ms: when it is made, the true time at which it reads the clock, and whether it
      can. */
  datatype Reading = Reading(asked: nat, at: nat, readable: bool) {
    function Ms(): int {
      if readable then FloorMs(at) else -1
    }
  }

  /** One sample taken: from when to when, and what comes of it. */
  datatype Taken = Taken(at: nat, until: nat, status: Status)

  // ---------------------------------------------------------------------------------------------
  // Sleeping

  /** One call of nanosleep. */
  datatype Nap = Nap(request: nat, slept: nat, interrupted: bool) {
    /** What is left of the request. */
    function Rest(): nat {
      if slept < request then request - slept else 0
    }

    function Overrun(): nat {
      if slept > request then slept - request else 0
    }
  }

  function Slept(naps: seq<Nap>, k: nat): nat
    requires k <= |naps|
  {
    if k == 0 then 0 else Slept(naps, k - 1) + naps[k - 1].slept
  }

  function Overrun(naps: seq<Nap>, k: nat): nat
    requires k <= |naps|
  {
    if k == 0 then 0 else Overrun(naps, k - 1) + naps[k - 1].Overrun()
  }

  function RestOf(naps: seq<Nap>, request: nat): nat {
    if naps == [] then request else naps[|naps| - 1].Rest()
  }

  /** The first nap asks for the whole request, each later one for what the one before, which was
      interrupted, has left of it. */
  ghost predicate Continues(naps: seq<Nap>, i: nat, request: nat)
    requires i < |naps|
  {
    if i == 0 then naps[i].request == request
    else naps[i - 1].interrupted && naps[i].request == naps[i - 1].Rest()
  }

  ghost predicate IsChain(naps: seq<Nap>, request: nat) {
    forall i :: 0 <= i < |naps| ==> Continues(naps, i, request)
  }

  /** The naps of one sleep: the last one is not interrupted. */
  ghost predicate IsSleep(naps: seq<Nap>, request: nat) {
    && IsChain(naps, request) && naps != []
    && !naps[|naps| - 1].interrupted && naps[|naps| - 1].slept >= naps[|naps| - 1].request
  }

  lemma {:induction false} ChainAccount(naps: seq<Nap>, request: nat, k: nat)
    requires IsChain(naps, request) && k <= |naps|
    ensures Slept(naps, k) + (if k == 0 then request else naps[k - 1].Rest()) == request + Overrun(naps, k)
  {
    if k > 0 {
      ChainAccount(naps, request, k - 1);
      assert Continues(naps, k - 1, request);
    }
  }

  lemma {:induction false} SleptOfPrefix(naps: seq<Nap>, nap: Nap, k: nat)
    requires k <= |naps|
    ensures Slept(naps + [nap], k) == Slept(naps, k)
  {
    if k > 0 {
      SleptOfPrefix(naps, nap, k - 1);
    }
  }

  lemma OneMoreNap(naps: seq<Nap>, nap: Nap, request: nat)
    requires IsChain(naps, request) && nap.request == RestOf(naps, request)
    requires forall i :: 0 <= i < |naps| ==> naps[i].interrupted
    ensures IsChain(naps + [nap], request)
    ensures Slept(naps + [nap], |naps| + 1) == Slept(naps, |naps|) + nap.slept
  {
    SleptOfPrefix(naps, nap, |naps|);
    forall i | 0 <= i < |naps + [nap]|
      ensures Continues(naps + [nap], i, request)
    {
      if i < |naps| { assert Continues(naps, i, request); }
    }
  }

  /** One call of sleep_ms. */
  datatype Sleep = Sleep(at: nat, requestMs: nat, naps: seq<Nap>) {
    function Until(): nat {
      at + Slept(naps, |naps|)
    }

    function Late(): nat {
      Overrun(naps, |naps|)
    }

    ghost predicate Valid() {
      IsSleep(naps, InNanos(requestMs))
    }
  }

  /** However often it is interrupted, a sleep lasts the requested time and the overruns of its naps. */
  lemma SleepLasts(s: Sleep)
    requires s.Valid()
    ensures s.Until() == s.at + InNanos(s.requestMs) + s.Late()
  {
    ChainAccount(s.naps, InNanos(s.requestMs), |s.naps|);
  }

  /** What the program has done with the clock, in the order of each kind. */
  datatype Log = Log(readings: seq<Reading>, taken: seq<Taken>, sleeps: seq<Sleep>) {
    function Plus(more: Log): Log {
      Log(readings + more.readings, taken + more.taken, sleeps + more.sleeps)
    }
  }

  lemma PlusAssociates(a: Log, b: Log, c: Log)
    ensures a.Plus(b).Plus(c) == a.Plus(b.Plus(c))
  {
    assert a.readings + b.readings + c.readings == a.readings + (b.readings + c.readings);
    assert a.taken + b.taken + c.taken == a.taken + (b.taken + c.taken);
    assert a.sleeps + b.sleeps + c.sleeps == a.sleeps + (b.sleeps + c.sleeps);
  }

  class Clock {
    var nanos: nat
    var interruptions: nat  // how many sleeps are still going to be interrupted
    ghost var readings: seq<Reading>
    ghost var taken: seq<Taken>
    ghost var naps: seq<Nap>
    ghost var sleeps: seq<Sleep>

    constructor () {
      nanos, interruptions := *, *;
      readings, taken, naps, sleeps := [], [], [], [];
    }

    ghost function History(): Log
      reads this
    {
      Log(readings, taken, sleeps)
    }

    /** Some activity that takes an arbitrary time. */
    method Pass()
      modifies this`nanos
      ensures nanos >= old(nanos)
    {
      var d :| 0 <= d;
      nanos := nanos + d;
    }

    /** now_ms: -1 if the clock cannot be read, otherwise the floor of the time. */
    method NowMs() returns (ms: int, ghost r: Reading)
      modifies this`nanos, this`readings
      ensures r.asked == old(nanos) <= r.at == nanos && readings == old(readings) + [r]
      ensures ms == if r.readable then FloorMs(nanos) else -1
    {
      ghost var asked := nanos;
      Pass();
      var readable: bool := *;
      r := Reading(asked, nanos, readable);
      readings := readings + [r];
      if !readable {
        ms := -1;
        return;
      }
      var ts := Timespec(nanos / NANOS_PER_SECOND, nanos % NANOS_PER_SECOND);
      ms := ts.sec * 1000 + FloorMs(ts.nsec);
    }

    /** nanosleep: sleeps at least as long as requested, or is interrupted and tells how much of the
        request is left. */
    method Nanosleep(req: Timespec) returns (interrupted: bool, rem: Timespec, ghost nap: Nap)
      requires 0 <= req.sec && 0 <= req.nsec < NANOS_PER_SECOND
      modifies this`nanos, this`interruptions, this`naps
      ensures naps == old(naps) + [nap] && nanos == old(nanos) + nap.slept
      ensures nap.request == Nanos(req) && nap.interrupted == interrupted
      ensures !interrupted ==> nap.slept >= nap.request && interruptions == old(interruptions)
      ensures interrupted ==> interruptions < old(interruptions)
      ensures interrupted ==> 0 <= rem.sec && 0 <= rem.nsec < NANOS_PER_SECOND && Nanos(rem) == nap.Rest()
    {
      var slept :| 0 <= slept;
      interrupted := interruptions > 0;
      if interrupted {
        interruptions := interruptions - 1;
        var left := if slept < Nanos(req) then Nanos(req) - slept else 0;
        nanos := nanos + slept;
        rem := Timespec(left / NANOS_PER_SECOND, left % NANOS_PER_SECOND);
        nap := Nap(Nanos(req), slept, true);
      } else {
        nanos := nanos + Nanos(req) + slept;
        rem := Timespec(0, 0);
        nap := Nap(Nanos(req), Nanos(req) + slept, false);
      }
      naps := naps + [nap];
    }

    /** sleep_ms: the first nap asks for exactly the given time and each further one for what is left;
        nothing happens if there is nothing to sleep. */
    method SleepMs(milliseconds: int) returns (ghost s: Sleep)
      modifies this`nanos, this`interruptions, this`naps, this`sleeps
      ensures milliseconds <= 0 ==> nanos == old(nanos) && naps == old(naps) && sleeps == old(sleeps)
      ensures milliseconds > 0 ==>
        && sleeps == old(sleeps) + [s] && naps == old(naps) + s.naps
        && s.at == old(nanos) && s.requestMs == milliseconds && s.Valid() && nanos == s.Until()
      ensures nanos >= old(nanos) && nanos >= old(nanos) + InNanos(milliseconds)
    {
      s := Sleep(nanos, 0, []);
      if milliseconds <= 0 {
        return;
      }
      s := Sleep(nanos, milliseconds, []);
      var req := Timespec(milliseconds / 1000, InNanos(milliseconds % 1000));
      var interrupted := true;
      while interrupted
        invariant 0 <= req.sec && 0 <= req.nsec < NANOS_PER_SECOND
        invariant s.at == old(nanos) && s.requestMs == milliseconds && nanos == s.Until()
        invariant naps == old(naps) + s.naps && sleeps == old(sleeps)
        invariant if interrupted
                  then IsChain(s.naps, InNanos(milliseconds)) && Nanos(req) == RestOf(s.naps, InNanos(milliseconds))
                       && forall i :: 0 <= i < |s.naps| ==> s.naps[i].interrupted
                  else s.Valid()
        decreases interruptions, interrupted
      {
        var rem;
        ghost var nap;
        interrupted, rem, nap := Nanosleep(req);
        OneMoreNap(s.naps, nap, InNanos(milliseconds));
        s := s.(naps := s.naps + [nap]);
        if interrupted {
          req := rem;
        }
      }
      SleepLasts(s);
      sleeps := sleeps + [s];
    }
  }
}
