/**
 * The media clock shared by all MSE connections: each connection stamps its
 * frames on its own timeline, and every new one starts past all stamps handed
 * out before it.
 */
module MseClock {

  /** 90 kHz ticks for a frame that comes `micros` after the previous one of its connection. */
  function Ticks(first: bool, micros: int): (t: nat)
    ensures 90 <= t <= 18000
    ensures first ==> t == 6000
    ensures !first && 1000 <= micros <= 200000 ==> t * 1000 <= micros * 90 < t * 1000 + 1000
    ensures !first && micros <= 1000 ==> t == 90
    ensures !first && micros >= 200000 ==> t == 18000
  {
    if first then 6000
    else if micros < 0 || micros * 90 / 1000 < 90 then 90
    else if micros * 90 / 1000 > 18000 then 18000
    else micros * 90 / 1000
  }

  /** The shared floor; ticks are 64-bit in the program and do not wrap here. */
  class Clock {
    var floor: nat

    constructor ()
      ensures floor == 0
    {
      floor := 0;
    }

    method Seed() returns (ticks: nat)
      modifies this
      ensures ticks == floor == old(floor) + 90
    {
      floor := floor + 90;
      ticks := floor;
    }

    /** A stamp behind a connection that raced ahead changes nothing. */
    method Publish(ticks: nat)
      modifies this
      ensures floor == if ticks > old(floor) then ticks else old(floor)
    {
      if ticks > floor {
        floor := ticks;
      }
    }
  }

  class Timeline {
    const shared: Clock
    var prev: int
    var started: bool
    var clock: nat

    constructor (shared: Clock)
      modifies shared
      ensures this.shared == shared && !started
      ensures clock == shared.floor == old(shared.floor) + 90
      ensures forall s: State :: s.floor == old(shared.floor) ==>
                Exec(s, Open) == State(shared.floor, s.clocks + [clock], s.stamps)
    {
      this.shared := shared;
      prev, started := 0, false;
      var seed := shared.Seed();
      clock := seed;
    }

    /** Stamps are gapless: each is its own duration after the one before it. */
    method Next(now: int) returns (timestamp: nat, duration: nat)
      modifies this, shared
      ensures timestamp == clock == old(clock) + duration
      ensures duration == Ticks(!old(started), now - old(prev))
      ensures started && prev == now
      ensures shared.floor == if clock > old(shared.floor) then clock else old(shared.floor)
      ensures forall s: State, c: nat {:trigger s.clocks[c]} ::
                s.floor == old(shared.floor) && c < |s.clocks| && s.clocks[c] == old(clock) ==>
                  Exec(s, Event.Next(c, duration))
                  == State(shared.floor, s.clocks[c := clock], s.stamps + [(c, timestamp)])
    {
      var ticks := 6000;
      if started {
        var us := now - prev;
        ticks := if us < 0 then 0 else us * 90 / 1000;
        if ticks < 90 {
          ticks := 90;
        } else if ticks > 18000 {
          ticks := 18000;
        }
      }
      prev, started := now, true;
      clock := clock + ticks;
      shared.Publish(clock);
      return clock, ticks;
    }
  }

  // ---------------------------------------------------------------- runs over many connections

  /** `clocks` has the clock of every connection; `stamps` all stamps handed out so far, with their connection. */
  datatype State = State(floor: nat, clocks: seq<nat>, stamps: seq<(nat, nat)>)

  datatype Event = Open | Next(conn: nat, ticks: nat)

  function Exec(s: State, e: Event): State {
    match e
    case Open => State(s.floor + 90, s.clocks + [s.floor + 90], s.stamps)
    case Next(c, ticks) =>
      if c >= |s.clocks| || ticks < 90 then s
      else
        var t := s.clocks[c] + ticks;
        State(if t > s.floor then t else s.floor, s.clocks[c := t], s.stamps + [(c, t)])
  }

  function Run(events: seq<Event>): State {
    if events == [] then State(0, [], [])
    else Exec(Run(events[..|events| - 1]), events[|events| - 1])
  }

  predicate Inv(s: State) {
    && (forall c :: 0 <= c < |s.clocks| ==> s.clocks[c] <= s.floor)
    && (forall i :: 0 <= i < |s.stamps| ==> s.stamps[i].1 <= s.floor)
    && (forall i :: 0 <= i < |s.stamps| ==> s.stamps[i].0 < |s.clocks| && s.stamps[i].1 <= s.clocks[s.stamps[i].0])
    && (forall i, j :: 0 <= i < j < |s.stamps| && s.stamps[i].0 == s.stamps[j].0 ==> s.stamps[i].1 < s.stamps[j].1)
  }

  lemma StepKeeps(s: State, e: Event)
    requires Inv(s)
    ensures Inv(Exec(s, e))
  {
  }

  /** Within a connection stamps only grow, however connections interleave. */
  lemma {:induction false} RunsKeepTime(events: seq<Event>)
    ensures Inv(Run(events))
  {
    if events != [] {
      RunsKeepTime(events[..|events| - 1]);
      StepKeeps(Run(events[..|events| - 1]), events[|events| - 1]);
    }
  }

  /** A connection that opens now stamps past everything any connection has stamped before. */
  lemma NewConnectionStartsPast(events: seq<Event>, ticks: nat)
    requires ticks >= 90
    ensures var s := Run(events);
            var t := Exec(Exec(s, Open), Next(|s.clocks|, ticks));
            && |t.stamps| == |s.stamps| + 1
            && forall i :: 0 <= i < |s.stamps| ==> s.stamps[i].1 < t.stamps[|s.stamps|].1
  {
    RunsKeepTime(events);
  }
}
