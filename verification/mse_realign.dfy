/**
 * The MSE stream loop against a concurrently written subscriber channel: units
 * are skipped when the loop falls behind or the channel overflows, and the
 * realignment tracker holds frames back until a keyframe.
 */
module MseRealign {
  import opened Basics

  // ---------------------------------------------------------------- the realignment tracker

  datatype Tracker = Tracker(needKey: bool, seenDrops: nat)

  /** The tracker after looking at one unit, and whether that unit may be sent. */
  function Allowed(t: Tracker, key: bool, dropped: nat, drained: bool): (Tracker, bool) {
    var needKey := t.needKey || dropped != t.seenDrops || drained;
    (Tracker(needKey && !key, dropped), !needKey || key)
  }

  class RealignTracker {
    var needKey: bool
    var seenDrops: nat

    constructor (seenDrops: nat)
      ensures View() == Tracker(false, seenDrops)
    {
      needKey, this.seenDrops := false, seenDrops;
    }

    function View(): Tracker
      reads this
    {
      Tracker(needKey, seenDrops)
    }

    method Allow(key: bool, dropped: nat, drained: bool) returns (ok: bool)
      modifies this
      ensures (View(), ok) == Allowed(old(View()), key, dropped, drained)
    {
      if dropped != seenDrops {
        seenDrops := dropped;
        needKey := true;
      }
      if drained {
        needKey := true;
      }
      if needKey && !key {
        return false;
      }
      needKey := false;
      return true;
    }
  }

  // ---------------------------------------------------------------- the machine

  datatype Unit = Unit(key: bool, sps: bool, pps: bool)

  /**
   * Where the loop is: waiting for a unit; holding one and about to look at the
   * channel's length; or done draining and about to decide about the one it holds.
   */
  datatype Pc = Idle | Holding(au: nat, drained: bool) | Ready(au: nat, drained: bool)

  /** Units are named by their position in `writes`, the order in which the hub got them. */
  datatype State = State(
    writes: seq<Unit>, queue: seq<nat>, dropped: nat,
    pc: Pc, sps: bool, pps: bool, initialized: bool, tracker: Tracker,
    sent: seq<nat>)

  const START := State([], [], 0, Idle, false, false, false, Tracker(false, 0), [])

  predicate IsKey(s: State, i: nat) {
    i < |s.writes| && s.writes[i].key
  }

  /** The hub's non-blocking send. */
  function Write(s: State, u: Unit, cap: nat): State {
    if |s.queue| < cap then s.(writes := s.writes + [u], queue := s.queue + [|s.writes|])
    else s.(writes := s.writes + [u], dropped := s.dropped + 1)
  }

  function Receive(s: State): State {
    if s.pc.Idle? && s.queue != [] then s.(queue := s.queue[1..], pc := Holding(s.queue[0], false)) else s
  }

  /** One look at the channel's length: with more than two units waiting, the next replaces the one held. */
  function Drain(s: State): State {
    if !s.pc.Holding? then s
    else if |s.queue| <= 2 then s.(pc := Ready(s.pc.au, s.pc.drained))
    else
      var next := s.queue[0];
      s.(queue := s.queue[1..], pc := if IsKey(s, next) then Ready(next, false) else Holding(next, true))
  }

  function Cached(s: State): State {
    if s.pc.Ready? && s.pc.au < |s.writes| then
      s.(sps := s.sps || s.writes[s.pc.au].sps, pps := s.pps || s.writes[s.pc.au].pps)
    else s
  }

  /** The init segment waits for a keyframe with both parameter sets known; after that the tracker decides. */
  function Decide(s: State): State {
    if !s.pc.Ready? then s
    else
      var au, c := s.pc.au, Cached(s).(pc := Idle);
      if !s.initialized then
        if IsKey(s, au) && c.sps && c.pps then c.(initialized := true, sent := s.sent + [au]) else c
      else
        var (t, ok) := Allowed(s.tracker, IsKey(s, au), s.dropped, s.pc.drained);
        c.(tracker := t, sent := if ok then s.sent + [au] else s.sent)
  }

  /** The tracker is set up after the subscription: before anything is received, though writes may have come already. */
  function SetUp(s: State): State {
    if !s.initialized && |s.queue| + s.dropped == |s.writes| then s.(tracker := Tracker(false, s.dropped)) else s
  }

  datatype Event = Written(u: Unit) | SetsUp | Receives | Drains | Decides

  function Exec(s: State, e: Event, cap: nat): State {
    match e
    case Written(u) => Write(s, u, cap)
    case SetsUp => SetUp(s)
    case Receives => Receive(s)
    case Drains => Drain(s)
    case Decides => Decide(s)
  }

  function Run(s: State, events: seq<Event>, cap: nat): State {
    if events == [] then s
    else Exec(Run(s, events[..|events| - 1], cap), events[|events| - 1], cap)
  }

  // ---------------------------------------------------------------- what is promised

  /** Every unit sent is a keyframe, or the very unit before it in write order was sent just before it. */
  predicate NoHole(s: State) {
    forall i :: 0 <= i < |s.sent| ==>
      IsKey(s, s.sent[i]) || (i > 0 && s.sent[i] == s.sent[i - 1] + 1)
  }

  /**
   * Will a drain pop the unit at position `k`, rather than the loop receive it? With
   * more than two units behind it, this is decided: the drain goes on until it pops
   * a keyframe, and the unit behind that one is received.
   */
  predicate Popped(s: State, k: nat)
    requires k < |s.queue|
    decreases k
  {
    if k == 0 then s.pc.Holding? else !(IsKey(s, s.queue[k - 1]) && Popped(s, k - 1))
  }

  /**
   * No keyframe in the channel can switch the alarm off with fewer than `j` units
   * of the channel still to come: at least four units follow each, or three and it
   * is not one the drain stops at.
   */
  predicate KeysAway(s: State, j: nat) {
    forall k :: 0 <= k < j && k < |s.queue| && IsKey(s, s.queue[k]) ==> k + 5 <= j || (k + 4 == j && !Popped(s, k))
  }

  /** The keyframe held, if it is one, has so much behind it that the next unit starts a drain. */
  predicate HeldAway(s: State, j: nat) {
    s.pc.Idle? || !IsKey(s, s.pc.au) || j >= 4 || (s.pc.Holding? && j >= 3)
  }

  /** After no keyframe that the loop will send can it get to the end of the channel without a drain. */
  predicate NoWayThrough(s: State) {
    HeldAway(s, |s.queue|) && KeysAway(s, |s.queue|)
  }

  /** A write is lost only while there is no such way through. */
  predicate Harmless(s: State, e: Event, cap: nat) {
    e.Written? && |s.queue| >= cap ==> NoWayThrough(s)
  }

  /** Every lost write of the run is harmless. */
  predicate Calm(s: State, events: seq<Event>, cap: nat) {
    events != [] ==>
      var n := |events| - 1;
      Calm(s, events[..n], cap) && Harmless(Run(s, events[..n], cap), events[n], cap)
  }

  // ---------------------------------------------------------------- the invariant

  function Front(s: State): int {
    if !s.pc.Idle? then s.pc.au else if s.sent == [] then -2 else s.sent[|s.sent| - 1]
  }

  /** Position `j` of the channel, or the next write, does not follow on what comes before it. */
  predicate Break(s: State, j: nat) {
    && j <= |s.queue|
    && (if j < |s.queue| then s.queue[j] else |s.writes|) != (if j > 0 then s.queue[j - 1] else Front(s)) + 1
  }

  /** Nothing but a keyframe can be sent until something else happens. */
  predicate Alarm(s: State) {
    !s.initialized || s.tracker.needKey || s.dropped != s.tracker.seenDrops || (!s.pc.Idle? && s.pc.drained)
  }

  predicate Quiet(s: State) {
    Alarm(s) && (s.pc.Idle? || !IsKey(s, s.pc.au))
  }

  /** Either the alarm is on, or so much is queued before `j` that a drain must switch it on. */
  predicate Reached(s: State, j: nat) {
    j >= 4 || (s.pc.Holding? && j >= 3) || Quiet(s)
  }

  predicate Safe(s: State, j: nat) {
    Break(s, j) && !(j < |s.queue| && IsKey(s, s.queue[j])) ==> Reached(s, j) && KeysAway(s, j)
  }

  predicate HeldOk(s: State) {
    !s.pc.Idle? ==>
      && (s.pc.drained ==> !IsKey(s, s.pc.au))
      && (!Alarm(s) && !IsKey(s, s.pc.au) ==> s.sent != [] && s.pc.au == s.sent[|s.sent| - 1] + 1)
  }

  predicate InRange(s: State) {
    && (forall k :: 0 <= k < |s.queue| ==> s.queue[k] < |s.writes|)
    && (!s.pc.Idle? ==> s.pc.au < |s.writes|)
    && (forall i :: 0 <= i < |s.sent| ==> s.sent[i] < |s.writes|)
    && s.tracker.seenDrops <= s.dropped
    && (s.initialized <==> s.sent != [])
  }

  ghost predicate Inv(s: State) {
    InRange(s) && HeldOk(s) && NoHole(s) && forall j :: 0 <= j <= |s.queue| ==> Safe(s, j)
  }

  // ---------------------------------------------------------------- every step keeps it

  /** What will be popped depends on the channel up to there, and on whether a unit is held. */
  lemma {:induction false} PoppedSame(s: State, t: State, k: nat)
    requires k < |s.queue| && k < |t.queue| && s.pc.Holding? == t.pc.Holding?
    requires forall i :: 0 <= i < k ==> IsKey(t, t.queue[i]) == IsKey(s, s.queue[i])
    ensures Popped(t, k) == Popped(s, k)
    decreases k
  {
    if k > 0 {
      PoppedSame(s, t, k - 1);
    }
  }

  /** Taking the front unit changes nothing for those behind it. */
  lemma {:induction false} PoppedShifts(s: State, t: State, k: nat)
    requires s.queue != [] && t.writes == s.writes && t.queue == s.queue[1..] && k < |t.queue|
    requires t.pc.Holding? <==> !(IsKey(s, s.queue[0]) && s.pc.Holding?)
    ensures Popped(t, k) == Popped(s, k + 1)
    decreases k
  {
    assert Popped(s, 0) == s.pc.Holding?;
    if k > 0 {
      PoppedShifts(s, t, k - 1);
      assert t.queue[k - 1] == s.queue[k];
    }
  }

  lemma KeysAwaySame(s: State, t: State, j: nat)
    requires KeysAway(s, j) && j <= |s.queue| <= |t.queue| && t.pc.Holding? == s.pc.Holding?
    requires forall k :: 0 <= k < |s.queue| ==> IsKey(t, t.queue[k]) == IsKey(s, s.queue[k])
    ensures KeysAway(t, j)
  {
    forall k | 0 <= k < j && k < |t.queue| && IsKey(t, t.queue[k]) ensures k + 5 <= j || (k + 4 == j && !Popped(t, k)) {
      PoppedSame(s, t, k);
    }
  }

  lemma EnqueueKeeps(s: State, u: Unit, cap: nat)
    requires Inv(s) && |s.queue| < cap
    ensures Inv(Write(s, u, cap))
  {
    var t := Write(s, u, cap);
    assert forall i: nat :: i < |s.writes| ==> IsKey(t, i) == IsKey(s, i);
    assert forall k :: 0 <= k < |s.queue| ==> t.queue[k] == s.queue[k];
    forall j | 0 <= j <= |t.queue| ensures Safe(t, j) {
      if j <= |s.queue| {
        SafeBefore(s, t, j);
      }
    }
  }

  /** A unit behind changes nothing for the places in front of it. */
  lemma SafeBefore(s: State, t: State, j: nat)
    requires Safe(s, j) && j <= |s.queue| && InRange(s)
    requires exists u :: t == s.(writes := s.writes + [u], queue := s.queue + [|s.writes|])
    ensures Safe(t, j)
  {
    if KeysAway(s, j) {
      KeysAwaySame(s, t, j);
    }
  }

  lemma DropKeeps(s: State, u: Unit, cap: nat)
    requires Inv(s) && |s.queue| >= cap && NoWayThrough(s)
    ensures Inv(Write(s, u, cap))
  {
    var t := Write(s, u, cap);
    assert forall i: nat :: i < |s.writes| ==> IsKey(t, i) == IsKey(s, i);
    forall j | 0 <= j <= |t.queue| ensures Safe(t, j) {
      assert Safe(s, j);
      if KeysAway(s, j) {
        KeysAwaySame(s, t, j);
      }
    }
  }

  lemma SetUpKeeps(s: State)
    requires Inv(s)
    ensures Inv(SetUp(s))
  {
    var t := SetUp(s);
    forall j | 0 <= j <= |t.queue| ensures Safe(t, j) {
      assert Safe(s, j);
      if KeysAway(s, j) {
        KeysAwaySame(s, t, j);
      }
    }
  }

  lemma ReceiveKeeps(s: State)
    requires Inv(s) && s.pc.Idle? && s.queue != []
    ensures Inv(Receive(s))
  {
    var t := Receive(s);
    assert Safe(s, 0);
    forall j | 0 <= j <= |t.queue| ensures Safe(t, j) {
      TakeKeeps(s, t, j);
    }
  }

  /** Taking the front unit moves every break one place forward. */
  lemma TakeKeeps(s: State, t: State, j: nat)
    requires Inv(s) && s.queue != [] && j <= |t.queue|
    requires t == Receive(s) || t == Drain(s)
    requires t.queue == s.queue[1..] && !t.pc.Idle? && t.pc.au == s.queue[0]
    ensures Safe(t, j)
  {
    assert Safe(s, j + 1);
    assert Break(t, j) == Break(s, j + 1);
    if Break(t, j) && !(j < |t.queue| && IsKey(t, t.queue[j])) {
      KeysMove(s, t, j);
    }
  }

  lemma KeysMove(s: State, t: State, j: nat)
    requires s.queue != [] && t.writes == s.writes && t.queue == s.queue[1..] && j <= |t.queue| && KeysAway(s, j + 1)
    requires t.pc.Holding? <==> !(IsKey(s, s.queue[0]) && s.pc.Holding?)
    ensures KeysAway(t, j)
    ensures IsKey(s, s.queue[0]) ==> j >= 4 || (t.pc.Holding? && j >= 3)
  {
    forall k | 0 <= k < j && k < |t.queue| && IsKey(t, t.queue[k]) ensures k + 5 <= j || (k + 4 == j && !Popped(t, k)) {
      assert s.queue[k + 1] == t.queue[k];
      PoppedShifts(s, t, k);
    }
    assert Popped(s, 0) == s.pc.Holding?;
  }

  lemma DrainKeeps(s: State)
    requires Inv(s) && s.pc.Holding?
    ensures Inv(Drain(s))
  {
    if |s.queue| <= 2 {
      StopKeeps(s);
    } else {
      SkipKeeps(s);
    }
  }

  lemma StopKeeps(s: State)
    requires Inv(s) && s.pc.Holding? && |s.queue| <= 2
    ensures Inv(Drain(s))
  {
    var t := Drain(s);
    forall j | 0 <= j <= |t.queue| ensures Safe(t, j) {
      assert Safe(s, j);
      assert KeysAway(s, j) ==> KeysAway(t, j);
    }
  }

  lemma SkipKeeps(s: State)
    requires Inv(s) && s.pc.Holding? && |s.queue| > 2
    ensures Inv(Drain(s))
  {
    var t := Drain(s);
    forall j | 0 <= j <= |t.queue| ensures Safe(t, j) {
      TakeKeeps(s, t, j);
    }
  }

  lemma DecideKeeps(s: State)
    requires Inv(s) && s.pc.Ready?
    ensures Inv(Decide(s))
  {
    var t := Decide(s);
    assert t.writes == s.writes && t.queue == s.queue;
    DecidesSoundly(s);
    forall j | 0 <= j <= |t.queue| ensures Safe(t, j) {
      DecideKeepsSafe(s, j);
    }
  }

  lemma DecidesSoundly(s: State)
    requires Inv(s) && s.pc.Ready?
    ensures InRange(Decide(s)) && HeldOk(Decide(s)) && NoHole(Decide(s))
  {
    if |Decide(s).sent| > |s.sent| {
      SendsSoundly(s);
    }
  }

  lemma SendsSoundly(s: State)
    requires InRange(s) && HeldOk(s) && NoHole(s) && s.pc.Ready? && |Decide(s).sent| > |s.sent|
    ensures InRange(Decide(s)) && NoHole(Decide(s))
  {
    var t, n := Decide(s), |s.sent|;
    assert t.sent == s.sent + [s.pc.au] && t.writes == s.writes;
    forall i | 0 <= i < |t.sent| ensures IsKey(t, t.sent[i]) || (i > 0 && t.sent[i] == t.sent[i - 1] + 1) {
      assert i < n ==> t.sent[i] == s.sent[i];
      assert 0 < i <= n ==> t.sent[i - 1] == s.sent[i - 1];
      if i == n && !IsKey(s, s.pc.au) {
        assert !Alarm(s);
      }
    }
  }

  lemma DecideKeepsSafe(s: State, j: nat)
    requires InRange(s) && HeldOk(s) && s.pc.Ready? && j <= |s.queue| && Safe(s, j)
    ensures Safe(Decide(s), j)
  {
    if KeysAway(s, j) {
      KeysAwaySame(s, Decide(s), j);
    }
  }

  lemma ExecKeeps(s: State, e: Event, cap: nat)
    requires Inv(s) && Harmless(s, e, cap)
    ensures Inv(Exec(s, e, cap))
  {
    match e
    case Written(u) =>
      if |s.queue| < cap {
        EnqueueKeeps(s, u, cap);
      } else {
        DropKeeps(s, u, cap);
      }
    case SetsUp => SetUpKeeps(s);
    case Receives =>
      if s.pc.Idle? && s.queue != [] {
        ReceiveKeeps(s);
      }
    case Drains =>
      if s.pc.Holding? {
        DrainKeeps(s);
      }
    case Decides =>
      if s.pc.Ready? {
        DecideKeeps(s);
      }
  }

  lemma {:induction false} CalmRunKeeps(s: State, events: seq<Event>, cap: nat)
    requires Inv(s) && Calm(s, events, cap)
    ensures Inv(Run(s, events, cap))
  {
    if events != [] {
      CalmRunKeeps(s, events[..|events| - 1], cap);
      ExecKeeps(Run(s, events[..|events| - 1], cap), events[|events| - 1], cap);
    }
  }

  /**
   * No decoder ever sees a frame whose predecessor it did not get, however writes
   * and the loop's steps interleave and whatever the drains skip, as long as no
   * write is lost while there is a way through the channel behind a keyframe.
   */
  lemma NoHoleInCalmRuns(events: seq<Event>, cap: nat)
    requires Calm(START, events, cap)
    ensures NoHole(Run(START, events, cap))
  {
    CalmRunKeeps(START, events, cap);
  }

  // ---------------------------------------------------------------- order

  function Held(s: State): seq<nat> {
    if s.pc.Idle? then [] else [s.pc.au]
  }

  lemma WithoutMiddle(a: seq<nat>, b: seq<nat>, c: seq<nat>, n: nat)
    requires Ascending(a + b + c, 0, n)
    ensures Ascending(a + c, 0, n)
  {
    forall i | 0 <= i < |a + c| ensures (a + c)[i] == (a + b + c)[if i < |a| then i else i + |b|] {
    }
  }

  /** What is sent, held and queued is in write order, each unit at most once. */
  predicate Ordered(s: State) {
    Ascending(s.sent + Held(s) + s.queue, 0, |s.writes|)
  }

  lemma {:induction false} SentInWriteOrder(events: seq<Event>, cap: nat)
    ensures Ordered(Run(START, events, cap))
  {
    if events != [] {
      SentInWriteOrder(events[..|events| - 1], cap);
      OrderStep(Run(START, events[..|events| - 1], cap), events[|events| - 1], cap);
    }
  }

  lemma OrderStep(s: State, e: Event, cap: nat)
    requires Ordered(s)
    ensures Ordered(Exec(s, e, cap))
  {
    match e
    case Written(u) => OrderWrite(s, u, cap);
    case SetsUp =>
    case Receives =>
      if s.pc.Idle? && s.queue != [] {
        assert s.sent + [s.queue[0]] + s.queue[1..] == s.sent + Held(s) + s.queue;
      }
    case Drains => OrderDrain(s);
    case Decides => OrderDecide(s);
  }

  lemma OrderWrite(s: State, u: Unit, cap: nat)
    requires Ordered(s)
    ensures Ordered(Write(s, u, cap))
  {
    var xs := s.sent + Held(s) + s.queue;
    AscendingMore(xs, |s.writes|);
    assert s.sent + Held(s) + (s.queue + [|s.writes|]) == xs + [|s.writes|];
    var t := Write(s, u, cap);
    assert t.sent + Held(t) + t.queue == if |s.queue| < cap then xs + [|s.writes|] else xs;
  }

  lemma AscendingMore(xs: seq<nat>, n: nat)
    requires Ascending(xs, 0, n)
    ensures Ascending(xs, 0, n + 1) && Ascending(xs + [n], 0, n + 1)
  {
  }

  lemma OrderDrain(s: State)
    requires Ordered(s)
    ensures Ordered(Drain(s))
  {
    if s.pc.Holding? && |s.queue| > 2 {
      assert s.sent + [s.queue[0]] + s.queue[1..] == s.sent + s.queue;
      WithoutMiddle(s.sent, Held(s), s.queue, |s.writes|);
    }
  }

  lemma OrderDecide(s: State)
    requires Ordered(s)
    ensures Ordered(Decide(s))
  {
    var t := Decide(s);
    if s.pc.Ready? {
      WithoutMiddle(s.sent, Held(s), s.queue, |s.writes|);
      assert t.sent + Held(t) + t.queue == t.sent + s.queue;
    }
  }

  /** Sending starts with a keyframe, both parameter sets being known by then. */
  predicate StartedRight(s: State) {
    && (s.initialized <==> s.sent != [])
    && (s.sent != [] ==> s.sps && s.pps && IsKey(s, s.sent[0]))
  }

  lemma {:induction false} StreamStartsComplete(events: seq<Event>, cap: nat)
    ensures StartedRight(Run(START, events, cap))
  {
    if events != [] {
      var s, e := Run(START, events[..|events| - 1], cap), events[|events| - 1];
      StreamStartsComplete(events[..|events| - 1], cap);
      StartStep(s, e, cap);
    }
  }

  lemma StartStep(s: State, e: Event, cap: nat)
    requires StartedRight(s)
    ensures StartedRight(Exec(s, e, cap))
  {
  }

  // ---------------------------------------------------------------- what is sent

  /**
   * Exactly which unit is sent: at first, a keyframe once both parameter sets have been
   * seen; after that a keyframe always, and any other unit unless something was lost
   * or skipped since the last unit sent.
   */
  lemma SentExactly(s: State)
    requires s.pc.Ready? && s.pc.au < |s.writes|
    ensures var t, u := Decide(s), s.writes[s.pc.au];
            && t.queue == s.queue && t.dropped == s.dropped
            && t.sps == (s.sps || u.sps) && t.pps == (s.pps || u.pps)
            && (t.sent == s.sent + [s.pc.au] <==>
                  if s.initialized
                  then u.key || (!s.tracker.needKey && s.dropped == s.tracker.seenDrops && !s.pc.drained)
                  else u.key && t.sps && t.pps)
            && (t.sent == s.sent || t.sent == s.sent + [s.pc.au])
            && (s.initialized ==>
                  t.tracker.seenDrops == s.dropped && t.tracker.needKey == (t.sent == s.sent))
  {
    assert |s.sent + [s.pc.au]| == |s.sent| + 1;
  }

  /** The loop keeps up: no write finds the channel full, and no look at it finds more than two units waiting. */
  predicate KeepsUp(events: seq<Event>, cap: nat) {
    events != [] ==>
      var before, e := events[..|events| - 1], events[|events| - 1];
      var s := Run(START, before, cap);
      && KeepsUp(before, cap)
      && (e.Written? ==> |s.queue| < cap)
      && (e.Drains? && s.pc.Holding? ==> |s.queue| <= 2)
  }

  /** Nothing is lost: what is sent, held and queued are all writes from the first one sent. */
  predicate InStep(s: State) {
    var waiting := Held(s) + s.queue;
    && s.dropped == 0 && s.tracker == Tracker(false, 0) && (!s.pc.Idle? ==> !s.pc.drained)
    && |waiting| <= |s.writes| && waiting == From(|s.writes| - |waiting|, |s.writes|)
    && (s.initialized <==> s.sent != [])
    && (s.sent != [] ==>
          s.sent[0] <= |s.writes| - |waiting| && s.sent == From(s.sent[0], |s.writes| - |waiting|))
  }

  lemma StepKeepsUp(s: State, e: Event, cap: nat)
    requires InStep(s) && (e.Written? ==> |s.queue| < cap) && (e.Drains? && s.pc.Holding? ==> |s.queue| <= 2)
    ensures InStep(Exec(s, e, cap))
  {
    var t := Exec(s, e, cap);
    match e
    case Written(u) =>
      assert Held(t) + t.queue == (Held(s) + s.queue) + [|s.writes|];
    case SetsUp =>
    case Receives =>
      if s.pc.Idle? && s.queue != [] {
        assert Held(t) + t.queue == Held(s) + s.queue;
      }
    case Drains =>
      assert Held(t) + t.queue == Held(s) + s.queue;
    case Decides =>
      if s.pc.Ready? {
        DecidesInStep(s);
      }
  }

  lemma DecidesInStep(s: State)
    requires InStep(s) && s.pc.Ready?
    ensures InStep(Decide(s))
  {
    var n := |s.writes| - |s.queue|;
    FirstWaiting(s.pc.au, s.queue, n, |s.writes|);
    SendsNext(s, Decide(s), n);
    assert [] + s.queue == s.queue;
  }

  lemma FirstWaiting(au: nat, queue: seq<nat>, n: nat, all: nat)
    requires 0 < n <= all && [au] + queue == From(n - 1, all)
    ensures au == n - 1 && queue == From(n, all)
  {
    FromTail(n - 1, all);
    assert ([au] + queue)[0] == au && ([au] + queue)[1..] == queue;
  }

  lemma SendsNext(s: State, t: State, n: nat)
    requires t == Decide(s) && s.pc.Ready? && 0 < n <= |s.writes| && s.pc.au == n - 1
    requires s.dropped == 0 && s.tracker == Tracker(false, 0) && !s.pc.drained && (s.initialized <==> s.sent != [])
    requires s.sent != [] ==> s.sent[0] <= n - 1 && s.sent == From(s.sent[0], n - 1)
    ensures (t.initialized <==> t.sent != []) && t.tracker == Tracker(false, 0)
    ensures t.sent != [] ==> t.sent[0] <= n && t.sent == From(t.sent[0], n)
  {
    if s.initialized {
      FromSnoc(s.sent[0], n - 1);
      assert t.sent == s.sent + [n - 1];
    } else if t.sent != [] {
      assert t.sent == [n - 1] == From(n - 1, n);
    }
  }

  /**
   * A viewer whose loop keeps up gets every unit written from the first one sent: those
   * taken so far have been sent, one after the other, and the rest are waiting.
   */
  lemma {:induction false} KeepingUpLosesNothing(events: seq<Event>, cap: nat)
    requires KeepsUp(events, cap)
    ensures InStep(Run(START, events, cap))
  {
    if events != [] {
      var before := events[..|events| - 1];
      KeepingUpLosesNothing(before, cap);
      StepKeepsUp(Run(START, before, cap), events[|events| - 1], cap);
    }
  }

  // ---------------------------------------------------------------- the condition is exact

  /** Something a calm run from `s` can get to. */
  ghost predicate Reaches(s: State, g: State, cap: nat) {
    exists events :: Calm(s, events, cap) && Run(s, events, cap) == g
  }

  /** Some calm run from `s` sends a frame without its predecessor. */
  ghost predicate CanBreak(s: State, cap: nat) {
    exists events :: Calm(s, events, cap) && !NoHole(Run(s, events, cap))
  }

  lemma ReachesItself(s: State, cap: nat)
    ensures Reaches(s, s, cap)
  {
    assert Calm(s, [], cap) && Run(s, [], cap) == s;
  }

  lemma ReachesNext(s: State, g: State, e: Event, cap: nat)
    requires Reaches(s, g, cap) && Harmless(g, e, cap)
    ensures Reaches(s, Exec(g, e, cap), cap)
  {
    var events :| Calm(s, events, cap) && Run(s, events, cap) == g;
    var more := events + [e];
    assert more[..|more| - 1] == events;
    assert Calm(s, more, cap) && Run(s, more, cap) == Exec(g, e, cap);
  }

  /** Everything the loop has or had comes before write `b`, and write `b` was lost. */
  predicate Behind(g: State, b: nat) {
    && g.initialized && g.sent != [] && |g.writes| == b + 1
    && (forall i :: 0 <= i < |g.sent| ==> g.sent[i] < b)
    && (forall k :: 0 <= k < |g.queue| ==> g.queue[k] < b)
    && (!g.pc.Idle? ==> g.pc.au < b)
  }

  predicate PlainFrom(g: State, k: nat) {
    forall i :: k <= i < |g.queue| ==> !IsKey(g, g.queue[i])
  }

  /** The alarm is off, or about to be switched off by the keyframe held, and too little is left for a drain. */
  predicate Clear(g: State) {
    && PlainFrom(g, 0) && |g.queue| <= (if g.pc.Holding? then 2 else 3)
    && (g.pc.Idle? ==> !g.tracker.needKey && g.dropped == g.tracker.seenDrops)
    && (!g.pc.Idle? ==> !g.pc.drained)
    && (!g.pc.Idle? ==> IsKey(g, g.pc.au) || (!g.tracker.needKey && g.dropped == g.tracker.seenDrops))
  }

  function Rank(g: State): nat {
    if g.pc.Idle? then 0 else if g.pc.Ready? then 1 else 2
  }

  /** The loop's next step when nothing is written meanwhile. */
  function Auto(g: State): State {
    if g.pc.Idle? then Receive(g) else if g.pc.Holding? then Drain(g) else Decide(g)
  }

  function Steps(g: State, n: nat): State
    decreases n
  {
    if n == 0 then g else Steps(Auto(g), n - 1)
  }

  lemma AutoReached(s: State, g: State, cap: nat)
    requires Reaches(s, g, cap)
    ensures Reaches(s, Auto(g), cap)
  {
    var e := if g.pc.Idle? then Receives else if g.pc.Holding? then Drains else Decides;
    assert Exec(g, e, cap) == Auto(g) && Harmless(g, e, cap);
    ReachesNext(s, g, e, cap);
  }

  lemma {:induction false} StepsReach(s: State, g: State, n: nat, cap: nat)
    requires Reaches(s, g, cap)
    ensures Reaches(s, Steps(g, n), cap)
    decreases n
  {
    if n > 0 {
      AutoReached(s, g, cap);
      StepsReach(s, Auto(g), n - 1, cap);
    }
  }

  /** All is sent, and the loop waits without the alarm. */
  predicate Waiting(g: State, b: nat) {
    Behind(g, b) && Clear(g) && g.pc.Idle? && g.queue == []
  }

  lemma ClearStep(g: State, b: nat)
    requires Behind(g, b) && Clear(g) && !(g.pc.Idle? && g.queue == [])
    ensures Behind(Auto(g), b) && Clear(Auto(g))
  {
  }

  /** From there the loop sends all it has. */
  lemma {:induction false} ClearEnds(g: State, b: nat) returns (n: nat)
    requires Behind(g, b) && Clear(g)
    ensures Waiting(Steps(g, n), b)
    decreases |g.queue|, Rank(g)
  {
    n := 0;
    if !(g.pc.Idle? && g.queue == []) {
      ClearStep(g, b);
      var m := ClearEnds(Auto(g), b);
      n := m + 1;
    }
  }

  /** The first frame written after the lost one then goes out without its predecessor. */
  lemma LastFrameBreaks(s: State, g: State, b: nat, cap: nat)
    requires cap >= 1 && Reaches(s, g, cap) && Waiting(g, b)
    ensures CanBreak(s, cap)
  {
    var u := Unit(false, false, false);
    ReachesNext(s, g, Written(u), cap);
    var w := Write(g, u, cap);
    ReachesNext(s, w, Receives, cap);
    ReachesNext(s, Receive(w), Drains, cap);
    ReachesNext(s, Drain(Receive(w)), Decides, cap);
    var h := Decide(Drain(Receive(w)));
    assert h.sent == g.sent + [b + 1] && !IsKey(h, b + 1);
    assert !NoHole(h) by {
      var i := |g.sent|;
      assert h.sent[i] == b + 1 && h.sent[i - 1] < b;
    }
  }

  /** Position `k` is the last keyframe in the channel, and the drains will not jump over it. */
  predicate Doomed(g: State, k: nat) {
    && k < |g.queue| <= k + 4 && IsKey(g, g.queue[k]) && PlainFrom(g, k + 1)
    && (|g.queue| == k + 4 ==> Popped(g, k))
  }

  /** One step further the keyframe is still there, or the loop has it and nothing stands in its way. */
  lemma DoomedStep(g: State, k: nat, b: nat)
    requires Behind(g, b) && Doomed(g, k)
    ensures var t := Auto(g);
            && Behind(t, b)
            && if |t.queue| == |g.queue| then Doomed(t, k) else if k == 0 then Clear(t) else Doomed(t, k - 1)
  {
    var t := Auto(g);
    if |t.queue| == |g.queue| {
      if g.pc.Ready? {
        PoppedSame(g, t, k);
      }
    } else {
      DoomedTakes(g, k, b);
    }
  }

  lemma DoomedTakes(g: State, k: nat, b: nat)
    requires Behind(g, b) && Doomed(g, k) && |Auto(g).queue| != |g.queue|
    ensures Behind(Auto(g), b) && if k == 0 then Clear(Auto(g)) else Doomed(Auto(g), k - 1)
  {
    var t := Auto(g);
    if k > 0 {
      PoppedShifts(g, t, k - 1);
      assert t.queue[k - 1] == g.queue[k];
    }
  }

  lemma {:induction false} DoomedEnds(g: State, k: nat, b: nat) returns (n: nat)
    requires Behind(g, b) && Doomed(g, k)
    ensures Waiting(Steps(g, n), b)
    decreases |g.queue|, Rank(g)
  {
    var t := Auto(g);
    DoomedStep(g, k, b);
    var m: nat;
    if |t.queue| == |g.queue| {
      m := DoomedEnds(t, k, b);
    } else if k == 0 {
      m := ClearEnds(t, b);
    } else {
      m := DoomedEnds(t, k - 1, b);
    }
    n := m + 1;
  }

  /** The last keyframe among the last four, when there is one. */
  lemma {:induction false} LastKey(s: State, k: nat) returns (m: nat)
    requires k < |s.queue| && IsKey(s, s.queue[k])
    ensures k <= m < |s.queue| && IsKey(s, s.queue[m]) && PlainFrom(s, m + 1)
    decreases |s.queue| - k
  {
    if PlainFrom(s, k + 1) {
      m := k;
    } else {
      var i :| k + 1 <= i < |s.queue| && IsKey(s, s.queue[i]);
      m := LastKey(s, i);
    }
  }

  lemma QueuedKeyBreaks(s: State, u: Unit, cap: nat, k: nat)
    requires Inv(s) && s.initialized && |s.queue| == cap && k < cap <= k + 4
    requires IsKey(s, s.queue[k]) && (cap == k + 4 ==> Popped(s, k))
    ensures CanBreak(Write(s, u, cap), cap)
  {
    var t := Write(s, u, cap);
    assert forall i: nat :: i < |s.writes| ==> IsKey(t, i) == IsKey(s, i);
    var m := LastKey(t, k);
    PoppedSame(s, t, k);
    assert Doomed(t, m);
    var n := DoomedEnds(t, m, |s.writes|);
    ReachesItself(t, cap);
    StepsReach(t, t, n, cap);
    LastFrameBreaks(t, Steps(t, n), |s.writes|, cap);
  }

  lemma HeldKeyBreaks(s: State, u: Unit, cap: nat)
    requires Inv(s) && s.initialized && |s.queue| == cap && 0 < cap && PlainFrom(s, 0)
    requires !s.pc.Idle? && IsKey(s, s.pc.au) && cap <= (if s.pc.Holding? then 2 else 3)
    ensures CanBreak(Write(s, u, cap), cap)
  {
    var t := Write(s, u, cap);
    assert forall i: nat :: i < |s.writes| ==> IsKey(t, i) == IsKey(s, i);
    var n := ClearEnds(t, |s.writes|);
    ReachesItself(t, cap);
    StepsReach(t, t, n, cap);
    LastFrameBreaks(t, Steps(t, n), |s.writes|, cap);
  }

  lemma WayThroughBreaks(s: State, u: Unit, cap: nat)
    requires Inv(s) && s.initialized && |s.queue| == cap > 0 && !NoWayThrough(s)
    ensures CanBreak(Write(s, u, cap), cap)
  {
    if KeysAway(s, cap) {
      assert PlainFrom(s, 0) by {
        forall i | 0 <= i < |s.queue| ensures !IsKey(s, s.queue[i]) {
        }
      }
      HeldKeyBreaks(s, u, cap);
    } else {
      var k :| 0 <= k < cap && IsKey(s, s.queue[k]) && !(k + 5 <= cap || (k + 4 == cap && !Popped(s, k)));
      QueuedKeyBreaks(s, u, cap, k);
    }
  }

  /**
   * A write lost once sending has begun, wherever the loop is and whatever the size
   * of the channel: all calm continuations are free of holes exactly when there is
   * no way through the channel behind a keyframe.
   */
  lemma DropIsHarmlessExactly(s: State, u: Unit, cap: nat)
    requires Inv(s) && s.initialized && |s.queue| == cap > 0
    ensures !CanBreak(Write(s, u, cap), cap) <==> NoWayThrough(s)
  {
    if NoWayThrough(s) {
      DropKeeps(s, u, cap);
      NeverBreaks(Write(s, u, cap), cap);
    } else {
      WayThroughBreaks(s, u, cap);
    }
  }

  lemma NeverBreaks(s: State, cap: nat)
    requires Inv(s)
    ensures !CanBreak(s, cap)
  {
    forall events | Calm(s, events, cap) ensures NoHole(Run(s, events, cap)) {
      CalmRunKeeps(s, events, cap);
    }
  }

  // ---------------------------------------------------------------- a run with a hole

  const KEY := Unit(true, true, true)
  const PLAIN := Unit(false, false, false)

  lemma {:induction false} RunOn(s: State, a: seq<Event>, b: seq<Event>, cap: nat)
    ensures Run(s, a + b, cap) == Run(Run(s, a, cap), b, cap)
  {
    if b == [] {
      assert a + b == a;
    } else {
      var n := |b| - 1;
      assert (a + b)[..|a + b| - 1] == a + b[..n];
      RunOn(s, a, b[..n], cap);
    }
  }

  /** One keyframe sent, and the loop waits. */
  function Started(): State {
    State([KEY], [], 0, Idle, true, true, true, Tracker(false, 0), [0])
  }

  lemma StartedIsReached(cap: nat)
    requires cap >= 1
    ensures Reaches(START, Started(), cap)
  {
    ReachesItself(START, cap);
    ReachesNext(START, START, Written(KEY), cap);
    ReachesNext(START, Write(START, KEY, cap), Receives, cap);
    ReachesNext(START, Receive(Write(START, KEY, cap)), Drains, cap);
    ReachesNext(START, Drain(Receive(Write(START, KEY, cap))), Decides, cap);
  }

  /** While the loop sends the first unit, `us` are written. */
  function Filled(us: seq<Unit>): State {
    Started().(writes := [KEY] + us, queue := seq(|us|, i requires 0 <= i < |us| => i + 1))
  }

  lemma {:induction false} FilledIsReached(us: seq<Unit>, cap: nat)
    requires |us| <= cap && cap >= 1
    ensures Reaches(START, Filled(us), cap)
  {
    if us == [] {
      StartedIsReached(cap);
      assert Filled(us) == Started();
    } else {
      var n := |us| - 1;
      FilledIsReached(us[..n], cap);
      FillOne(us, n, cap);
      ReachesNext(START, Filled(us[..n]), Written(us[n]), cap);
    }
  }

  lemma FillOne(us: seq<Unit>, n: nat, cap: nat)
    requires n + 1 == |us| <= cap
    ensures Write(Filled(us[..n]), us[n], cap) == Filled(us)
  {
    assert [KEY] + us[..n] + [us[n]] == [KEY] + us;
    assert Filled(us[..n]).queue + [n + 1] == Filled(us).queue;
  }

  /** Frames fill the channel, a keyframe last. */
  function LateKey(cap: nat): seq<Unit>
    requires cap >= 1
  {
    seq(cap - 1, _ => PLAIN) + [KEY]
  }

  /** The next write is lost; the queued keyframe then clears the alarm too early. */
  lemma AHoleCanHappen(cap: nat)
    requires cap >= 1
    ensures exists events :: !NoHole(Run(START, events, cap))
  {
    var f := Filled(LateKey(cap));
    FilledIsReached(LateKey(cap), cap);
    NeverBreaksBefore(f, cap);
    assert IsKey(f, f.queue[cap - 1]);
    QueuedKeyBreaks(f, PLAIN, cap, cap - 1);
    LostWriteThenBreak(f, PLAIN, cap);
  }

  lemma NeverBreaksBefore(f: State, cap: nat)
    requires Reaches(START, f, cap)
    ensures Inv(f)
  {
    var a :| Calm(START, a, cap) && Run(START, a, cap) == f;
    CalmRunKeeps(START, a, cap);
  }

  /** The loop is about to send a second keyframe, and `n` frames have been written behind it. */
  function HoldingKey(n: nat): State {
    State([KEY, KEY] + seq(n, _ => PLAIN), seq(n, i requires 0 <= i < n => i + 2), 0, Ready(1, false),
          true, true, true, Tracker(false, 0), [0])
  }

  lemma {:induction false} HoldingKeyIsReached(n: nat, cap: nat)
    requires n <= cap && cap >= 1
    ensures Reaches(START, HoldingKey(n), cap)
  {
    if n == 0 {
      KeyTaken(cap);
    } else {
      HoldingKeyIsReached(n - 1, cap);
      ReachesNext(START, HoldingKey(n - 1), Written(PLAIN), cap);
      HoldingOneMore(n, cap);
    }
  }

  lemma KeyTaken(cap: nat)
    requires cap >= 1
    ensures Reaches(START, HoldingKey(0), cap)
  {
    StartedIsReached(cap);
    var w := Write(Started(), KEY, cap);
    ReachesNext(START, Started(), Written(KEY), cap);
    ReachesNext(START, w, Receives, cap);
    ReachesNext(START, Receive(w), Drains, cap);
    KeyTakenState(cap);
  }

  lemma KeyTakenState(cap: nat)
    requires cap >= 1
    ensures Drain(Receive(Write(Started(), KEY, cap))) == HoldingKey(0)
  {
    assert [KEY] + [KEY] == [KEY, KEY] + [];
    var w := State([KEY, KEY], [1], 0, Idle, true, true, true, Tracker(false, 0), [0]);
    assert Write(Started(), KEY, cap) == w;
    assert Receive(w).queue == [] && Receive(w).pc == Holding(1, false);
  }

  lemma HoldingOneMore(n: nat, cap: nat)
    requires 1 <= n <= cap
    ensures Write(HoldingKey(n - 1), PLAIN, cap) == HoldingKey(n)
  {
    assert [KEY, KEY] + seq(n - 1, _ => PLAIN) + [PLAIN] == [KEY, KEY] + seq(n, _ => PLAIN);
    assert HoldingKey(n - 1).queue + [n + 1] == HoldingKey(n).queue;
  }

  /**
   * With a channel of three, no keyframe has to be queued: one the loop is about to
   * send clears the alarm raised by the write that is lost behind it.
   */
  lemma HeldKeyframeIsEnough()
    ensures var s := HoldingKey(3);
            Reaches(START, s, 3) && PlainFrom(s, 0) && CanBreak(Write(s, PLAIN, 3), 3)
    ensures exists events :: !NoHole(Run(START, events, 3))
  {
    var s := HoldingKey(3);
    HoldingKeyIsReached(3, 3);
    NeverBreaksBefore(s, 3);
    HeldKeyBreaks(s, PLAIN, 3);
    LostWriteThenBreak(s, PLAIN, 3);
  }

  lemma LostWriteThenBreak(f: State, u: Unit, cap: nat)
    requires Reaches(START, f, cap) && CanBreak(Write(f, u, cap), cap)
    ensures exists events :: !NoHole(Run(START, events, cap))
  {
    var a :| Calm(START, a, cap) && Run(START, a, cap) == f;
    var b :| Calm(Write(f, u, cap), b, cap) && !NoHole(Run(Write(f, u, cap), b, cap));
    var c := a + [Written(u)];
    assert c[..|c| - 1] == a;
    RunOn(START, c, b, cap);
    assert !NoHole(Run(START, c + b, cap));
  }

  // ---------------------------------------------------------------- the loop

  /** All looks at the channel's length, until it is time to decide. */
  function Drained(s: State): State
    decreases |s.queue|, Rank(s)
  {
    if s.pc.Holding? then Drained(Drain(s)) else s
  }

  /** One round of the loop is a run of the machine in which nothing is written. */
  lemma {:induction false} RoundIsARun(s: State) returns (n: nat)
    requires s.pc.Holding?
    ensures Decide(Drained(s)) == Steps(s, n)
    decreases |s.queue|
  {
    var t := Drain(s);
    if t.pc.Holding? {
      var m := RoundIsARun(t);
      n := m + 1;
    } else {
      assert Drained(t) == t && Drained(s) == t;
      assert Steps(t, 1) == Steps(Decide(t), 0) == Decide(t);
      n := 2;
      assert Steps(s, 2) == Steps(t, 1);
    }
  }

  class StreamLoop {
    const writes: seq<Unit>
    const tracker: RealignTracker
    var queue: seq<nat>
    var dropped: nat
    var sps: bool
    var pps: bool
    var initialized: bool
    var sent: seq<nat>

    constructor (writes: seq<Unit>, queue: seq<nat>)
      ensures this.writes == writes && this.queue == queue && fresh(tracker)
      ensures At(Idle) == START.(writes := writes, queue := queue)
    {
      var t := new RealignTracker(0);
      this.writes, this.queue, tracker := writes, queue, t;
      dropped, sps, pps, initialized, sent := 0, false, false, false, [];
    }

    function At(pc: Pc): State
      reads this, tracker
    {
      State(writes, queue, dropped, pc, sps, pps, initialized, tracker.View(), sent)
    }

    /** The fast-forward loop, ended by a keyframe or a short channel. */
    method DrainStale(first: nat) returns (au: nat, drained: bool)
      modifies this`queue
      ensures At(Ready(au, drained)) == Drained(old(At(Holding(first, false))))
    {
      au, drained := first, false;
      ghost var goal := Drained(At(Holding(first, false)));
      while |queue| > 2
        invariant Drained(At(Holding(au, drained))) == goal
        decreases |queue|
      {
        var candidate := queue[0];
        ghost var before := At(Holding(au, drained));
        queue := queue[1..];
        au := candidate;
        if candidate < |writes| && writes[candidate].key {
          drained := false;
          assert Drain(before) == At(Ready(au, false));
          return;
        }
        drained := true;
        assert Drain(before) == At(Holding(au, true));
      }
      assert Drain(At(Holding(au, drained))) == At(Ready(au, drained));
    }

    /** One round: receive, fast-forward, update the parameter sets, and send or skip. */
    method HandleUnit()
      requires queue != [] && forall k :: 0 <= k < |queue| ==> queue[k] < |writes|
      modifies this, tracker
      ensures At(Idle) == Decide(Drained(Receive(old(At(Idle)))))
    {
      var au := queue[0];
      queue := queue[1..];
      var drained;
      au, drained := DrainStale(au);
      Settle(au, drained);
    }

    method Settle(au: nat, drained: bool)
      modifies this, tracker
      ensures At(Idle) == Decide(old(At(Ready(au, drained))))
    {
      var key := au < |writes| && writes[au].key;
      if au < |writes| {
        sps, pps := sps || writes[au].sps, pps || writes[au].pps;
      }
      if !initialized {
        if !key || !sps || !pps {
          return;
        }
        initialized := true;
      } else {
        var ok := tracker.Allow(key, dropped, drained);
        if !ok {
          return;
        }
      }
      sent := sent + [au];
    }
  }
}
