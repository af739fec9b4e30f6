/**
 * The hardware encoder's buffer queues. A frame is put into an OUTPUT buffer and
 * handed to the driver, which hands back finished buffers in the order it got
 * them; any step may fail, and one failure is answered by a reset and a retry.
 */
module M2MEncoder {
  import opened Basics
  import opened Wire

  // ---------------------------------------------------------------- the device

  /** Where an attempt to encode a frame goes wrong, if it does. */
  datatype Fate =
    | QueueFails        // QBUF of the OUTPUT buffer
    | PollFails         // poll error or timeout
    | ReclaimFails      // DQBUF of the OUTPUT buffer
    | FetchFails        // DQBUF of the CAPTURE buffer
    | FrameUnusable     // bad index, requeue failure, or no start code
    | Works

  /**
   * `owned` are the OUTPUT buffers the driver holds, in the order they were queued;
   * `inflight` are the frames whose encoding has not been fetched yet.
   */
  datatype Device = Device(nextOut: U32, owned: seq<nat>, inflight: seq<nat>)

  const FRESH := Device(0, [], [])

  datatype Result = Encoded(frame: nat) | Usage | Transport

  function Target(d: Device, n: nat): nat
    requires n > 0
  {
    d.nextOut % n
  }

  /** One attempt. The driver refuses a buffer it already holds. */
  function AttemptOn(d: Device, n: nat, frame: nat, fate: Fate): (Device, Result)
    requires n > 0
  {
    if fate.QueueFails? || Target(d, n) in d.owned then (d, Transport)
    else
      var q := Device((d.nextOut + 1) % 0x1_0000_0000, d.owned + [Target(d, n)], d.inflight + [frame]);
      var reclaimed := q.(owned := q.owned[1..]);
      var fetched := reclaimed.(inflight := q.inflight[1..]);
      if fate.PollFails? || fate.ReclaimFails? then (q, Transport)
      else if fate.FetchFails? then (reclaimed, Transport)
      else if fate.FrameUnusable? then (fetched, Transport)
      else (fetched, Encoded(q.inflight[0]))
  }

  /** How far a reset of the queues gets. */
  datatype Reset =
    | OutputStays       // STREAMOFF of the OUTPUT queue fails
    | CaptureStays      // STREAMOFF of the CAPTURE queue fails
    | NoRestart         // requeueing or STREAMON fails
    | Succeeds

  /** Stopping a queue hands back what it held; the counter starts again only when all went well. */
  function ResetOn(d: Device, reset: Reset): Device {
    match reset
    case OutputStays => d
    case CaptureStays => d.(owned := [])
    case NoRestart => d.(owned := [], inflight := [])
    case Succeeds => FRESH
  }

  /** What one call to Encode is given: a frame, whether it is acceptable, and the fates of attempts and reset. */
  datatype Call = Call(frame: nat, usable: bool, first: Fate, reset: Reset, second: Fate)

  /** At most two attempts, the second on a device that has been reset. */
  function EncodeOn(d: Device, n: nat, c: Call): (Device, Result)
    requires n > 0
  {
    if !c.usable then (d, Usage)
    else
      var (e, r) := AttemptOn(d, n, c.frame, c.first);
      if r != Transport then (e, r)
      else if c.reset != Succeeds then (ResetOn(e, c.reset), Transport)
      else AttemptOn(FRESH, n, c.frame, c.second)
  }

  /** A reset, if the call needs one, stops both queues. */
  predicate Stops(c: Call) {
    c.reset.Succeeds? || c.reset.NoRestart?
  }

  // ---------------------------------------------------------------- what every call keeps

  /** The index used by the last queueing, if the counter has not just been reset. */
  function Last(d: Device, n: nat): nat
    requires n > 0
  {
    ((d.nextOut + 0xFFFF_FFFF) % 0x1_0000_0000) % n
  }

  /** Between calls at most one buffer is with the driver, the last one queued, and at most one frame is behind. */
  predicate Inv(d: Device, n: nat)
    requires n > 0
  {
    && (d.owned == [] || d.owned == [Last(d, n)])
    && |d.inflight| <= 1 && |d.owned| <= |d.inflight|
  }

  lemma AttemptKeeps(d: Device, n: nat, frame: nat, fate: Fate)
    requires n > 0 && (d == FRESH || Inv(d, n))
    ensures var (e, r) := AttemptOn(d, n, frame, fate);
            && (r.Encoded? ==> Inv(e, n) && |e.inflight| == |d.inflight|)
            && (d == FRESH ==> Inv(e, n))
  {
    var q := Device((d.nextOut + 1) % 0x1_0000_0000, d.owned + [Target(d, n)], d.inflight + [frame]);
    LastAfterQueue(d, n, q);
    if d.owned != [] {
      assert q.owned[1..] == [Target(d, n)];
    } else {
      assert q.owned[1..] == [];
    }
  }

  lemma LastAfterQueue(d: Device, n: nat, q: Device)
    requires n > 0 && q.nextOut == (d.nextOut + 1) % 0x1_0000_0000
    ensures Last(q, n) == Target(d, n)
  {
  }

  /** A frame is accepted and gets stuck behind another one, and the queues cannot be stopped. */
  predicate PilesUp(d: Device, n: nat, c: Call)
    requires n > 0
  {
    && c.usable && !Stops(c) && d.inflight != [] && Target(d, n) !in d.owned
    && (c.first.PollFails? || c.first.ReclaimFails? || c.first.FetchFails?)
  }

  /** What a failed attempt and a failed stop leave. */
  lemma StuckKeepsExactly(d: Device, n: nat, c: Call)
    requires n > 0 && Inv(d, n) && c.usable && !Stops(c) && AttemptOn(d, n, c.frame, c.first).1 == Transport
    ensures Inv(EncodeOn(d, n, c).0, n) <==> !PilesUp(d, n, c)
  {
    var q := Device((d.nextOut + 1) % 0x1_0000_0000, d.owned + [Target(d, n)], d.inflight + [c.frame]);
    LastAfterQueue(d, n, q);
    if d.owned != [] {
      assert q.owned[1..] == [Target(d, n)];
    } else {
      assert q.owned[1..] == [];
    }
  }

  lemma EncodeKeepsExactly(d: Device, n: nat, c: Call)
    requires n > 0 && Inv(d, n)
    ensures Inv(EncodeOn(d, n, c).0, n) <==> !PilesUp(d, n, c)
  {
    AttemptKeeps(d, n, c.frame, c.first);
    AttemptKeeps(FRESH, n, c.frame, c.second);
    if c.usable && !Stops(c) && AttemptOn(d, n, c.frame, c.first).1 == Transport {
      StuckKeepsExactly(d, n, c);
    }
  }

  function Run(n: nat, calls: seq<Call>): Device
    requires n > 0
  {
    if calls == [] then FRESH
    else EncodeOn(Run(n, calls[..|calls| - 1]), n, calls[|calls| - 1]).0
  }

  predicate NonePilesUp(n: nat, calls: seq<Call>)
    requires n > 0
  {
    calls != [] ==>
      var m := |calls| - 1;
      NonePilesUp(n, calls[..m]) && !PilesUp(Run(n, calls[..m]), n, calls[m])
  }

  predicate AlwaysInOrder(n: nat, calls: seq<Call>)
    requires n > 0
  {
    Inv(Run(n, calls), n) && (calls != [] ==> AlwaysInOrder(n, calls[..|calls| - 1]))
  }

  /**
   * For every driver behaviour: at the start of every call of a run at most one
   * buffer is out, exactly if no call lets frames pile up.
   */
  lemma {:induction false} AtMostOneIsOutExactly(n: nat, calls: seq<Call>)
    requires n > 0
    ensures AlwaysInOrder(n, calls) <==> NonePilesUp(n, calls)
  {
    if calls != [] {
      var m := |calls| - 1;
      AtMostOneIsOutExactly(n, calls[..m]);
      if NonePilesUp(n, calls[..m]) {
        EncodeKeepsExactly(Run(n, calls[..m]), n, calls[m]);
      }
    }
  }

  /** In particular if every reset that is needed gets past stopping the queues. */
  lemma {:induction false} AtMostOneIsOut(n: nat, calls: seq<Call>)
    requires n > 0 && forall c :: c in calls ==> Stops(c)
    ensures Inv(Run(n, calls), n)
  {
    if calls != [] {
      AtMostOneIsOut(n, calls[..|calls| - 1]);
      EncodeKeepsExactly(Run(n, calls[..|calls| - 1]), n, calls[|calls| - 1]);
    }
  }

  const LEAVES_ONE := Call(0, true, PollFails, Succeeds, PollFails)
  const CANNOT_STOP := Call(1, true, PollFails, OutputStays, Works)

  /** If the OUTPUT queue cannot be stopped, two buffers can be out; if there are just two, the next target is one. */
  lemma UnstoppedQueueLeavesTwo(n: nat)
    requires n >= 2
    ensures var d := Run(n, [LEAVES_ONE, CANNOT_STOP]);
            d.owned == [0, 1] && (n == 2 ==> Target(d, n) in d.owned)
  {
    var calls := [LEAVES_ONE, CANNOT_STOP];
    assert calls[..1] == [LEAVES_ONE] && [LEAVES_ONE][..0] == [];
    SmallMod(0, n);
    SmallMod(1, n);
    assert Run(n, [LEAVES_ONE]) == EncodeOn(FRESH, n, LEAVES_ONE).0 == Device(1, [0], [0]);
    assert Run(n, calls) == EncodeOn(Device(1, [0], [0]), n, CANNOT_STOP).0 == Device(2, [0, 1], [0, 1]);
  }

  /**
   * With two buffers or more, a call queues a buffer the driver already holds in
   * exactly one case: the 32-bit counter has wrapped while a buffer was out, and
   * the number of buffers divides 2^32 - 1.
   */
  lemma TargetIsFreeExactly(d: Device, n: nat)
    requires n >= 2 && Inv(d, n)
    ensures Target(d, n) in d.owned <==> d.owned != [] && d.nextOut == 0 && 0xFFFF_FFFF % n == 0
  {
    if d.owned != [] && d.nextOut > 0 {
      NextDiffers(d.nextOut - 1, n);
      assert Last(d, n) == (d.nextOut - 1) % n;
    } else if d.owned != [] {
      assert Last(d, n) == 0xFFFF_FFFF % n;
      SmallMod(0, n);
    }
  }

  lemma SmallMod(a: nat, n: nat)
    requires a < n
    ensures a % n == a
  {
  }

  lemma NextDiffers(a: nat, n: nat)
    requires n >= 2
    ensures (a + 1) % n != a % n
  {
    var q, r := a / n, a % n;
    assert a == q * n + r;
    if r + 1 < n {
      IndexDivMod(n, r + 1, q);
    } else {
      assert a + 1 == (q + 1) * n + 0;
      IndexDivMod(n, 0, q + 1);
    }
  }

  /** The four buffers the encoder asks for by default never collide. */
  lemma DefaultCountNeverCollides(d: Device)
    requires Inv(d, 4)
    ensures Target(d, 4) !in d.owned
  {
    TargetIsFreeExactly(d, 4);
  }

  function Working(frame: nat): Call {
    Call(frame, true, Works, Succeeds, Works)
  }

  /** One call leaves a buffer behind, then `m` calls go well: the buffer behind is always the last one queued. */
  function LongRun(m: nat): seq<Call> {
    [LEAVES_ONE] + seq(m, i requires 0 <= i < m => Working(i + 1))
  }

  /** A buffer and a frame are behind, and the counter has come to `m + 1`. */
  predicate OneBehind(d: Device, n: nat, m: nat)
    requires n > 0
  {
    Inv(d, n) && d.nextOut == (m + 1) % 0x1_0000_0000 && |d.owned| == 1 && |d.inflight| == 1
  }

  lemma {:induction false} LongRunCounts(n: nat, m: nat)
    requires n >= 2 && m <= 0xFFFF_FFFF
    ensures OneBehind(Run(n, LongRun(m)), n, m)
    decreases m
  {
    if m == 0 {
      LongRunStarts(n);
    } else {
      LongRunCounts(n, m - 1);
      WorkingStep(Run(n, LongRun(m - 1)), n, m, Run(n, LongRun(m)));
    }
  }

  lemma LongRunStarts(n: nat)
    requires n >= 2
    ensures OneBehind(Run(n, LongRun(0)), n, 0)
  {
    assert LongRun(0) == [LEAVES_ONE] && LongRun(0)[..0] == [];
    SmallMod(0, n);
    assert Run(n, LongRun(0)) == EncodeOn(FRESH, n, LEAVES_ONE).0 == Device(1, [0], [0]);
  }

  lemma WorkingStep(d: Device, n: nat, m: nat, e: Device)
    requires n >= 2 && 0 < m <= 0xFFFF_FFFF && OneBehind(d, n, m - 1)
    requires d == Run(n, LongRun(m - 1)) && e == Run(n, LongRun(m))
    ensures OneBehind(e, n, m)
  {
    assert LongRun(m)[..m] == LongRun(m - 1) && LongRun(m)[m] == Working(m);
    assert e == EncodeOn(d, n, Working(m)).0;
    WorkingCall(d, n, m);
  }

  lemma WorkingCall(d: Device, n: nat, m: nat)
    requires n >= 2 && 0 < m <= 0xFFFF_FFFF && OneBehind(d, n, m - 1)
    ensures OneBehind(EncodeOn(d, n, Working(m)).0, n, m)
  {
    TargetIsFreeExactly(d, n);
    AttemptKeeps(d, n, m, Works);
  }

  /** After these calls the next one queues a buffer the driver already holds. */
  predicate Collides(n: nat, calls: seq<Call>)
    requires n > 0
  {
    (forall c :: c in calls ==> Stops(c)) && Target(Run(n, calls), n) in Run(n, calls).owned
  }

  /** Some run in which the queues can be stopped collides exactly if the buffer count divides 2^32 - 1. */
  lemma CollisionIsReachedExactly(n: nat)
    requires n >= 2
    ensures (exists calls :: Collides(n, calls)) <==> 0xFFFF_FFFF % n == 0
  {
    if 0xFFFF_FFFF % n == 0 {
      LongRunCollides(n);
    }
    forall calls | Collides(n, calls) ensures 0xFFFF_FFFF % n == 0 {
      AtMostOneIsOut(n, calls);
      TargetIsFreeExactly(Run(n, calls), n);
    }
  }

  lemma LongRunCollides(n: nat)
    requires n >= 2 && 0xFFFF_FFFF % n == 0
    ensures Collides(n, LongRun(0xFFFF_FFFF))
  {
    var calls := LongRun(0xFFFF_FFFF);
    LongRunCounts(n, 0xFFFF_FFFF);
    TargetIsFreeExactly(Run(n, calls), n);
    assert forall c :: c in calls ==> Stops(c);
  }

  /** One call leaves a buffer behind, then `m` calls get stuck, and the queue cannot be stopped. */
  function StuckRun(m: nat): seq<Call> {
    [LEAVES_ONE] + seq(m, i requires 0 <= i < m => CANNOT_STOP)
  }

  /** The driver holds the first `m + 1` buffers. */
  predicate AllBehind(d: Device, m: nat) {
    d.nextOut == m + 1 && |d.inflight| == m + 1 && d.owned == seq(m + 1, i requires 0 <= i < m + 1 => i)
  }

  lemma {:induction false} StuckRunFills(n: nat, m: nat)
    requires m < n <= 0xFFFF_FFFF
    ensures AllBehind(Run(n, StuckRun(m)), m)
    decreases m
  {
    if m == 0 {
      assert StuckRun(0) == [LEAVES_ONE] && StuckRun(0)[..0] == [];
      SmallMod(0, n);
      assert Run(n, StuckRun(0)) == EncodeOn(FRESH, n, LEAVES_ONE).0 == Device(1, [0], [0]);
    } else {
      StuckRunFills(n, m - 1);
      assert StuckRun(m)[..m] == StuckRun(m - 1) && StuckRun(m)[m] == CANNOT_STOP;
      StuckCall(Run(n, StuckRun(m - 1)), n, m);
    }
  }

  lemma StuckCall(d: Device, n: nat, m: nat)
    requires 0 < m < n <= 0xFFFF_FFFF && AllBehind(d, m - 1)
    ensures AllBehind(EncodeOn(d, n, CANNOT_STOP).0, m)
  {
    SmallMod(m, n);
    SmallMod(m + 1, 0x1_0000_0000);
    assert Target(d, n) == m && m !in d.owned;
    assert EncodeOn(d, n, CANNOT_STOP).0 == Device(m + 1, d.owned + [m], d.inflight + [CANNOT_STOP.frame]);
  }

  /** Where the queues cannot be stopped, a run comes to queue a buffer the driver holds, whatever their number. */
  lemma StuckRunCollides(n: nat)
    requires 0 < n <= 0xFFFF_FFFF
    ensures var d := Run(n, StuckRun(n - 1)); Target(d, n) in d.owned
  {
    var d := Run(n, StuckRun(n - 1));
    StuckRunFills(n, n - 1);
    assert n % n == 0;
    assert d.owned[0] == 0;
  }

  predicate NoErrors(n: nat, calls: seq<Call>)
    requires n > 0
  {
    calls != [] ==>
      var m := |calls| - 1;
      NoErrors(n, calls[..m]) && EncodeOn(Run(n, calls[..m]), n, calls[m]).1 != Transport
  }

  /** As long as no call has returned a transport error, nothing is left with the driver between calls. */
  lemma {:induction false} NothingIsOutWithoutErrors(n: nat, calls: seq<Call>)
    requires n > 0 && NoErrors(n, calls)
    ensures Run(n, calls).owned == [] && Run(n, calls).inflight == []
  {
    if calls != [] {
      var m := |calls| - 1;
      NothingIsOutWithoutErrors(n, calls[..m]);
      CleanStaysClean(Run(n, calls[..m]), n, calls[m]);
    }
  }

  lemma CleanStaysClean(d: Device, n: nat, c: Call)
    requires n > 0 && d.owned == [] && d.inflight == [] && EncodeOn(d, n, c).1 != Transport
    ensures var e := EncodeOn(d, n, c).0;
            e.owned == [] && e.inflight == []
  {
  }

  /** A call that succeeds yields its own frame, or the one frame that was still behind. */
  lemma EncodeReturnsOldest(d: Device, n: nat, c: Call)
    requires n > 0 && Inv(d, n)
    ensures var (e, r) := EncodeOn(d, n, c);
            r.Encoded? ==>
              || (r.frame == c.frame && e.inflight == [] && e.owned == [])
              || (d.inflight == [r.frame] && e.inflight == [c.frame])
  {
  }

  /**
   * Exactly when a call yields a frame: the first attempt goes through on a buffer that
   * is free, or failing that the reset does and the second attempt goes through.
   */
  lemma EncodeSucceedsExactly(d: Device, n: nat, c: Call)
    requires n > 0 && Inv(d, n)
    ensures EncodeOn(d, n, c).1.Encoded? <==>
              c.usable && if c.first.Works? && d.nextOut % n !in d.owned then true
                          else c.reset.Succeeds? && c.second.Works?
  {
  }

  /** A retry starts over: it uses the first buffer, yields the call's own frame and leaves nothing behind. */
  lemma RetryStartsOver(d: Device, n: nat, c: Call)
    requires n > 0 && c.usable && c.reset.Succeeds? && c.second.Works?
    requires AttemptOn(d, n, c.frame, c.first).1 == Transport
    ensures EncodeOn(d, n, c) == (Device(1, [], []), Encoded(c.frame))
  {
    var owned, inflight := FRESH.owned + [Target(FRESH, n)], FRESH.inflight + [c.frame];
    assert owned[1..] == [] && inflight[1..] == [] && inflight[0] == c.frame;
  }

  /** Every frame is acceptable, and every step of its first attempt works. */
  predicate AllWork(calls: seq<Call>) {
    forall k :: 0 <= k < |calls| ==> calls[k].usable && calls[k].first.Works?
  }

  /** Every call of the run yields the frame it was given. */
  predicate EachYieldsItsOwn(n: nat, calls: seq<Call>)
    requires n > 0
  {
    calls != [] ==>
      var m := |calls| - 1;
      EachYieldsItsOwn(n, calls[..m])
      && EncodeOn(Run(n, calls[..m]), n, calls[m]).1 == Encoded(calls[m].frame)
  }

  /** With a driver that works that is so, and nothing is left behind. */
  lemma {:induction false} WorkingDriverYieldsAll(n: nat, calls: seq<Call>)
    requires n > 0 && AllWork(calls)
    ensures Run(n, calls).owned == [] && Run(n, calls).inflight == [] && EachYieldsItsOwn(n, calls)
  {
    if calls != [] {
      var m := |calls| - 1;
      WorkingDriverYieldsAll(n, calls[..m]);
      WorkingCallYields(Run(n, calls[..m]), n, calls[m]);
    }
  }

  lemma WorkingCallYields(d: Device, n: nat, c: Call)
    requires n > 0 && d.owned == [] && d.inflight == [] && c.usable && c.first.Works?
    ensures var (e, r) := EncodeOn(d, n, c);
            r == Encoded(c.frame) && e.owned == [] && e.inflight == [] && e.nextOut == (d.nextOut + 1) % 0x1_0000_0000
  {
  }

  // ---------------------------------------------------------------- the encoder

  class Encoder {
    const n: nat           // OUTPUT buffers
    const want: nat        // bytes of a frame
    const roomy: bool      // an OUTPUT buffer holds the padded frame
    var nextOut: U32
    var frameCount: nat
    var closed: bool
    var owned: seq<nat>
    var inflight: seq<nat>

    constructor (n: nat, want: nat, roomy: bool)
      requires n > 0
      ensures this.n == n && this.want == want && this.roomy == roomy && View() == FRESH
      ensures frameCount == 0 && !closed
    {
      this.n, this.want, this.roomy := n, want, roomy;
      nextOut, frameCount, closed, owned, inflight := 0, 0, false, [], [];
    }

    function View(): Device
      reads this
    {
      Device(nextOut, owned, inflight)
    }

    predicate Usable(size: nat)
      reads this
    {
      !closed && size >= want && roomy
    }

    method EncodeOnce(frame: nat, size: nat, fate: Fate) returns (r: Result)
      requires n > 0
      modifies this
      ensures closed == old(closed)
      ensures frameCount == old(frameCount) + (if !closed && size >= want then 1 else 0)
      ensures !Usable(size) ==> View() == old(View()) && r == Usage
      ensures Usable(size) ==> (View(), r) == AttemptOn(old(View()), n, frame, fate)
    {
      if closed || size < want {
        return Usage;
      }
      frameCount := frameCount + 1;
      if !roomy {
        return Usage;
      }
      var index := nextOut % n;
      if fate.QueueFails? || index in owned {
        return Transport;
      }
      owned, inflight := owned + [index], inflight + [frame];
      nextOut := (nextOut + 1) % 0x1_0000_0000;
      if fate.PollFails? || fate.ReclaimFails? {
        return Transport;
      }
      owned := owned[1..];
      if fate.FetchFails? {
        return Transport;
      }
      var done := inflight[0];
      inflight := inflight[1..];
      if fate.FrameUnusable? {
        return Transport;
      }
      return Encoded(done);
    }

    /** Stopping the queues hands the buffers back; any step may fail. */
    method ResetQueues(reset: Reset) returns (ok: bool)
      modifies this`nextOut, this`owned, this`inflight
      ensures View() == ResetOn(old(View()), reset) && ok == reset.Succeeds?
    {
      if reset.OutputStays? {
        return false;
      }
      owned := [];
      if reset.CaptureStays? {
        return false;
      }
      inflight := [];
      if reset.NoRestart? {
        return false;
      }
      nextOut := 0;
      return true;
    }

    method Encode(frame: nat, size: nat, first: Fate, reset: Reset, second: Fate) returns (r: Result)
      requires n > 0
      modifies this
      ensures closed == old(closed)
      ensures (View(), r) == EncodeOn(old(View()), n, Call(frame, old(Usable(size)), first, reset, second))
    {
      r := EncodeOnce(frame, size, first);
      if r != Transport {
        return;
      }
      var ok := ResetQueues(reset);
      if !ok {
        return Transport;
      }
      r := EncodeOnce(frame, size, second);
    }

    method Close()
      modifies this
      ensures closed && (old(closed) ==> View() == old(View())) && (!old(closed) ==> owned == [] && inflight == [])
    {
      if closed {
        return;
      }
      closed := true;
      owned, inflight := [], [];
    }
  }
}
