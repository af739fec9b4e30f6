/**
 * The substream pipeline: which main frames it keeps, and how it moves from a
 * failing encoder to the fallback and gives up when that fails too.
 */
module Substream {
  import opened Basics

  // ---------------------------------------------------------------- the decimation ratio

  function Gcd(a: nat, b: nat): nat
    decreases b
  {
    if b == 0 then a else Gcd(b, a % b)
  }

  method GcdLoop(x: nat, y: nat) returns (a: nat)
    ensures a == Gcd(x, y)
  {
    a := x;
    var b: nat := y;
    while b != 0
      invariant Gcd(a, b) == Gcd(x, y)
      decreases b
    {
      a, b := b, a % b;
    }
  }

  ghost predicate Divides(d: nat, n: nat) {
    exists k: nat :: n == k * d
  }

  /** What divides `b` and the remainder divides `a` as well, and the other way around. */
  lemma DividesAlong(d: nat, a: nat, b: nat, q: nat, r: nat)
    requires a == q * b + r && Divides(d, b)
    ensures Divides(d, r) ==> Divides(d, a)
    ensures Divides(d, a) && d > 0 ==> Divides(d, r)
  {
    var i: nat :| b == i * d;
    if Divides(d, r) {
      var j: nat :| r == j * d;
      Combine(q, i, j, d);
      assert a == (q * i + j) * d;
    }
    if Divides(d, a) && d > 0 {
      var j: nat :| a == j * d;
      Combine(q, i, j - q * i, d);
      assert r == (j - q * i) * d;
      Sign(j - q * i, d);
    }
  }

  lemma Combine(q: int, i: int, j: int, d: int)
    ensures q * (i * d) + j * d == (q * i + j) * d
  {
  }

  lemma Sign(a: int, d: nat)
    requires d > 0 && a * d >= 0
    ensures a >= 0
  {
  }

  lemma DividesItself(a: nat)
    ensures Divides(a, a) && Divides(a, 0)
  {
    assert a == 1 * a && 0 == 0 * a;
  }

  /** The loop of GcdLoop finds the greatest common divisor. */
  lemma {:induction false} GcdIsGreatest(a: nat, b: nat, d: nat)
    requires a > 0 || b > 0
    ensures Gcd(a, b) > 0 && Divides(Gcd(a, b), a) && Divides(Gcd(a, b), b)
    ensures d > 0 && Divides(d, a) && Divides(d, b) ==> Divides(d, Gcd(a, b))
    decreases b
  {
    if b == 0 {
      DividesItself(a);
    } else {
      var r := a % b;
      GcdIsGreatest(b, r, d);
      EuclidStep(a, b, r, Gcd(b, r), d);
    }
  }

  lemma EuclidStep(a: nat, b: nat, r: nat, g: nat, d: nat)
    requires b > 0 && r == a % b && Divides(g, b) && Divides(g, r)
    ensures Divides(g, a)
    ensures d > 0 && Divides(d, a) && Divides(d, b) ==> Divides(d, r)
  {
    var q := a / b;
    assert a == q * b + r;
    DividesAlong(g, a, b, q, r);
    if d > 0 && Divides(d, a) && Divides(d, b) {
      DividesAlong(d, a, b, q, r);
    }
  }

  /** Of every `period` main frames, `keep` are encoded. */
  method Ratio(mainFPS: nat, subFPS: nat) returns (period: nat, keep: nat)
    requires subFPS > 0
    ensures 1 <= keep <= period
    ensures mainFPS > subFPS ==> keep * mainFPS == period * subFPS
    ensures mainFPS <= subFPS ==> period == keep == 1
  {
    period, keep := 1, 1;
    if mainFPS > subFPS {
      var g := GcdLoop(mainFPS, subFPS);
      RatioIsExact(mainFPS, subFPS, g);
      period, keep := mainFPS / g, subFPS / g;
    }
  }

  lemma RatioIsExact(m: nat, s: nat, g: nat)
    requires m > s > 0 && g == Gcd(m, s)
    ensures g > 0 && 1 <= s / g <= m / g && (s / g) * m == (m / g) * s
  {
    GcdIsGreatest(m, s, 0);
    var i: nat :| m == i * g;
    var j: nat :| s == j * g;
    IndexDivMod(g, 0, i);
    IndexDivMod(g, 0, j);
    assert m / g == i && s / g == j;
    FactorsInProportion(i, j, g);
  }

  lemma FactorsInProportion(i: nat, j: nat, g: nat)
    requires i * g > j * g > 0
    ensures 1 <= j <= i && j * (i * g) == i * (j * g)
  {
    if j > i {
      MulMono(i, j, g);
    }
  }

  // ---------------------------------------------------------------- counting accepted frames

  const WRAP := 0x1_0000_0000

  /** Whether the n-th counted frame is kept; the count is cut to 32 bits first. */
  predicate Kept(n: nat, period: nat, keep: nat)
    requires period > 0
  {
    n % WRAP % period < keep
  }

  function Count(start: nat, len: nat, period: nat, keep: nat): nat
    requires period > 0
  {
    if len == 0 then 0
    else Count(start, len - 1, period, keep) + if Kept(start + len - 1, period, keep) then 1 else 0
  }

  /** Moving a window by one drops its first frame and adds the one after it. */
  lemma {:induction false} CountShift(start: nat, len: nat, period: nat, keep: nat)
    requires period > 0
    ensures Count(start + 1, len, period, keep) + (if Kept(start, period, keep) then 1 else 0)
         == Count(start, len, period, keep) + (if Kept(start + len, period, keep) then 1 else 0)
  {
    if len > 0 {
      CountShift(start, len - 1, period, keep);
    }
  }

  lemma {:induction false} CountFirst(len: nat, period: nat, keep: nat)
    requires keep <= period && 0 < period < WRAP && len <= period
    ensures Count(0, len, period, keep) == if len < keep then len else keep
  {
    if len > 0 {
      CountFirst(len - 1, period, keep);
      KeptFirst(len - 1, period, keep);
    }
  }

  lemma KeptFirst(n: nat, period: nat, keep: nat)
    requires n < period < WRAP
    ensures Kept(n, period, keep) <==> n < keep
  {
    IndexDivMod(period, n, 0);
  }

  /** Of each period of counts below 2^32 the first `keep` are kept. */
  lemma KeptExactly(q: nat, r: nat, period: nat, keep: nat)
    requires r < period && q * period + r < WRAP
    ensures Kept(q * period + r, period, keep) <==> r < keep
  {
    IndexDivMod(period, r, q);
  }

  lemma PeriodLater(n: nat, p: nat)
    requires p > 0
    ensures (n + p) % p == n % p
  {
    var q, r := n / p, n % p;
    assert n == q * p + r;
    IndexDivMod(p, r, q + 1);
    assert n + p == (q + 1) * p + r;
  }

  /** Any `period` consecutive counts below 2^32 keep exactly `keep`. */
  lemma {:induction false} WindowKeepsExactly(start: nat, period: nat, keep: nat)
    requires 0 < keep <= period && start + period <= WRAP && period < WRAP
    ensures Count(start, period, period, keep) == keep
  {
    if start == 0 {
      CountFirst(period, period, keep);
    } else {
      WindowKeepsExactly(start - 1, period, keep);
      CountShift(start - 1, period, period, keep);
      KeptLater(start - 1, period, keep);
    }
  }

  lemma KeptLater(n: nat, period: nat, keep: nat)
    requires period > 0 && n + period < WRAP
    ensures Kept(n + period, period, keep) == Kept(n, period, keep)
  {
    PeriodLater(n, period);
    assert (n + period) % WRAP == n + period && n % WRAP == n;
  }

  /** How the frame `x` counts before 2^32 and its counterpart behind it are numbered within a period. */
  lemma AroundTheWrap(period: nat, x: nat)
    requires x < period < WRAP
    ensures (WRAP + x) % WRAP % period == x
    ensures (WRAP + x - period) % WRAP == WRAP + x - period
  {
    IndexDivMod(period, x, 0);
  }

  /** Two windows that differ by one frame keep the same number only if those two frames fare alike. */
  lemma UnlikeWindows(n: nat, period: nat, keep: nat)
    requires period > 0 && Kept(n, period, keep) != Kept(n + period, period, keep)
    ensures Count(n, period, period, keep) != keep || Count(n + 1, period, period, keep) != keep
  {
    CountShift(n, period, period, keep);
  }

  lemma WrapBreaksSomeWindow(period: nat, keep: nat) returns (start: nat)
    requires 0 < keep < period < WRAP && WRAP % period != 0
    ensures Count(start, period, period, keep) != keep
  {
    var r := WRAP % period;
    var x := if keep - 1 + r < period then keep - 1 else keep;
    var n := WRAP + x - period;
    AroundTheWrap(period, x);
    BeforeTheWrap(period, x, n);
    assert Kept(n + period, period, keep) <==> x < keep;
    assert n % period == if x + r < period then x + r else x + r - period;
    UnlikeWindows(n, period, keep);
    start := if Count(n, period, period, keep) != keep then n else n + 1;
  }

  lemma BeforeTheWrap(period: nat, x: nat, n: nat)
    requires x < period < WRAP && n == WRAP + x - period
    ensures n % period == if x + WRAP % period < period then x + WRAP % period else x + WRAP % period - period
  {
    var q, r := WRAP / period, WRAP % period;
    assert WRAP == q * period + r;
    PeriodLater(n, period);
    if x + r < period {
      IndexDivMod(period, x + r, q);
    } else {
      IndexDivMod(period, x + r - period, q + 1);
      assert WRAP + x == (q + 1) * period + (x + r - period);
    }
  }

  lemma CutChangesNothing(n: nat, period: nat)
    requires 0 < period && WRAP % period == 0
    ensures n % WRAP % period == n % period
  {
    var c, q, m := WRAP / period, n / WRAP, n % WRAP;
    var i, x := m / period, m % period;
    assert WRAP == c * period && n == q * WRAP + m && m == i * period + x;
    Combine(q, c, i, period);
    assert n == (q * c + i) * period + x;
    IndexDivMod(period, x, q * c + i);
  }

  /** When the period divides 2^32, the wrap does not show. */
  lemma {:induction false} EveryWindowKeepsExactly(start: nat, period: nat, keep: nat)
    requires 0 < keep <= period < WRAP && WRAP % period == 0
    ensures Count(start, period, period, keep) == keep
  {
    if start == 0 {
      CountFirst(period, period, keep);
    } else {
      EveryWindowKeepsExactly(start - 1, period, keep);
      CountShift(start - 1, period, period, keep);
      CutChangesNothing(start - 1, period);
      CutChangesNothing(start - 1 + period, period);
      PeriodLater(start - 1, period);
    }
  }

  /** The ratio holds across the wrap of the counter for exactly the periods that divide 2^32. */
  lemma RatioSurvivesWrapExactly(period: nat, keep: nat)
    requires 0 < keep < period < WRAP
    ensures (forall start: nat :: Count(start, period, period, keep) == keep) <==> WRAP % period == 0
  {
    if WRAP % period == 0 {
      forall start: nat ensures Count(start, period, period, keep) == keep {
        EveryWindowKeepsExactly(start, period, keep);
      }
    } else {
      var start := WrapBreaksSomeWindow(period, keep);
    }
  }

  // ---------------------------------------------------------------- failover

  const FAILOVER_BUDGET := 10

  /** What is done with encoders, in order; the first is number 0, the fallback number 1. */
  datatype Act = Opened(e: nat) | Encoded(e: nat) | Closed(e: nat)

  datatype State = State(enc: Option<nat>, onFallback: bool, disabled: bool, consec: nat, acts: seq<Act>)

  const START := State(Some(0), false, false, 0, [Opened(0)])

  function CloseEncoder(s: State): State {
    if s.enc.None? then s else s.(enc := None, acts := s.acts + [Closed(s.enc.value)])
  }

  function Failover(s: State, opens: bool): State {
    var c := CloseEncoder(s);
    if s.onFallback || !opens then c.(disabled := true, consec := 0)
    else c.(enc := Some(1), onFallback := true, consec := 0, acts := c.acts + [Opened(1)])
  }

  /** One tapped frame: whether it encodes, and whether a fallback could be opened if it came to that. */
  function Frame(s: State, ok: bool, opens: bool): State {
    if s.disabled || s.enc.None? then s
    else
      var e := s.(acts := s.acts + [Encoded(s.enc.value)]);
      if ok then e.(consec := 0)
      else if s.consec + 1 >= FAILOVER_BUDGET then Failover(e, opens)
      else e.(consec := s.consec + 1)
  }

  datatype Event = Event(ok: bool, opens: bool)

  function Run(events: seq<Event>): State {
    if events == [] then START
    else
      var n := |events| - 1;
      Frame(Run(events[..n]), events[n].ok, events[n].opens)
  }

  /** The life of one encoder, as a look at all that was done tells it. */
  datatype Life = New | Live | Gone | Misused

  /** Opened once, used only while open, closed at most once; anything else is misuse. */
  function LifeOf(acts: seq<Act>, e: nat): Life {
    if acts == [] then New
    else
      var n := |acts| - 1;
      var life, a := LifeOf(acts[..n], e), acts[n];
      if a.e != e then life
      else if a.Opened? && life == New then Live
      else if a.Encoded? && life == Live then Live
      else if a.Closed? && life == Live then Gone
      else Misused
  }

  lemma LifeSnoc(acts: seq<Act>, a: Act, e: nat)
    ensures LifeOf(acts + [a], e) ==
            var life := LifeOf(acts, e);
            if a.e != e then life
            else if a.Opened? && life == New then Live
            else if a.Encoded? && life == Live then Live
            else if a.Closed? && life == Live then Gone
            else Misused
  {
    assert (acts + [a])[..|acts|] == acts;
  }

  /** What the state says about encoder `e`: at most one is open, number 1 only after number 0 is gone. */
  function Expected(s: State, e: nat): Life {
    if s.enc == Some(e) then Live
    else if e == 0 || (e == 1 && s.onFallback) then Gone
    else New
  }

  ghost predicate Inv(s: State) {
    && s.consec < FAILOVER_BUDGET
    && (s.disabled <==> s.enc.None?)
    && (s.enc.Some? ==> s.enc.value == if s.onFallback then 1 else 0)
    && forall e: nat :: LifeOf(s.acts, e) == Expected(s, e)
  }

  lemma ActKeeps(s: State, t: State, a: Act)
    requires forall e: nat :: LifeOf(s.acts, e) == Expected(s, e)
    requires t.acts == s.acts + [a]
    requires forall e: nat :: e != a.e ==> Expected(t, e) == Expected(s, e)
    requires a.Opened? ==> Expected(s, a.e) == New && Expected(t, a.e) == Live
    requires a.Encoded? ==> Expected(s, a.e) == Live && Expected(t, a.e) == Live
    requires a.Closed? ==> Expected(s, a.e) == Live && Expected(t, a.e) == Gone
    ensures forall e: nat :: LifeOf(t.acts, e) == Expected(t, e)
  {
    forall e: nat ensures LifeOf(t.acts, e) == Expected(t, e) {
      LifeSnoc(s.acts, a, e);
    }
  }

  lemma FailoverKeeps(s: State, opens: bool)
    requires !s.disabled && s.consec < FAILOVER_BUDGET && s.enc == Some(if s.onFallback then 1 else 0)
    requires forall e: nat :: LifeOf(s.acts, e) == Expected(s, e)
    ensures Inv(Failover(s, opens))
  {
    var c := CloseEncoder(s);
    ActKeeps(s, c, Closed(s.enc.value));
    if !s.onFallback && opens {
      ActKeeps(c, Failover(s, opens), Opened(1));
    }
  }

  lemma FrameKeeps(s: State, ok: bool, opens: bool)
    requires Inv(s)
    ensures Inv(Frame(s, ok, opens))
  {
    if s.enc.Some? {
      var e := s.(acts := s.acts + [Encoded(s.enc.value)]);
      ActKeeps(s, e, Encoded(s.enc.value));
      if !ok && s.consec + 1 >= FAILOVER_BUDGET {
        FailoverKeeps(e, opens);
      }
    }
  }

  /**
   * In every run: unless disabled there is an open encoder, each is opened once and
   * used only while it is open, and there is at most one switch to the fallback.
   */
  lemma {:induction false} RunsKeepEncodersInOrder(events: seq<Event>)
    ensures Inv(Run(events))
  {
    if events == [] {
      forall e: nat ensures LifeOf(START.acts, e) == Expected(START, e) {
        assert START.acts == [] + [Opened(0)];
        LifeSnoc([], Opened(0), e);
      }
    } else {
      var n := |events| - 1;
      RunsKeepEncodersInOrder(events[..n]);
      FrameKeeps(Run(events[..n]), events[n].ok, events[n].opens);
    }
  }

  /** Looking back over all that was done: never were both encoders open. */
  predicate OneAtATime(acts: seq<Act>) {
    acts != [] ==>
      OneAtATime(acts[..|acts| - 1]) && !(LifeOf(acts, 0) == Live && LifeOf(acts, 1) == Live)
  }

  lemma OneMoreAct(s: State, t: State, a: Act)
    requires OneAtATime(s.acts) && t.acts == s.acts + [a]
    requires forall e: nat :: LifeOf(t.acts, e) == Expected(t, e)
    ensures OneAtATime(t.acts)
  {
    assert t.acts[..|t.acts| - 1] == s.acts;
    assert !(Expected(t, 0) == Live && Expected(t, 1) == Live);
  }

  lemma FrameKeepsOne(s: State, ok: bool, opens: bool)
    requires Inv(s) && OneAtATime(s.acts)
    ensures OneAtATime(Frame(s, ok, opens).acts)
  {
    if s.enc.Some? {
      var e := s.(acts := s.acts + [Encoded(s.enc.value)]);
      ActKeeps(s, e, Encoded(s.enc.value));
      OneMoreAct(s, e, Encoded(s.enc.value));
      if !ok && s.consec + 1 >= FAILOVER_BUDGET {
        FailoverKeepsOne(e, opens);
      }
    }
  }

  lemma FailoverKeepsOne(s: State, opens: bool)
    requires !s.disabled && s.enc == Some(if s.onFallback then 1 else 0) && OneAtATime(s.acts)
    requires forall e: nat :: LifeOf(s.acts, e) == Expected(s, e)
    ensures OneAtATime(Failover(s, opens).acts)
  {
    var c := CloseEncoder(s);
    ActKeeps(s, c, Closed(s.enc.value));
    OneMoreAct(s, c, Closed(s.enc.value));
    if !s.onFallback && opens {
      ActKeeps(c, Failover(s, opens), Opened(1));
      OneMoreAct(c, Failover(s, opens), Opened(1));
    }
  }

  /** In every run the failing encoder is closed before the fallback is opened. */
  lemma {:induction false} NeverTwoOpen(events: seq<Event>)
    ensures OneAtATime(Run(events).acts)
  {
    if events == [] {
      assert START.acts[..0] == [] && LifeOf([], 1) == New;
      LifeSnoc([], Opened(0), 1);
      assert START.acts == [] + [Opened(0)];
    } else {
      var n := |events| - 1;
      RunsKeepEncodersInOrder(events[..n]);
      NeverTwoOpen(events[..n]);
      FrameKeepsOne(Run(events[..n]), events[n].ok, events[n].opens);
    }
  }

  /** When the pipeline stops, every encoder that was opened has been closed, exactly once. */
  lemma StopClosesEverything(events: seq<Event>, e: nat)
    ensures var life := LifeOf(CloseEncoder(Run(events)).acts, e);
            (life == New || life == Gone) && (life == New <==> Opened(e) !in Run(events).acts)
  {
    var s := Run(events);
    RunsKeepEncodersInOrder(events);
    if s.enc.Some? {
      LifeSnoc(s.acts, Closed(s.enc.value), e);
    }
    NewExactly(s.acts, e);
  }

  lemma {:induction false} NewExactly(acts: seq<Act>, e: nat)
    requires LifeOf(acts, e) != Misused
    ensures LifeOf(acts, e) == New <==> Opened(e) !in acts
  {
    if acts != [] {
      var n := |acts| - 1;
      NewExactly(acts[..n], e);
      assert acts == acts[..n] + [acts[n]];
    }
  }

  /** Once a run has disabled the pipeline, nothing changes any more: no encoder is opened, used or closed. */
  lemma {:induction false} DisabledIsPermanent(a: seq<Event>, b: seq<Event>)
    requires Run(a).disabled
    ensures Run(a + b) == Run(a)
  {
    if b == [] {
      assert a + b == a;
    } else {
      var n := |b| - 1;
      DisabledIsPermanent(a, b[..n]);
      assert (a + b)[..|a + b| - 1] == a + b[..n];
    }
  }

  /** If every frame fails, the fallback gets its turn after ten of them, and after twenty at most all is off. */
  lemma {:induction false} FailingRunEnds(events: seq<Event>)
    requires forall k :: 0 <= k < |events| ==> !events[k].ok
    ensures var s, n := Run(events), |events|;
            && (n < FAILOVER_BUDGET ==> !s.disabled && !s.onFallback && s.consec == n)
            && (FAILOVER_BUDGET <= n < 2 * FAILOVER_BUDGET ==>
                  s.disabled || (s.onFallback && s.consec == n - FAILOVER_BUDGET))
            && (n >= 2 * FAILOVER_BUDGET ==> s.disabled)
            && |s.acts| <= (if s.disabled then 2 * FAILOVER_BUDGET + 4 else if s.onFallback then n + 3 else n + 1)
  {
    RunsKeepEncodersInOrder(events);
    if events != [] {
      var n := |events| - 1;
      RunsKeepEncodersInOrder(events[..n]);
      FailingRunEnds(events[..n]);
      FailingFrame(Run(events[..n]), events[n].opens, n);
    }
  }

  predicate Failing(s: State, n: nat) {
    && (n < FAILOVER_BUDGET ==> !s.disabled && !s.onFallback && s.consec == n)
    && (FAILOVER_BUDGET <= n < 2 * FAILOVER_BUDGET ==>
          s.disabled || (s.onFallback && s.consec == n - FAILOVER_BUDGET))
    && (n >= 2 * FAILOVER_BUDGET ==> s.disabled)
    && |s.acts| <= (if s.disabled then 2 * FAILOVER_BUDGET + 4 else if s.onFallback then n + 3 else n + 1)
  }

  lemma FailingFrame(s: State, opens: bool, n: nat)
    requires (s.disabled <==> s.enc.None?) && Failing(s, n)
    ensures Failing(Frame(s, false, opens), n + 1)
  {
  }

  // ---------------------------------------------------------------- exactly when encoders change

  /** How many frames at the end failed one after the other. */
  function FailuresInRow(events: seq<Event>): nat {
    if events == [] || events[|events| - 1].ok then 0 else 1 + FailuresInRow(events[..|events| - 1])
  }

  /** At some time the last ten frames had all failed. */
  predicate TenInRow(events: seq<Event>) {
    events != [] && (TenInRow(events[..|events| - 1]) || FailuresInRow(events) >= 10)
  }

  /** The first encoder is given up exactly when ten frames in a row have failed; any success starts the count again. */
  lemma {:induction false} FirstEncoderLeavesExactly(events: seq<Event>)
    ensures var s := Run(events);
            && (s.onFallback || s.disabled <==> TenInRow(events))
            && (!TenInRow(events) ==> s.enc == Some(0) && s.consec == FailuresInRow(events))
  {
    if events != [] {
      var init := events[..|events| - 1];
      FirstEncoderLeavesExactly(init);
      RunsKeepEncodersInOrder(init);
    }
  }

  /** The tenth failure brings the fallback if it can be opened, and the end otherwise. */
  lemma {:induction false} TenthFailureSwitches(events: seq<Event>)
    requires events != [] && TenInRow(events) && !TenInRow(events[..|events| - 1])
    ensures var s := Run(events);
            if events[|events| - 1].opens then s.enc == Some(1) && s.onFallback && !s.disabled && s.consec == 0
            else s.enc == None && s.disabled
  {
    FirstEncoderLeavesExactly(events[..|events| - 1]);
  }

  /** The fallback is given up exactly when ten frames in a row have failed since it took over. */
  lemma {:induction false} FallbackLeavesExactly(a: seq<Event>, b: seq<Event>)
    requires Run(a).enc == Some(1) && Run(a).onFallback && !Run(a).disabled && Run(a).consec == 0
    ensures var s := Run(a + b);
            && (s.disabled <==> TenInRow(b))
            && (!TenInRow(b) ==> s.enc == Some(1) && s.onFallback && s.consec == FailuresInRow(b))
  {
    if b == [] {
      assert a + b == a;
    } else {
      var n := |b| - 1;
      FallbackLeavesExactly(a, b[..n]);
      assert (a + b)[..|a + b| - 1] == a + b[..n] && (a + b)[|a + b| - 1] == b[n];
      RunsKeepEncodersInOrder(a + b[..n]);
    }
  }

  // ---------------------------------------------------------------- the pipeline

  class Pipeline {
    const srcW: nat
    const srcH: nat
    const period: nat
    const keep: nat
    var enc: Option<nat>
    var onFallback: bool
    var disabled: bool
    var counter: nat
    var dropped: nat
    var acts: seq<Act>

    constructor (srcW: nat, srcH: nat, mainFPS: nat, subFPS: nat)
      requires subFPS > 0
      ensures View(0) == START && counter == dropped == 0
      ensures this.srcW == srcW && this.srcH == srcH && 1 <= keep <= period
      ensures mainFPS > subFPS ==> keep * mainFPS == period * subFPS
    {
      var p, k := Ratio(mainFPS, subFPS);
      this.srcW, this.srcH, period, keep := srcW, srcH, p, k;
      enc, onFallback, disabled, counter, dropped, acts := Some(0), false, false, 0, 0, [Opened(0)];
    }

    function View(consec: nat): State
      reads this
    {
      State(enc, onFallback, disabled, consec, acts)
    }

    /** Whether an offered frame goes on to the encoder; every other one is counted as dropped. */
    method Tap(w: nat, h: nat, room: bool) returns (queued: bool)
      requires period > 0
      modifies this`counter, this`dropped
      ensures queued <==> w == srcW && h == srcH && !disabled && (period > 1 ==> Kept(counter, period, keep)) && room
      ensures counter == old(counter) + (if w == srcW && h == srcH && !disabled && period > 1 then 1 else 0)
      ensures dropped == old(dropped) + (if queued then 0 else 1)
    {
      if w != srcW || h != srcH {
        dropped := dropped + 1;
        return false;
      }
      if disabled {
        dropped := dropped + 1;
        return false;
      }
      if period > 1 {
        counter := counter + 1;
        if counter % WRAP % period >= keep {
          dropped := dropped + 1;
          return false;
        }
      }
      if !room {
        dropped := dropped + 1;
        return false;
      }
      return true;
    }

    method Close()
      modifies this`enc, this`acts
      ensures forall consec: nat :: View(consec) == CloseEncoder(old(View(consec)))
    {
      if enc.Some? {
        acts := acts + [Closed(enc.value)];
        enc := None;
      }
    }

    method SwitchOrDisable(consec: nat, opens: bool) returns (consec': nat)
      modifies this`enc, this`acts, this`onFallback, this`disabled
      ensures View(consec') == Failover(old(View(consec)), opens)
    {
      Close();
      consec' := 0;
      if onFallback {
        disabled := true;
        return;
      }
      if !opens {
        disabled := true;
        return;
      }
      acts := acts + [Opened(1)];
      enc := Some(1);
      onFallback := true;
    }

    /** The consumer loop over the frames it gets until it is stopped; what is open then is closed. */
    method Consume(events: seq<Event>)
      requires View(0) == START
      modifies this`enc, this`acts, this`onFallback, this`disabled
      ensures exists consec: nat :: View(consec) == CloseEncoder(Run(events))
    {
      var consec: nat := 0;
      for i := 0 to |events|
        invariant View(consec) == Run(events[..i])
      {
        assert events[..i + 1][..i] == events[..i];
        RunsKeepEncodersInOrder(events[..i]);
        if disabled {
          continue;
        }
        acts := acts + [Encoded(enc.value)];
        if events[i].ok {
          consec := 0;
        } else {
          consec := consec + 1;
          if consec >= FAILOVER_BUDGET {
            consec := SwitchOrDisable(consec, events[i].opens);
          }
        }
      }
      assert events[..|events|] == events;
      Close();
      assert View(consec) == CloseEncoder(Run(events));
    }
  }
}
