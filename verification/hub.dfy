/**
 * The access-unit hub: every written unit is offered to every subscriber's
 * bounded channel, and counted as dropped where the channel is full. Units are
 * named by their position in the write order.
 */
module Hub {
  import opened Basics

  // ---------------------------------------------------------------- subscriber ids

  /** The id of the n-th subscription: a one-character string, so what is not a code point becomes U+FFFD. */
  function RuneID(n: nat): nat {
    var r := n % 0x1_0000_0000;
    if r < 0xD800 || 0xE000 <= r < 0x11_0000 then r else 0xFFFD
  }

  predicate FirstIdsDistinct(n: nat) {
    forall j, k :: 1 <= j < k <= n ==> RuneID(j) != RuneID(k)
  }

  /** Ids repeat from the 0xD801st subscription on. */
  lemma IdsDistinctExactly(n: nat)
    ensures FirstIdsDistinct(n) <==> n <= 0xD800
  {
    if n > 0xD800 {
      assert RuneID(0xD800) == RuneID(0xD801);
    }
  }

  // ---------------------------------------------------------------- state

  /**
   * A subscriber: the number of writes before it joined, the units its consumer
   * has taken, those still in the channel, how many were lost, and the number of
   * writes when its channel was closed.
   */
  datatype Sub = Sub(joined: nat, taken: seq<nat>, queue: seq<nat>, dropped: nat, end: Option<nat>)

  /** `subs` lists every subscriber there ever was; `table` holds the current ones by id. */
  datatype State = State(writes: nat, subs: seq<Sub>, table: map<nat, nat>, droppedAUs: nat)

  const EMPTY := State(0, [], map[], 0)

  predicate Registered(h: State, i: nat) {
    RuneID(i + 1) in h.table && h.table[RuneID(i + 1)] == i
  }

  function Offer(s: Sub, unit: nat, size: nat): Sub {
    if |s.queue| < size then s.(queue := s.queue + [unit]) else s.(dropped := s.dropped + 1)
  }

  function Offered(h: State, size: nat): (subs: seq<Sub>)
    ensures |subs| == |h.subs|
  {
    seq(|h.subs|, i requires 0 <= i < |h.subs| =>
      if Registered(h, i) then Offer(h.subs[i], h.writes, size) else h.subs[i])
  }

  function SumDropped(subs: seq<Sub>): nat {
    if subs == [] then 0 else SumDropped(subs[..|subs| - 1]) + subs[|subs| - 1].dropped
  }

  function WriteTo(h: State, size: nat): State {
    SumGrows(h.subs, Offered(h, size));
    State(h.writes + 1, Offered(h, size), h.table,
          h.droppedAUs + (SumDropped(Offered(h, size)) - SumDropped(h.subs)))
  }

  function SubscribeTo(h: State): State {
    var i := |h.subs|;
    h.(subs := h.subs + [Sub(h.writes, [], [], 0, None)], table := h.table[RuneID(i + 1) := i])
  }

  function UnsubscribeFrom(h: State, id: nat): State {
    if id !in h.table || h.table[id] >= |h.subs| then h
    else
      var i := h.table[id];
      h.(subs := h.subs[i := h.subs[i].(end := Some(h.writes))], table := h.table - {id})
  }

  function TakeFrom(h: State, i: nat): State {
    if i >= |h.subs| || h.subs[i].queue == [] then h
    else
      var s := h.subs[i];
      h.(subs := h.subs[i := s.(taken := s.taken + [s.queue[0]], queue := s.queue[1..])])
  }

  // ---------------------------------------------------------------- runs

  datatype Event = Write | Subscribe | Unsubscribe(id: nat) | Take(i: nat)

  function Exec(h: State, e: Event, size: nat): State {
    match e
    case Write => WriteTo(h, size)
    case Subscribe => SubscribeTo(h)
    case Unsubscribe(id) => UnsubscribeFrom(h, id)
    case Take(i) => TakeFrom(h, i)
  }

  function Run(events: seq<Event>, size: nat): State {
    if events == [] then EMPTY
    else Exec(Run(events[..|events| - 1], size), events[|events| - 1], size)
  }

  /** Everything a subscriber got, in order. */
  function Got(s: Sub): seq<nat> {
    s.taken + s.queue
  }

  /** Order, range and capacity hold for a subscriber that saw the writes before `end`. */
  predicate InOrder(s: Sub, end: nat, size: nat) {
    s.joined <= end && Ascending(Got(s), s.joined, end) && |s.queue| <= size && Counted(s) <= end
  }

  /** The writes that came before it, and those it has, had or was counted to have lost. */
  function Counted(s: Sub): nat {
    s.joined + |s.taken| + |s.queue| + s.dropped
  }

  /** Every write since it joined was delivered, is queued, or was counted as dropped. */
  predicate Balanced(s: Sub, end: nat) {
    Counted(s) == end
  }

  function EndOf(s: Sub, writes: nat): nat {
    if s.end.Some? then s.end.value else writes
  }

  /** What holds of one subscriber in every run: unless it lost its id to another, nothing it missed is uncounted. */
  predicate SubOk(h: State, i: nat, size: nat) {
    i < |h.subs| ==>
      var s := h.subs[i];
      && InOrder(s, EndOf(s, h.writes), size)
      && (Registered(h, i) ==> s.end.None?)
      && (Registered(h, i) || s.end.Some? ==> Balanced(s, EndOf(s, h.writes)))
  }

  predicate TableOk(h: State) {
    && (forall id :: id in h.table ==> h.table[id] < |h.subs| && id == RuneID(h.table[id] + 1))
    && h.droppedAUs == SumDropped(h.subs)
  }

  predicate Inv(h: State, size: nat) {
    TableOk(h) && forall i :: 0 <= i < |h.subs| ==> SubOk(h, i, size)
  }

  lemma OfferKeeps(s: Sub, writes: nat, size: nat)
    requires InOrder(s, writes, size) && Balanced(s, writes)
    ensures InOrder(Offer(s, writes, size), writes + 1, size) && Balanced(Offer(s, writes, size), writes + 1)
  {
    if |s.queue| < size {
      assert Got(Offer(s, writes, size)) == Got(s) + [writes];
    }
  }

  lemma LaterKeeps(s: Sub, writes: nat, size: nat)
    requires InOrder(s, writes, size)
    ensures InOrder(s, writes + 1, size)
  {
  }

  lemma TakeKeeps(s: Sub, end: nat, size: nat)
    requires InOrder(s, end, size) && s.queue != []
    ensures var t := s.(taken := s.taken + [s.queue[0]], queue := s.queue[1..]);
            InOrder(t, end, size) && Got(t) == Got(s) && (Balanced(s, end) ==> Balanced(t, end))
  {
    assert s.taken + [s.queue[0]] + s.queue[1..] == s.taken + s.queue;
  }

  lemma {:induction false} SumUpdate(subs: seq<Sub>, i: nat, s: Sub)
    requires i < |subs|
    ensures SumDropped(subs[i := s]) == SumDropped(subs) - subs[i].dropped + s.dropped
  {
    var n := |subs| - 1;
    if i < n {
      SumUpdate(subs[..n], i, s);
      assert subs[i := s][..n] == subs[..n][i := s];
    } else {
      assert subs[i := s][..n] == subs[..n];
    }
  }

  lemma {:induction false} SumGrows(a: seq<Sub>, b: seq<Sub>)
    requires |a| == |b| && forall i :: 0 <= i < |a| ==> a[i].dropped <= b[i].dropped
    ensures SumDropped(a) <= SumDropped(b)
  {
    if a != [] {
      SumGrows(a[..|a| - 1], b[..|b| - 1]);
    }
  }

  lemma WriteKeeps(h: State, size: nat)
    requires Inv(h, size)
    ensures Inv(WriteTo(h, size), size)
  {
    var g := WriteTo(h, size);
    forall i | 0 <= i < |g.subs| ensures SubOk(g, i, size) {
      assert SubOk(h, i, size) && Registered(g, i) == Registered(h, i);
      if Registered(h, i) {
        OfferKeeps(h.subs[i], h.writes, size);
      } else if h.subs[i].end.None? {
        LaterKeeps(h.subs[i], h.writes, size);
      }
    }
    SumGrows(h.subs, Offered(h, size));
  }

  lemma SubscribeKeeps(h: State, size: nat)
    requires Inv(h, size)
    ensures Inv(SubscribeTo(h), size)
  {
    var g := SubscribeTo(h);
    forall i | 0 <= i < |g.subs| ensures SubOk(g, i, size) {
      if i < |h.subs| {
        assert SubOk(h, i, size);
      }
    }
    assert g.subs[..|g.subs| - 1] == h.subs;
  }

  lemma UnsubscribeKeeps(h: State, id: nat, size: nat)
    requires Inv(h, size)
    ensures Inv(UnsubscribeFrom(h, id), size)
  {
    if id in h.table {
      var i := h.table[id];
      var g := UnsubscribeFrom(h, id);
      assert SubOk(h, i, size);
      forall j | 0 <= j < |g.subs| ensures SubOk(g, j, size) {
        assert SubOk(h, j, size);
      }
      SumUpdate(h.subs, i, h.subs[i].(end := Some(h.writes)));
    }
  }

  lemma TakeEventKeeps(h: State, i: nat, size: nat)
    requires Inv(h, size)
    ensures Inv(TakeFrom(h, i), size)
  {
    if i < |h.subs| && h.subs[i].queue != [] {
      var s := h.subs[i];
      var g := TakeFrom(h, i);
      assert SubOk(h, i, size);
      TakeKeeps(s, EndOf(s, h.writes), size);
      forall j | 0 <= j < |g.subs| ensures SubOk(g, j, size) {
        assert SubOk(h, j, size);
      }
      SumUpdate(h.subs, i, s.(taken := s.taken + [s.queue[0]], queue := s.queue[1..]));
    }
  }

  /** In every run, with any number of subscriptions. */
  lemma {:induction false} RunsAreSound(events: seq<Event>, size: nat)
    ensures Inv(Run(events, size), size)
  {
    if events != [] {
      var before := events[..|events| - 1];
      RunsAreSound(before, size);
      var h := Run(before, size);
      match events[|events| - 1]
      case Write => WriteKeeps(h, size);
      case Subscribe => SubscribeKeeps(h, size);
      case Unsubscribe(id) => UnsubscribeKeeps(h, id, size);
      case Take(i) => TakeEventKeeps(h, i, size);
    }
  }

  /** Whoever has not been unsubscribed is still in the table. */
  predicate NoneLost(h: State) {
    forall i :: 0 <= i < |h.subs| && h.subs[i].end.None? ==> Registered(h, i)
  }

  /** A subscription loses somebody exactly if its id is still in the table. */
  lemma SubscribeLosesExactly(h: State, size: nat)
    requires Inv(h, size)
    ensures NoneLost(SubscribeTo(h)) <==> NoneLost(h) && RuneID(|h.subs| + 1) !in h.table
  {
    var g, n := SubscribeTo(h), |h.subs|;
    assert Registered(g, n) && forall i :: 0 <= i < n ==> g.subs[i] == h.subs[i];
    assert forall i :: 0 <= i < n && Registered(g, i) ==> Registered(h, i);
    if RuneID(n + 1) in h.table {
      var i := h.table[RuneID(n + 1)];
      assert SubOk(h, i, size) && Registered(h, i) && !Registered(g, i);
    } else {
      assert forall i :: 0 <= i < n && Registered(h, i) ==> Registered(g, i);
    }
  }

  lemma UnsubscribeLosesNobody(h: State, id: nat, size: nat)
    requires Inv(h, size)
    ensures NoneLost(UnsubscribeFrom(h, id)) <==> NoneLost(h)
  {
    var g := UnsubscribeFrom(h, id);
    if id in h.table {
      var k := h.table[id];
      assert Registered(h, k);
      assert forall i :: 0 <= i < |h.subs| && i != k ==> g.subs[i] == h.subs[i] && Registered(g, i) == Registered(h, i);
    }
  }

  lemma WriteLosesNobody(h: State, size: nat)
    ensures NoneLost(WriteTo(h, size)) <==> NoneLost(h)
  {
    var g := WriteTo(h, size);
    assert forall i :: 0 <= i < |h.subs| ==> g.subs[i].end == h.subs[i].end && Registered(g, i) == Registered(h, i);
  }

  lemma TakeLosesNobody(h: State, i: nat)
    ensures NoneLost(TakeFrom(h, i)) <==> NoneLost(h)
  {
    var g := TakeFrom(h, i);
    assert forall j :: 0 <= j < |h.subs| ==> g.subs[j].end == h.subs[j].end && Registered(g, j) == Registered(h, j);
  }

  /** No subscription of the run meets its own id in the table. */
  predicate NoIdMet(events: seq<Event>, size: nat) {
    events != [] ==>
      var before := events[..|events| - 1];
      && NoIdMet(before, size)
      && (events[|events| - 1].Subscribe? ==> RuneID(|Run(before, size).subs| + 1) !in Run(before, size).table)
  }

  lemma {:induction false} NoneLostExactly(events: seq<Event>, size: nat)
    ensures NoneLost(Run(events, size)) <==> NoIdMet(events, size)
  {
    if events != [] {
      var before := events[..|events| - 1];
      var h := Run(before, size);
      NoneLostExactly(before, size);
      RunsAreSound(before, size);
      match events[|events| - 1]
      case Write => WriteLosesNobody(h, size);
      case Subscribe => SubscribeLosesExactly(h, size);
      case Unsubscribe(id) => UnsubscribeLosesNobody(h, id, size);
      case Take(i) => TakeLosesNobody(h, i);
    }
  }

  /** Every write since a subscriber joined, and until it left, was delivered, is queued, or was counted as dropped. */
  predicate AllCounted(h: State) {
    forall i :: 0 <= i < |h.subs| ==> Balanced(h.subs[i], EndOf(h.subs[i], h.writes))
  }

  lemma LostAreNotCounted(h: State, size: nat)
    requires Inv(h, size)
    ensures NoneLost(h) ==> AllCounted(h)
    ensures !NoneLost(h) ==> !AllCounted(WriteTo(h, size))
  {
    if NoneLost(h) {
      forall i | 0 <= i < |h.subs| ensures Balanced(h.subs[i], EndOf(h.subs[i], h.writes)) {
        assert SubOk(h, i, size);
      }
    } else {
      var i :| 0 <= i < |h.subs| && h.subs[i].end.None? && !Registered(h, i);
      var g := WriteTo(h, size);
      assert SubOk(h, i, size) && g.subs[i] == h.subs[i];
      assert !Balanced(g.subs[i], EndOf(g.subs[i], g.writes));
    }
  }

  /**
   * In every run: with the next write all writes are accounted for, for everybody
   * there ever was, exactly if no subscription met its own id in the table.
   */
  lemma NobodyIsForgottenExactly(events: seq<Event>, size: nat)
    ensures AllCounted(WriteTo(Run(events, size), size)) <==> NoIdMet(events, size)
  {
    var h := Run(events, size);
    RunsAreSound(events, size);
    NoneLostExactly(events, size);
    WriteKeeps(h, size);
    WriteLosesNobody(h, size);
    LostAreNotCounted(h, size);
    LostAreNotCounted(WriteTo(h, size), size);
  }

  lemma SubscribersOnlyGrow(h: State, e: Event, size: nat)
    ensures |h.subs| <= |Exec(h, e, size).subs|
  {
  }

  /** Up to 0xD800 subscriptions no id is met, whoever leaves and whoever stays. */
  lemma {:induction false} FewMeetNoId(events: seq<Event>, size: nat)
    requires |Run(events, size).subs| <= 0xD800
    ensures NoIdMet(events, size)
  {
    if events != [] {
      var before := events[..|events| - 1];
      var h := Run(before, size);
      SubscribersOnlyGrow(h, events[|events| - 1], size);
      FewMeetNoId(before, size);
      RunsAreSound(before, size);
      if events[|events| - 1].Subscribe? {
        NextIdIsFree(h);
      }
    }
  }

  lemma NextIdIsFree(h: State)
    requires TableOk(h) && |h.subs| < 0xD800
    ensures RuneID(|h.subs| + 1) !in h.table
  {
    IdsDistinctExactly(|h.subs| + 1);
  }

  function Crowd(n: nat): seq<Event> {
    seq(n, _ => Subscribe)
  }

  lemma {:induction false} CrowdIsIn(n: nat, size: nat)
    ensures |Run(Crowd(n), size).subs| == n && (n > 0 ==> Registered(Run(Crowd(n), size), n - 1))
  {
    if n > 0 {
      CrowdIsIn(n - 1, size);
      assert Crowd(n)[..n - 1] == Crowd(n - 1);
    }
  }

  /** Nobody leaves: up to 0xD800 subscribers are served, and one more makes the hub forget one. */
  lemma {:induction false} CrowdIsServedExactly(n: nat, size: nat)
    ensures NoIdMet(Crowd(n), size) <==> n <= 0xD800
    ensures AllCounted(WriteTo(Run(Crowd(n), size), size)) <==> n <= 0xD800
    decreases n
  {
    NobodyIsForgottenExactly(Crowd(n), size);
    CrowdIsIn(n, size);
    if n <= 0xD800 {
      FewMeetNoId(Crowd(n), size);
    } else {
      assert Crowd(n)[..n - 1] == Crowd(n - 1);
      CrowdIsIn(n - 1, size);
      if n > 0xD801 {
        CrowdIsServedExactly(n - 1, size);
      }
    }
  }

  // ---------------------------------------------------------------- what a write does

  /**
   * A write is queued behind what a current subscriber has waiting as long as there
   * is room, and counted as dropped only where there is none; nobody else notices.
   */
  lemma WriteReachesExactly(h: State, size: nat, i: nat)
    requires i < |h.subs|
    ensures var s, t := h.subs[i], WriteTo(h, size).subs[i];
            var current := RuneID(i + 1) in h.table && h.table[RuneID(i + 1)] == i;
            && t.joined == s.joined && t.taken == s.taken && t.end == s.end
            && t.queue == (if current && |s.queue| < size then s.queue + [h.writes] else s.queue)
            && t.dropped == (if current && |s.queue| >= size then s.dropped + 1 else s.dropped)
  {
  }

  /** Some write of the run found the channel of subscriber `i` full. */
  predicate FoundFull(events: seq<Event>, size: nat, i: nat) {
    events != [] &&
      var before := events[..|events| - 1];
      var h := Run(before, size);
      || FoundFull(before, size, i)
      || (events[|events| - 1].Write? && i < |h.subs| && Registered(h, i) && |h.subs[i].queue| >= size)
  }

  lemma {:induction false} DropsCountFull(events: seq<Event>, size: nat, i: nat)
    ensures i < |Run(events, size).subs| ==> (Run(events, size).subs[i].dropped == 0 <==> !FoundFull(events, size, i))
    ensures i >= |Run(events, size).subs| ==> !FoundFull(events, size, i)
  {
    if events != [] {
      DropsCountFull(events[..|events| - 1], size, i);
    }
  }

  lemma {:induction false} AscendingFull(xs: seq<nat>, lo: nat, hi: nat)
    requires lo <= hi && Ascending(xs, lo, hi) && |xs| == hi - lo
    ensures xs == From(lo, hi)
    decreases |xs|
  {
    if xs != [] {
      var init, n := xs[..|xs| - 1], |xs| - 1;
      AscendingBound(xs, lo, hi, n);
      assert xs[n] == hi - 1;
      AscendingFull(init, lo, hi - 1);
      assert xs == init + [hi - 1];
    } else {
      assert From(lo, hi) == [];
    }
  }

  lemma {:induction false} AscendingBound(xs: seq<nat>, lo: nat, hi: nat, k: nat)
    requires Ascending(xs, lo, hi) && k < |xs|
    ensures xs[k] >= lo + k
  {
    if k > 0 {
      AscendingBound(xs, lo, hi, k - 1);
    }
  }

  /**
   * Whoever is registered, or was until it left, has got every single write since it
   * joined, in order, and no drop is counted, exactly if no write found its channel
   * full.
   */
  lemma AllDeliveredExactly(events: seq<Event>, size: nat, i: nat)
    requires var h := Run(events, size); i < |h.subs| && (Registered(h, i) || h.subs[i].end.Some?)
    ensures var h := Run(events, size); var s := h.subs[i];
            && s.joined <= EndOf(s, h.writes)
            && (s.dropped == 0 <==> !FoundFull(events, size, i))
            && (s.taken + s.queue == From(s.joined, EndOf(s, h.writes)) <==> !FoundFull(events, size, i))
  {
    var h := Run(events, size);
    var s := h.subs[i];
    RunsAreSound(events, size);
    assert SubOk(h, i, size);
    DropsCountFull(events, size, i);
    if s.dropped == 0 {
      AscendingFull(Got(s), s.joined, EndOf(s, h.writes));
    }
  }

  // ---------------------------------------------------------------- the hub

  /** Part of the way through a write: the registered subscribers whose id is not in `todo` have had their offer. */
  ghost predicate Offering(h: State, subs: seq<Sub>, todo: set<nat>, size: nat) {
    && |subs| == |h.subs|
    && (forall i :: 0 <= i < |subs| && Registered(h, i) && RuneID(i + 1) !in todo ==>
          subs[i] == Offer(h.subs[i], h.writes, size))
    && (forall i :: 0 <= i < |subs| && !(Registered(h, i) && RuneID(i + 1) !in todo) ==> subs[i] == h.subs[i])
  }

  lemma OfferNext(h: State, subs: seq<Sub>, todo: set<nat>, id: nat, size: nat)
    requires Inv(h, size) && Offering(h, subs, todo, size) && id in todo && id in h.table
    ensures var i := h.table[id];
            && i < |subs| && h.subs[i].end.None? && subs[i] == h.subs[i]
            && Offering(h, subs[i := Offer(subs[i], h.writes, size)], todo - {id}, size)
  {
    var i := h.table[id];
    assert SubOk(h, i, size) && Registered(h, i);
  }

  lemma OfferedAll(h: State, subs: seq<Sub>, size: nat)
    requires Offering(h, subs, {}, size)
    ensures subs == Offered(h, size) && SumDropped(h.subs) <= SumDropped(subs)
  {
    SumGrows(h.subs, subs);
  }

  class AUHub {
    const size: nat
    var writes: nat
    var subs: seq<Sub>
    var subscribers: map<nat, nat>
    var nextID: nat
    var droppedAUs: nat

    constructor (size: nat)
      ensures this.size == size && Valid() && View() == EMPTY
    {
      this.size := size;
      writes, subs, subscribers, nextID, droppedAUs := 0, [], map[], 0, 0;
    }

    function View(): State
      reads this
    {
      State(writes, subs, subscribers, droppedAUs)
    }

    ghost predicate Valid()
      reads this
    {
      nextID == |subs| && Inv(View(), size)
    }

    /** A write under way: `todo` are the ids not visited yet. */
    ghost predicate Midway(h: State, todo: set<nat>)
      reads this
    {
      && Inv(h, size) && todo <= h.table.Keys && subscribers == h.table && writes == h.writes && nextID == |subs|
      && Offering(h, subs, todo, size)
      && droppedAUs - h.droppedAUs == SumDropped(subs) - SumDropped(h.subs)
    }

    /** Offers one unit to every channel, in whatever order the map yields them. */
    method Write()
      requires Valid()
      modifies this
      ensures Valid() && View() == WriteTo(old(View()), size)
    {
      ghost var h := View();
      var todo := subscribers.Keys;
      while todo != {}
        invariant Midway(h, todo)
        decreases |todo|
      {
        var id :| id in todo;
        OfferOne(id, h, todo);
        todo := todo - {id};
      }
      OfferedAll(h, subs, size);
      WriteKeeps(h, size);
      writes := writes + 1;
      assert View() == WriteTo(h, size);
    }

    /** The non-blocking send to one channel, which is never a closed one. */
    method OfferOne(id: nat, ghost h: State, ghost todo: set<nat>)
      requires Midway(h, todo) && id in todo
      modifies this
      ensures Midway(h, todo - {id})
    {
      OfferNext(h, subs, todo, id, size);
      var i := subscribers[id];
      var s := subs[i];
      assert s.end.None?;
      SumUpdate(subs, i, Offer(s, writes, size));
      if |s.queue| < size {
        subs := subs[i := s.(queue := s.queue + [writes])];
      } else {
        subs := subs[i := s.(dropped := s.dropped + 1)];
        droppedAUs := droppedAUs + 1;
      }
    }

    method Subscribe() returns (id: nat)
      requires Valid()
      modifies this
      ensures Valid() && View() == SubscribeTo(old(View()))
      ensures id == RuneID(|subs|) && |subs| == |old(subs)| + 1 && nextID == old(nextID) + 1
      ensures id in subscribers && subscribers[id] == |subs| - 1 && subs[|subs| - 1] == Sub(writes, [], [], 0, None)
    {
      SubscribeKeeps(View(), size);
      nextID := nextID + 1;
      id := RuneID(nextID);
      subs := subs + [Sub(writes, [], [], 0, None)];
      subscribers := subscribers[id := |subs| - 1];
    }

    /** Unknown ids are ignored, so a channel is closed at most once. */
    method Unsubscribe(id: nat)
      requires Valid()
      modifies this
      ensures Valid() && View() == UnsubscribeFrom(old(View()), id)
      ensures id !in subscribers && |subs| == |old(subs)|
      ensures id in old(subscribers) ==>
                old(subscribers)[id] < |subs| && subs[old(subscribers)[id]].end == Some(writes)
    {
      UnsubscribeKeeps(View(), id, size);
      assert TableOk(View());
      if id !in subscribers {
        return;
      }
      var i := subscribers[id];
      assert SubOk(View(), i, size);
      assert subs[i].end.None?;
      subscribers := subscribers - {id};
      subs := subs[i := subs[i].(end := Some(writes))];
    }
  }
}
