/**
 * The recorder's buffer of access units: a bounded queue that makes room by
 * dropping the oldest unit that is not a keyframe.
 */
module RecorderRing {
  import opened Basics
  import opened AnnexB

  const QUEUE_CAPACITY: nat := 600

  // ---------------------------------------------------------------- specification

  /** The position a full queue gives up: its oldest non-keyframe, or its head if there is none. */
  function Victim(q: seq<AccessUnit>): (i: nat)
    requires q != []
    ensures i < |q|
    ensures q[i].keyFrame ==> i == 0 && forall k :: 0 <= k < |q| ==> q[k].keyFrame
    ensures !q[i].keyFrame ==> forall k :: 0 <= k < i ==> q[k].keyFrame
  {
    var i := OldestNonKey(q, 0);
    if i < |q| then i else 0
  }

  function OldestNonKey(q: seq<AccessUnit>, i: nat): (j: nat)
    requires i <= |q|
    ensures i <= j <= |q|
    ensures j < |q| ==> !q[j].keyFrame
    ensures forall k :: i <= k < j ==> q[k].keyFrame
    decreases |q| - i
  {
    if i == |q| || !q[i].keyFrame then i else OldestNonKey(q, i + 1)
  }

  function Pushed(q: seq<AccessUnit>, au: AccessUnit): seq<AccessUnit> {
    (if |q| >= QUEUE_CAPACITY then Without(q, Victim(q)) else q) + [au]
  }

  // ---------------------------------------------------------------- the buffer

  class Ring {
    var queue: seq<AccessUnit>
    var dropped: nat

    ghost predicate Valid()
      reads this
    {
      |queue| <= QUEUE_CAPACITY
    }

    constructor ()
      ensures Valid() && queue == [] && dropped == 0
    {
      queue, dropped := [], 0;
    }

    method Push(au: AccessUnit)
      requires Valid()
      modifies this
      ensures Valid() && queue == Pushed(old(queue), au)
      ensures dropped == old(dropped) + if |old(queue)| >= QUEUE_CAPACITY then 1 else 0
    {
      if |queue| >= QUEUE_CAPACITY {
        ghost var q := queue;
        var i := 0;
        while i < |queue| && queue[i].keyFrame
          invariant 0 <= i <= |queue| && queue == q
          invariant OldestNonKey(q, i) == OldestNonKey(q, 0)
        {
          i := i + 1;
        }
        if i < |queue| {
          queue := queue[..i] + queue[i + 1..];
          dropped := dropped + 1;
        }
        if |queue| >= QUEUE_CAPACITY {
          queue := queue[1..];
          dropped := dropped + 1;
        }
        assert queue == Without(q, Victim(q));
      }
      queue := queue + [au];
    }

    method Pop() returns (r: Option<AccessUnit>)
      requires Valid()
      modifies this`queue
      ensures Valid()
      ensures old(queue) == [] ==> r == None && queue == []
      ensures old(queue) != [] ==> r == Some(old(queue)[0]) && queue == old(queue)[1..]
    {
      if |queue| == 0 {
        return None;
      }
      r := Some(queue[0]);
      queue := queue[1..];
    }

    /** Logging the drop count starts it over. */
    method TakeDropped() returns (n: nat)
      modifies this`dropped
      ensures n == old(dropped) && dropped == 0
    {
      n := dropped;
      dropped := 0;
    }
  }

  // ---------------------------------------------------------------- whole runs

  datatype Event = Push(au: AccessUnit) | Pop | LogDrops

  /** `kept` records which pushed units are in `popped` followed by `queue`; `lost` the others. */
  datatype Run = Run(queue: seq<AccessUnit>, dropped: nat, logged: nat, pushed: seq<AccessUnit>,
                     popped: seq<AccessUnit>, kept: seq<nat>, lost: seq<AccessUnit>)

  const START := Run([], 0, 0, [], [], [], [])

  /** `kept` has an entry for every unit popped or queued. */
  predicate Tracked(r: Run) {
    |r.kept| == |r.popped| + |r.queue|
  }

  function Step(r: Run, e: Event): (r': Run)
    requires Tracked(r)
    ensures Tracked(r')
  {
    match e
    case Push(au) =>
      if |r.queue| >= QUEUE_CAPACITY then
        var i := Victim(r.queue);
        Run(Pushed(r.queue, au), r.dropped + 1, r.logged, r.pushed + [au], r.popped,
            Without(r.kept, |r.popped| + i) + [|r.pushed|], r.lost + [r.queue[i]])
      else
        Run(Pushed(r.queue, au), r.dropped, r.logged, r.pushed + [au], r.popped,
            r.kept + [|r.pushed|], r.lost)
    case Pop =>
      if r.queue == [] then r else r.(queue := r.queue[1..], popped := r.popped + [r.queue[0]])
    case LogDrops => r.(dropped := 0, logged := r.logged + r.dropped)
  }

  function Runs(evs: seq<Event>): (r: Run)
    ensures Tracked(r)
  {
    if evs == [] then START else Step(Runs(evs[..|evs| - 1]), evs[|evs| - 1])
  }

  predicate Sound(r: Run) {
    && |r.queue| <= QUEUE_CAPACITY
    && Picks(r.popped + r.queue, r.kept, r.pushed)
    && |r.pushed| == |r.popped| + |r.queue| + |r.lost|
    && |r.lost| == r.logged + r.dropped
  }

  lemma PushKeepsSound(r: Run, au: AccessUnit)
    requires Sound(r)
    ensures Sound(Step(r, Push(au)))
  {
    if |r.queue| >= QUEUE_CAPACITY {
      FullPushKeepsSound(r, au);
    } else {
      PicksSnoc(r.popped + r.queue, r.kept, r.pushed, au);
      assert (r.popped + r.queue) + [au] == r.popped + (r.queue + [au]);
    }
  }

  lemma FullPushKeepsSound(r: Run, au: AccessUnit)
    requires Sound(r) && |r.queue| == QUEUE_CAPACITY
    ensures Sound(Step(r, Push(au)))
  {
    var i := Victim(r.queue);
    FullPushPicks(r, au, i);
    var queue := Without(r.queue, i) + [au];
    assert |queue| == QUEUE_CAPACITY;
    assert Step(r, Push(au))
        == Run(queue, r.dropped + 1, r.logged, r.pushed + [au], r.popped,
               Without(r.kept, |r.popped| + i) + [|r.pushed|], r.lost + [r.queue[i]]);
  }

  lemma FullPushPicks(r: Run, au: AccessUnit, i: nat)
    requires Picks(r.popped + r.queue, r.kept, r.pushed) && i < |r.queue|
    ensures Picks(r.popped + (Without(r.queue, i) + [au]),
                  Without(r.kept, |r.popped| + i) + [|r.pushed|], r.pushed + [au])
  {
    var all, j := r.popped + r.queue, |r.popped| + i;
    var shorter := r.popped + Without(r.queue, i);
    PicksWithout(all, r.kept, r.pushed, j);
    assert Without(all, j) == shorter;
    PicksSnoc(shorter, Without(r.kept, j), r.pushed, au);
    assert shorter + [au] == r.popped + (Without(r.queue, i) + [au]);
  }

  /**
   * Over any interleaving of pushes, pops and drop logs: the queue stays within
   * its capacity, popped then queued units are a subsequence of the pushed ones in
   * their order, and every other pushed unit is counted as a drop exactly once.
   */
  lemma {:induction false} RunsAreSound(evs: seq<Event>)
    ensures Sound(Runs(evs))
  {
    if evs != [] {
      var init, e := evs[..|evs| - 1], evs[|evs| - 1];
      var r := Runs(init);
      RunsAreSound(init);
      match e {
        case Push(au) => PushKeepsSound(r, au);
        case Pop =>
          if r.queue != [] {
            assert r.popped + r.queue == (r.popped + [r.queue[0]]) + r.queue[1..];
          }
        case LogDrops =>
      }
    }
  }

  /** A push loses a keyframe only when every buffered unit is a keyframe, and then the oldest one. */
  lemma KeyframesGoLast(evs: seq<Event>, au: AccessUnit)
    ensures var r, r' := Runs(evs), Step(Runs(evs), Push(au));
            r'.lost == r.lost
            || (exists i :: 0 <= i < |r.queue| && |r.queue| == QUEUE_CAPACITY
                  && r'.lost == r.lost + [r.queue[i]] && r'.queue == Without(r.queue, i) + [au]
                  && (forall k :: 0 <= k < i ==> r.queue[k].keyFrame)
                  && (r.queue[i].keyFrame ==>
                        i == 0 && forall k :: 0 <= k < |r.queue| ==> r.queue[k].keyFrame))
  {
    RunsAreSound(evs);
    var r := Runs(evs);
    if |r.queue| >= QUEUE_CAPACITY {
      var i := Victim(r.queue);
      assert Step(r, Push(au)).queue == Without(r.queue, i) + [au];
    }
  }
}
