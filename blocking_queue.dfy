/** `BlockingQueue<T>` (lib/queue/blocking_queue.h): an unbounded FIFO with a
    one-way `stopped` flag.

    The mutex and condition variable are not modelled: each method runs
    atomically, and `waitPop`'s wait becomes a precondition on the class
    method (the queue is non-empty or stopped) and a `WouldBlock` outcome in
    the pure state machine below. */
module Queue {

  /** The protected state: the queued items, head first, and `m_stopped`. */
  datatype QueueState<T> = QueueState(items: seq<T>, stopped: bool)

  /** What one `waitPop` call does: returns an item, returns `false`, or waits. */
  datatype PopOutcome<T> = Popped(item: T) | Closed | WouldBlock

  /** A default-constructed queue: empty, not stopped. */
  function InitialState<T>(): QueueState<T> {
    QueueState([], false)
  }

  /** `waitPush`: appends at the tail; `stopped` is not consulted. */
  function PushStep<T>(s: QueueState<T>, x: T): (r: QueueState<T>)
    ensures r.stopped == s.stopped
    ensures |r.items| == |s.items| + 1 && r.items[..|s.items|] == s.items && r.items[|s.items|] == x
  {
    s.(items := s.items + [x])
  }

  /** `waitPop`: the head while there is one, whether or not stopped;
      `false` once stopped and empty; otherwise the caller waits. */
  function PopStep<T>(s: QueueState<T>): (r: (PopOutcome<T>, QueueState<T>))
    ensures r.1.stopped == s.stopped
    ensures r.0.Popped? ==> [r.0.item] + r.1.items == s.items
    ensures !r.0.Popped? ==> r.1 == s && s.items == []
  {
    if s.items != [] then (Popped(s.items[0]), s.(items := s.items[1..]))
    else if s.stopped then (Closed, s)
    else (WouldBlock, s)
  }

  /** `shutdown`: sets the flag and leaves the items alone. */
  function ShutdownStep<T>(s: QueueState<T>): (r: QueueState<T>)
    ensures r.stopped && r.items == s.items
  {
    s.(stopped := true)
  }

  // ---------------------------------------------------------------------------
  // The class

  class BlockingQueue<T> {
    var items: seq<T>
    var stopped: bool

    function State(): QueueState<T>
      reads this
    {
      QueueState(items, stopped)
    }

    constructor ()
      ensures State() == InitialState()
    {
      items := [];
      stopped := false;
    }

    method WaitPush(item: T)
      modifies this
      ensures State() == PushStep(old(State()), item)
    {
      items := items + [item];
    }

    /** `bool waitPop(T& out)`: `out` is left as it was when `false` is returned. */
    method WaitPop(out: T) returns (popped: bool, item: T)
      requires items != [] || stopped
      modifies this
      ensures PopStep(old(State())) == (if popped then Popped(item) else Closed, State())
      ensures !popped ==> item == out
    {
      if stopped && items == [] {
        return false, out;
      }
      item := items[0];
      items := items[1..];
      popped := true;
    }

    method Shutdown()
      modifies this
      ensures State() == ShutdownStep(old(State()))
    {
      stopped := true;
    }
  }

  // ---------------------------------------------------------------------------
  // Properties of single steps

  /** `waitPop` never reports `false` while items remain, and never changes the
      state unless it returns an item. */
  lemma PopOutcomes<T>(s: QueueState<T>)
    ensures PopStep(s).0.Closed? <==> s.stopped && s.items == []
    ensures PopStep(s).0.WouldBlock? <==> !s.stopped && s.items == []
    ensures PopStep(s).0.Popped? <==> s.items != []
    ensures !PopStep(s).0.Popped? ==> PopStep(s).1 == s
    ensures PopStep(s).1.stopped == s.stopped
  {
  }

  /** What is pushed onto an empty queue is what the next pop returns, and the
      pop undoes the push; on a non-empty queue a push and a pop commute. */
  lemma PushThenPop<T>(s: QueueState<T>, x: T)
    ensures s.items == [] ==> PopStep(PushStep(s, x)) == (Popped(x), s)
    ensures s.items != [] ==> PopStep(PushStep(s, x)) == (PopStep(s).0, PushStep(PopStep(s).1, x))
  {
    if s.items != [] {
      assert (s.items + [x])[0] == s.items[0];
      assert (s.items + [x])[1..] == s.items[1..] + [x];
    } else {
      assert (s.items + [x])[1..] == [];
      assert PushStep(s, x).(items := []) == s;
    }
  }

  /** Calling `shutdown` twice is calling it once. */
  lemma ShutdownIdempotent<T>(s: QueueState<T>)
    ensures ShutdownStep(ShutdownStep(s)) == ShutdownStep(s)
    ensures ShutdownStep(s).items == s.items
  {
  }

  // ---------------------------------------------------------------------------
  // Sequences of calls

  datatype Op<T> = Push(item: T) | Pop | Shutdown

  /** One call: the new state, and the outcome it reports if it is a pop. */
  function Step<T>(s: QueueState<T>, op: Op<T>): (QueueState<T>, seq<PopOutcome<T>>) {
    match op
    case Push(x) => (PushStep(s, x), [])
    case Shutdown => (ShutdownStep(s), [])
    case Pop => (PopStep(s).1, [PopStep(s).0])
  }

  /** The state after `ops` and the outcome of every `Pop` among them, in order. */
  function RunOps<T>(s: QueueState<T>, ops: seq<Op<T>>): (QueueState<T>, seq<PopOutcome<T>>)
    decreases |ops|
  {
    if ops == [] then (s, [])
    else
      var (next, outs) := Step(s, ops[0]);
      var (final, later) := RunOps(next, ops[1..]);
      (final, outs + later)
  }

  /** The items pushed by `ops`, in order. */
  function Pushed<T>(ops: seq<Op<T>>): seq<T> {
    if ops == [] then []
    else (if ops[0].Push? then [ops[0].item] else []) + Pushed(ops[1..])
  }

  /** The items the pops returned, in order. */
  function Delivered<T>(outs: seq<PopOutcome<T>>): seq<T> {
    if outs == [] then []
    else (if outs[0].Popped? then [outs[0].item] else []) + Delivered(outs[1..])
  }

  predicate HasShutdown<T>(ops: seq<Op<T>>) {
    exists k :: 0 <= k < |ops| && ops[k].Shutdown?
  }

  /** `stopped` starts false, only `shutdown` sets it and nothing clears it. */
  lemma {:induction false} StoppedIsOneWay<T>(s: QueueState<T>, ops: seq<Op<T>>)
    ensures RunOps(s, ops).0.stopped <==> s.stopped || HasShutdown(ops)
    decreases |ops|
  {
    if ops != [] {
      var next := Step(s, ops[0]).0;
      StoppedIsOneWay(next, ops[1..]);
      assert RunOps(s, ops).0 == RunOps(next, ops[1..]).0;
      assert HasShutdown(ops) <==> ops[0].Shutdown? || HasShutdown(ops[1..]) by {
        if HasShutdown(ops[1..]) {
          var k :| 0 <= k < |ops[1..]| && ops[1..][k].Shutdown?;
          assert ops[k + 1].Shutdown?;
        }
        if HasShutdown(ops) && !ops[0].Shutdown? {
          var k :| 0 <= k < |ops| && ops[k].Shutdown?;
          assert ops[1..][k - 1].Shutdown?;
        }
      }
    }
  }

  lemma DeliveredAppend<T>(a: seq<PopOutcome<T>>, b: seq<PopOutcome<T>>)
    ensures Delivered(a + b) == Delivered(a) + Delivered(b)
  {
    if a != [] {
      DeliveredAppend(a[1..], b);
      assert (a + b)[1..] == a[1..] + b;
    } else {
      assert a + b == b;
    }
  }

  /** One call keeps the balance: what it returned, followed by what is queued
      after it, is what was queued before followed by what it pushed. */
  lemma StepConservation<T>(s: QueueState<T>, op: Op<T>)
    ensures Delivered(Step(s, op).1) + Step(s, op).0.items
            == s.items + (if op.Push? then [op.item] else [])
  {
    if op.Pop? && s.items != [] {
      assert s.items == [s.items[0]] + s.items[1..];
    }
  }

  /** No item is lost or duplicated, and order is kept: what the pops returned,
      followed by what is still queued, is what was queued at the start followed
      by everything pushed. */
  lemma {:induction false} FifoConservation<T>(s: QueueState<T>, ops: seq<Op<T>>)
    ensures Delivered(RunOps(s, ops).1) + RunOps(s, ops).0.items == s.items + Pushed(ops)
    decreases |ops|
  {
    if ops != [] {
      var (next, outs) := Step(s, ops[0]);
      var (final, later) := RunOps(next, ops[1..]);
      var pushed := if ops[0].Push? then [ops[0].item] else [];
      StepConservation(s, ops[0]);
      FifoConservation(next, ops[1..]);
      DeliveredAppend(outs, later);
      assert RunOps(s, ops) == (final, outs + later);
      calc {
        Delivered(outs + later) + final.items;
        (Delivered(outs) + Delivered(later)) + final.items;
        Delivered(outs) + (Delivered(later) + final.items);
        Delivered(outs) + (next.items + Pushed(ops[1..]));
        (Delivered(outs) + next.items) + Pushed(ops[1..]);
        (s.items + pushed) + Pushed(ops[1..]);
        s.items + (pushed + Pushed(ops[1..]));
      }
    }
  }

  function Pushes<T>(xs: seq<T>): (ops: seq<Op<T>>)
    ensures |ops| == |xs| && forall k :: 0 <= k < |xs| ==> ops[k] == Push(xs[k])
  {
    if xs == [] then [] else [Push(xs[0])] + Pushes(xs[1..])
  }

  function Pops<T>(n: nat): (ops: seq<Op<T>>)
    ensures |ops| == n && forall k :: 0 <= k < n ==> ops[k] == Pop
  {
    if n == 0 then [] else [Pop] + Pops(n - 1)
  }

  function AllPopped<T>(xs: seq<T>): (outs: seq<PopOutcome<T>>)
    ensures |outs| == |xs| && forall k :: 0 <= k < |xs| ==> outs[k] == Popped(xs[k])
  {
    if xs == [] then [] else [Popped(xs[0])] + AllPopped(xs[1..])
  }

  /** Running `ops` after a first call `op`. */
  lemma RunFirst<T>(s: QueueState<T>, op: Op<T>, ops: seq<Op<T>>)
    ensures RunOps(s, [op] + ops)
            == (RunOps(Step(s, op).0, ops).0, Step(s, op).1 + RunOps(Step(s, op).0, ops).1)
  {
    assert ([op] + ops)[0] == op && ([op] + ops)[1..] == ops;
  }

  lemma {:induction false} RunPushes<T>(s: QueueState<T>, xs: seq<T>, rest: seq<Op<T>>)
    ensures RunOps(s, Pushes(xs) + rest) == RunOps(s.(items := s.items + xs), rest)
    decreases |xs|
  {
    if xs == [] {
      assert Pushes(xs) + rest == rest;
      assert s.items + xs == s.items;
    } else {
      var next := PushStep(s, xs[0]);
      assert Pushes(xs) + rest == [Push(xs[0])] + (Pushes(xs[1..]) + rest);
      RunFirst(s, Push(xs[0]), Pushes(xs[1..]) + rest);
      RunPushes(next, xs[1..], rest);
      assert (s.items + [xs[0]]) + xs[1..] == s.items + xs;
      assert [] + RunOps(next, Pushes(xs[1..]) + rest).1 == RunOps(next, Pushes(xs[1..]) + rest).1;
    }
  }

  /** A stopped queue yields its items in order and then `false`, and is
      then empty. */
  lemma {:induction false} RunPopsStopped<T>(xs: seq<T>)
    ensures RunOps(QueueState(xs, true), Pops(|xs| + 1)) == (QueueState([], true), AllPopped(xs) + [Closed])
    decreases |xs|
  {
    var s := QueueState(xs, true);
    assert Pops<T>(|xs| + 1) == [Pop] + Pops(|xs|);
    RunFirst(s, Pop, Pops(|xs|));
    if xs == [] {
      assert Step(s, Pop) == (s, [Closed]);
      assert Pops<T>(0) == [];
      assert RunOps(s, Pops<T>(0)) == (s, []);
      var closed: seq<PopOutcome<T>> := [Closed];
      assert closed + [] == closed;
      assert AllPopped(xs) == [];
      assert RunOps(s, Pops(|xs| + 1)) == (s, closed);
      assert s == QueueState([], true);
      assert AllPopped(xs) + [Closed] == closed;
    } else {
      assert Step(s, Pop) == (QueueState(xs[1..], true), [Popped(xs[0])]);
      RunPopsStopped(xs[1..]);
      assert |xs[1..]| + 1 == |xs|;
      assert AllPopped(xs) + [Closed] == [Popped(xs[0])] + (AllPopped(xs[1..]) + [Closed]);
    }
  }

  /** Shutdown drains rather than discards: after K pushes and a shutdown,
      K pops return the items in push order and the next pop returns `false`. */
  lemma DrainAfterShutdown<T>(xs: seq<T>)
    ensures RunOps(InitialState(), Pushes(xs) + ([Shutdown] + Pops(|xs| + 1)))
            == (QueueState([], true), AllPopped(xs) + [Closed])
  {
    var pops := Pops<T>(|xs| + 1);
    RunPushes(InitialState(), xs, [Shutdown] + pops);
    assert InitialState<T>().items + xs == xs;
    RunFirst(QueueState(xs, false), Shutdown, pops);
    assert Step(QueueState(xs, false), Shutdown) == (QueueState(xs, true), []);
    RunPopsStopped(xs);
    assert [] + (AllPopped(xs) + [Closed]) == AllPopped(xs) + [Closed];
  }

  /** Once stopped and empty, every later pop returns `false` as long as
      nothing more is pushed. */
  lemma {:induction false} ClosedStaysClosed<T>(s: QueueState<T>, ops: seq<Op<T>>)
    requires s.stopped && s.items == []
    requires forall k :: 0 <= k < |ops| ==> !ops[k].Push?
    ensures RunOps(s, ops).0 == s
    ensures forall k :: 0 <= k < |RunOps(s, ops).1| ==> RunOps(s, ops).1[k] == Closed
    decreases |ops|
  {
    if ops != [] {
      ClosedStaysClosed(s, ops[1..]);
    }
  }
}
