/** The block-request ring: any number of producers, one worker, one sequence number per
    cell.  Every atomic store and fetch_add of the source is one event, and so is every
    load, but for the two of a cell's sequence number: Write joins it with the request
    store, Poll with taking and clearing the request. */
module RequestRing {
  import opened Options
  import opened ModFacts

  /** seqno == p: free for ticket p.  seqno == p + 1: ticket p is published here. */
  datatype Cell = Cell(seqno: nat, request: Option<nat>)

  /** A producer that has drawn its ticket: still spinning for its cell, or past the
      request store and about to publish. */
  datatype Phase = Reserved | Written

  datatype Worker = Polling | Taken(request: Option<nat>) | SawEmpty | SawExit | Done

  /** `log[t]` is the request submitted under ticket t; `served` what the worker popped. */
  datatype Ring = Ring(cells: seq<Cell>, tail: nat, head: nat, exit: bool, worker: Worker,
                       pending: map<nat, Phase>, log: seq<nat>, served: seq<nat>)

  datatype Event =
    | Submit(request: nat)  // fetch_add on the tail
    | Write(ticket: nat)    // the spin loop saw its sequence number; store the request
    | Publish(ticket: nat)  // store ticket + 1
    | Poll                  // load the head cell's sequence number, take the request if ready
    | Release               // store head + ring size, advance the head
    | LoadExit              // after an empty poll
    | LoadTail              // after the exit flag was seen
    | SetExit

  function Reset(n: nat): Ring {
    Ring(seq(n, (i: nat) => Cell(i, None)), 0, 0, false, Polling, map[], [], [])
  }

  function At(r: Ring, p: nat): nat
    requires 0 < |r.cells|
  {
    p % |r.cells|
  }

  predicate Enabled(r: Ring, e: Event)
    requires 0 < |r.cells|
  {
    match e
    case Submit(_) => true
    case Write(t) => t in r.pending && r.pending[t].Reserved? && t < |r.log| && r.cells[At(r, t)].seqno == t
    case Publish(t) => t in r.pending && r.pending[t].Written?
    case Poll => r.worker.Polling?
    case Release => r.worker.Taken?
    case LoadExit => r.worker.SawEmpty?
    case LoadTail => r.worker.SawExit?
    case SetExit => true
  }

  function Next(r: Ring, e: Event): (r': Ring)
    requires 0 < |r.cells| && Enabled(r, e)
    ensures |r'.cells| == |r.cells|
  {
    match e
    case Submit(q) => r.(tail := r.tail + 1, log := r.log + [q], pending := r.pending[r.tail := Reserved])
    case Write(t) =>
      r.(cells := r.cells[At(r, t) := r.cells[At(r, t)].(request := Some(r.log[t]))],
         pending := r.pending[t := Written])
    case Publish(t) =>
      r.(cells := r.cells[At(r, t) := r.cells[At(r, t)].(seqno := t + 1)], pending := r.pending - {t})
    case Poll =>
      var c := r.cells[At(r, r.head)];
      if c.seqno == r.head + 1 then
        r.(worker := Taken(c.request), cells := r.cells[At(r, r.head) := c.(request := None)])
      else r.(worker := SawEmpty)
    case Release =>
      var c := r.cells[At(r, r.head)];
      r.(cells := r.cells[At(r, r.head) := c.(seqno := r.head + |r.cells|)], head := r.head + 1,
         served := if r.worker.request.Some? then r.served + [r.worker.request.value] else r.served,
         worker := Polling)
    case LoadExit => r.(worker := if r.exit then SawExit else Polling)
    case LoadTail => r.(worker := if r.head == r.tail then Done else Polling)
    case SetExit => r.(exit := true)
  }

  ghost predicate IsRun(n: nat, states: seq<Ring>, events: seq<Event>) {
    && 0 < n && |states| == |events| + 1
    && (forall k :: 0 <= k < |states| ==> |states[k].cells| == n)
    && forall k :: 0 <= k < |events| ==>
         Enabled(states[k], events[k]) && states[k + 1] == Next(states[k], events[k])
  }

  // ---------------------------------------------------------------- invariant

  /** What the cell of ticket p, one of the next |cells| tickets to be served, says. */
  ghost predicate CellOk(r: Ring, p: nat)
    requires 0 < |r.cells| && |r.log| == r.tail
  {
    var c := r.cells[At(r, p)];
    if c.seqno == p + 1 then
      && p < r.tail && p !in r.pending
      && if p == r.head && r.worker.Taken? then r.worker.request == Some(r.log[p]) && c.request.None?
         else c.request == Some(r.log[p])
    else
      && c.seqno == p
      && (p < r.tail ==> p in r.pending)
      && (c.request == if p in r.pending && p < r.tail && r.pending[p].Written? then Some(r.log[p]) else None)
      && !(p == r.head && r.worker.Taken?)
  }

  ghost predicate Inv(r: Ring) {
    && 2 <= |r.cells| && |r.log| == r.tail && r.head <= r.tail
    && r.served == r.log[..r.head]
    && (forall p :: r.head <= p < r.head + |r.cells| ==> CellOk(r, p))
    && (forall t :: t in r.pending ==>
          r.head <= t < r.tail && (r.pending[t].Written? ==> t < r.head + |r.cells|))
    && (forall t :: r.head + |r.cells| <= t < r.tail ==> t in r.pending)
    && (r.worker.Done? ==> r.exit)
    && (r.worker.SawExit? ==> r.exit)
  }

  // ---------------------------------------------------------------- tickets and cells

  /** The one of the next n tickets that shares its cell with ticket t. */
  lemma {:induction false} WindowMate(n: nat, h: nat, t: nat) returns (p: nat)
    requires 0 < n && h <= t
    ensures h <= p < h + n && p <= t && p % n == t % n && (h + n <= t ==> p + n <= t)
    decreases t
  {
    if t < h + n {
      p := t;
    } else {
      StepBack(n, t);
      p := WindowMate(n, h, t - n);
    }
  }

  /** A producer can only see its own number in a cell that the worker has freed. */
  lemma {:induction false} WriterIsInWindow(r: Ring, t: nat)
    requires Inv(r) && Enabled(r, Write(t))
    ensures t < r.head + |r.cells|
  {
    var p := WindowMate(|r.cells|, r.head, t);
    assert CellOk(r, p);
  }

  // ---------------------------------------------------------------- one step

  lemma {:induction false} SubmitKeepsInv(r: Ring, q: nat)
    requires Inv(r)
    ensures Inv(Next(r, Submit(q)))
  {
    var r' := Next(r, Submit(q));
    forall p | r'.head <= p < r'.head + |r'.cells| ensures CellOk(r', p) {
      assert CellOk(r, p);
    }
    assert r'.log[..r.head] == r.log[..r.head];
  }

  lemma {:induction false} WriteKeepsInv(r: Ring, t: nat)
    requires Inv(r) && Enabled(r, Write(t))
    ensures Inv(Next(r, Write(t)))
    ensures r.cells[At(r, t)].request.None?
  {
    var r' := Next(r, Write(t));
    WriterIsInWindow(r, t);
    assert CellOk(r, t);
    forall p | r'.head <= p < r'.head + |r'.cells| ensures CellOk(r', p) {
      assert CellOk(r, p);
      if p != t && At(r, p) == At(r, t) { WindowIsInjective(|r.cells|, r.head, p, t); }
    }
  }

  lemma {:induction false} PublishKeepsInv(r: Ring, t: nat)
    requires Inv(r) && Enabled(r, Publish(t))
    ensures Inv(Next(r, Publish(t)))
  {
    var r' := Next(r, Publish(t));
    assert CellOk(r, t);
    forall p | r'.head <= p < r'.head + |r'.cells| ensures CellOk(r', p) {
      assert CellOk(r, p);
      if p != t && At(r, p) == At(r, t) { WindowIsInjective(|r.cells|, r.head, p, t); }
    }
  }

  lemma {:induction false} PollKeepsInv(r: Ring)
    requires Inv(r) && Enabled(r, Poll)
    ensures Inv(Next(r, Poll))
  {
    var r' := Next(r, Poll);
    assert CellOk(r, r.head);
    forall p | r'.head <= p < r'.head + |r'.cells| ensures CellOk(r', p) {
      assert CellOk(r, p);
      if p != r.head && At(r, p) == At(r, r.head) { WindowIsInjective(|r.cells|, r.head, p, r.head); }
    }
  }

  lemma {:induction false} ReleaseKeepsInv(r: Ring)
    requires Inv(r) && Enabled(r, Release)
    ensures Inv(Next(r, Release))
    ensures r.head < r.tail && Next(r, Release).served == r.served + [r.log[r.head]]
  {
    var r' := Next(r, Release);
    assert CellOk(r, r.head);
    forall p | r'.head <= p < r'.head + |r'.cells| ensures CellOk(r', p) {
      if p == r.head + |r.cells| {
        StepBack(|r.cells|, p);
        assert At(r, p) == At(r, r.head);
      } else {
        assert CellOk(r, p);
        if At(r, p) == At(r, r.head) { WindowIsInjective(|r.cells|, r.head, p, r.head); }
      }
    }
    assert r.log[..r.head + 1] == r.log[..r.head] + [r.log[r.head]];
  }

  lemma {:induction false} WorkerKeepsInv(r: Ring, e: Event)
    requires Inv(r) && Enabled(r, e) && (e.LoadExit? || e.LoadTail? || e.SetExit?)
    ensures Inv(Next(r, e))
  {
    var r' := Next(r, e);
    forall p | r'.head <= p < r'.head + |r'.cells| ensures CellOk(r', p) {
      assert CellOk(r, p);
    }
  }

  lemma {:induction false} StepKeepsInv(r: Ring, e: Event)
    requires Inv(r) && Enabled(r, e)
    ensures Inv(Next(r, e))
  {
    match e
    case Submit(q) => SubmitKeepsInv(r, q);
    case Write(t) => WriteKeepsInv(r, t);
    case Publish(t) => PublishKeepsInv(r, t);
    case Poll => PollKeepsInv(r);
    case Release => ReleaseKeepsInv(r);
    case LoadExit => WorkerKeepsInv(r, e);
    case LoadTail => WorkerKeepsInv(r, e);
    case SetExit => WorkerKeepsInv(r, e);
  }

  // ---------------------------------------------------------------- every run

  lemma {:induction false} ResetInv(n: nat)
    requires 2 <= n
    ensures Inv(Reset(n))
  {
    hide CellOk;
    forall p: nat | p < n ensures CellOk(Reset(n), p) { ResetCell(n, p); }
  }

  lemma {:induction false} ResetCell(n: nat, p: nat)
    requires p < n
    ensures CellOk(Reset(n), p)
  {
    WindowIsInjective(n, 0, p, p % n);
    assert At(Reset(n), p) == p;
  }

  lemma {:induction false} RunKeepsInv(n: nat, states: seq<Ring>, events: seq<Event>, k: nat)
    requires 2 <= n && IsRun(n, states, events) && k < |states| && states[0] == Reset(n)
    ensures Inv(states[k])
  {
    hide Inv, Enabled, Next;
    if k == 0 {
      ResetInv(n);
    } else {
      RunKeepsInv(n, states, events, k - 1);
      StepKeepsInv(states[k - 1], events[k - 1]);
    }
  }

  /** In every run, with any number of producers, what has been popped is exactly the
      requests of tickets 0, 1, ..., head - 1: each once, in ticket order. */
  lemma {:induction false} PoppedOnceInTicketOrder(n: nat, states: seq<Ring>, events: seq<Event>, k: nat)
    requires 2 <= n && IsRun(n, states, events) && k < |states| && states[0] == Reset(n)
    ensures var r := states[k];
            r.head <= r.tail == |r.log| && r.served == r.log[..r.head]
  {
    RunKeepsInv(n, states, events, k);
  }

  /** No producer ever stores into a cell whose previous request is still unread. */
  lemma {:induction false} NothingIsOverwritten(n: nat, states: seq<Ring>, events: seq<Event>, k: nat)
    requires 2 <= n && IsRun(n, states, events) && k < |events| && states[0] == Reset(n)
    requires events[k].Write?
    ensures states[k].cells[At(states[k], events[k].ticket)].request.None?
    ensures states[k].head <= events[k].ticket < states[k].head + n
  {
    RunKeepsInv(n, states, events, k);
    WriteKeepsInv(states[k], events[k].ticket);
    WriterIsInWindow(states[k], events[k].ticket);
  }

  ghost predicate NoLateSubmit(states: seq<Ring>, events: seq<Event>)
    requires |states| == |events| + 1
  {
    forall k :: 0 <= k < |events| && states[k].exit ==> !events[k].Submit?
  }

  /** If nobody submits once the exit flag is up, a worker that has exited has served
      every ticket that was ever drawn. */
  lemma {:induction false} ExitedWorkerServedAll(n: nat, states: seq<Ring>, events: seq<Event>, k: nat)
    requires 2 <= n && IsRun(n, states, events) && k < |states| && states[0] == Reset(n)
    requires NoLateSubmit(states, events) && states[k].worker.Done?
    ensures states[k].served == states[k].log && states[k].pending == map[]
  {
    RunKeepsInv(n, states, events, k);
    DoneMeansDrained(n, states, events, k);
    assert forall t :: t in states[k].pending ==> false;
    assert states[k].log[..states[k].tail] == states[k].log;
  }

  lemma {:induction false} DoneMeansDrained(n: nat, states: seq<Ring>, events: seq<Event>, k: nat)
    requires 2 <= n && IsRun(n, states, events) && k < |states| && states[0] == Reset(n)
    requires NoLateSubmit(states, events) && states[k].worker.Done?
    ensures states[k].head == states[k].tail
  {
    RunKeepsInv(n, states, events, k - 1);
    if states[k - 1].worker.Done? {
      DoneMeansDrained(n, states, events, k - 1);
    }
  }

  // ---------------------------------------------------------------- progress

  /** Steps until the oldest ticket is served: its producer's, then the worker's. */
  function Stage(r: Ring): nat
    requires 0 < |r.cells|
  {
    if r.worker.Taken? then 1
    else
      (if r.cells[At(r, r.head)].seqno == r.head + 1 then 2
       else if r.head in r.pending && r.pending[r.head].Written? then 3 else 4)
      + if r.worker.SawEmpty? then 2 else if r.worker.SawExit? then 1 else 0
  }

  /** Steps until every ticket drawn so far is served, at most. */
  function Rank(r: Ring): nat
    requires 0 < |r.cells|
  {
    if r.head < r.tail then Stage(r) + 6 * (r.tail - r.head - 1) else 0
  }

  /** While a ticket is unserved and the worker has not exited, there is a step, and not a
      new submission, that brings the oldest ticket closer to being served. */
  lemma {:induction false} OldestTicketCanMove(r: Ring) returns (e: Event)
    requires Inv(r) && r.head < r.tail && !r.worker.Done?
    ensures Enabled(r, e) && !e.Submit? && !e.SetExit?
    ensures Inv(Next(r, e)) && !Next(r, e).worker.Done? && Next(r, e).log == r.log
    ensures Rank(Next(r, e)) < Rank(r)
  {
    assert CellOk(r, r.head);
    e := if r.worker.Taken? then Release
         else if r.worker.SawEmpty? then LoadExit
         else if r.worker.SawExit? then LoadTail
         else if r.head !in r.pending then Poll
         else if r.pending[r.head].Reserved? then Write(r.head)
         else Publish(r.head);
    StepKeepsInv(r, e);
  }

  predicate Runs(r: Ring, events: seq<Event>)
    decreases |events|
  {
    events == [] || (0 < |r.cells| && Enabled(r, events[0]) && Runs(Next(r, events[0]), events[1..]))
  }

  function After(r: Ring, events: seq<Event>): Ring
    requires Runs(r, events)
    decreases |events|
  {
    if events == [] then r else After(Next(r, events[0]), events[1..])
  }

  /** From every state before the worker exits there is a bounded run that serves every
      ticket drawn so far, in order. */
  lemma {:induction false} EveryTicketCanBeServed(r: Ring) returns (events: seq<Event>)
    requires Inv(r) && !r.worker.Done?
    ensures |events| <= Rank(r) <= 6 * (r.tail - r.head)
    ensures Runs(r, events) && After(r, events).served == r.log && !After(r, events).worker.Done?
    decreases Rank(r)
  {
    if r.head < r.tail {
      var e := OldestTicketCanMove(r);
      var rest := EveryTicketCanBeServed(Next(r, e));
      events := [e] + rest;
      assert events[1..] == rest;
    } else {
      events := [];
      assert r.log[..r.head] == r.log;
    }
  }

  /** The bound on the ring size is real: with one cell, two producers lose a request. */
  lemma {:induction false} OneCellLosesARequest(a: nat, b: nat)
    requires a != b
    ensures var s0 := Reset(1);
            var s2 := Next(Next(s0, Submit(a)), Submit(b));
            && Enabled(s2, Write(0)) && Enabled(Next(s2, Write(0)), Publish(0))
            && var s4 := Next(Next(s2, Write(0)), Publish(0));
               Enabled(s4, Write(1)) && s4.cells[0].request == Some(a)
               && Next(s4, Write(1)).cells[0].request == Some(b) && s4.head == 0
  {
    var s2 := Next(Next(Reset(1), Submit(a)), Submit(b));
    assert s2.log == [a, b];
  }
}
