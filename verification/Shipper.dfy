/**
 * The batch shipper shared by the remote log sinks, as interleaved steps of any number of
 * emitters, one runner goroutine and any number of closers.
 */
module Shipper {
  const QUEUE_SIZE := 1024
  const BATCH_EVENTS := 64
  const BATCH_BYTES := 0x4_0000
  const SEND_ATTEMPTS := 2

  type Payload = seq<int>  // an event's JSON encoding, of which only the length steers the runner

  /** Where the runner is. `Sending` counts failed attempts; `last` marks the delivery after the final drain. */
  datatype Runner = Selecting | Draining | Sending(failed: nat, last: bool) | Exited

  /** A batch that was sent, or given up; `final` marks what the final drain flushed. */
  datatype Outcome = Outcome(batch: seq<Payload>, delivered: bool, final: bool)

  datatype State = State(
    queue: seq<Payload>,
    closed: bool,             // the atomic flag
    done: bool,               // the closed channel that wakes the runner
    dropped: nat,             // the atomic counter
    batch: seq<Payload>,
    batchBytes: nat,
    runner: Runner,
    checked: map<nat, Payload>,  // emitters that saw closed == false and have not sent yet
    // what happened so far, for the claims below
    accepted: seq<Payload>,
    refused: seq<Payload>,
    outcomes: seq<Outcome>,
    acceptedAtClose: seq<Payload>,
    refusedAtClose: seq<Payload>)

  const START := State([], false, false, 0, [], 0, Selecting, map[], [], [], [], [], [])

  datatype Action =
    | Check(emitter: nat, payload: Payload)  // Emit: load the flag
    | Send(emitter: nat)                     // Emit: the non-blocking send
    | Close                                  // Close: compare-and-swap the flag
    | Signal                                 // Close: close the done channel
    | Receive                                // run: take a payload from the queue
    | Tick                                   // run: the flush ticker fires
    | Stop                                   // run: the done channel is chosen
    | Drain                                  // run: one turn of the final drain
    | Attempt(ok: bool)                      // deliver: one send attempt returns

  function TotalBytes(ps: seq<Payload>): nat {
    if ps == [] then 0 else TotalBytes(ps[..|ps| - 1]) + |ps[|ps| - 1]|
  }

  function Concat(outcomes: seq<Outcome>): seq<Payload> {
    if outcomes == [] then [] else Concat(outcomes[..|outcomes| - 1]) + outcomes[|outcomes| - 1].batch
  }

  function Failed(outcomes: seq<Outcome>): nat {
    if outcomes == [] then 0
    else
      var o := outcomes[|outcomes| - 1];
      Failed(outcomes[..|outcomes| - 1]) + (if o.delivered then 0 else |o.batch|)
  }

  // ----- the steps -----

  predicate Enabled(s: State, a: Action) {
    match a
    case Check(e, _) => e !in s.checked
    case Send(e) => e in s.checked
    case Close => !s.closed
    case Signal => s.closed && !s.done
    case Receive => s.runner == Selecting && s.queue != []
    case Tick => s.runner == Selecting
    case Stop => s.runner == Selecting && s.done
    case Drain => s.runner == Draining
    case Attempt(_) => s.runner.Sending?
  }

  /** flush: deliver returns at once on an empty batch, otherwise the send attempts begin. */
  function Flush(s: State, last: bool): State {
    if s.batch == [] then s.(batchBytes := 0, runner := if last then Exited else Selecting)
    else s.(runner := Sending(0, last))
  }

  function Finish(s: State, ok: bool, last: bool): State {
    s.(outcomes := s.outcomes + [Outcome(s.batch, ok, last)],
       dropped := s.dropped + (if ok then 0 else |s.batch|),
       batch := [], batchBytes := 0,
       runner := if last then Exited else Selecting)
  }

  function Step(s: State, a: Action): State
    requires Enabled(s, a)
  {
    match a
    case Check(e, p) =>
      if s.closed then s.(dropped := s.dropped + 1, refused := s.refused + [p])
      else s.(checked := s.checked[e := p])
    case Send(e) =>
      var p, t := s.checked[e], s.(checked := s.checked - {e});
      if |s.queue| < QUEUE_SIZE then t.(queue := s.queue + [p], accepted := s.accepted + [p])
      else t.(dropped := s.dropped + 1, refused := s.refused + [p])
    case Close => s.(closed := true, acceptedAtClose := s.accepted, refusedAtClose := s.refused)
    case Signal => s.(done := true)
    case Receive =>
      var p := s.queue[0];
      var t := s.(queue := s.queue[1..], batch := s.batch + [p], batchBytes := s.batchBytes + |p|);
      if |t.batch| >= BATCH_EVENTS || t.batchBytes >= BATCH_BYTES then Flush(t, false) else t
    case Tick => Flush(s, false)
    case Stop => s.(runner := Draining)
    case Drain =>
      if s.queue != [] then s.(queue := s.queue[1..], batch := s.batch + [s.queue[0]])
      else Flush(s, true)
    case Attempt(ok) =>
      if ok || s.runner.failed + 1 >= SEND_ATTEMPTS then Finish(s, ok, s.runner.last)
      else s.(runner := Sending(s.runner.failed + 1, s.runner.last))
  }

  ghost predicate Execution(states: seq<State>, actions: seq<Action>) {
    && |states| == |actions| + 1
    && states[0] == START
    && forall i :: 0 <= i < |actions| ==> Enabled(states[i], actions[i]) && states[i + 1] == Step(states[i], actions[i])
  }

  // ----- the invariant -----

  /** Nothing is lost, invented or reordered, and every loss is counted. */
  ghost predicate Conserves(s: State) {
    && s.accepted == Concat(s.outcomes) + s.batch + s.queue
    && s.dropped == |s.refused| + Failed(s.outcomes)
  }

  /** A batch that has not crossed a limit: room for one more event, and bytes below the limit. */
  predicate Open(batch: seq<Payload>) {
    |batch| < BATCH_EVENTS && TotalBytes(batch) < BATCH_BYTES
  }

  /** A batch of the normal loop: all but its last event left it open. */
  predicate Bounded(batch: seq<Payload>) {
    batch != [] && Open(batch[..|batch| - 1])
  }

  ghost predicate BatchesBounded(s: State) {
    && (forall i :: 0 <= i < |s.outcomes| && !s.outcomes[i].final ==> Bounded(s.outcomes[i].batch))
    && (s.runner == Selecting ==> Open(s.batch) && s.batchBytes == TotalBytes(s.batch))
    && (s.runner.Sending? && !s.runner.last ==> Bounded(s.batch))
    && (s.runner.Sending? ==> s.batch != [] && s.runner.failed < SEND_ATTEMPTS)
    && (s.runner == Exited ==> s.batch == [])
  }

  /** Past the final drain, everything accepted before Close has left the queue. */
  ghost predicate ClosesCleanly(s: State) {
    && (s.done ==> s.closed)
    && (s.runner == Draining || s.runner == Exited || (s.runner.Sending? && s.runner.last) ==> s.done)
    && (s.closed ==> s.acceptedAtClose <= s.accepted && s.refusedAtClose <= s.refused)
    && (s.runner.Sending? && s.runner.last ==> s.acceptedAtClose <= Concat(s.outcomes) + s.batch)
    && (s.runner == Exited ==> s.acceptedAtClose <= Concat(s.outcomes))
    && |s.queue| <= QUEUE_SIZE
  }

  ghost predicate Inv(s: State) {
    Conserves(s) && BatchesBounded(s) && ClosesCleanly(s)
  }

  lemma ConcatOne(outcomes: seq<Outcome>, o: Outcome)
    ensures Concat(outcomes + [o]) == Concat(outcomes) + o.batch
    ensures Failed(outcomes + [o]) == Failed(outcomes) + (if o.delivered then 0 else |o.batch|)
  {
    assert (outcomes + [o])[..|outcomes|] == outcomes;
  }

  lemma TotalOne(ps: seq<Payload>, p: Payload)
    ensures TotalBytes(ps + [p]) == TotalBytes(ps) + |p|
  {
    assert (ps + [p])[..|ps|] == ps;
  }

  lemma TakeHead(front: seq<Payload>, batch: seq<Payload>, queue: seq<Payload>)
    requires queue != []
    ensures front + (batch + [queue[0]]) + queue[1..] == front + batch + queue
  {
  }

  lemma FinishConserves(s: State, ok: bool, last: bool)
    requires Conserves(s)
    ensures Conserves(Finish(s, ok, last))
  {
    ConcatOne(s.outcomes, Outcome(s.batch, ok, last));
    hide Concat, Failed;
  }

  lemma StepConserves(s: State, a: Action)
    requires Conserves(s) && Enabled(s, a)
    ensures Conserves(Step(s, a))
  {
    hide Concat, Failed, TotalBytes, Finish;
    match a
    case Attempt(ok) => FinishConserves(s, ok, s.runner.last);
    case Receive => TakeHead(Concat(s.outcomes), s.batch, s.queue);
    case Drain =>
      if s.queue != [] {
        TakeHead(Concat(s.outcomes), s.batch, s.queue);
      }
    case Send(e) => assert Concat(s.outcomes) + s.batch + (s.queue + [s.checked[e]]) == Concat(s.outcomes) + s.batch + s.queue + [s.checked[e]];
    case _ =>
  }

  lemma ReceiveBounded(s: State)
    requires BatchesBounded(s) && Enabled(s, Receive)
    ensures BatchesBounded(Step(s, Receive))
  {
    hide TotalBytes, Open;
    var p := s.queue[0];
    var batch := s.batch + [p];
    TotalOne(s.batch, p);
    assert batch[..|batch| - 1] == s.batch;
    assert Bounded(batch);
    OpenExactly(batch);
    hide Bounded;
  }

  lemma OpenExactly(batch: seq<Payload>)
    ensures Open(batch) <==> |batch| < BATCH_EVENTS && TotalBytes(batch) < BATCH_BYTES
  {
    hide TotalBytes;
  }

  lemma EmptyOpen()
    ensures Open([]) && TotalBytes([]) == 0
  {
  }

  lemma FinishBounded(s: State, ok: bool, last: bool)
    requires BatchesBounded(s) && s.runner.Sending? && s.runner.last == last
    ensures BatchesBounded(Finish(s, ok, last))
  {
    hide Bounded, Open, TotalBytes;
    EmptyOpen();
  }

  lemma StepBounded(s: State, a: Action)
    requires BatchesBounded(s) && Enabled(s, a)
    ensures BatchesBounded(Step(s, a))
  {
    match a
    case Receive => ReceiveBounded(s);
    case Attempt(ok) =>
      hide Bounded, Open, TotalBytes, Finish;
      FinishBounded(s, ok, s.runner.last);
    case _ =>
      hide TotalBytes;
      EmptyOpen();
  }

  lemma StepCloses(s: State, a: Action)
    requires Conserves(s) && BatchesBounded(s) && ClosesCleanly(s) && Enabled(s, a)
    ensures ClosesCleanly(Step(s, a))
  {
    hide Concat, Failed, TotalBytes, Open, Bounded;
    match a
    case Attempt(ok) => ConcatOne(s.outcomes, Outcome(s.batch, ok, s.runner.last));
    case Drain => assert s.queue == [] ==> s.accepted == Concat(s.outcomes) + s.batch;
    case _ =>
  }

  /** The invariant holds in every state of every interleaving. */
  lemma {:induction false} ExecutionInv(states: seq<State>, actions: seq<Action>, n: nat)
    requires Execution(states, actions) && n < |states|
    ensures Inv(states[n])
  {
    if n > 0 {
      ExecutionInv(states, actions, n - 1);
      var s, a := states[n - 1], actions[n - 1];
      StepConserves(s, a);
      StepBounded(s, a);
      StepCloses(s, a);
    }
  }

  // ----- what a caller may rely on -----

  /** Every event ever emitted is sent, counted as dropped, in flight, or still waiting; batches keep their order. */
  lemma NothingLost(states: seq<State>, actions: seq<Action>, n: nat)
    requires Execution(states, actions) && n < |states|
    ensures var s := states[n];
      && s.accepted == Concat(s.outcomes) + s.batch + s.queue
      && s.dropped == |s.refused| + Failed(s.outcomes)
  {
    ExecutionInv(states, actions, n);
  }

  /** The size and byte limits on batches; only what the final drain flushed may exceed them. */
  lemma BatchLimits(states: seq<State>, actions: seq<Action>, n: nat, i: nat)
    requires Execution(states, actions) && n < |states| && i < |states[n].outcomes|
    requires !states[n].outcomes[i].final
    ensures var batch := states[n].outcomes[i].batch;
      1 <= |batch| <= BATCH_EVENTS && TotalBytes(batch[..|batch| - 1]) < BATCH_BYTES
  {
    ExecutionInv(states, actions, n);
  }

  /**
   * Close returns only after the runner exited. By then each event whose Emit finished before
   * Close began was either refused and counted, or went out in a batch that was delivered or counted.
   */
  lemma CloseAccountsForAll(states: seq<State>, actions: seq<Action>, n: nat, i: nat)
    requires Execution(states, actions) && n < |states| && states[n].runner == Exited
    requires i < |actions| && actions[i] == Close
    ensures i < n
    ensures states[i].accepted <= Concat(states[n].outcomes)
    ensures states[i].refused <= states[n].refused
    ensures states[n].dropped == |states[n].refused| + Failed(states[n].outcomes)
  {
    ExecutionInv(states, actions, n);
    ClosedOnce(states, actions, i, n);
  }

  lemma {:induction false} ClosedOnce(states: seq<State>, actions: seq<Action>, i: nat, n: nat)
    requires Execution(states, actions) && n < |states| && i < |actions| && actions[i] == Close
    ensures n <= i ==> !states[n].closed
    ensures i < n ==> states[n].closed && states[n].acceptedAtClose == states[i].accepted && states[n].refusedAtClose == states[i].refused
    decreases if n <= i then i - n else n
  {
    if n == i {
      assert Enabled(states[i], Close);
    } else if n < i {
      ClosedOnce(states, actions, i, n + 1);
      assert states[n + 1] == Step(states[n], actions[n]);
    } else {
      ClosedOnceStep(states, actions, i, n);
    }
  }

  lemma {:induction false} ClosedOnceStep(states: seq<State>, actions: seq<Action>, i: nat, n: nat)
    requires Execution(states, actions) && i < n < |states| && i < |actions| && actions[i] == Close
    ensures states[n].closed && states[n].acceptedAtClose == states[i].accepted && states[n].refusedAtClose == states[i].refused
  {
    assert states[n] == Step(states[n - 1], actions[n - 1]);
    if n - 1 > i {
      ClosedOnceStep(states, actions, i, n - 1);
    }
  }

  // ----- every batch gets its two chances -----

  /** How often, before state `n`, a send attempt returned `ok` while `i` batches were finished. */
  ghost function Attempts(states: seq<State>, actions: seq<Action>, n: nat, i: nat, ok: bool): nat
    requires n <= |actions| && |states| == |actions| + 1
  {
    if n == 0 then 0
    else
      var now := if actions[n - 1] == Attempt(ok) && |states[n - 1].outcomes| == i then 1 else 0;
      Attempts(states, actions, n - 1, i, ok) + now
  }

  /** Only an attempt finishes a batch, and only one. */
  lemma StepOutcomes(s: State, a: Action)
    requires Enabled(s, a)
    ensures var t := Step(s, a);
      && (t.outcomes == s.outcomes || (a.Attempt? && t.outcomes == s.outcomes + [Outcome(s.batch, a.ok, s.runner.last)]))
      && (a.Attempt? ==> s.runner.Sending?)
      && (s.runner.Sending? && !a.Attempt? ==> t.runner == s.runner && t.batch == s.batch)
      && (a.Attempt? && t.outcomes == s.outcomes ==> !a.ok && t.batch == s.batch && t.runner == Sending(s.runner.failed + 1, s.runner.last))
      && (a.Attempt? && t.outcomes != s.outcomes ==> !t.runner.Sending?)
      && (!s.runner.Sending? && t.runner.Sending? ==> t.runner.failed == 0)
  {
    hide TotalBytes;
  }

  lemma {:induction false} NoAttemptsYet(states: seq<State>, actions: seq<Action>, n: nat, i: nat, ok: bool)
    requires Execution(states, actions) && n <= |actions| && |states[n].outcomes| < i
    ensures Attempts(states, actions, n, i, ok) == 0
  {
    hide Step;
    if n > 0 {
      assert states[n] == Step(states[n - 1], actions[n - 1]);
      StepOutcomes(states[n - 1], actions[n - 1]);
      NoAttemptsYet(states, actions, n - 1, i, ok);
    }
  }

  /** The batch that is being sent has failed as often as the runner counts, and never succeeded. */
  ghost predicate CurrentAttempts(states: seq<State>, actions: seq<Action>, n: nat)
    requires n <= |actions| && |states| == |actions| + 1
  {
    var s := states[n];
    && Attempts(states, actions, n, |s.outcomes|, true) == 0
    && Attempts(states, actions, n, |s.outcomes|, false) == if s.runner.Sending? then s.runner.failed else 0
  }

  lemma {:induction false} AttemptsCounted(states: seq<State>, actions: seq<Action>, n: nat)
    requires Execution(states, actions) && n <= |actions|
    ensures CurrentAttempts(states, actions, n)
  {
    hide Step;
    if n > 0 {
      var s, a := states[n - 1], actions[n - 1];
      AttemptsCounted(states, actions, n - 1);
      assert states[n] == Step(s, a);
      StepOutcomes(s, a);
      if |states[n].outcomes| > |s.outcomes| {
        NoAttemptsYet(states, actions, n - 1, |states[n].outcomes|, true);
        NoAttemptsYet(states, actions, n - 1, |states[n].outcomes|, false);
      }
    }
  }

  /** A finished batch stays what it is, and takes no more attempts. */
  lemma {:induction false} FinishedStays(states: seq<State>, actions: seq<Action>, m: nat, n: nat, i: nat)
    requires Execution(states, actions) && m <= n <= |actions| && i < |states[m].outcomes|
    ensures i < |states[n].outcomes| && states[n].outcomes[i] == states[m].outcomes[i]
    ensures forall ok :: Attempts(states, actions, n, i, ok) == Attempts(states, actions, m, i, ok)
    decreases n
  {
    hide Step;
    if m < n {
      FinishedStays(states, actions, m, n - 1, i);
      assert states[n] == Step(states[n - 1], actions[n - 1]);
      StepOutcomes(states[n - 1], actions[n - 1]);
    }
  }

  /** The attempt that finished batch `i`. */
  lemma {:induction false} FinishedBy(states: seq<State>, actions: seq<Action>, n: nat, i: nat) returns (j: nat)
    requires Execution(states, actions) && n <= |actions| && i < |states[n].outcomes|
    ensures j < n && |states[j].outcomes| == i && states[j].runner.Sending?
    ensures states[j + 1].outcomes == states[j].outcomes + [states[n].outcomes[i]]
    ensures actions[j] == Attempt(states[n].outcomes[i].delivered) && states[j].batch == states[n].outcomes[i].batch
  {
    assert n > 0;
    hide Step;
    var s, a := states[n - 1], actions[n - 1];
    assert states[n] == Step(s, a);
    StepOutcomes(s, a);
    if i < |s.outcomes| {
      j := FinishedBy(states, actions, n - 1, i);
    } else {
      j := n - 1;
    }
  }

  /** Attempt `j` is the last of batch `i`, and decides its outcome. */
  ghost predicate Finishes(states: seq<State>, actions: seq<Action>, j: nat, i: nat, o: Outcome)
    requires j < |actions| && |states| == |actions| + 1
  {
    && |states[j].outcomes| == i && states[j + 1].outcomes == states[j].outcomes + [o]
    && actions[j] == Attempt(o.delivered) && states[j].batch == o.batch
  }

  /**
   * Over every execution: a batch that was given up failed exactly twice, and one that was
   * delivered went out with one attempt that succeeded, after at most one that failed.
   */
  lemma AttemptsPerBatch(states: seq<State>, actions: seq<Action>, n: nat, i: nat)
    requires Execution(states, actions) && n < |states| && i < |states[n].outcomes|
    ensures var failures, successes := Attempts(states, actions, n, i, false), Attempts(states, actions, n, i, true);
      if states[n].outcomes[i].delivered then successes == 1 && failures <= 1 else successes == 0 && failures == 2
    ensures exists j: nat :: j < n && Finishes(states, actions, j, i, states[n].outcomes[i])
  {
    var j := FinishedBy(states, actions, n, i);
    hide Step;
    assert |states[j + 1].outcomes| == i + 1;
    assert Finishes(states, actions, j, i, states[n].outcomes[i]);
    AttemptsCounted(states, actions, j);
    ExecutionInv(states, actions, j);
    FinishedStays(states, actions, j + 1, n, i);
    hide Conserves, ClosesCleanly, Concat, Failed, TotalBytes;
  }

  /** While one batch is being sent it does not change: all its attempts are of the same events. */
  lemma {:induction false} SameBatch(states: seq<State>, actions: seq<Action>, j: nat, n: nat)
    requires Execution(states, actions) && j < n <= |actions|
    requires actions[j] == Attempt(false) && |states[n].outcomes| == |states[j].outcomes|
    ensures states[n].runner.Sending? && states[n].batch == states[j].batch
    decreases n
  {
    hide Step;
    assert states[n] == Step(states[n - 1], actions[n - 1]);
    StepOutcomes(states[n - 1], actions[n - 1]);
    OutcomesGrow(states, actions, j, n - 1);
    if j < n - 1 {
      SameBatch(states, actions, j, n - 1);
    }
  }

  lemma {:induction false} OutcomesGrow(states: seq<State>, actions: seq<Action>, m: nat, n: nat)
    requires Execution(states, actions) && m <= n <= |actions|
    ensures |states[m].outcomes| <= |states[n].outcomes|
    decreases n
  {
    if m < n {
      hide Step;
      OutcomesGrow(states, actions, m, n - 1);
      assert states[n] == Step(states[n - 1], actions[n - 1]);
      StepOutcomes(states[n - 1], actions[n - 1]);
    }
  }

  /**
   * A failed attempt costs its batch exactly when it is the second one; a success, or a first
   * failure, adds nothing to the dropped count.
   */
  lemma SecondFailureDrops(states: seq<State>, actions: seq<Action>, j: nat)
    requires Execution(states, actions) && j < |actions| && actions[j].Attempt?
    ensures var s, t := states[j], states[j + 1];
      var before := Attempts(states, actions, j, |s.outcomes|, false);
      && before <= 1
      && t.dropped == s.dropped + (if !actions[j].ok && before == 1 then |s.batch| else 0)
      && (t.runner.Sending? <==> !actions[j].ok && before == 0)
      && (t.runner.Sending? ==> t.batch == s.batch)
      && (!t.runner.Sending? ==> t.outcomes == s.outcomes + [Outcome(s.batch, actions[j].ok, s.runner.last)] && t.batch == [])
  {
    AttemptsCounted(states, actions, j);
    ExecutionInv(states, actions, j);
    assert Enabled(states[j], actions[j]) && states[j + 1] == Step(states[j], actions[j]);
    hide Conserves, ClosesCleanly, Concat, Failed, TotalBytes;
  }

  // ----- when a batch goes out, and when an event is refused -----

  /**
   * In the normal loop a batch goes out at a tick, unless it is empty, and with the event that
   * makes it 64 or 256 KiB; it is then all that was collected. Nothing else starts a delivery.
   */
  lemma GoesOutExactly(states: seq<State>, actions: seq<Action>, j: nat)
    requires Execution(states, actions) && j < |actions| && states[j].runner == Selecting
    ensures var s, a, t := states[j], actions[j], states[j + 1];
      var collected := if a == Receive then s.batch + [s.queue[0]] else s.batch;
      && (a == Receive ==> s.queue != [])
      && t.batch == collected
      && (t.runner.Sending? <==> collected != [] && (a == Tick || (a == Receive && (|collected| >= 64 || TotalBytes(collected) >= 262144))))
      && (t.runner.Sending? ==> t.runner == Sending(0, false))
      && (!t.runner.Sending? ==> t.runner == if a == Stop then Draining else Selecting)
  {
    hide Step, Conserves, ClosesCleanly, BatchesBounded, TotalBytes;
    ExecutionInv(states, actions, j);
    assert Enabled(states[j], actions[j]) && states[j + 1] == Step(states[j], actions[j]);
    GoesOut(states[j], actions[j]);
  }

  lemma GoesOut(s: State, a: Action)
    requires BatchesBounded(s) && Enabled(s, a) && s.runner == Selecting
    ensures var t := Step(s, a);
      var collected := if a == Receive then s.batch + [s.queue[0]] else s.batch;
      && t.batch == collected
      && (t.runner.Sending? <==> collected != [] && (a == Tick || (a == Receive && (|collected| >= 64 || TotalBytes(collected) >= 262144))))
      && (t.runner.Sending? ==> t.runner == Sending(0, false))
      && (!t.runner.Sending? ==> t.runner == if a == Stop then Draining else Selecting)
  {
    hide TotalBytes, Open, Bounded;
    if a == Receive {
      TotalOne(s.batch, s.queue[0]);
    }
  }

  /** An event is refused exactly when its Emit finds the flag set, or the queue with 1024 events. */
  lemma RefusedExactly(s: State, a: Action)
    requires Enabled(s, a)
    ensures a.Check? ==>
      if s.closed then Step(s, a).refused == s.refused + [a.payload] && Step(s, a).dropped == s.dropped + 1
      else Step(s, a) == s.(checked := s.checked[a.emitter := a.payload])
    ensures a.Send? ==>
      var p, t := s.checked[a.emitter], Step(s, a);
      if |s.queue| < 1024 then t.queue == s.queue + [p] && t.refused == s.refused && t.dropped == s.dropped
      else t.queue == s.queue && t.refused == s.refused + [p] && t.dropped == s.dropped + 1
    ensures !a.Check? && !a.Send? ==> Step(s, a).refused == s.refused && Step(s, a).accepted == s.accepted
  {
  }

  // ----- when an event can be stranded -----

  ghost predicate Playable(s: State, actions: seq<Action>)
    decreases |actions|
  {
    actions != [] ==> Enabled(s, actions[0]) && Playable(Step(s, actions[0]), actions[1..])
  }

  ghost function After(s: State, actions: seq<Action>): State
    requires Playable(s, actions)
    decreases |actions|
  {
    if actions == [] then s else After(Step(s, actions[0]), actions[1..])
  }

  lemma PlayOne(s: State, a: Action)
    requires Enabled(s, a)
    ensures Playable(s, [a]) && After(s, [a]) == Step(s, a)
  {
    hide Step, Enabled;
    assert [a][1..] == [];
  }

  lemma {:induction false} PlayConcat(s: State, first: seq<Action>, second: seq<Action>)
    requires Playable(s, first) && Playable(After(s, first), second)
    ensures Playable(s, first + second) && After(s, first + second) == After(After(s, first), second)
    decreases |first|
  {
    hide Step, Enabled;
    if first == [] {
      assert first + second == second;
    } else {
      assert (first + second)[1..] == first[1..] + second;
      PlayConcat(Step(s, first[0]), first[1..], second);
    }
  }

  lemma PlayThen(s: State, first: seq<Action>, a: Action)
    requires Playable(s, first) && Enabled(After(s, first), a)
    ensures Playable(s, first + [a]) && After(s, first + [a]) == Step(After(s, first), a)
  {
    hide Step, Enabled;
    PlayOne(After(s, first), a);
    PlayConcat(s, first, [a]);
  }

  /** The flag is set, no Emit is past its check, and whoever finished draining left nothing behind. */
  ghost predicate Sealed(s: State) {
    && s.closed && s.checked == map[]
    && (s.runner == Exited || (s.runner.Sending? && s.runner.last) ==> s.queue == [])
  }

  lemma {:induction false} SealedPlay(s: State, actions: seq<Action>)
    requires Sealed(s) && Playable(s, actions)
    ensures Sealed(After(s, actions))
    decreases |actions|
  {
    if actions != [] {
      SealedStep(s, actions[0]);
      SealedPlay(Step(s, actions[0]), actions[1..]);
    }
  }

  lemma SealedStep(s: State, a: Action)
    requires Sealed(s) && Enabled(s, a)
    ensures Sealed(Step(s, a))
  {
  }

  /** The final drain can always be played to its end. */
  lemma {:induction false} DrainOut(s: State) returns (actions: seq<Action>)
    requires s.runner == Draining
    ensures Playable(s, actions)
    ensures var t := After(s, actions); t.runner == Exited && t.queue == [] && t.checked == s.checked
    decreases |s.queue|
  {
    PlayOne(s, Drain);
    var t := Step(s, Drain);
    if s.queue != [] {
      var rest := DrainOut(t);
      actions := [Drain] + rest;
      PlayConcat(s, [Drain], rest);
    } else if t.runner == Exited {
      actions := [Drain];
    } else {
      actions := [Drain, Attempt(true)];
      PlayThen(s, [Drain], Attempt(true));
      assert [Drain] + [Attempt(true)] == actions;
    }
  }

  /** Finish what is being sent, close, signal, and let the runner choose the done channel. */
  lemma ReachDraining(s: State) returns (actions: seq<Action>)
    requires ClosesCleanly(s) && BatchesBounded(s) && !s.closed
    ensures actions != [] && actions[0] == Close && Playable(s, actions)
    ensures After(s, actions).runner == Draining && After(s, actions).checked == s.checked
  {
    hide BatchesBounded, Open, Bounded, TotalBytes, Concat;
    PlayOne(s, Close);
    actions := [Close];
    if s.runner.Sending? {
      PlayThen(s, actions, Attempt(true));
      actions := actions + [Attempt(true)];
    }
    PlayThen(s, actions, Signal);
    actions := actions + [Signal];
    PlayThen(s, actions, Stop);
    actions := actions + [Stop];
  }

  /** The runner has left and an event is still queued. */
  ghost predicate Strands(s: State, actions: seq<Action>) {
    && actions != [] && actions[0] == Close && Playable(s, actions)
    && After(s, actions).runner == Exited && After(s, actions).queue != []
  }

  lemma StrandOne(s: State, e: nat) returns (actions: seq<Action>)
    requires ClosesCleanly(s) && BatchesBounded(s) && !s.closed && e in s.checked
    ensures Strands(s, actions) && After(s, actions).queue == [s.checked[e]]
  {
    hide ClosesCleanly, BatchesBounded, Playable, After;
    var first := ReachDraining(s);
    var second := DrainOut(After(s, first));
    PlayConcat(s, first, second);
    PlayThen(s, first + second, Send(e));
    actions := first + second + [Send(e)];
  }

  lemma NoneStranded(s: State, actions: seq<Action>)
    requires ClosesCleanly(s) && !s.closed && s.checked == map[]
    ensures !Strands(s, actions)
  {
    hide Concat;
    if actions != [] && actions[0] == Close && Playable(s, actions) {
      SealedPlay(Step(s, Close), actions[1..]);
    }
  }

  /** A state that some interleaving reaches. */
  ghost predicate Reachable(s: State) {
    exists states, actions :: Execution(states, actions) && states[|actions|] == s
  }

  /**
   * In any reachable state in which Close can begin, it can leave an event behind exactly when
   * some Emit is past its check of the flag. Otherwise nothing is left, however the steps interleave.
   */
  lemma StrandingExactly(s: State)
    requires Reachable(s) && !s.closed
    ensures s.checked != map[] <==> exists actions :: Strands(s, actions)
  {
    var states, acts :| Execution(states, acts) && states[|acts|] == s;
    ExecutionInv(states, acts, |acts|);
    hide Execution, ClosesCleanly, BatchesBounded, Conserves, Strands;
    if s.checked != map[] {
      var e :| e in s.checked;
      var actions := StrandOne(s, e);
    } else {
      forall actions ensures !Strands(s, actions) {
        NoneStranded(s, actions);
      }
    }
  }

  /** Then every accepted event has gone out in a batch that was delivered or counted. */
  lemma NothingLeftBehind(s: State, actions: seq<Action>)
    requires Inv(s) && !s.closed && s.checked == map[]
    requires actions != [] && actions[0] == Close && Playable(s, actions) && After(s, actions).runner == Exited
    ensures var t := After(s, actions); t.queue == [] && t.accepted == Concat(t.outcomes)
  {
    SealedPlay(Step(s, Close), actions[1..]);
    InvPlay(s, actions);
    hide Concat, Failed, TotalBytes;
  }

  lemma {:induction false} InvPlay(s: State, actions: seq<Action>)
    requires Inv(s) && Playable(s, actions)
    ensures Inv(After(s, actions))
    decreases |actions|
  {
    hide Conserves, BatchesBounded, ClosesCleanly, Step, Enabled;
    if actions != [] {
      StepConserves(s, actions[0]);
      StepBounded(s, actions[0]);
      StepCloses(s, actions[0]);
      InvPlay(Step(s, actions[0]), actions[1..]);
    }
  }

  /** The smallest such run: one Emit that checked the flag before Close and sends after the runner left. */
  lemma LateEmitCanBeStranded(p: Payload)
    ensures exists s, actions :: Reachable(s) && !s.closed && Strands(s, actions) && After(s, actions).queue == [p]
  {
    var s := Step(START, Check(0, p));
    var states := [START, s];
    assert Execution(states, [Check(0, p)]) && states[|[Check(0, p)]|] == s;
    ExecutionInv(states, [Check(0, p)], 1);
    hide Execution, ClosesCleanly, BatchesBounded, Conserves, Strands;
    var actions := StrandOne(s, 0);
    assert After(s, actions).queue == [p];
  }
}
