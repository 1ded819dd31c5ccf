/** The ordered, batched sender of events in `apps/runner/src/worker.ts`. Each step is what runs
    between two awaits, so events can be emitted and flushes asked for while a batch is under way.
    `Step` says what each does, the class does it, and the statements are about every sequence. */
module JobEvents {
  const MAX_EVENTS_PER_BATCH: nat := 200
  const MAX_BATCH_BYTES: nat := 1_500_000

  /** `bytes` is the length of the event as JSON. */
  datatype Event = Event(number: nat, bytes: nat, content: string)

  function Bytes(events: seq<Event>): nat {
    if events == [] then 0 else Bytes(events[..|events| - 1]) + events[|events| - 1].bytes
  }

  function Joined(batches: seq<seq<Event>>): seq<Event> {
    if batches == [] then [] else Joined(batches[..|batches| - 1]) + batches[|batches| - 1]
  }

  lemma JoinedOneMore(batches: seq<seq<Event>>, batch: seq<Event>)
    ensures Joined(batches + [batch]) == Joined(batches) + batch
  {
    assert (batches + [batch])[..|batches|] == batches;
  }

  /** The batch is the longest start of the queue within both limits; a single event goes out
      whatever its size. */
  ghost predicate IsBatch(queue: seq<Event>, batch: seq<Event>) {
    && batch <= queue && |batch| <= MAX_EVENTS_PER_BATCH
    && (queue != [] ==> batch != [])
    && (|batch| > 1 ==> Bytes(batch) <= MAX_BATCH_BYTES)
    && (|batch| < |queue| && |batch| < MAX_EVENTS_PER_BATCH ==> Bytes(queue[..|batch| + 1]) > MAX_BATCH_BYTES)
  }

  /** What the control plane accepts in one call, unless a single event is too large by itself. */
  ghost predicate WithinLimits(batch: seq<Event>) {
    |batch| <= MAX_EVENTS_PER_BATCH && (|batch| > 1 ==> Bytes(batch) <= MAX_BATCH_BYTES)
  }

  ghost predicate AllWithinLimits(batches: seq<seq<Event>>) {
    forall i :: 0 <= i < |batches| ==> WithinLimits(batches[i])
  }

  lemma {:induction false} BytesGrow(events: seq<Event>, n: nat)
    requires n <= |events|
    ensures Bytes(events[..n]) <= Bytes(events)
    decreases |events|
  {
    if n == |events| {
      assert events[..n] == events;
    } else {
      var front := events[..|events| - 1];
      BytesGrow(front, n);
      assert front[..n] == events[..n];
    }
  }

  lemma PrefixBytes(queue: seq<Event>, batch: seq<Event>, n: nat)
    requires batch <= queue && n <= |batch|
    ensures Bytes(queue[..n]) <= Bytes(batch)
  {
    BytesGrow(batch, n);
    assert batch[..n] == queue[..n];
  }

  /** The queue decides its batch. */
  lemma BatchIsUnique(queue: seq<Event>, a: seq<Event>, b: seq<Event>)
    requires IsBatch(queue, a) && IsBatch(queue, b)
    ensures a == b
  {
    NotShorter(queue, a, b);
    NotShorter(queue, b, a);
    assert a == queue[..|a|] && b == queue[..|b|];
  }

  lemma NotShorter(queue: seq<Event>, a: seq<Event>, b: seq<Event>)
    requires IsBatch(queue, a) && IsBatch(queue, b)
    ensures |b| <= |a|
  {
    if |a| < |b| {
      PrefixBytes(queue, b, |a| + 1);
    }
  }

  /** From `n` events on: as long as another one fits, and the first one always. */
  function BatchLength(queue: seq<Event>, n: nat): (r: nat)
    requires n <= |queue|
    ensures n <= r <= |queue|
    decreases |queue| - n
  {
    if n < |queue| && n < MAX_EVENTS_PER_BATCH && (n == 0 || Bytes(queue[..n + 1]) <= MAX_BATCH_BYTES)
    then BatchLength(queue, n + 1)
    else n
  }

  function BatchOf(queue: seq<Event>): seq<Event> {
    queue[..BatchLength(queue, 0)]
  }

  lemma {:induction false} BatchLengthFits(queue: seq<Event>, n: nat)
    requires n <= |queue| && n <= MAX_EVENTS_PER_BATCH && (n > 1 ==> Bytes(queue[..n]) <= MAX_BATCH_BYTES)
    requires n > 0 || queue == [] || BatchLength(queue, n) > 0
    ensures IsBatch(queue, queue[..BatchLength(queue, n)])
    decreases |queue| - n
  {
    if n < |queue| && n < MAX_EVENTS_PER_BATCH && (n == 0 || Bytes(queue[..n + 1]) <= MAX_BATCH_BYTES) {
      BatchLengthFits(queue, n + 1);
    }
  }

  lemma BatchOfIsBatch(queue: seq<Event>)
    ensures IsBatch(queue, BatchOf(queue))
  {
    BatchLengthFits(queue, 0);
  }

  method NextBatch(queue: seq<Event>) returns (batch: seq<Event>)
    ensures batch == BatchOf(queue) && IsBatch(queue, batch)
  {
    var bytes, n := 0, 0;
    while n < |queue| && n < MAX_EVENTS_PER_BATCH
      invariant 0 <= n <= |queue| && n <= MAX_EVENTS_PER_BATCH
      invariant bytes == Bytes(queue[..n])
      invariant BatchLength(queue, 0) == BatchLength(queue, n)
    {
      assert queue[..n + 1][..n] == queue[..n];
      bytes := bytes + queue[n].bytes;
      if n > 0 && bytes > MAX_BATCH_BYTES {
        break;
      }
      n := n + 1;
    }
    batch := queue[..n];
    BatchOfIsBatch(queue);
  }

  /** Where the flush that is running stands. */
  datatype Waiting = Idle | Sending(batch: seq<Event>) | Reading

  /** A flush that has settled: how many events had been emitted when it was asked for, and whether
      nothing had failed. */
  datatype Settled = Settled(owed: nat, fine: bool)

  /** `chain` holds the flushes that have not settled, first to run first, and says of each whether it
      is a beat; `owed` says how many events had been emitted when each was asked for. */
  datatype State = State(
    count: nat, queue: seq<Event>, failed: bool, chain: seq<bool>, owed: seq<nat>, running: bool, sendEmpty: bool,
    waiting: Waiting, emitted: seq<Event>, acknowledged: seq<seq<Event>>, settled: seq<Settled>)

  /** `Proceed` lets the running flush go on to its next await, or begins the next one; `taken` says
      whether the call it waits for succeeds. */
  datatype Action = EmitEvent(bytes: nat, content: string) | AskFlush(beat: bool) | Proceed(taken: bool)

  const START := State(0, [], false, [], [], false, false, Idle, [], [], [])

  // ----- What each step does -----

  function Emitted(s: State, bytes: nat, content: string): State {
    if s.failed then s
    else
      var event := Event(s.count + 1, bytes, content);
      s.(count := s.count + 1, queue := s.queue + [event], emitted := s.emitted + [event])
  }

  /** A flush runs after those asked for before. */
  function Asked(s: State, beat: bool): State {
    s.(chain := s.chain + [beat], owed := s.owed + [|s.emitted|])
  }

  function Begun(s: State): State
    requires s.chain != []
  {
    s.(running := true, sendEmpty := !s.failed && s.chain[0] && s.queue == [])
  }

  /** One turn of the loop: a batch goes out. */
  function Sent(s: State): State {
    s.(sendEmpty := false, waiting := Sending(BatchOf(s.queue)))
  }

  /** The control plane took the batch; whatever was emitted meanwhile stays in the queue. */
  function Acknowledged(s: State): State
    requires s.waiting.Sending? && |s.waiting.batch| <= |s.queue|
  {
    s.(acknowledged := s.acknowledged + [s.waiting.batch], queue := s.queue[|s.waiting.batch|..], waiting := Reading)
  }

  /** The call, its status or its body failed: what is left is dropped. */
  function FailedNow(s: State): State {
    s.(failed := true, queue := [], waiting := Idle)
  }

  function SettledNow(s: State): State
    requires s.chain != [] && s.owed != []
  {
    s.(running := false, sendEmpty := false, chain := s.chain[1..], owed := s.owed[1..],
       settled := s.settled + [Settled(s.owed[0], !s.failed)])
  }

  /** The batch under way is in front of the queue, and a flush that runs is the first of the chain. */
  ghost predicate Ready(s: State) {
    && (s.waiting.Sending? ==> s.waiting.batch <= s.queue)
    && (s.running ==> s.chain != []) && |s.owed| == |s.chain|
    && (s.waiting != Idle ==> s.running && !s.sendEmpty)
  }

  function Proceeded(s: State, taken: bool): State
    requires Ready(s)
  {
    if !s.running then (if s.chain == [] then s else Begun(s))
    else
      match s.waiting
      case Reading => if taken then s.(waiting := Idle) else FailedNow(s)
      case Sending(_) => if taken then Acknowledged(s) else FailedNow(s)
      case Idle => if !s.failed && (s.queue != [] || s.sendEmpty) then Sent(s) else SettledNow(s)
  }

  function Step(s: State, a: Action): State
    requires Ready(s)
  {
    match a
    case EmitEvent(bytes, content) => Emitted(s, bytes, content)
    case AskFlush(beat) => Asked(s, beat)
    case Proceed(taken) => Proceeded(s, taken)
  }

  lemma StepStaysReady(s: State, a: Action)
    requires Ready(s)
    ensures Ready(Step(s, a))
  {
  }

  function Run(actions: seq<Action>): (s: State)
    ensures Ready(s)
  {
    if actions == [] then START
    else
      StepStaysReady(Run(actions[..|actions| - 1]), actions[|actions| - 1]);
      Step(Run(actions[..|actions| - 1]), actions[|actions| - 1])
  }

  lemma RunOneMore(actions: seq<Action>, k: nat)
    requires k < |actions|
    ensures Run(actions[..k + 1]) == Step(Run(actions[..k]), actions[k])
  {
    assert actions[..k + 1][..k] == actions[..k];
  }

  lemma RunNext(actions: seq<Action>, a: Action)
    ensures Run(actions + [a]) == Step(Run(actions), a)
  {
    hide Step;
    assert (actions + [a])[..|actions|] == actions;
  }

  // ----- What always holds -----

  ghost function Delivered(s: State): nat {
    |Joined(s.acknowledged)|
  }

  /** The acknowledged batches are the events from 1 on, and until a failure the queue is the rest. */
  ghost predicate InOrder(s: State) {
    && s.count == |s.emitted| && (forall i :: 0 <= i < |s.emitted| ==> s.emitted[i].number == i + 1)
    && Joined(s.acknowledged) <= s.emitted
    && (!s.failed ==> Joined(s.acknowledged) + s.queue == s.emitted)
    && (s.failed ==> s.queue == [] && s.waiting == Idle)
  }

  ghost predicate InLimits(s: State) {
    AllWithinLimits(s.acknowledged) && (s.waiting.Sending? ==> WithinLimits(s.waiting.batch))
  }

  /** A flush that settled without a failure has had everything acknowledged that was emitted before it
      was asked for. */
  ghost predicate PromisesKept(s: State) {
    && (forall i :: 0 <= i < |s.owed| ==> s.owed[i] <= |s.emitted|)
    && forall i :: 0 <= i < |s.settled| && s.settled[i].fine ==> s.settled[i].owed <= Delivered(s)
  }

  ghost predicate Inv(s: State) {
    Ready(s) && InOrder(s) && InLimits(s) && PromisesKept(s)
  }

  lemma ProceedKeepsInv(s: State, taken: bool)
    requires Inv(s)
    ensures Inv(Proceeded(s, taken))
  {
    hide Bytes, IsBatch, Joined, BatchOf;
    BatchOfIsBatch(s.queue);
    BatchInLimits(s.queue);
    if s.waiting.Sending? {
      JoinedOneMore(s.acknowledged, s.waiting.batch);
    }
  }

  lemma BatchInLimits(queue: seq<Event>)
    ensures WithinLimits(BatchOf(queue)) && BatchOf(queue) <= queue
  {
    BatchOfIsBatch(queue);
  }

  lemma StepKeepsInv(s: State, a: Action)
    requires Inv(s)
    ensures Inv(Step(s, a))
  {
    if a.Proceed? {
      hide Inv, Proceeded;
      ProceedKeepsInv(s, a.taken);
    } else {
      hide Joined, WithinLimits;
    }
  }

  lemma {:induction false} AlwaysInv(actions: seq<Action>)
    ensures Inv(Run(actions))
  {
    if actions != [] {
      hide Step, Inv;
      AlwaysInv(actions[..|actions| - 1]);
      StepKeepsInv(Run(actions[..|actions| - 1]), actions[|actions| - 1]);
    }
  }

  // ----- Over every sequence of events, flushes and answers -----

  /** What is taken if nothing fails: the events in order, numbered from 1. */
  function EmittedBy(actions: seq<Action>): seq<Event> {
    if actions == [] then []
    else
      var front, a := EmittedBy(actions[..|actions| - 1]), actions[|actions| - 1];
      if a.EmitEvent? then front + [Event(|front| + 1, a.bytes, a.content)] else front
  }

  /** For each flush that was asked for, how many events had been emitted by then. */
  function OwedBy(actions: seq<Action>): seq<nat> {
    if actions == [] then []
    else
      var front := actions[..|actions| - 1];
      OwedBy(front) + if actions[|actions| - 1].AskFlush? then [|Run(front).emitted|] else []
  }

  function OwedOf(settled: seq<Settled>): seq<nat> {
    seq(|settled|, i requires 0 <= i < |settled| => settled[i].owed)
  }

  lemma {:induction false} Accounts(actions: seq<Action>)
    ensures var s := Run(actions);
      && s.emitted <= EmittedBy(actions) && (!s.failed ==> s.emitted == EmittedBy(actions))
      && (s.failed ==> Proceed(false) in actions)
      && OwedOf(s.settled) + s.owed == OwedBy(actions)
  {
    if actions != [] {
      hide BatchOf, Ready, Run, Step, Inv, EmittedBy, OwedBy, OwedOf;
      var front, a := actions[..|actions| - 1], actions[|actions| - 1];
      assert actions == front + [a];
      Accounts(front);
      AlwaysInv(front);
      RunNext(front, a);
      StepKeepsAccounts(Run(front), a);
      AskedOneMore(front, a);
    }
  }

  lemma AskedOneMore(front: seq<Action>, a: Action)
    ensures EmittedBy(front + [a]) == EmittedBy(front) + if a.EmitEvent? then [Event(|EmittedBy(front)| + 1, a.bytes, a.content)] else []
    ensures OwedBy(front + [a]) == OwedBy(front) + if a.AskFlush? then [|Run(front).emitted|] else []
  {
    hide Run;
    assert (front + [a])[..|front|] == front;
  }

  lemma StepKeepsAccounts(s: State, a: Action)
    requires Inv(s)
    ensures var t := Step(s, a);
      && (t.failed ==> s.failed || a == Proceed(false)) && (s.failed ==> t.failed)
      && t.emitted == s.emitted + (if a.EmitEvent? && !s.failed then [Event(|s.emitted| + 1, a.bytes, a.content)] else [])
      && OwedOf(t.settled) + t.owed == OwedOf(s.settled) + s.owed + if a.AskFlush? then [|s.emitted|] else []
  {
    hide BatchOf, Joined, InLimits, PromisesKept;
  }

  /** Whatever is emitted, asked for and answered in whatever order: the acknowledged batches joined are
      the first events in order, each batch is within the limits, and until a failure the queue holds
      exactly the events that are left. Only a failed call makes it fail. */
  lemma Delivery(actions: seq<Action>)
    ensures var s := Run(actions);
      && Joined(s.acknowledged) <= EmittedBy(actions) && AllWithinLimits(s.acknowledged)
      && (!s.failed ==> Joined(s.acknowledged) + s.queue == EmittedBy(actions))
      && (s.failed ==> Proceed(false) in actions)
  {
    hide Run, Joined, WithinLimits;
    AlwaysInv(actions);
    Accounts(actions);
  }

  /** The flushes that were asked for settle in their order, and one that settled without a failure has
      had everything acknowledged that was emitted before it was asked for. */
  lemma FlushesKeepPromises(actions: seq<Action>)
    ensures var s := Run(actions);
      && OwedOf(s.settled) + s.owed == OwedBy(actions)
      && forall i :: 0 <= i < |s.settled| && s.settled[i].fine ==> OwedBy(actions)[i] <= |Joined(s.acknowledged)|
  {
    hide Run, Joined;
    AlwaysInv(actions);
    Accounts(actions);
    var s := Run(actions);
    assert forall i :: 0 <= i < |s.settled| ==> (OwedOf(s.settled) + s.owed)[i] == s.settled[i].owed;
  }

  // ----- Which flushes make a call -----

  /** After every sequence in which a flush may begin with nothing to send: a beat calls once, with no
      events, and settles when the call is answered; another flush settles without a call. */
  lemma EmptyFlush(actions: seq<Action>)
    requires var s := Run(actions); !s.running && s.chain != [] && s.queue == [] && !s.failed
    ensures var s, go := Run(actions), Proceed(true);
      var t, u := Run(actions + [go] + [go]), Run(actions + [go] + [go] + [go] + [go] + [go]);
      if s.chain[0] then
        && t.waiting == Sending([]) && t.acknowledged == s.acknowledged && t.settled == s.settled
        && u.acknowledged == s.acknowledged + [[]] && u.chain == s.chain[1..] && !u.running
        && u.settled == s.settled + [Settled(s.owed[0], true)]
      else
        && t.waiting == Idle && t.acknowledged == s.acknowledged && t.chain == s.chain[1..] && !t.running
        && t.settled == s.settled + [Settled(s.owed[0], true)]
  {
    AlwaysInv(actions);
    var s, go := Run(actions), Proceed(true);
    RunNext(actions, go);
    RunNext(actions + [go], go);
    RunNext(actions + [go] + [go], go);
    RunNext(actions + [go] + [go] + [go], go);
    RunNext(actions + [go] + [go] + [go] + [go], go);
    hide Run, Joined, InLimits, PromisesKept, BatchOf;
    BatchOfIsBatch([]);
    BeatSteps(s);
  }

  lemma BeatSteps(s: State)
    requires Inv(s) && !s.running && s.chain != [] && s.queue == [] && !s.failed
    ensures Ready(Begun(s)) && Proceeded(s, true) == Begun(s) && s.owed != []
    ensures s.chain[0] ==>
      var t := s.(running := true, sendEmpty := false, waiting := Sending([]));
      && Ready(t) && Proceeded(Begun(s), true) == t
      && Ready(Acknowledged(t)) && Proceeded(t, true) == Acknowledged(t)
      && Ready(Acknowledged(t).(waiting := Idle)) && Proceeded(Acknowledged(t), true) == Acknowledged(t).(waiting := Idle)
      && Proceeded(Acknowledged(t).(waiting := Idle), true) == SettledNow(Acknowledged(t).(waiting := Idle))
    ensures !s.chain[0] ==> Proceeded(Begun(s), true) == SettledNow(Begun(s))
  {
    BatchOfIsBatch(s.queue);
  }

  /** After every sequence: a flush that has something to send sends the longest batch that may go. */
  lemma FullFlush(actions: seq<Action>)
    requires var s := Run(actions); s.running && s.waiting.Idle? && s.queue != [] && !s.failed
    ensures var s, t := Run(actions), Run(actions + [Proceed(true)]);
      t.waiting.Sending? && IsBatch(s.queue, t.waiting.batch) && t.queue == s.queue
  {
    RunNext(actions, Proceed(true));
    BatchOfIsBatch(Run(actions).queue);
  }

  // ----- The class -----

  class JobEvents {
    var count: nat
    var queue: seq<Event>
    var failed: bool
    var chain: seq<bool>
    var running: bool
    var sendEmpty: bool
    var waiting: Waiting
    ghost var owed: seq<nat>
    /** What `emit` has taken. */
    ghost var emitted: seq<Event>
    /** The batches the control plane has acknowledged. */
    ghost var acknowledged: seq<seq<Event>>
    ghost var settled: seq<Settled>

    ghost function Now(): State
      reads this
    {
      State(count, queue, failed, chain, owed, running, sendEmpty, waiting, emitted, acknowledged, settled)
    }

    ghost predicate Valid()
      reads this
    {
      Inv(Now())
    }

    constructor ()
      ensures Valid() && Now() == START
    {
      count, queue, failed, chain, running, sendEmpty, waiting := 0, [], false, [], false, false, Idle;
      owed, emitted, acknowledged, settled := [], [], [], [];
    }

    /** Takes an event, unless the sender has failed. */
    method Emit(bytes: nat, content: string)
      requires Valid()
      modifies this
      ensures Valid() && Now() == Emitted(old(Now()), bytes, content)
      ensures emitted == if failed then old(emitted) else old(emitted) + [Event(|old(emitted)| + 1, bytes, content)]
    {
      hide Inv;
      CountIsEmitted();
      if failed {
        return;
      }
      StepKeepsInv(Now(), EmitEvent(bytes, content));
      count := count + 1;
      queue := queue + [Event(count, bytes, content)];
      emitted := emitted + [Event(count, bytes, content)];
    }

    lemma CountIsEmitted()
      requires Valid()
      ensures count == |emitted|
    {
    }

    /** Asks for a flush, which runs after those asked for before. */
    method Flush(beat: bool)
      requires Valid()
      modifies this
      ensures Valid() && Now() == Asked(old(Now()), beat)
    {
      hide Inv;
      StepKeepsInv(Now(), AskFlush(beat));
      chain := chain + [beat];
      owed := owed + [|emitted|];
    }

    /** The next flush of the chain begins. */
    method Begin()
      requires Valid() && !running && chain != []
      modifies this
      ensures Valid() && Now() == Proceeded(old(Now()), true)
    {
      hide Inv;
      ReadyNow();
      StepKeepsInv(Now(), Proceed(true));
      running := true;
      sendEmpty := !failed && chain[0] && queue == [];
    }

    lemma ReadyNow()
      requires Valid()
      ensures Ready(Now())
    {
    }

    /** One turn of the loop: a batch goes out. It is empty only for a beat. */
    method Send()
      requires Valid() && running && waiting == Idle && !failed && (queue != [] || sendEmpty)
      modifies this
      ensures Valid() && Now() == Proceeded(old(Now()), true)
      ensures waiting.Sending? && IsBatch(queue, waiting.batch) && (waiting.batch == [] ==> old(sendEmpty) && queue == [])
    {
      hide Inv;
      ReadyNow();
      StepKeepsInv(Now(), Proceed(true));
      sendEmpty := false;
      var batch := NextBatch(queue);
      waiting := Sending(batch);
    }

    /** The control plane took the batch. */
    method Acknowledge()
      requires Valid() && running && waiting.Sending?
      modifies this
      ensures Valid() && Now() == Proceeded(old(Now()), true)
      ensures acknowledged == old(acknowledged) + [old(waiting.batch)] && queue == old(queue)[|old(waiting.batch)|..]
    {
      hide Inv;
      ReadyNow();
      StepKeepsInv(Now(), Proceed(true));
      acknowledged := acknowledged + [waiting.batch];
      queue := queue[|waiting.batch|..];
      waiting := Reading;
    }

    /** The answer's body has been read, and the loop goes on. */
    method Continue()
      requires Valid() && running && waiting == Reading
      modifies this
      ensures Valid() && Now() == Proceeded(old(Now()), true)
    {
      hide Inv;
      ReadyNow();
      StepKeepsInv(Now(), Proceed(true));
      waiting := Idle;
    }

    /** The call, its status or its body failed. What was acknowledged stays so; the rest is dropped. */
    method Fail()
      requires Valid() && running && waiting != Idle
      modifies this
      ensures Valid() && Now() == Proceeded(old(Now()), false) && failed
    {
      hide Inv;
      ReadyNow();
      StepKeepsInv(Now(), Proceed(false));
      failed := true;
      queue := [];
      waiting := Idle;
    }

    /** The running flush settles. If nothing has failed, everything emitted before it was asked
        for, and indeed everything emitted by now, has been acknowledged. */
    method Settle()
      requires Valid() && running && waiting == Idle && (failed || (queue == [] && !sendEmpty))
      modifies this
      ensures Valid() && Now() == Proceeded(old(Now()), true)
      ensures settled == old(settled) + [Settled(old(owed)[0], !failed)]
      ensures !failed ==> Joined(acknowledged) == emitted && old(owed)[0] <= |Joined(acknowledged)|
    {
      StepKeepsInv(Now(), Proceed(true));
      settled := settled + [Settled(owed[0], !failed)];
      running, sendEmpty := false, false;
      chain, owed := chain[1..], owed[1..];
    }
  }

  /** The running flush goes on, or the next one begins. */
  method ProceedOnce(events: JobEvents, taken: bool)
    requires events.Valid()
    modifies events
    ensures events.Valid() && events.Now() == Proceeded(old(events.Now()), taken)
  {
    hide Inv, BatchOf, IsBatch, Joined;
    events.ReadyNow();
    if !events.running {
      if events.chain != [] {
        events.Begin();
      }
    } else if events.waiting.Reading? && taken {
      events.Continue();
    } else if events.waiting.Sending? && taken {
      events.Acknowledge();
    } else if !events.waiting.Idle? {
      events.Fail();
    } else if !events.failed && (events.queue != [] || events.sendEmpty) {
      events.Send();
    } else {
      events.Settle();
    }
  }

  /** A sender to which all this happens ends up where the statements above say. */
  method Play(actions: seq<Action>) returns (queue: seq<Event>, failed: bool, ghost state: State)
    ensures queue == Run(actions).queue && failed == Run(actions).failed && state == Run(actions)
  {
    hide Inv, Proceeded, Emitted, Asked, Joined;
    var events := new JobEvents();
    var k := 0;
    RunNothing();
    assert actions[..0] == [];
    while k < |actions|
      invariant 0 <= k <= |actions| && events.Valid() && fresh(events)
      invariant events.Now() == Run(actions[..k])
    {
      RunOneMore(actions, k);
      match actions[k] {
        case EmitEvent(bytes, content) => events.Emit(bytes, content);
        case AskFlush(beat) => events.Flush(beat);
        case Proceed(taken) => ProceedOnce(events, taken);
      }
      k := k + 1;
    }
    assert actions[..k] == actions;
    queue, failed, state := events.queue, events.failed, events.Now();
  }

  lemma RunNothing()
    ensures Run([]) == START
  {
  }

  // ----- The end of a job -----

  /** The flush that is running owes no call without events: it has made it, or need not. */
  predicate OwesNoBeat(s: State) {
    s.running && !s.sendEmpty && s.waiting != Sending([])
  }

  /** How many calls can still be needed: one for each event, and one for each flush that may have to
      make one without events. */
  ghost function CallsLeft(s: State): nat {
    |s.queue| + (if s.chain != [] && OwesNoBeat(s) then |s.chain| - 1 else |s.chain|)
  }

  /** How far the running flush is from its next answer. */
  ghost function Rank(s: State): nat {
    if !s.running then 4 else if s.waiting.Reading? then 3 else if s.waiting.Idle? then 2 else 1
  }

  lemma ProceedingEnds(s: State)
    requires Inv(s) && s.chain != []
    ensures var t := Proceeded(s, true);
      && t.emitted == s.emitted && t.failed == s.failed && CallsLeft(t) <= CallsLeft(s)
      && (s.running && s.waiting.Sending? ==> CallsLeft(t) < CallsLeft(s))
      && (|t.chain| < |s.chain| || (|t.chain| == |s.chain| && (Rank(t) < Rank(s) || (s.running && s.waiting.Sending?))))
      && (t.chain == [] && !t.failed ==> Joined(t.acknowledged) == t.emitted)
  {
    hide WithinLimits, AllWithinLimits;
    BatchOfIsBatch(s.queue);
  }

  /** The end of `workOnce`: no more events come, a last flush is asked for after those that are still
      in the chain, and the completion reports an error if events could not be reported. `answers`
      says how many batches the control plane takes before a call fails, if one does. */
  method FlushThenComplete(events: JobEvents, answers: nat) returns (reportsFailure: bool)
    requires events.Valid()
    modifies events
    ensures events.Valid() && events.emitted == old(events.emitted) && events.chain == []
    ensures reportsFailure <==> events.failed
    ensures !reportsFailure ==> Joined(events.acknowledged) == events.emitted
    ensures !old(events.failed) && answers >= CallsLeft(Asked(old(events.Now()), false)) ==> !reportsFailure
  {
    hide Inv, Joined, BatchOf;
    var left := answers;
    events.Flush(false);
    assert events.chain != [];
    while events.chain != []
      invariant events.Valid() && events.emitted == old(events.emitted)
      invariant events.chain == [] && !events.failed ==> Joined(events.acknowledged) == events.emitted
      invariant !old(events.failed) && answers >= CallsLeft(Asked(old(events.Now()), false))
        ==> !events.failed && left >= CallsLeft(events.Now())
      decreases left, !events.failed, |events.chain|, Rank(events.Now())
    {
      events.ReadyNow();
      ProceedingEnds(events.Now());
      if events.running && events.waiting.Sending? {
        SendingNeedsCall(events.Now());
        var taken := left > 0;
        left := if taken then left - 1 else left;
        NotFailedYet(events.Now());
        ProceedOnce(events, taken);
      } else {
        ProceedOnce(events, true);
      }
    }
    reportsFailure := events.failed;
  }

  lemma SendingNeedsCall(s: State)
    requires Inv(s) && s.running && s.waiting.Sending?
    ensures CallsLeft(s) > 0
  {
  }

  lemma NotFailedYet(s: State)
    requires Inv(s) && s.waiting.Sending?
    ensures !s.failed
  {
  }
}
