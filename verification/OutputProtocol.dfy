// A buffered output from its first entry to the end of Stop: the feed loop of
// operator/builtin/output/elastic/elastic.go, the retrying flushers of
// operator/flusher/flusher.go and the buffer, as interleaved atomic steps.
module OutputProtocol {
  import opened Bags
  import opened MemoryBuffer
  import opened BufferProtocol

  /** The feed loop: between two reads, collecting a chunk, handing it to the flusher, or
      over. */
  datatype Feeder = Idle | Reading(batch: nat) | Offering(batch: nat) | Exited

  /** `running` are the chunks with a flusher goroutine, `finishing` those of them that
      have marked their entries; `marks` records the chunks marked, in order, and `gaveUp`
      those that were given up. */
  datatype Output<E> = Output(
    buffer: State<E>,
    feeder: Feeder,
    running: set<nat>,
    finishing: set<nat>,
    cancelled: bool,
    flusherCancelled: bool,
    closed: bool,
    saved: map<Key, E>,
    marks: seq<nat>,
    gaveUp: set<nat>)

  /** A failed attempt that will be retried changes nothing and is no step of its own;
      giving up covers both running out of time and being cancelled. */
  datatype Step<E> =
    | Adder(action: Action<E>)
    | StartRead(batch: nat)
    | ReadStep(action: Action<E>)
    | ReadDone
    | Offer(started: bool)
    | FeedExit
    | FlushOk(batch: nat)
    | FlushEnd(batch: nat)
    | GiveUp(batch: nat)
    | GiveBack(i: nat)
    | Stop
    | StopFlusher
    | Close

  /** The output as built on an empty bucket. */
  function Start<E>(max: nat): Output<E> {
    Output(Init(max), Idle, {}, {}, false, false, false, map[], [], {})
  }

  ghost predicate CanStep<E>(o: Output<E>, step: Step<E>, chunkSize: nat, maxConcurrent: nat) {
    match step
    case Adder(a) => (a.Acquire? || a.Send?) && Enabled(o.buffer, a)
    case StartRead(b) => o.feeder.Idle? && !o.cancelled && Enabled(o.buffer, Begin(b))
    case ReadStep(a) =>
      && o.feeder.Reading? && (a.Receive? || a.Draw? || a.Insert?) && a.batch == o.feeder.batch
      && Enabled(o.buffer, a) && (a.Receive? ==> |o.buffer.batches[a.batch].ids| < chunkSize)
    case ReadDone => o.feeder.Reading? && o.feeder.batch in o.buffer.batches && o.feeder.batch !in o.buffer.holding
    case Offer(started) => o.feeder.Offering? && if started then |o.running| < maxConcurrent else o.flusherCancelled
    case FeedExit => o.feeder.Idle? && o.cancelled
    case FlushOk(b) => b in o.running && b !in o.finishing && b in o.buffer.batches
    case FlushEnd(b) => b in o.finishing
    case GiveUp(b) => b in o.running && b !in o.finishing
    case GiveBack(i) => Enabled(o.buffer, Release(i))
    case Stop => !o.cancelled
    case StopFlusher => o.feeder.Exited? && o.cancelled && !o.flusherCancelled
    case Close =>
      && o.flusherCancelled && o.running == {} && !o.closed
      && IdsBelow(o.buffer.inFlight, o.buffer.lastId + 1) && o.buffer.lastId + |o.buffer.queue| < TWO_TO_THE_64
  }

  /** What a step does; marking a chunk needs that the buffer allows it. */
  ghost predicate Steps<E>(o: Output<E>, step: Step<E>, o': Output<E>, chunkSize: nat, maxConcurrent: nat) {
    && CanStep(o, step, chunkSize, maxConcurrent)
    && match step
       case Adder(a) => o' == o.(buffer := Apply(o.buffer, a))
       case StartRead(b) => o' == o.(buffer := Apply(o.buffer, Begin(b)), feeder := Reading(b))
       case ReadStep(a) => o' == o.(buffer := Apply(o.buffer, a))
       case ReadDone =>
         var b := o.feeder.batch;
         o' == o.(feeder := if o.buffer.batches[b].ids == [] then Idle else Offering(b))
       case Offer(started) =>
         o' == o.(feeder := Idle, running := if started then o.running + {o.feeder.batch} else o.running)
       case FeedExit => o' == o.(feeder := Exited)
       case FlushOk(b) =>
         var mark := Mark(b, 0, |o.buffer.batches[b].ids|);
         && Enabled(o.buffer, mark)
         && o' == o.(buffer := Apply(o.buffer, mark), finishing := o.finishing + {b}, marks := o.marks + [b])
       case FlushEnd(b) => o' == o.(running := o.running - {b}, finishing := o.finishing - {b})
       case GiveUp(b) => o' == o.(running := o.running - {b}, gaveUp := o.gaveUp + {b})
       case GiveBack(i) => o' == o.(buffer := Apply(o.buffer, Release(i)))
       case Stop => o' == o.(cancelled := true)
       case StopFlusher => o' == o.(flusherCancelled := true)
       case Close =>
         var s := o.buffer;
         o' == o.(saved := Closed(map[], s.inFlight, s.queue, s.lastId), closed := true,
                  buffer := s.(queue := [], lastId := s.lastId + |s.queue|))
  }

  // -------------------------------------------------------------- invariant

  /** Stop goes through its stages in order. */
  ghost predicate Staged<E>(o: Output<E>) {
    && (o.feeder.Exited? ==> o.cancelled)
    && (o.flusherCancelled ==> o.feeder.Exited?)
    && (o.closed ==> o.flusherCancelled && o.running == {})
    && o.finishing <= o.running
  }

  /** A chunk belongs to the feeder, then to a flusher, which marks it at most once. */
  ghost predicate Chunks<E>(o: Output<E>) {
    && (forall b :: b in o.buffer.holding ==> o.feeder == Reading(b))
    && (forall b :: b in o.running ==> b in o.buffer.batches)
    && (forall b :: b in o.marks ==> b in o.buffer.batches)
    && (o.feeder.Reading? || o.feeder.Offering? ==>
          o.feeder.batch in o.buffer.batches && o.feeder.batch !in o.running && Unmarked(o, o.feeder.batch))
    && (forall b :: b in o.running && b !in o.finishing ==> Unmarked(o, b))
    && (forall i, j :: 0 <= i < j < |o.marks| ==> o.marks[i] != o.marks[j])
  }

  ghost predicate Unmarked<E>(o: Output<E>, b: nat) {
    b in o.buffer.batches && o.buffer.batches[b].marked == {} && b !in o.marks
  }

  /** Every accepted entry is in the buffer or was flushed; once the buffer is closed, what
      was in it has been saved. */
  ghost predicate Kept<E>(o: Output<E>) {
    if o.closed then
      && o.buffer.accepted == o.buffer.flushed + Values(o.saved) + Values(o.buffer.sending) + multiset(o.buffer.queue)
      && Homes(o.buffer) && Cleared(o.buffer)
    else
      Inv(o.buffer)
  }

  /** Of a chunk that was flushed every entry is marked, and is not saved; of the others none
      is marked. */
  ghost predicate Marked<E>(o: Output<E>) {
    && (forall b, i :: b in o.marks && InBatch(o.buffer, b, i) ==> i in o.buffer.batches[b].marked)
    && (forall b :: b in o.buffer.batches && b !in o.marks ==> o.buffer.batches[b].marked == {})
    && (o.closed ==> forall b, i :: b in o.marks && InBatch(o.buffer, b, i) ==>
          KeyOf(o.buffer.batches[b].ids[i]) !in o.saved)
  }

  ghost predicate OutInv<E>(o: Output<E>) {
    Staged(o) && Chunks(o) && Kept(o) && Marked(o)
  }

  // ------------------------------------------------------------------- steps

  lemma StagedStep<E>(o: Output<E>, step: Step<E>, o': Output<E>, chunkSize: nat, maxConcurrent: nat)
    requires OutInv(o) && Steps(o, step, o', chunkSize, maxConcurrent)
    ensures Staged(o')
  {
    hide Chunks, Kept, Marked, Apply, Enabled, Closed;
  }

  lemma ChunksStep<E>(o: Output<E>, step: Step<E>, o': Output<E>, chunkSize: nat, maxConcurrent: nat)
    requires OutInv(o) && Steps(o, step, o', chunkSize, maxConcurrent)
    ensures Chunks(o')
  {
    hide OutInv, Steps, Chunks;
    if step.FlushOk? {
      FlushOkChunks(o, step.batch, o', chunkSize, maxConcurrent);
    } else if step.ReadStep? {
      ReadStepChunks(o, step.action, o', chunkSize, maxConcurrent);
    } else if step.Adder? || step.StartRead? || step.GiveBack? {
      AddChunks(o, step, o', chunkSize, maxConcurrent);
    } else {
      ControlChunks(o, step, o', chunkSize, maxConcurrent);
    }
  }

  lemma FlushOkChunks<E>(o: Output<E>, b: nat, o': Output<E>, chunkSize: nat, maxConcurrent: nat)
    requires OutInv(o) && Steps(o, FlushOk(b), o', chunkSize, maxConcurrent)
    ensures Chunks(o')
  {
    hide Kept, Marked, Closed, Values, Taken, Positions, IdSet;
  }

  lemma ReadStepChunks<E>(o: Output<E>, a: Action<E>, o': Output<E>, chunkSize: nat, maxConcurrent: nat)
    requires OutInv(o) && Steps(o, ReadStep(a), o', chunkSize, maxConcurrent)
    ensures Chunks(o')
  {
    hide Kept, Marked, Closed, Values, Taken, Positions, IdSet;
  }

  lemma AddChunks<E>(o: Output<E>, step: Step<E>, o': Output<E>, chunkSize: nat, maxConcurrent: nat)
    requires OutInv(o) && Steps(o, step, o', chunkSize, maxConcurrent)
    requires step.Adder? || step.StartRead? || step.GiveBack?
    ensures Chunks(o')
  {
    hide Kept, Marked, Closed, Values, Taken, Positions, IdSet;
  }

  lemma ControlChunks<E>(o: Output<E>, step: Step<E>, o': Output<E>, chunkSize: nat, maxConcurrent: nat)
    requires OutInv(o) && Steps(o, step, o', chunkSize, maxConcurrent)
    requires !step.FlushOk? && !step.ReadStep? && !step.Adder? && !step.StartRead? && !step.GiveBack?
    ensures Chunks(o')
  {
    hide Kept, Marked, Closed, Apply, Enabled;
  }

  lemma KeptStep<E>(o: Output<E>, step: Step<E>, o': Output<E>, chunkSize: nat, maxConcurrent: nat)
    requires OutInv(o) && Steps(o, step, o', chunkSize, maxConcurrent)
    ensures Kept(o')
  {
    hide Inv, Values, Closed, Chunks, Marked;
    if step.Close? {
      CloseKeeps(o, o', chunkSize, maxConcurrent);
    } else if o.closed {
      LateKeeps(o, step, o', chunkSize, maxConcurrent);
    } else {
      match step
      case Adder(a) => InvStep(o.buffer, a);
      case StartRead(b) => InvStep(o.buffer, Begin(b));
      case ReadStep(a) => InvStep(o.buffer, a);
      case FlushOk(b) => InvStep(o.buffer, Mark(b, 0, |o.buffer.batches[b].ids|));
      case GiveBack(i) => InvStep(o.buffer, Release(i));
      case _ =>
    }
  }

  lemma CloseKeeps<E>(o: Output<E>, o': Output<E>, chunkSize: nat, maxConcurrent: nat)
    requires OutInv(o) && Steps(o, Close, o', chunkSize, maxConcurrent)
    ensures Kept(o')
  {
    hide Values, Closed, Owned, Pending, Permits, Homes, Marked;
    var s := o.buffer;
    var none: map<Key, E> := map[];
    assert s.holding == map[];
    ValuesEmpty(s.holding);
    SameHomes(s, o'.buffer);
    CloseSavesUnflushed(none, s.inFlight, s.queue, s.lastId);
  }

  /** Where ids are does not depend on the queue or on the permits. */
  lemma SameHomes<E>(s: State<E>, s': State<E>)
    requires s'.batches == s.batches && s'.owner == s.owner && s'.placed == s.placed && s'.inFlight == s.inFlight
    requires s'.flushed == s.flushed
    ensures Homes(s) ==> Homes(s')
    ensures Cleared(s) ==> Cleared(s')
  {
    hide Values;
    if Homes(s) {
      forall id | id in s'.placed ensures AtHome(s', id) {
        assert AtHome(s, id);
      }
    }
  }

  lemma LateKeeps<E>(o: Output<E>, step: Step<E>, o': Output<E>, chunkSize: nat, maxConcurrent: nat)
    requires OutInv(o) && Steps(o, step, o', chunkSize, maxConcurrent) && o.closed
    ensures Kept(o')
  {
    hide Values, Chunks, Closed, Homes, Cleared, Marked;
    LateSteps(o, step, o', chunkSize, maxConcurrent);
    if step.Adder? {
      LateAdds(o, step.action, o', chunkSize, maxConcurrent);
    } else {
      SameHomes(o.buffer, o'.buffer);
    }
  }

  /** Once the buffer is closed, only adders and clearers take steps. */
  lemma LateSteps<E>(o: Output<E>, step: Step<E>, o': Output<E>, chunkSize: nat, maxConcurrent: nat)
    requires Staged(o) && Steps(o, step, o', chunkSize, maxConcurrent) && o.closed
    ensures step.Adder? || step.GiveBack?
  {
    hide Apply, Enabled, Closed;
  }

  lemma LateAdds<E>(o: Output<E>, a: Action<E>, o': Output<E>, chunkSize: nat, maxConcurrent: nat)
    requires OutInv(o) && Steps(o, Adder(a), o', chunkSize, maxConcurrent) && o.closed
    ensures Kept(o')
  {
    hide Values, Chunks, Closed, Homes, Cleared, Marked;
    SameHomes(o.buffer, o'.buffer);
    if a.Acquire? {
      ValuesAdd<nat, E>(o.buffer.sending, a.thread, a.e);
    } else {
      ValuesTake<E>(o.buffer.sending, a.thread);
    }
  }

  lemma MarkedStep<E>(o: Output<E>, step: Step<E>, o': Output<E>, chunkSize: nat, maxConcurrent: nat)
    requires OutInv(o) && Steps(o, step, o', chunkSize, maxConcurrent)
    ensures Marked(o')
  {
    hide OutInv, Steps, Marked;
    if step.FlushOk? {
      FlushOkMarks(o, step.batch, o', chunkSize, maxConcurrent);
    } else if step.ReadStep? {
      ReadStepMarks(o, step.action, o', chunkSize, maxConcurrent);
    } else if step.Close? {
      CloseMarks(o, o', chunkSize, maxConcurrent);
    } else if step.Adder? || step.StartRead? || step.GiveBack? {
      AddMarks(o, step, o', chunkSize, maxConcurrent);
    } else {
      ControlMarks(o, step, o', chunkSize, maxConcurrent);
    }
  }

  lemma FlushOkMarks<E>(o: Output<E>, b: nat, o': Output<E>, chunkSize: nat, maxConcurrent: nat)
    requires OutInv(o) && Steps(o, FlushOk(b), o', chunkSize, maxConcurrent)
    ensures Marked(o')
  {
    hide Kept, Closed, Values, Taken, Positions, IdSet, KeyOf;
  }

  lemma ReadStepMarks<E>(o: Output<E>, a: Action<E>, o': Output<E>, chunkSize: nat, maxConcurrent: nat)
    requires OutInv(o) && Steps(o, ReadStep(a), o', chunkSize, maxConcurrent)
    ensures Marked(o')
  {
    hide Kept, Closed, Values, Taken, Positions, IdSet, KeyOf;
  }

  lemma AddMarks<E>(o: Output<E>, step: Step<E>, o': Output<E>, chunkSize: nat, maxConcurrent: nat)
    requires OutInv(o) && Steps(o, step, o', chunkSize, maxConcurrent)
    requires step.Adder? || step.StartRead? || step.GiveBack?
    ensures Marked(o')
  {
    hide Kept, Closed, Values, Taken, Positions, IdSet, KeyOf;
  }

  lemma ControlMarks<E>(o: Output<E>, step: Step<E>, o': Output<E>, chunkSize: nat, maxConcurrent: nat)
    requires OutInv(o) && Steps(o, step, o', chunkSize, maxConcurrent)
    requires !step.FlushOk? && !step.ReadStep? && !step.Close? && !step.Adder? && !step.StartRead? && !step.GiveBack?
    ensures Marked(o')
  {
    hide Kept, Chunks, Staged, Closed, KeyOf, Apply, Enabled;
  }

  /** Closing saves nothing under the id of an entry that was flushed. */
  lemma CloseMarks<E>(o: Output<E>, o': Output<E>, chunkSize: nat, maxConcurrent: nat)
    requires OutInv(o) && Steps(o, Close, o', chunkSize, maxConcurrent)
    ensures Marked(o')
  {
    hide Values, Conserved, Pending, Permits, Cleared, Keyed, KeyOf, Chunks;
    var s := o.buffer;
    forall b, i | b in o'.marks && InBatch(o'.buffer, b, i) ensures KeyOf(s.batches[b].ids[i]) !in o'.saved {
      var id := s.batches[b].ids[i];
      assert HomeOf(s, id, b, i) && AtHome(s, id);
      NotSaved(s.inFlight, s.queue, s.lastId, id);
    }
  }

  lemma NotSaved<E>(inFlight: map<nat, E>, queue: seq<E>, last: nat, id: nat)
    requires IdsBelow(inFlight, last + 1) && last + |queue| < TWO_TO_THE_64 && id !in inFlight && id <= last
    ensures KeyOf(id) !in Closed(map[], inFlight, queue, last)
  {
    hide KeyOf;
    NumberedIds(queue, last);
    var all := Remaining(inFlight, queue, last);
    forall j | j in all ensures KeyOf(j) != KeyOf(id) {
      KeysDiffer(j, id);
    }
  }

  lemma OutStep<E>(o: Output<E>, step: Step<E>, o': Output<E>, chunkSize: nat, maxConcurrent: nat)
    requires OutInv(o) && Steps(o, step, o', chunkSize, maxConcurrent)
    ensures OutInv(o')
  {
    hide Staged, Chunks, Kept, Marked, Steps;
    MarkedStep(o, step, o', chunkSize, maxConcurrent);
    StagedStep(o, step, o', chunkSize, maxConcurrent);
    ChunksStep(o, step, o', chunkSize, maxConcurrent);
    KeptStep(o, step, o', chunkSize, maxConcurrent);
  }

  /** The conditions a flusher and Close rely on always hold when they are reached. */
  lemma NeverStuck<E>(o: Output<E>)
    requires OutInv(o) && !o.closed
    ensures forall b :: b in o.running && b !in o.finishing ==>
              b in o.buffer.batches && Enabled(o.buffer, Mark(b, 0, |o.buffer.batches[b].ids|))
    ensures IdsBelow(o.buffer.inFlight, o.buffer.lastId + 1)
    ensures forall i :: 0 <= i < |o.buffer.releasing| ==> Enabled(o.buffer, Release(i))
  {
    hide Values, Conserved, Pending;
    forall i | 0 <= i < |o.buffer.releasing| ensures o.buffer.releasing[i] <= Sum(o.buffer.releasing) {
      SumWithout(o.buffer.releasing, i);
    }
  }

  // -------------------------------------------------------------------- runs

  /** The flusher is not cancelled before the feed loop is over, so that every chunk that was
      read is started. */
  lemma EveryChunkIsStarted<E>(o: Output<E>, chunkSize: nat, maxConcurrent: nat)
    requires OutInv(o)
    ensures !CanStep(o, Offer(false), chunkSize, maxConcurrent)
  {}

  ghost predicate Run<E(!new)>(max: nat, chunkSize: nat, maxConcurrent: nat,
                               states: seq<Output<E>>, steps: seq<Step<E>>) {
    && |states| == |steps| + 1 && states[0] == Start(max)
    && forall k :: 0 <= k < |steps| ==> Steps(states[k], steps[k], states[k + 1], chunkSize, maxConcurrent)
  }

  lemma {:induction false} RunKeeps<E(!new)>(max: nat, chunkSize: nat, maxConcurrent: nat,
                                             states: seq<Output<E>>, steps: seq<Step<E>>, k: nat)
    requires Run(max, chunkSize, maxConcurrent, states, steps) && k < |states|
    ensures OutInv(states[k])
    decreases k
  {
    hide OutInv, Steps, Start;
    if k == 0 {
      StartKeeps<E>(max);
    } else {
      RunKeeps(max, chunkSize, maxConcurrent, states, steps, k - 1);
      assert Steps(states[k - 1], steps[k - 1], states[k - 1 + 1], chunkSize, maxConcurrent);
      OutStep(states[k - 1], steps[k - 1], states[k], chunkSize, maxConcurrent);
    }
  }

  lemma StartKeeps<E>(max: nat)
    ensures OutInv(Start<E>(max))
  {}

  /** When Stop has finished, the entries accepted are those flushed and those saved, plus
      what adders had not sent before the buffer was closed. That remainder is exactly
      what is lost. No chunk is marked as flushed twice. */
  lemma StopAccountsForEverything<E(!new)>(max: nat, chunkSize: nat, maxConcurrent: nat,
                                           states: seq<Output<E>>, steps: seq<Step<E>>, k: nat)
    requires Run(max, chunkSize, maxConcurrent, states, steps) && k < |states|
    ensures var o := states[k];
            && (o.closed ==> o.buffer.accepted
                             == o.buffer.flushed + Values(o.saved) + Values(o.buffer.sending)
                                + multiset(o.buffer.queue))
            && (o.closed ==> (o.buffer.accepted == o.buffer.flushed + Values(o.saved)
                              <==> o.buffer.sending == map[] && o.buffer.queue == []))
            && (forall i, j :: 0 <= i < j < |o.marks| ==> o.marks[i] != o.marks[j])
  {
    RunKeeps(max, chunkSize, maxConcurrent, states, steps, k);
    var o := states[k];
    if o.closed {
      hide Values;
      var lost := Values(o.buffer.sending) + multiset(o.buffer.queue);
      ValuesSize<nat, E>(o.buffer.sending);
      AddsNothing(o.buffer.flushed + Values(o.saved), lost);
      assert o.buffer.accepted == (o.buffer.flushed + Values(o.saved)) + lost;
      assert |lost| == |o.buffer.sending| + |o.buffer.queue|;
    }
  }

  /** No Add is under way once Stop has begun. */
  ghost predicate QuietStop<E(!new)>(states: seq<Output<E>>) {
    forall k :: 0 <= k < |states| && states[k].cancelled ==> states[k].buffer.sending == map[]
  }

  lemma {:induction false} NothingSentLate<E(!new)>(max: nat, chunkSize: nat, maxConcurrent: nat,
                                                    states: seq<Output<E>>, steps: seq<Step<E>>, k: nat)
    requires Run(max, chunkSize, maxConcurrent, states, steps) && QuietStop(states) && k < |states|
    ensures states[k].closed ==> states[k].buffer.queue == []
    decreases k
  {
    hide OutInv, Steps;
    if k > 0 {
      NothingSentLate(max, chunkSize, maxConcurrent, states, steps, k - 1);
      RunKeeps(max, chunkSize, maxConcurrent, states, steps, k - 1);
      assert Steps(states[k - 1], steps[k - 1], states[k - 1 + 1], chunkSize, maxConcurrent);
      QueueStaysEmpty(states[k - 1], steps[k - 1], states[k], chunkSize, maxConcurrent);
    }
  }

  lemma QueueStaysEmpty<E>(o: Output<E>, step: Step<E>, o': Output<E>, chunkSize: nat, maxConcurrent: nat)
    requires OutInv(o) && Steps(o, step, o', chunkSize, maxConcurrent)
    requires o.cancelled ==> o.buffer.sending == map[]
    requires o.closed ==> o.buffer.queue == []
    ensures o'.closed ==> o'.buffer.queue == []
  {
    hide Values, Closed, Chunks, Kept;
  }

  /** With no adds under way once Stop has begun, nothing is lost: when Stop has finished
      every accepted entry was flushed or is saved, however the retries of its chunk ended. */
  lemma StopLosesNothing<E(!new)>(max: nat, chunkSize: nat, maxConcurrent: nat,
                                  states: seq<Output<E>>, steps: seq<Step<E>>, k: nat)
    requires Run(max, chunkSize, maxConcurrent, states, steps) && QuietStop(states) && k < |states| && states[k].closed
    ensures var o := states[k]; o.buffer.accepted == o.buffer.flushed + Values(o.saved)
  {
    RunKeeps(max, chunkSize, maxConcurrent, states, steps, k);
    NothingSentLate(max, chunkSize, maxConcurrent, states, steps, k);
    StopAccountsForEverything(max, chunkSize, maxConcurrent, states, steps, k);
  }

  /** An entry accepted after the buffer was closed is lost. */
  lemma LateAddIsLost<E>(o: Output<E>, t: nat, e: E)
    requires OutInv(o) && o.closed && Enabled(o.buffer, Acquire(t, e))
    ensures var s := Apply(o.buffer, Acquire(t, e));
            e in s.accepted - (s.flushed + Values(o.saved))
  {
    hide Values;
    ValuesAdd<nat, E>(o.buffer.sending, t, e);
  }

  // --------------------------------------------------- what flushing a chunk does

  /** The ids of the chunks that were flushed. */
  ghost function ChunkIds<E>(o: Output<E>): set<nat> {
    set b, i | b in o.marks && b in o.buffer.batches && 0 <= i < |o.buffer.batches[b].ids| ::
      o.buffer.batches[b].ids[i]
  }

  lemma FlushedOrInFlight<E>(o: Output<E>)
    requires Homes(o.buffer) && Cleared(o.buffer) && Marked(o)
    ensures ChunkIds(o) == o.buffer.placed.Keys - o.buffer.inFlight.Keys
  {
    hide Values;
    var s := o.buffer;
    forall id ensures id in ChunkIds(o) <==> id in s.placed && id !in s.inFlight {
      if id in s.placed {
        assert AtHome(s, id);
        assert InBatch(s, s.owner[id].batch, s.owner[id].position);
      }
      if id in ChunkIds(o) {
        var b, i :| b in o.marks && b in s.batches && 0 <= i < |s.batches[b].ids| && s.batches[b].ids[i] == id;
        assert InBatch(s, b, i) && HomeOf(s, id, b, i) && AtHome(s, id);
      }
    }
  }

  /** In every state of every run: an entry of a chunk that was flushed is not in flight, and
      is not saved under its id; the entries flushed are exactly those put in flight under the
      ids of the chunks flushed; and once nothing is being given back, the permits held are
      those of the other entries. */
  lemma FlushedChunksLeave<E(!new)>(max: nat, chunkSize: nat, maxConcurrent: nat,
                                    states: seq<Output<E>>, steps: seq<Step<E>>, k: nat)
    requires Run(max, chunkSize, maxConcurrent, states, steps) && k < |states|
    ensures var o := states[k];
            var s := o.buffer;
            && (forall b, i :: b in o.marks && InBatch(s, b, i) ==>
                  s.batches[b].ids[i] !in s.inFlight && (o.closed ==> KeyOf(s.batches[b].ids[i]) !in o.saved))
            && s.flushed == Values(Taken(s.placed, ChunkIds(o)))
            && (!o.closed && s.releasing == [] ==>
                  s.held == |s.sending| + |s.queue| + |s.holding| + |s.placed| - |ChunkIds(o)|)
  {
    hide OutInv, Values, KeyOf, ChunkIds, Taken, InBatch;
    RunKeeps(max, chunkSize, maxConcurrent, states, steps, k);
    FlushedLeaves(states[k]);
    PermitsOfOthers(states[k]);
  }

  lemma FlushedLeaves<E>(o: Output<E>)
    requires OutInv(o)
    ensures var s := o.buffer;
            && (forall b, i :: b in o.marks && InBatch(s, b, i) ==>
                  s.batches[b].ids[i] !in s.inFlight && (o.closed ==> KeyOf(s.batches[b].ids[i]) !in o.saved))
            && s.flushed == Values(Taken(s.placed, ChunkIds(o)))
  {
    hide Values, KeyOf, Conserved, Pending, Owned, Permits, Homes, Chunks, Staged;
    var s := o.buffer;
    FlushedOrInFlight(o);
    assert Taken(s.placed, ChunkIds(o)) == s.placed - s.inFlight.Keys;
    forall b, i | b in o.marks && InBatch(s, b, i) ensures s.batches[b].ids[i] !in s.inFlight {
      assert s.batches[b].ids[i] in ChunkIds(o);
    }
  }

  lemma PermitsOfOthers<E>(o: Output<E>)
    requires OutInv(o)
    ensures var s := o.buffer;
            !o.closed && s.releasing == [] ==>
              s.held == |s.sending| + |s.queue| + |s.holding| + |s.placed| - |ChunkIds(o)|
  {
    hide Values, KeyOf, Conserved, Pending, Owned, Homes, Chunks, Staged, Marked, ChunkIds;
    var s := o.buffer;
    FlushedOrInFlight(o);
    KeysLess(s.placed, s.inFlight);
  }

  lemma KeysLess<E>(a: map<nat, E>, b: map<nat, E>)
    requires b.Keys <= a.Keys
    ensures |a.Keys - b.Keys| == |a| - |b|
  {}

  /** No chunk is larger than a chunk may be, and no more are being flushed than may be. */
  ghost predicate Bounded<E>(o: Output<E>, chunkSize: nat, maxConcurrent: nat) {
    |o.running| <= maxConcurrent && SmallChunks(o.buffer, chunkSize)
  }

  ghost predicate SmallChunks<E>(s: State<E>, chunkSize: nat) {
    forall b :: b in s.batches ==> |s.batches[b].ids| + (if b in s.holding then 1 else 0) <= chunkSize
  }

  lemma SmallStep<E>(s: State<E>, a: Action<E>, chunkSize: nat)
    requires SmallChunks(s, chunkSize) && Enabled(s, a) && s.holding.Keys <= s.batches.Keys
    requires a.Receive? ==> |s.batches[a.batch].ids| < chunkSize
    ensures SmallChunks(Apply(s, a), chunkSize)
  {
    hide Values, Taken, Positions, IdSet;
  }

  lemma SmallBuffer<E>(o: Output<E>, step: Step<E>, o': Output<E>, chunkSize: nat, maxConcurrent: nat)
    requires SmallChunks(o.buffer, chunkSize) && o.buffer.holding.Keys <= o.buffer.batches.Keys
    requires Steps(o, step, o', chunkSize, maxConcurrent)
    ensures SmallChunks(o'.buffer, chunkSize)
  {
    hide Apply, Closed, SmallChunks;
    match step
    case Adder(a) => SmallStep(o.buffer, a, chunkSize);
    case StartRead(b) => SmallStep(o.buffer, Begin(b), chunkSize);
    case ReadStep(a) => SmallStep(o.buffer, a, chunkSize);
    case FlushOk(b) => SmallStep(o.buffer, Mark(b, 0, |o.buffer.batches[b].ids|), chunkSize);
    case GiveBack(i) => SmallStep(o.buffer, Release(i), chunkSize);
    case Close => SameChunks(o.buffer, o'.buffer, chunkSize);
    case _ =>
  }

  lemma SameChunks<E>(s: State<E>, s': State<E>, chunkSize: nat)
    requires SmallChunks(s, chunkSize) && s'.batches == s.batches && s'.holding == s.holding
    ensures SmallChunks(s', chunkSize)
  {}

  lemma FewRunning<E>(o: Output<E>, step: Step<E>, o': Output<E>, chunkSize: nat, maxConcurrent: nat)
    requires |o.running| <= maxConcurrent && Steps(o, step, o', chunkSize, maxConcurrent)
    ensures |o'.running| <= maxConcurrent
  {
    hide Apply, Enabled, Closed;
    if step.FlushEnd? || step.GiveUp? {
      FewerRunning(o'.running, o.running);
    }
  }

  lemma BoundedStep<E>(o: Output<E>, step: Step<E>, o': Output<E>, chunkSize: nat, maxConcurrent: nat)
    requires OutInv(o) && Bounded(o, chunkSize, maxConcurrent) && Steps(o, step, o', chunkSize, maxConcurrent)
    ensures Bounded(o', chunkSize, maxConcurrent)
  {
    hide Steps, SmallChunks, Marked;
    assert o.buffer.holding.Keys <= o.buffer.batches.Keys;
    FewRunning(o, step, o', chunkSize, maxConcurrent);
    SmallBuffer(o, step, o', chunkSize, maxConcurrent);
  }

  lemma FewerRunning(a: set<nat>, b: set<nat>)
    requires a <= b
    ensures |a| <= |b|
  {
    assert b == a + (b - a);
  }

  lemma {:induction false} ChunksAreBounded<E(!new)>(max: nat, chunkSize: nat, maxConcurrent: nat,
                                                     states: seq<Output<E>>, steps: seq<Step<E>>, k: nat)
    requires Run(max, chunkSize, maxConcurrent, states, steps) && k < |states|
    ensures Bounded(states[k], chunkSize, maxConcurrent)
    decreases k
  {
    hide OutInv, Steps, Bounded;
    if k == 0 {
      StartIsBounded<E>(max, chunkSize, maxConcurrent);
    } else {
      ChunksAreBounded(max, chunkSize, maxConcurrent, states, steps, k - 1);
      RunKeeps(max, chunkSize, maxConcurrent, states, steps, k - 1);
      assert Steps(states[k - 1], steps[k - 1], states[k - 1 + 1], chunkSize, maxConcurrent);
      BoundedStep(states[k - 1], steps[k - 1], states[k], chunkSize, maxConcurrent);
    }
  }

  lemma StartIsBounded<E>(max: nat, chunkSize: nat, maxConcurrent: nat)
    ensures Bounded(Start<E>(max), chunkSize, maxConcurrent)
  {}

  /** No chunk is forgotten: one with entries in it is with the feeder, being flushed, flushed
      or given up. */
  ghost predicate Followed<E>(o: Output<E>) {
    && (forall b :: b in o.finishing ==> b in o.marks)
    && forall b :: b in o.buffer.batches && o.buffer.batches[b].ids != [] ==>
         || ((o.feeder.Reading? || o.feeder.Offering?) && o.feeder.batch == b)
         || b in o.running || b in o.marks || b in o.gaveUp
  }

  lemma FollowedStep<E>(o: Output<E>, step: Step<E>, o': Output<E>, chunkSize: nat, maxConcurrent: nat)
    requires OutInv(o) && Followed(o) && Steps(o, step, o', chunkSize, maxConcurrent)
    ensures Followed(o')
  {
    hide Kept, Marked, Steps, Followed;
    if step.ReadStep? {
      ReadFollows(o, step.action, o', chunkSize, maxConcurrent);
    } else if step.Adder? || step.StartRead? || step.GiveBack? || step.FlushOk? {
      BufferFollows(o, step, o', chunkSize, maxConcurrent);
    } else {
      ControlFollows(o, step, o', chunkSize, maxConcurrent);
    }
  }

  lemma ReadFollows<E>(o: Output<E>, a: Action<E>, o': Output<E>, chunkSize: nat, maxConcurrent: nat)
    requires Followed(o) && Steps(o, ReadStep(a), o', chunkSize, maxConcurrent)
    ensures Followed(o')
  {
    hide Closed, Values, Taken, Positions, IdSet;
  }

  lemma BufferFollows<E>(o: Output<E>, step: Step<E>, o': Output<E>, chunkSize: nat, maxConcurrent: nat)
    requires Followed(o) && Steps(o, step, o', chunkSize, maxConcurrent)
    requires step.Adder? || step.StartRead? || step.GiveBack? || step.FlushOk?
    ensures Followed(o')
  {
    hide Closed, Values, Taken, Positions, IdSet;
  }

  lemma ControlFollows<E>(o: Output<E>, step: Step<E>, o': Output<E>, chunkSize: nat, maxConcurrent: nat)
    requires Staged(o) && Followed(o) && Steps(o, step, o', chunkSize, maxConcurrent)
    requires !(step.ReadStep? || step.Adder? || step.StartRead? || step.GiveBack? || step.FlushOk?)
    ensures Followed(o')
  {
    hide Closed, Apply, Enabled;
  }

  lemma {:induction false} NoChunkIsForgotten<E(!new)>(max: nat, chunkSize: nat, maxConcurrent: nat,
                                                       states: seq<Output<E>>, steps: seq<Step<E>>, k: nat)
    requires Run(max, chunkSize, maxConcurrent, states, steps) && k < |states|
    ensures Followed(states[k])
    ensures var o := states[k];
            o.closed ==> forall b :: b in o.buffer.batches && o.buffer.batches[b].ids != [] ==>
              b in o.marks || b in o.gaveUp
    decreases k
  {
    hide Steps, Kept, Marked, Chunks;
    RunKeeps(max, chunkSize, maxConcurrent, states, steps, k);
    if k == 0 {
      assert states[0] == Start(max);
    } else {
      NoChunkIsForgotten(max, chunkSize, maxConcurrent, states, steps, k - 1);
      RunKeeps(max, chunkSize, maxConcurrent, states, steps, k - 1);
      assert Steps(states[k - 1], steps[k - 1], states[k - 1 + 1], chunkSize, maxConcurrent);
      FollowedStep(states[k - 1], steps[k - 1], states[k], chunkSize, maxConcurrent);
    }
  }
}
