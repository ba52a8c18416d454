// The polling operator of operator/builtin/input/file/file.go: which files are read in
// which poll, how a file is recognised again, and which readers are remembered.
module FileInput {
  import opened Sequences
  import opened FileReader

  // ------------------------------------------------------------- fingerprints

  /** `NewFingerprint`: the first bytes of the file. */
  function NewFingerprint(size: nat, file: Bytes): Bytes {
    file[..Min(|file|, size)]
  }

  /** `StartsWith`: an empty fingerprint identifies nothing. */
  predicate StartsWith(fp: Bytes, known: Bytes) {
    known != [] && |known| <= |fp| && known == fp[..|known|]
  }

  predicate Comparable(a: Bytes, b: Bytes) {
    StartsWith(a, b) || StartsWith(b, a)
  }

  // --------------------------------------------------------- duplicate removal

  /** Entry `i` is kept: it is not empty and no later fingerprint may be the same file. */
  ghost predicate Survives(fps: seq<Bytes>, i: nat)
    requires i < |fps|
  {
    fps[i] != [] && forall j :: i < j < |fps| ==> !Comparable(fps[i], fps[j])
  }

  /** The positions from `from` on that are kept, in order. */
  ghost function Survivors(fps: seq<Bytes>, from: nat): (r: seq<nat>)
    requires from <= |fps|
    ensures forall i :: 0 <= i < |r| ==> from <= r[i] < |fps| && Survives(fps, r[i])
    ensures forall i, j :: 0 <= i < j < |r| ==> r[i] < r[j]
    ensures forall k :: from <= k < |fps| && Survives(fps, k) ==> k in r
    decreases |fps| - from
  {
    if from == |fps| then []
    else (if Survives(fps, from) then [from] else []) + Survivors(fps, from + 1)
  }

  ghost function Pick<T>(xs: seq<T>, at: seq<nat>): (r: seq<T>)
    requires forall i :: 0 <= i < |at| ==> at[i] < |xs|
    ensures |r| == |at|
  {
    seq(|at|, i requires 0 <= i < |at| => xs[at[i]])
  }

  /** The inner loop: is position `i` to be kept? */
  method Keep(fps: seq<Bytes>, i: nat) returns (keep: bool)
    requires i < |fps|
    ensures keep <==> Survives(fps, i)
  {
    keep := fps[i] != [];
    var j := i + 1;
    while keep && j < |fps|
      invariant i < j <= |fps|
      invariant keep <==> fps[i] != [] && forall m :: i < m < j ==> !Comparable(fps[i], fps[m])
    {
      keep := !Comparable(fps[i], fps[j]);
      j := j + 1;
    }
  }

  lemma SurvivesInTail(fps: seq<Bytes>, i: nat, fps0: seq<Bytes>, n: nat)
    requires i < |fps| && n < |fps0| && fps[i..] == fps0[n..]
    ensures Survives(fps, i) <==> Survives(fps0, n)
  {
    assert fps[i] == fps[i..][0] == fps0[n];
    assert forall j :: i < j < |fps| ==> fps[j] == fps[i..][j - i] == fps0[n + (j - i)];
    assert forall j :: n < j < |fps0| ==> fps0[j] == fps0[n..][j - n] == fps[i + (j - n)];
  }

  /** The loop at position `i`: the kept entries of `xs0` before it, and from it on the
      entries from `n` on, which are still to be looked at. */
  ghost predicate Spliced<T(!new)>(xs0: seq<T>, kept: seq<nat>, n: nat, xs: seq<T>, i: nat) {
    && i == |kept| <= |xs| && n <= |xs0|
    && (forall k :: 0 <= k < |kept| ==> kept[k] < n)
    && xs[..i] == Pick(xs0, kept) && xs[i..] == xs0[n..]
  }

  lemma SplicedKeep<T(!new)>(xs0: seq<T>, kept: seq<nat>, n: nat, xs: seq<T>, i: nat)
    requires Spliced(xs0, kept, n, xs, i) && i < |xs|
    ensures Spliced(xs0, kept + [n], n + 1, xs, i + 1)
  {
    assert xs[i..][0] == xs0[n..][0];
    assert xs[i + 1..] == xs[i..][1..] == xs0[n..][1..] == xs0[n + 1..];
    assert xs[..i + 1] == xs[..i] + [xs[i]];
    assert Pick(xs0, kept + [n]) == Pick(xs0, kept) + [xs0[n]];
  }

  lemma SplicedDrop<T(!new)>(xs0: seq<T>, kept: seq<nat>, n: nat, xs: seq<T>, i: nat)
    requires Spliced(xs0, kept, n, xs, i) && i < |xs|
    ensures Spliced(xs0, kept, n + 1, xs[..i] + xs[i + 1..], i)
  {
    assert xs[i + 1..] == xs[i..][1..] == xs0[n..][1..] == xs0[n + 1..];
    assert (xs[..i] + xs[i + 1..])[i..] == xs[i + 1..];
    assert (xs[..i] + xs[i + 1..])[..i] == xs[..i];
  }

  lemma SplicedEnd<T(!new)>(xs0: seq<T>, kept: seq<nat>, n: nat, xs: seq<T>, i: nat)
    requires Spliced(xs0, kept, n, xs, i) && i == |xs|
    ensures n == |xs0| && xs == Pick(xs0, kept)
  {
    assert |xs[i..]| == |xs0[n..]| && xs[..i] == xs;
  }

  lemma SurvivorsFrom(fps: seq<Bytes>, kept: seq<nat>, n: nat)
    requires n < |fps| && Survivors(fps, 0) == kept + Survivors(fps, n)
    ensures Survivors(fps, 0) == (if Survives(fps, n) then kept + [n] else kept) + Survivors(fps, n + 1)
  {
    SurvivorsStep(fps, n);
    hide Survivors, Survives;
    Associative(kept, [n], Survivors(fps, n + 1));
  }

  lemma SurvivorsStep(fps: seq<Bytes>, n: nat)
    requires n < |fps|
    ensures Survivors(fps, n) == if Survives(fps, n) then [n] + Survivors(fps, n + 1) else Survivors(fps, n + 1)
  {
    hide Survives;
    assert [] + Survivors(fps, n + 1) == Survivors(fps, n + 1);
  }

  /** The splice loop of `makeReaders`. Removing position `i` and stepping back, as the
      source does, leaves the next candidate at position `i`. */
  method RemoveDuplicates<F(!new)>(files0: seq<F>, fps0: seq<Bytes>) returns (files: seq<F>, fps: seq<Bytes>)
    requires |files0| == |fps0|
    ensures files == Pick(files0, Survivors(fps0, 0))
    ensures fps == Pick(fps0, Survivors(fps0, 0))
  {
    files, fps := files0, fps0;
    var i := 0;
    ghost var n, kept: seq<nat> := 0, [];
    while i < |fps|
      invariant |fps| == |files|
      invariant Spliced(fps0, kept, n, fps, i) && Spliced(files0, kept, n, files, i)
      invariant Survivors(fps0, 0) == kept + Survivors(fps0, n)
      decreases |fps| - i
    {
      assert |fps[i..]| == |fps0[n..]|;
      var keep := Keep(fps, i);
      SurvivesInTail(fps, i, fps0, n);
      SurvivorsFrom(fps0, kept, n);
      if keep {
        SplicedKeep(fps0, kept, n, fps, i);
        SplicedKeep(files0, kept, n, files, i);
        kept, i := kept + [n], i + 1;
      } else {
        SplicedDrop(fps0, kept, n, fps, i);
        SplicedDrop(files0, kept, n, files, i);
        fps, files := fps[..i] + fps[i + 1..], files[..i] + files[i + 1..];
      }
      n := n + 1;
    }
    SplicedEnd(fps0, kept, n, fps, i);
    SplicedEnd(files0, kept, n, files, i);
    assert kept + [] == kept;
  }

  /** What is kept can be told apart: no fingerprint is a prefix of another. */
  lemma SurvivorsIncomparable(fps: seq<Bytes>, i: nat, j: nat)
    requires i < j < |Survivors(fps, 0)|
    ensures var r := Pick(fps, Survivors(fps, 0));
            r[i] != [] && r[j] != [] && !StartsWith(r[i], r[j]) && !StartsWith(r[j], r[i])
  {
    var at := Survivors(fps, 0);
    assert Survives(fps, at[i]) && Survives(fps, at[j]);
    assert !Comparable(fps[at[i]], fps[at[j]]);
  }

  /** The last non-empty one is always kept, as the last. */
  lemma LastSurvives(fps: seq<Bytes>, k: nat)
    requires k < |fps| && fps[k] != [] && forall j :: k < j < |fps| ==> fps[j] == []
    ensures var r := Survivors(fps, 0); r != [] && r[|r| - 1] == k
  {
    var r := Survivors(fps, 0);
    assert Survives(fps, k);
    assert k in r;
    assert Survives(fps, r[|r| - 1]);
  }

  /** When all fingerprints are full, a file is only dropped in favour of one that is kept. */
  lemma {:induction false} FullFingerprintsKeepOne(fps: seq<Bytes>, size: nat, i: nat) returns (k: nat)
    requires 0 < size && (forall j :: 0 <= j < |fps| ==> |fps[j]| == size)
    requires i < |fps|
    ensures i <= k < |fps| && fps[k] == fps[i] && k in Survivors(fps, 0)
    decreases |fps| - i
  {
    if Survives(fps, i) {
      k := i;
    } else {
      var j :| i < j < |fps| && Comparable(fps[i], fps[j]);
      assert fps[j] == fps[i];
      k := FullFingerprintsKeepOne(fps, size, j);
    }
  }

  /** A survivor that may be the same file. */
  ghost predicate Represented(fps: seq<Bytes>, i: nat)
    requires i < |fps|
  {
    exists j :: 0 <= j < |fps| && Survives(fps, j) && Comparable(fps[i], fps[j])
  }

  /** `k` is the last one comparable with `i`. */
  ghost predicate LastLike(fps: seq<Bytes>, i: nat, k: nat)
    requires i < |fps| && k < |fps|
  {
    Comparable(fps[i], fps[k]) && forall j :: k < j < |fps| ==> !Comparable(fps[i], fps[j])
  }

  /** The last one comparable with `i` is dropped for one that is not. */
  ghost predicate Betrayed(fps: seq<Bytes>, i: nat)
    requires i < |fps|
  {
    exists k, m :: i < k < m < |fps| && LastLike(fps, i, k) && Comparable(fps[k], fps[m])
  }

  lemma {:induction false} FindLastLike(fps: seq<Bytes>, i: nat, from: nat) returns (k: nat)
    requires i < |fps| && from < |fps| && i <= from && Comparable(fps[i], fps[from])
    ensures from <= k < |fps| && LastLike(fps, i, k)
    decreases |fps| - from
  {
    if j :| from < j < |fps| && Comparable(fps[i], fps[j]) {
      k := FindLastLike(fps, i, j);
    } else {
      k := from;
    }
  }

  /** Fingerprints that are comparable with one are comparable with each other, unless they
      continue it in different ways. */
  lemma ComparableThrough(a: Bytes, b: Bytes, c: Bytes)
    requires Comparable(a, b) && Comparable(a, c) && |b| <= |a|
    ensures Comparable(b, c)
  {
    if StartsWith(a, c) {
      var n := if |b| <= |c| then |b| else |c|;
      assert b[..n] == a[..n] == c[..n];
    } else {
      assert b == a[..|b|] == c[..|b|];
    }
  }

  /** A file that is not empty is kept or has one kept that may be the same, if and only if
      the last one comparable with it is not dropped for another. */
  lemma RepresentedIff(fps: seq<Bytes>, i: nat)
    requires i < |fps| && fps[i] != []
    ensures Represented(fps, i) <==> !Betrayed(fps, i)
  {
    var k := FindLastLike(fps, i, i);
    if Survives(fps, k) {
      forall l, m | i < l < m < |fps| && LastLike(fps, i, l) ensures !Comparable(fps[l], fps[m]) {
        assert l == k;
      }
    } else {
      var m :| k < m < |fps| && Comparable(fps[k], fps[m]);
      assert |fps[k]| < |fps[i]| by {
        if |fps[i]| <= |fps[k]| {
          ComparableThrough(fps[k], fps[i], fps[m]);
        }
      }
      forall j | 0 <= j < |fps| && Comparable(fps[i], fps[j]) ensures !Survives(fps, j) {
        ComparableThrough(fps[i], fps[k], fps[j]);
      }
    }
  }

  /** Short ones can lose a file altogether: "xy" is dropped because of "x", which is then
      dropped because of "xz", and "xz" is a different file from "xy". */
  lemma ShortFingerprintsLoseAFile(x: Byte, y: Byte, z: Byte)
    requires y != z
    ensures Survivors([[x, y], [x], [x, z]], 0) == [2] && !Comparable([x, y], [x, z])
    ensures !Represented([[x, y], [x], [x, z]], 0)
  {
    hide Survivors;
    var fps := [[x, y], [x], [x, z]];
    assert StartsWith(fps[0], fps[1]) && StartsWith(fps[2], fps[1]);
    assert fps[0][1] != fps[2][1];
    assert LastLike(fps, 0, 1) && Comparable(fps[1], fps[2]);
    RepresentedIff(fps, 0);
    assert !Survives(fps, 0) && !Survives(fps, 1) && Survives(fps, 2);
    SurvivorsStep(fps, 0);
    SurvivorsStep(fps, 1);
    SurvivorsStep(fps, 2);
    assert [2] + Survivors(fps, 3) == [2];
  }

  // ------------------------------------------------------------ known readers

  datatype ReaderState = ReaderState(fingerprint: Bytes, offset: nat, generation: nat)

  /** A new generation starts. */
  function Aged(known: seq<ReaderState>): (r: seq<ReaderState>)
    ensures |r| == |known|
  {
    seq(|known|, i requires 0 <= i < |known| => known[i].(generation := known[i].generation + 1))
  }

  /** The first position a reader of at most three generations is at, or the end. */
  function Young(known: seq<ReaderState>): (i: nat)
    ensures i <= |known| && (i < |known| ==> known[i].generation <= 3)
    ensures forall j :: 0 <= j < i ==> known[j].generation > 3
  {
    if known == [] || known[0].generation <= 3 then 0 else 1 + Young(known[1..])
  }

  /** `saveCurrent`: nothing is dropped when every reader is old. */
  function Saved(known: seq<ReaderState>, readers: seq<ReaderState>): seq<ReaderState> {
    var all := known + readers;
    if Young(all) == |all| then all else all[Young(all)..]
  }

  ghost predicate OldestFirst(known: seq<ReaderState>) {
    forall i, j :: 0 <= i < j < |known| ==> known[i].generation >= known[j].generation
  }

  /** What happens to the list of known readers: a poll, which starts a generation or
      works off a queue, or a restart, which loads the list without the generations. */
  datatype KnownEvent = PollEnded(startsGeneration: bool, readers: seq<ReaderState>) | Reloaded

  function Forget(known: seq<ReaderState>): (r: seq<ReaderState>)
    ensures |r| == |known|
  {
    seq(|known|, i requires 0 <= i < |known| => known[i].(generation := 0))
  }

  function KnownAfter(known: seq<ReaderState>, event: KnownEvent): seq<ReaderState> {
    match event
    case PollEnded(starts, readers) => Saved(if starts then Aged(known) else known, readers)
    case Reloaded => Forget(known)
  }

  function KnownAfterAll(known: seq<ReaderState>, events: seq<KnownEvent>): seq<ReaderState> {
    if events == [] then known
    else KnownAfter(KnownAfterAll(known, events[..|events| - 1]), events[|events| - 1])
  }

  /** Readers made in a poll are of generation zero. */
  ghost predicate NewReaders(event: KnownEvent) {
    event.PollEnded? ==> forall i :: 0 <= i < |event.readers| ==> event.readers[i].generation == 0
  }

  lemma {:induction false} KnownStaysOrdered(events: seq<KnownEvent>)
    requires forall i :: 0 <= i < |events| ==> NewReaders(events[i])
    ensures OldestFirst(KnownAfterAll([], events))
  {
    if events != [] {
      var n := |events| - 1;
      KnownStaysOrdered(events[..n]);
      assert NewReaders(events[n]);
      hide OldestFirst, KnownAfter, NewReaders;
      OrderedStep(KnownAfterAll([], events[..n]), events[n]);
    }
  }

  lemma OrderedStep(known: seq<ReaderState>, event: KnownEvent)
    requires OldestFirst(known) && NewReaders(event)
    ensures OldestFirst(KnownAfter(known, event))
  {
    if event.PollEnded? {
      var aged := if event.startsGeneration then Aged(known) else known;
      assert OldestFirst(aged);
      assert OldestFirst(aged + event.readers);
    }
  }

  /** Saving keeps a suffix; what it drops is older than three generations; and when some
      reader is younger, none older is left. */
  lemma SavedKeepsTheYoung(known: seq<ReaderState>, readers: seq<ReaderState>)
    requires OldestFirst(known + readers)
    ensures var all := known + readers;
            var r := Saved(known, readers);
            && |r| <= |all| && r == all[|all| - |r|..]
            && (forall i :: 0 <= i < |all| - |r| ==> all[i].generation > 3)
            && ((exists i :: 0 <= i < |all| && all[i].generation <= 3) ==>
                  forall i :: 0 <= i < |r| ==> r[i].generation <= 3)
  {}

  /** How many polls have started a generation since the reader saved by event `birth` was
      saved, or since the last reload if that was later. */
  function GenerationsSince(events: seq<KnownEvent>, birth: nat): nat {
    if |events| <= birth + 1 then 0
    else
      var n := |events| - 1;
      match events[n]
      case Reloaded => 0
      case PollEnded(starts, _) => (if starts then 1 else 0) + GenerationsSince(events[..n], birth)
  }

  /** A reader that an event saved, whatever its generation is now. */
  predicate SavedBy(event: KnownEvent, r: ReaderState) {
    event.PollEnded? && r.(generation := 0) in event.readers
  }

  /** `births` tells of each known reader which event saved it. */
  ghost predicate Born(events: seq<KnownEvent>, known: seq<ReaderState>, births: seq<nat>) {
    && |births| == |known|
    && forall k :: 0 <= k < |known| ==> BornAt(events, known[k], births[k])
  }

  ghost predicate BornAt(events: seq<KnownEvent>, r: ReaderState, birth: nat) {
    birth < |events| && SavedBy(events[birth], r) && r.generation == GenerationsSince(events, birth)
  }

  /** The generation of a known reader is the number of generations started since it was saved
      or loaded. */
  lemma {:induction false} ReadersAge(events: seq<KnownEvent>) returns (births: seq<nat>)
    requires forall i :: 0 <= i < |events| ==> NewReaders(events[i])
    ensures Born(events, KnownAfterAll([], events), births)
  {
    if events == [] {
      births := [];
    } else {
      var n := |events| - 1;
      var before := events[..n];
      var known := KnownAfterAll([], before);
      births := ReadersAge(before);
      match events[n]
      case Reloaded =>
        forall k | 0 <= k < |known| ensures BornAt(events, Forget(known)[k], births[k]) {
          assert BornAt(before, known[k], births[k]);
        }
      case PollEnded(starts, readers) =>
        births := PollAges(events, known, births);
    }
  }

  lemma PollAges(events: seq<KnownEvent>, known: seq<ReaderState>, births: seq<nat>) returns (births': seq<nat>)
    requires events != [] && Born(events[..|events| - 1], known, births)
    requires events[|events| - 1].PollEnded? && NewReaders(events[|events| - 1])
    ensures Born(events, KnownAfter(known, events[|events| - 1]), births')
  {
    var n := |events| - 1;
    var before, readers := events[..n], events[n].readers;
    var aged := if events[n].startsGeneration then Aged(known) else known;
    var all, born := aged + readers, births + seq(|readers|, _ => n);
    forall k | 0 <= k < |all| ensures BornAt(events, all[k], born[k]) {
      if k < |known| {
        assert BornAt(before, known[k], births[k]);
        assert before[births[k]] == events[births[k]];
      } else {
        assert all[k] == readers[k - |known|];
        assert readers[k - |known|].(generation := 0) == readers[k - |known|];
      }
    }
    var y := Young(all);
    births' := if y == |all| then born else born[y..];
  }

  predicate StartsGeneration(event: KnownEvent) {
    event.PollEnded? && event.startsGeneration
  }

  function CountStarts(events: seq<KnownEvent>): nat {
    if events == [] then 0
    else
      var n := |events| - 1;
      CountStarts(events[..n]) + if StartsGeneration(events[n]) then 1 else 0
  }

  lemma {:induction false} GenerationsAtLeast(before: seq<KnownEvent>, after: seq<KnownEvent>, birth: nat)
    requires birth < |before| && forall i :: 0 <= i < |after| ==> after[i].PollEnded?
    ensures GenerationsSince(before + after, birth) >= CountStarts(after)
    decreases |after|
  {
    if after != [] {
      var n := |after| - 1;
      GenerationsAtLeast(before, after[..n], birth);
      assert (before + after)[..|before| + n] == before + after[..n];
    }
  }

  /** Once four generations have been started, a poll that saves a reader leaves none that was
      saved before them. */
  lemma OldReadersAreDropped(before: seq<KnownEvent>, after: seq<KnownEvent>) returns (births: seq<nat>)
    requires forall i :: 0 <= i < |before| ==> NewReaders(before[i])
    requires forall i :: 0 <= i < |after| ==> NewReaders(after[i]) && after[i].PollEnded?
    requires CountStarts(after) >= 4 && after[|after| - 1].readers != []
    ensures Born(before + after, KnownAfterAll([], before + after), births)
    ensures forall k :: 0 <= k < |births| ==> |before| <= births[k]
  {
    var events := before + after;
    var n := |events| - 1;
    births := ReadersAge(events);
    LastPollIsYoung(events);
    var known := KnownAfterAll([], events);
    forall k | 0 <= k < |births| ensures |before| <= births[k] {
      assert BornAt(events, known[k], births[k]);
      if births[k] < |before| {
        GenerationsAtLeast(before, after, births[k]);
      }
    }
  }

  lemma LastPollIsYoung(events: seq<KnownEvent>)
    requires forall i :: 0 <= i < |events| ==> NewReaders(events[i])
    requires events != [] && events[|events| - 1].PollEnded? && events[|events| - 1].readers != []
    ensures forall k :: 0 <= k < |KnownAfterAll([], events)| ==> KnownAfterAll([], events)[k].generation <= 3
  {
    var n := |events| - 1;
    var known, last := KnownAfterAll([], events[..n]), events[n];
    KnownStaysOrdered(events[..n]);
    var aged := if last.startsGeneration then Aged(known) else known;
    assert OldestFirst(aged + last.readers);
    SavedKeepsTheYoung(aged, last.readers);
    assert (aged + last.readers)[|aged|] == last.readers[0];
  }

  // ------------------------------------------------------------------ batches

  /** One poll's share of the matched paths: the queue first, and a new listing of the
      file system only when the queue is empty. */
  function Batch(queue: seq<string>, found: seq<string>, max: nat): (seq<string>, seq<string>) {
    var all := if queue == [] then found else queue;
    if |all| > max then (all[..max], all[max..]) else (all, [])
  }

  /** A run of polls: `queues[i]` is the queue before poll `i`. */
  ghost predicate PollRun(max: nat, founds: seq<seq<string>>, batches: seq<seq<string>>, queues: seq<seq<string>>) {
    && |batches| == |founds| && |queues| == |founds| + 1 && queues[0] == []
    && forall i :: 0 <= i < |founds| ==> (batches[i], queues[i + 1]) == Batch(queues[i], founds[i], max)
  }

  lemma {:induction false} BatchesSoFar(max: nat, founds: seq<seq<string>>, batches: seq<seq<string>>,
                                        queues: seq<seq<string>>, from: nat, until: nat)
    requires PollRun(max, founds, batches, queues)
    requires from < until <= |founds| && queues[from] == [] && (forall i :: from < i < until ==> queues[i] != [])
    ensures Flatten(batches[from..until]) + queues[until] == founds[from]
    decreases until
  {
    var last := until - 1;
    assert (batches[last], queues[until]) == Batch(queues[last], founds[last], max);
    assert batches[from..until] == batches[from..last] + [batches[last]];
    FlattenConcat(batches[from..last], [batches[last]]);
    assert Flatten([batches[last]]) == batches[last] + [];
    if from < last {
      BatchesSoFar(max, founds, batches, queues, from, last);
      assert Flatten(batches[from..until]) + queues[until]
          == Flatten(batches[from..last]) + (batches[last] + queues[until]);
    }
  }

  /** Between two listings of the file system every path found is handed out once, in
      order, in batches of half of max_concurrent_files, the last one of at most that. */
  lemma BatchesCoverTheListing(max: nat, founds: seq<seq<string>>, batches: seq<seq<string>>,
                               queues: seq<seq<string>>, from: nat, until: nat)
    requires PollRun(max, founds, batches, queues)
    requires from < until <= |founds| && queues[from] == queues[until] == []
    requires forall i :: from < i < until ==> queues[i] != []
    ensures Flatten(batches[from..until]) == founds[from]
    ensures forall i :: from <= i < until ==> |batches[i]| <= max
    ensures forall i :: from <= i < until - 1 ==> |batches[i]| == max
  {
    BatchesSoFar(max, founds, batches, queues, from, until);
    assert Flatten(batches[from..until]) + [] == Flatten(batches[from..until]);
    forall i | from <= i < until ensures |batches[i]| <= max && (i < until - 1 ==> |batches[i]| == max) {
      assert i < until - 1 ==> queues[i + 1] != [];
      assert (batches[i], queues[i + 1]) == Batch(queues[i], founds[i], max);
    }
  }
}
