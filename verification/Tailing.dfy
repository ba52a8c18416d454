// Tailing one file: polls, restarts and growth in any order, against tokenising the
// file once. The list of known readers, the copy of a recognised reader and the second
// reading of readers left over from the previous poll are those of file.go.
module Tailing {
  import opened Wrappers
  import opened Sequences
  import opened Multiline
  import opened FileReader
  import opened FileInput

  // -------------------------------------------------------------- one poll

  /** The operator between two polls. `lastOpen` says that the newest known reader was
      made by the previous poll and still holds the file open (`lastPollReaders`). */
  datatype Operator = Operator(known: seq<ReaderState>, lastOpen: bool, firstCheck: bool)

  /** `findFingerprintMatch`: the newest known reader whose fingerprint starts `fp`. */
  function FindMatch(known: seq<ReaderState>, fp: Bytes): (r: Option<nat>)
    ensures r.Some? ==> r.value < |known| && StartsWith(fp, known[r.value].fingerprint)
    ensures r.Some? ==> forall j :: r.value < j < |known| ==> !StartsWith(fp, known[j].fingerprint)
    ensures r.None? ==> forall j :: 0 <= j < |known| ==> !StartsWith(fp, known[j].fingerprint)
    decreases |known|
  {
    if known == [] then None
    else
      var last := |known| - 1;
      if StartsWith(fp, known[last].fingerprint) then Some(last) else FindMatch(known[..last], fp)
  }

  /** `newReader`: a copy of the reader recognised, or one from scratch. */
  function NewReader(cfg: Config, op: Operator, file: Bytes): ReaderState {
    var fp := NewFingerprint(cfg.fingerprintSize, file);
    match FindMatch(op.known, fp)
    case Some(i) => op.known[i].(generation := 0)
    case None => ReaderState(fp, if !op.firstCheck || cfg.startAtBeginning then 0 else |file|, 0)
  }

  /** What a pass cuts that begins at `offset` and is allowed `budget` scans. */
  function PassCuts(cfg: Config, file: Bytes, offset: nat, budget: nat): seq<Cut> {
    if offset > |file| then []
    else
      var cuts := Cuts(cfg.split, file[offset..]);
      cuts[..Min(budget, |cuts|)]
  }

  /** The reader after a pass, as `Reader.ReadFile` leaves it. A fingerprint that is
      neither full nor reaches to the offset picks up bytes that nothing here determines;
      it is written as unchanged then, and what is proved of such passes is only what they
      send. In calm runs there are none. */
  function Pass(cfg: Config, file: Bytes, r: ReaderState, budget: nat): ReaderState {
    ReaderState(if PassStart(cfg, file, r.fingerprint, r.offset)
                then FingerprintAfter(cfg, file, r.fingerprint, r.offset, budget) else r.fingerprint,
                r.offset + Consumed(PassCuts(cfg, file, r.offset, budget)),
                r.generation)
  }

  /** Scans left over for the second reading when the first pass was allowed `budget`. */
  function Left(cfg: Config, file: Bytes, offset: nat, budget: nat): nat {
    if offset > |file| then 0
    else
      var cuts := Cuts(cfg.split, file[offset..]);
      if budget <= |cuts| then 0 else budget - |cuts| - 1
  }

  datatype PollResult = PollResult(op: Operator, scratch: Option<nat>, first: seq<Cut>, again: seq<Cut>)

  /** The readers left over from the previous poll are read again when the new reader's
      fingerprint does not start with theirs: the known readers afterwards, and what is cut. */
  function LeftOver(cfg: Config, op: Operator, file: Bytes, fingerprint: Bytes, budget: nat)
    : (seq<ReaderState>, seq<Cut>)
  {
    var last := |op.known| - 1;
    if op.lastOpen && 0 <= last && !StartsWith(fingerprint, op.known[last].fingerprint) then
      (op.known[last := Pass(cfg, file, op.known[last], budget)], PassCuts(cfg, file, op.known[last].offset, budget))
    else (op.known, [])
  }

  /** A poll in which the only file found is `file`, cancelled after `budget` scans.
      `first` is what the file's reader cuts and `again` what the left-over reader cuts;
      `scratch` is the offset a reader made from scratch begins at. */
  function Poll(cfg: Config, op: Operator, file: Bytes, budget: nat): PollResult {
    var aged := Begun(op);
    if file == [] then
      PollResult(Operator(Saved(aged.known, []), false, false), None, [], [])
    else
      var reader := NewReader(cfg, aged, file);
      var known := FindMatch(aged.known, NewFingerprint(cfg.fingerprintSize, file)).Some?;
      var reader' := Pass(cfg, file, reader, budget);
      var first := PassCuts(cfg, file, reader.offset, budget);
      var (kept, again) := LeftOver(cfg, aged, file, reader'.fingerprint, Left(cfg, file, reader.offset, budget));
      PollResult(Operator(Saved(kept, [reader']), true, false), if known then None else Some(reader.offset),
                 first, again)
  }

  /** The operator with a new generation begun. */
  function Begun(op: Operator): Operator {
    op.(known := Aged(op.known))
  }

  /** Stop and start again: the known readers come back from the database. */
  function Restarted(op: Operator): Operator {
    Operator(Forget(op.known), false, true)
  }

  // ------------------------------------------------------------------- runs

  /** What can happen: the file grows, a poll runs to its end, the operator is stopped
      between two polls, or it is stopped in the middle of one. */
  datatype Event = Append(bytes: Bytes) | CompletePoll | Restart | StopInPoll(budget: nat)

  /** `base` is where the first reader of the file began, `start` where the last one did
      that was made from scratch, `done` the tokens cut since then by the readers of the
      file, `emitted` everything sent on, and `repeated` what left-over readers sent. */
  datatype Log = Log(base: Option<nat>, start: nat, done: seq<Cut>, emitted: seq<Bytes>, repeated: seq<Bytes>)

  datatype World = World(file: Bytes, op: Operator, log: Log)

  const START := World([], Operator([], false, true), Log(None, 0, [], [], []))

  /** Enough scans for both passes of a poll. */
  function Unbounded(file: Bytes): nat {
    2 * |file| + 2
  }

  /** The log after a poll. Where reading began is settled by the first reader. */
  function Extended(log: Log, scratch: Option<nat>, first: seq<Cut>, again: seq<Cut>): Log {
    Log(if log.base.Some? then log.base else scratch,
        if scratch.Some? then scratch.value else log.start,
        if scratch.Some? then first else log.done + first,
        log.emitted + Texts(first) + Texts(again),
        log.repeated + Texts(again))
  }

  function Polled(cfg: Config, w: World, budget: nat): World {
    var p := Poll(cfg, w.op, w.file, budget);
    World(w.file, p.op, Extended(w.log, p.scratch, p.first, p.again))
  }

  function Next(cfg: Config, w: World, event: Event): World {
    match event
    case Append(bytes) => w.(file := w.file + bytes)
    case CompletePoll => Polled(cfg, w, Unbounded(w.file))
    case Restart => w.(op := Restarted(w.op))
    case StopInPoll(budget) => var w' := Polled(cfg, w, budget); w'.(op := Restarted(w'.op))
  }

  function After(cfg: Config, events: seq<Event>): World {
    if events == [] then START
    else Next(cfg, After(cfg, events[..|events| - 1]), events[|events| - 1])
  }

  lemma AfterNothing(cfg: Config)
    ensures After(cfg, []) == START
  {}

  lemma AfterOneMore(cfg: Config, events: seq<Event>, event: Event)
    ensures After(cfg, events + [event]) == Next(cfg, After(cfg, events), event)
  {
    hide Next;
    assert (events + [event])[..|events|] == events;
  }

  // -------------------------------------------------------------- invariant

  /** A reader whose fingerprint identifies the file and is fit to be resumed. */
  ghost predicate Good(cfg: Config, file: Bytes, r: ReaderState) {
    && r.fingerprint <= file
    && PassStart(cfg, file, r.fingerprint, r.offset)
    && (r.offset > 0 ==> r.fingerprint != [])
  }

  ghost predicate GoodReaders(cfg: Config, file: Bytes, known: seq<ReaderState>) {
    forall i :: 0 <= i < |known| ==> Good(cfg, file, known[i]) && known[i].offset <= known[|known| - 1].offset
  }

  function Reached(w: World): nat {
    if w.op.known == [] then 0 else w.op.known[|w.op.known| - 1].offset
  }

  /** Everything up to `reached` has been cut into the tokens `done`. */
  ghost predicate CutSoFar(split: SplitFunc, file: Bytes, base: nat, reached: nat, done: seq<Cut>) {
    && base + Consumed(done) == reached <= |file|
    && Cuts(split, file[base..]) == done + Cuts(split, file[reached..])
  }

  /** The multiset of what was sent on, and its order as long as nothing is repeated. */
  ghost predicate Accounts(done: seq<Cut>, emitted: seq<Bytes>, repeated: seq<Bytes>) {
    && multiset(emitted) == multiset(Texts(done)) + multiset(repeated)
    && (repeated == [] ==> emitted == Texts(done))
  }

  /** The log of a run that has reached the offset `reached`. */
  ghost predicate History(cfg: Config, file: Bytes, log: Log, reached: nat) {
    && CutSoFar(cfg.split, file, log.start, reached, log.done)
    && Accounts(log.done, log.emitted, log.repeated)
    && (reached == 0 ==> log == START.log.(base := log.base))
    && (cfg.startAtBeginning ==> log.start == 0)
  }

  /** Reading has begun once there are readers; if it has started again elsewhere since
      then, it had begun at the beginning. */
  ghost predicate Based(cfg: Config, w: World) {
    && (w.log.base.Some? <==> w.op.known != [])
    && (w.log.base.Some? ==> w.log.base.value <= w.log.start)
    && (Moved(w.log) ==> w.log.base == Some(0))
  }

  /** A reader made from scratch began elsewhere than the first one. */
  predicate Moved(log: Log) {
    log.base.Some? && log.base.value != log.start
  }

  ghost predicate Invariant(cfg: Config, w: World) {
    Conserved(cfg, w) && OpenReader(cfg, w.op)
  }

  /** The readers are good, they have cut the file from `start` on into `done`, and what was
      sent on is the text of those tokens together with the repetitions. */
  ghost predicate Conserved(cfg: Config, w: World) {
    && GoodReaders(cfg, w.file, w.op.known)
    && History(cfg, w.file, w.log, Reached(w))
    && Based(cfg, w)
    && (w.op.known != [] ==> w.file != [])
  }

  /** A reader left open by the previous poll has a fingerprint that is full or ends at
      its offset: polls that are cut short are followed by a restart. */
  ghost predicate OpenReader(cfg: Config, op: Operator) {
    op.lastOpen ==>
      && op.known != [] && !op.firstCheck
      && var last := op.known[|op.known| - 1];
         |last.fingerprint| == cfg.fingerprintSize || |last.fingerprint| == last.offset
  }

  // ------------------------------------------------------------------ growth

  lemma GrownCuts(split: SplitFunc, file: Bytes, base: nat, reached: nat, done: seq<Cut>, x: Bytes)
    requires Stable(split) && CutSoFar(split, file, base, reached, done)
    ensures CutSoFar(split, file + x, base, reached, done)
  {
    var a, b := file[base..], file[reached..];
    assert Rest(split, a) == Rest(split, b) by {
      SameRest(split, file, base, reached, done);
    }
    assert (file + x)[base..] == a + x && (file + x)[reached..] == b + x;
    CutsOfGrownData(split, a, x);
    CutsOfGrownData(split, b, x);
    Associative(done, Cuts(split, b), Cuts(split, Rest(split, b) + x));
  }

  lemma SameRest(split: SplitFunc, file: Bytes, base: nat, reached: nat, done: seq<Cut>)
    requires CutSoFar(split, file, base, reached, done)
    ensures Rest(split, file[base..]) == Rest(split, file[reached..])
  {
    ConsumedConcat(done, Cuts(split, file[reached..]));
    ConsumedBound(split, file[base..]);
    ConsumedBound(split, file[reached..]);
  }

  lemma AppendKeeps(cfg: Config, w: World, x: Bytes)
    requires cfg.Valid() && Stable(cfg.split) && Invariant(cfg, w)
    ensures Invariant(cfg, Next(cfg, w, Append(x)))
  {
    GrownCuts(cfg.split, w.file, w.log.start, Reached(w), w.log.done, x);
    forall i | 0 <= i < |w.op.known| ensures Good(cfg, w.file + x, w.op.known[i]) {
      assert Good(cfg, w.file, w.op.known[i]);
    }
  }

  lemma RestartKeeps(cfg: Config, w: World)
    requires cfg.Valid() && Conserved(cfg, w)
    ensures Invariant(cfg, w.(op := Restarted(w.op)))
  {
    hide CutSoFar, Accounts, PassStart;
    var known := Forget(w.op.known);
    forall i | 0 <= i < |known| ensures Good(cfg, w.file, known[i]) && known[i].offset <= known[|known| - 1].offset {
      assert Good(cfg, w.file, w.op.known[i]);
    }
  }

  // ------------------------------------------------------------------- polls

  /** The split function cuts no token at the end of the file that it holds back before,
      unless the fingerprint is full by then anyway. */
  ghost predicate Calm(cfg: Config, file: Bytes, offset: nat) {
    offset <= |file| ==>
      cfg.fingerprintSize <= |file| || EarlyCuts(cfg.split, file[offset..]) == Cuts(cfg.split, file[offset..])
  }

  lemma {:induction false} ConsumedMonotone(cuts: seq<Cut>, m: nat, n: nat)
    requires m <= n <= |cuts|
    ensures Consumed(cuts[..m]) <= Consumed(cuts[..n])
  {
    assert cuts[..n] == cuts[..m] + cuts[m..n];
    ConsumedConcat(cuts[..m], cuts[m..n]);
  }

  /** How much of the file the fingerprint holds after a pass. */
  ghost function FingerprintLength(cfg: Config, file: Bytes, fp: Bytes, offset: nat, budget: nat): nat
    requires PassStart(cfg, file, fp, offset)
  {
    if |fp| == cfg.fingerprintSize || budget == 0 then |fp|
    else if cfg.fingerprintSize <= |file| then cfg.fingerprintSize
    else
      var cuts := Cuts(cfg.split, file[offset..]);
      var end := EarlyEnd(cfg.split, file, offset);
      if budget <= |cuts| && offset + Consumed(cuts[..budget]) <= end then |file| else end
  }

  lemma FingerprintIsPrefix(cfg: Config, file: Bytes, fp: Bytes, offset: nat, budget: nat)
    requires PassStart(cfg, file, fp, offset) && fp <= file
    ensures var n := FingerprintLength(cfg, file, fp, offset, budget);
            n <= |file| && FingerprintAfter(cfg, file, fp, offset, budget) == file[..n]
  {
    if offset <= |fp| {
      assert fp[..offset] == file[..offset];
      assert file[..offset] + file[offset..] == file;
      if offset <= cfg.fingerprintSize <= |file| {
        assert file[..offset] + file[offset..cfg.fingerprintSize] == file[..cfg.fingerprintSize];
      }
    }
  }

  lemma PassReaches(cfg: Config, file: Bytes, offset: nat, budget: nat)
    requires offset <= |file|
    ensures var cuts := Cuts(cfg.split, file[offset..]);
            Consumed(PassCuts(cfg, file, offset, budget)) <= Consumed(cuts) <= |file| - offset
  {
    var cuts := Cuts(cfg.split, file[offset..]);
    ConsumedMonotone(cuts, Min(budget, |cuts|), |cuts|);
    assert cuts[..|cuts|] == cuts;
    ConsumedBound(cfg.split, file[offset..]);
  }

  /** A pass leaves a good reader good; a complete one leaves its fingerprint full or
      ending at the offset. */
  lemma PassKeepsGood(cfg: Config, file: Bytes, r: ReaderState, budget: nat)
    requires Stable(cfg.split) && Good(cfg, file, r) && Calm(cfg, file, r.offset) && file != []
    ensures var r' := Pass(cfg, file, r, budget);
            && Good(cfg, file, r')
            && r.offset <= r'.offset
            && (|Cuts(cfg.split, file[r.offset..])| < budget ==>
                  |r'.fingerprint| == cfg.fingerprintSize || |r'.fingerprint| == r'.offset)
  {
    FingerprintIsPrefix(cfg, file, r.fingerprint, r.offset, budget);
    PassReaches(cfg, file, r.offset, budget);
    var cuts := Cuts(cfg.split, file[r.offset..]);
    assert cuts[..|cuts|] == cuts;
  }

  /** The reader a poll makes is good and starts where the last one stopped; it is made
      from scratch only when nothing has been cut yet. */
  lemma NewReaderIsGood(cfg: Config, op: Operator, file: Bytes)
    requires cfg.Valid() && GoodReaders(cfg, file, op.known) && file != []
    ensures var r := NewReader(cfg, op, file);
            var last := |op.known| - 1;
            var found := FindMatch(op.known, NewFingerprint(cfg.fingerprintSize, file));
            && Good(cfg, file, r) && r.fingerprint != [] && r.generation == 0
            && (found.Some? ==> op.known != [] && r.offset == op.known[last].offset)
            && (found.None? && op.known != [] ==> op.known[last].offset == 0)
            && (found.None? <==> AllEmpty(op))
            && (op.known != [] && op.known[last].fingerprint != [] ==> r == op.known[last].(generation := 0))
  {
    var fp := NewFingerprint(cfg.fingerprintSize, file);
    forall i | 0 <= i < |op.known| ensures StartsWith(fp, op.known[i].fingerprint) <==> op.known[i].fingerprint != [] {
      assert Good(cfg, file, op.known[i]);
    }
    var found := FindMatch(op.known, fp);
    if op.known != [] {
      var last := |op.known| - 1;
      assert Good(cfg, file, op.known[last]);
      if found.Some? {
        assert Good(cfg, file, op.known[found.value]);
      }
    }
  }

  lemma AddedKeepsGood(cfg: Config, file: Bytes, known: seq<ReaderState>, r: ReaderState)
    requires GoodReaders(cfg, file, known) && Good(cfg, file, r)
    requires known != [] ==> known[|known| - 1].offset <= r.offset
    ensures GoodReaders(cfg, file, known + [r])
  {
    var all := known + [r];
    assert all[|all| - 1] == r;
    forall i | 0 <= i < |known| ensures Good(cfg, file, all[i]) && all[i].offset <= r.offset {
      assert all[i] == known[i] && Good(cfg, file, known[i]);
    }
  }

  lemma SuffixKeepsGood(cfg: Config, file: Bytes, known: seq<ReaderState>, n: nat)
    requires GoodReaders(cfg, file, known) && n < |known|
    ensures GoodReaders(cfg, file, known[n..])
  {
    var rest := known[n..];
    assert rest[|rest| - 1] == known[|known| - 1];
    forall i | 0 <= i < |rest| ensures Good(cfg, file, rest[i]) && rest[i].offset <= rest[|rest| - 1].offset {
      assert rest[i] == known[n + i] && Good(cfg, file, known[n + i]);
    }
  }

  lemma SavedKeepsGood(cfg: Config, file: Bytes, known: seq<ReaderState>, r: ReaderState)
    requires GoodReaders(cfg, file, known) && Good(cfg, file, r) && r.generation <= 3
    requires known != [] ==> known[|known| - 1].offset <= r.offset
    ensures var saved := Saved(known, [r]);
            GoodReaders(cfg, file, saved) && saved != [] && saved[|saved| - 1] == r
  {
    var all := known + [r];
    AddedKeepsGood(cfg, file, known, r);
    assert all[|all| - 1] == r;
    SuffixKeepsGood(cfg, file, all, Young(all));
  }

  lemma CutSomething(split: SplitFunc, data: Bytes, m: nat)
    requires m <= |Cuts(split, data)|
    ensures m > 0 ==> Consumed(Cuts(split, data)[..m]) > 0
  {
    if m > 0 {
      CutFirst(split, data);
      assert Cuts(split, data)[..m][0].advance == split(data, true).advance;
    }
  }

  lemma AgedKeepsGood(cfg: Config, file: Bytes, known: seq<ReaderState>)
    requires GoodReaders(cfg, file, known)
    ensures GoodReaders(cfg, file, Aged(known))
  {
    var aged := Aged(known);
    forall i | 0 <= i < |aged| ensures Good(cfg, file, aged[i]) && aged[i].offset <= aged[|aged| - 1].offset {
      assert Good(cfg, file, known[i]);
    }
  }

  /** The previous poll cut no token of a short file: its reader is still open and has an
      empty fingerprint. */
  predicate NothingCut(op: Operator) {
    op.lastOpen && op.known != [] && op.known[|op.known| - 1].fingerprint == []
  }

  /** The left-over reader is read again exactly when the previous poll left it an empty
      fingerprint, having cut no token of a short file. It then starts at the beginning of
      the file, like the new reader, and does not get further than that one. */
  lemma ReadAgain(cfg: Config, op: Operator, file: Bytes, r: ReaderState, budget: nat)
    requires Stable(cfg.split) && file != [] && Calm(cfg, file, r.offset)
    requires GoodReaders(cfg, file, op.known) && OpenReader(cfg, op) && op.lastOpen
    requires r == NewReader(cfg, op, file) && cfg.Valid()
    ensures var r' := Pass(cfg, file, r, budget);
            var last := op.known[|op.known| - 1];
            && (StartsWith(r'.fingerprint, last.fingerprint) <==> last.fingerprint != [])
            && (last.fingerprint == [] ==> r.offset == last.offset == 0)
  {
    var last := op.known[|op.known| - 1];
    NewReaderIsGood(cfg, op, file);
    assert Good(cfg, file, last);
    PassKeepsGood(cfg, file, r, budget);
    if last.fingerprint != [] {
      var r' := Pass(cfg, file, r, budget);
      assert r.fingerprint == last.fingerprint && r.offset == last.offset;
      assert |last.fingerprint| <= |r'.fingerprint|;
    }
  }

  lemma LeftOverIsGood(cfg: Config, op: Operator, file: Bytes, r: ReaderState, budget: nat)
    requires cfg.Valid() && Stable(cfg.split) && file != [] && Calm(cfg, file, r.offset)
    requires GoodReaders(cfg, file, op.known) && OpenReader(cfg, op)
    requires r == NewReader(cfg, op, file)
    ensures var r' := Pass(cfg, file, r, budget);
            var first := PassCuts(cfg, file, r.offset, budget);
            var over := LeftOver(cfg, op, file, r'.fingerprint, Left(cfg, file, r.offset, budget));
            var kept, again := over.0, over.1;
            && GoodReaders(cfg, file, kept) && |kept| == |op.known|
            && (kept != [] ==> kept[|kept| - 1].offset <= r'.offset)
            && again <= first
            && (again != [] ==> NothingCut(op))
  {
    var r' := Pass(cfg, file, r, budget);
    NewReaderIsGood(cfg, op, file);
    PassKeepsGood(cfg, file, r, budget);
    if op.lastOpen {
      ReadAgain(cfg, op, file, r, budget);
      var last := |op.known| - 1;
      if op.known[last].fingerprint == [] {
        SecondReading(cfg, op.known, file, r, budget);
      }
    }
  }

  lemma SecondReading(cfg: Config, known: seq<ReaderState>, file: Bytes, r: ReaderState, budget: nat)
    requires Stable(cfg.split) && file != [] && Calm(cfg, file, 0)
    requires GoodReaders(cfg, file, known) && known != [] && known[|known| - 1].offset == 0
    requires Good(cfg, file, r) && r.offset == 0
    ensures var left := Pass(cfg, file, known[|known| - 1], Left(cfg, file, 0, budget));
            && GoodReaders(cfg, file, known[|known| - 1 := left])
            && left.offset <= Pass(cfg, file, r, budget).offset
            && PassCuts(cfg, file, 0, Left(cfg, file, 0, budget)) <= PassCuts(cfg, file, 0, budget)
  {
    var last, n := |known| - 1, Left(cfg, file, 0, budget);
    assert Good(cfg, file, known[last]);
    PassKeepsGood(cfg, file, known[last], n);
    var cuts := Cuts(cfg.split, file[0..]);
    ConsumedMonotone(cuts, Min(n, |cuts|), Min(budget, |cuts|));
    var left := Pass(cfg, file, known[last], n);
    assert Good(cfg, file, left);
    var all := known[last := left];
    forall i | 0 <= i < |all| ensures Good(cfg, file, all[i]) && all[i].offset <= all[last].offset {
      assert Good(cfg, file, known[i]);
    }
  }

  ghost predicate CalmPoll(cfg: Config, w: World) {
    w.file != [] ==> Calm(cfg, w.file, NewReader(cfg, Begun(w.op), w.file).offset)
  }

  ghost predicate Pollable(cfg: Config, w: World) {
    cfg.Valid() && Stable(cfg.split) && Invariant(cfg, w) && CalmPoll(cfg, w) && w.file != []
  }

  /** The reader of a poll continues where the file was left, or starts from scratch when
      nothing has been cut. */
  ghost predicate PollReader(cfg: Config, w: World, r: ReaderState, scratch: Option<nat>) {
    && r == NewReader(cfg, Begun(w.op), w.file) && Good(cfg, w.file, r) && r.generation == 0
    && match scratch
       case None => r.offset == Reached(w) && w.op.known != [] && !AllEmpty(w.op)
       case Some(offset) =>
         && offset == r.offset == (if w.op.firstCheck && !cfg.startAtBeginning then |w.file| else 0)
         && Reached(w) == 0 && AllEmpty(w.op)
  }

  /** No known reader can recognise a file. */
  predicate AllEmpty(op: Operator) {
    forall i :: 0 <= i < |op.known| ==> op.known[i].fingerprint == []
  }

  /** The parts a poll of a non-empty file is made of. */
  lemma PollParts(cfg: Config, w: World, budget: nat)
      returns (r: ReaderState, r': ReaderState, kept: seq<ReaderState>, again: seq<Cut>, scratch: Option<nat>)
    requires Pollable(cfg, w)
    ensures PollReader(cfg, w, r, scratch)
    ensures r' == Pass(cfg, w.file, r, budget)
    ensures var over := LeftOver(cfg, Begun(w.op), w.file, r'.fingerprint, Left(cfg, w.file, r.offset, budget));
            kept == over.0 && again == over.1
    ensures var p := Poll(cfg, w.op, w.file, budget);
            && p.op.known == Saved(kept, [r']) && p.op.lastOpen && !p.op.firstCheck
            && p.first == PassCuts(cfg, w.file, r.offset, budget) && p.again == again && p.scratch == scratch
  {
    hide PollReader, NewReader, FindMatch, LeftOver, Pass, PassCuts, Left, Saved, Pollable, NewFingerprint;
    var op := Begun(w.op);
    PollReaderIs(cfg, w);
    r := NewReader(cfg, op, w.file);
    r' := Pass(cfg, w.file, r, budget);
    var over := LeftOver(cfg, op, w.file, r'.fingerprint, Left(cfg, w.file, r.offset, budget));
    kept, again, scratch := over.0, over.1, Scratch(cfg, op, w.file);
    assert w.file != [] by {
      PollableFile(cfg, w);
    }
  }

  lemma PollableFile(cfg: Config, w: World)
    requires Pollable(cfg, w)
    ensures w.file != []
  {}

  /** The offset of a reader made from scratch. */
  function Scratch(cfg: Config, op: Operator, file: Bytes): Option<nat> {
    if FindMatch(op.known, NewFingerprint(cfg.fingerprintSize, file)).Some? then None
    else Some(NewReader(cfg, op, file).offset)
  }

  lemma PollReaderIs(cfg: Config, w: World)
    requires Pollable(cfg, w)
    ensures PollReader(cfg, w, NewReader(cfg, Begun(w.op), w.file), Scratch(cfg, Begun(w.op), w.file))
  {
    hide Calm, History, FindMatch, OpenReader;
    var op := Begun(w.op);
    AgedKeepsGood(cfg, w.file, w.op.known);
    NewReaderIsGood(cfg, op, w.file);
    assert op.known != [] ==> Reached(w) == op.known[|op.known| - 1].offset;
    assert AllEmpty(op) <==> AllEmpty(w.op) by {
      assert forall i :: 0 <= i < |op.known| ==> op.known[i].fingerprint == w.op.known[i].fingerprint;
    }
  }

  /** The readers known after a poll, and the repetitions. */
  lemma PollKnown(cfg: Config, w: World, budget: nat, r: ReaderState, r': ReaderState,
                  kept: seq<ReaderState>, again: seq<Cut>, scratch: Option<nat>)
    requires Pollable(cfg, w) && PollReader(cfg, w, r, scratch) && r' == Pass(cfg, w.file, r, budget)
    requires var over := LeftOver(cfg, Begun(w.op), w.file, r'.fingerprint, Left(cfg, w.file, r.offset, budget));
             kept == over.0 && again == over.1
    ensures GoodReaders(cfg, w.file, Saved(kept, [r']))
    ensures var saved := Saved(kept, [r']); saved != [] && saved[|saved| - 1] == r'
    ensures again <= PassCuts(cfg, w.file, r.offset, budget)
    ensures again != [] ==> NothingCut(Begun(w.op))
  {
    hide Cuts, EarlyCuts, PassCuts, FindMatch, Saved, History, Based, NewReader, LeftOver;
    AgedKeepsGood(cfg, w.file, w.op.known);
    PassKeepsGood(cfg, w.file, r, budget);
    LeftOverIsGood(cfg, Begun(w.op), w.file, r, budget);
    SavedKeepsGood(cfg, w.file, kept, r');
  }

  lemma CutsContinue(split: SplitFunc, file: Bytes, base: nat, reached: nat, done: seq<Cut>, m: nat)
    requires CutSoFar(split, file, base, reached, done) && m <= |Cuts(split, file[reached..])|
    ensures var more := Cuts(split, file[reached..])[..m];
            && CutSoFar(split, file, base, reached + Consumed(more), done + more)
            && (m == |Cuts(split, file[reached..])| ==> Cuts(split, file[base..]) == done + more)
  {
    var data := file[reached..];
    var more := Cuts(split, data)[..m];
    CutsAfter(split, data, m);
    ConsumedConcat(done, more);
    assert data[Consumed(more)..] == file[reached + Consumed(more)..];
    MoveOver(Cuts(split, file[base..]), done, Cuts(split, data), m);
  }

  lemma PassContinues(cfg: Config, file: Bytes, base: nat, reached: nat, done: seq<Cut>, budget: nat)
    requires CutSoFar(cfg.split, file, base, reached, done)
    ensures var first := PassCuts(cfg, file, reached, budget);
            CutSoFar(cfg.split, file, base, reached + Consumed(first), done + first)
  {
    CutsContinue(cfg.split, file, base, reached, done, Min(budget, |Cuts(cfg.split, file[reached..])|));
  }

  lemma PassProgress(cfg: Config, file: Bytes, base: nat, reached: nat, done: seq<Cut>, budget: nat)
    requires CutSoFar(cfg.split, file, base, reached, done)
    ensures var first := PassCuts(cfg, file, reached, budget);
            && (first != [] ==> 0 < Consumed(first))
            && (Unbounded(file) <= budget ==> Cuts(cfg.split, file[base..]) == done + first)
  {
    var m := Min(budget, |Cuts(cfg.split, file[reached..])|);
    CutSomething(cfg.split, file[reached..], m);
    CutsCount(cfg.split, file[reached..]);
    CutsContinue(cfg.split, file, base, reached, done, m);
  }

  lemma {:induction false} CutsCount(split: SplitFunc, data: Bytes)
    ensures |Cuts(split, data)| <= |data|
    decreases |data|
  {
    if split(data, true).Token? {
      CutFirst(split, data);
      CutsCount(split, data[split(data, true).advance..]);
    }
  }

  lemma AccountsAfter(done: seq<Cut>, emitted: seq<Bytes>, repeated: seq<Bytes>, first: seq<Cut>, again: seq<Cut>)
    requires Accounts(done, emitted, repeated)
    ensures Accounts(done + first, emitted + Texts(first) + Texts(again), repeated + Texts(again))
  {
    TextsConcat(done, first);
    if repeated + Texts(again) == [] {
      assert repeated == [] && Texts(again) == [];
      assert emitted + Texts(first) + [] == emitted + Texts(first);
    }
  }

  lemma HistoryExtends(cfg: Config, file: Bytes, log: Log, scratch: Option<nat>, offset: nat, again: seq<Cut>,
                       budget: nat)
    requires History(cfg, file, log, if scratch.Some? then 0 else offset) && offset <= |file|
    requires scratch.Some? ==> scratch.value == offset && (cfg.startAtBeginning ==> offset == 0)
    requires again <= PassCuts(cfg, file, offset, budget)
    ensures var first := PassCuts(cfg, file, offset, budget);
            var log' := Extended(log, scratch, first, again);
            && History(cfg, file, log', offset + Consumed(first))
            && (Unbounded(file) <= budget ==> log'.done == Cuts(cfg.split, file[log'.start..]))
  {
    var first := PassCuts(cfg, file, offset, budget);
    var log' := Extended(log, scratch, first, again);
    var start, done := log'.start, if scratch.Some? then [] else log.done;
    assert CutSoFar(cfg.split, file, start, offset, done);
    PassContinues(cfg, file, start, offset, done, budget);
    PassProgress(cfg, file, start, offset, done, budget);
    assert log'.done == done + first == log.done + first;
    AccountsAfter(log.done, log.emitted, log.repeated, first, again);
    if offset + Consumed(first) == 0 {
      assert first == [] && again == [];
      assert log.done + [] == [] && log.emitted + [] + [] == [] && log.repeated + [] == [];
    }
  }

  lemma EmptyPollKeeps(cfg: Config, w: World, budget: nat)
    requires Invariant(cfg, w) && w.file == []
    ensures var w' := Polled(cfg, w, budget);
            Invariant(cfg, w') && w'.log == w.log == START.log && w'.op.known == []
  {
    assert w.op.known == [] && w.log == START.log;
    assert w.log.done + [] == [] && w.log.emitted + [] + [] == [] && w.log.repeated + [] == [];
  }

  lemma PollKeepsReaders(cfg: Config, w: World, budget: nat)
    requires Pollable(cfg, w)
    ensures var w' := Polled(cfg, w, budget);
            && w'.file == w.file && w'.op.known != [] && GoodReaders(cfg, w.file, w'.op.known)
            && Reached(w') == Pass(cfg, w.file, NewReader(cfg, Begun(w.op), w.file), budget).offset
  {
    var r, r', kept, again, scratch := PollParts(cfg, w, budget);
    PollKnown(cfg, w, budget, r, r', kept, again, scratch);
  }

  lemma PollKeepsHistory(cfg: Config, w: World, budget: nat)
    requires Pollable(cfg, w)
    ensures History(cfg, w.file, Polled(cfg, w, budget).log,
                    Pass(cfg, w.file, NewReader(cfg, Begun(w.op), w.file), budget).offset)
  {
    hide Cuts, Consumed, History, GoodReaders, NewReader, FindMatch, LeftOver, Saved, Poll, PassCuts, Extended;
    var r, r', kept, again, scratch := PollParts(cfg, w, budget);
    PollKnown(cfg, w, budget, r, r', kept, again, scratch);
    HistoryExtends(cfg, w.file, w.log, scratch, r.offset, again, budget);
  }

  /** The poll starts reading at the end of a file whose reading had begun before. */
  predicate Skipping(cfg: Config, op: Operator) {
    op.firstCheck && !cfg.startAtBeginning && op.known != [] && AllEmpty(op)
  }

  lemma PollKeepsBase(cfg: Config, w: World, budget: nat)
    requires Pollable(cfg, w)
    ensures var w' := Polled(cfg, w, budget);
            && w'.op.known != [] && Based(cfg, w')
            && (Moved(w'.log) <==> Moved(w.log) || Skipping(cfg, w.op))
            && (w.log.base.None? ==>
                  w'.log.base == Some(if w.op.firstCheck && !cfg.startAtBeginning then |w.file| else 0))
            && (w.log.base.Some? ==> w'.log.base == w.log.base)
  {
    var r, r', kept, again, scratch := PollParts(cfg, w, budget);
    PollKnown(cfg, w, budget, r, r', kept, again, scratch);
    assert Reached(w) == 0 ==> w.log.start == 0;
  }

  /** A poll conserves what there is to conserve. */
  lemma PollKeeps(cfg: Config, w: World, budget: nat)
    requires Pollable(cfg, w)
    ensures Conserved(cfg, Polled(cfg, w, budget))
  {
    PollKeepsReaders(cfg, w, budget);
    PollKeepsHistory(cfg, w, budget);
    PollKeepsBase(cfg, w, budget);
  }

  /** A complete one cuts all of the file and leaves its reader fit for the next poll. */
  lemma CompletePollKeeps(cfg: Config, w: World, budget: nat)
    requires Pollable(cfg, w) && Unbounded(w.file) <= budget
    ensures var w' := Polled(cfg, w, budget);
            OpenReader(cfg, w'.op) && w'.log.start <= |w.file| && w'.log.done == Cuts(cfg.split, w.file[w'.log.start..])
  {
    var r, r', kept, again, scratch := PollParts(cfg, w, budget);
    PollKnown(cfg, w, budget, r, r', kept, again, scratch);
    HistoryExtends(cfg, w.file, w.log, scratch, r.offset, again, budget);
    CutsCount(cfg.split, w.file[r.offset..]);
    PassKeepsGood(cfg, w.file, r, budget);
  }

  // ------------------------------------------------------------ whole runs

  /** The scans a poll is allowed, if the event is one. */
  function Budget(w: World, event: Event): Option<nat> {
    match event
    case CompletePoll => Some(Unbounded(w.file))
    case StopInPoll(budget) => Some(budget)
    case _ => None
  }

  /** Every poll of the run is calm. */
  ghost predicate CalmRun(cfg: Config, events: seq<Event>) {
    forall i :: 0 <= i < |events| ==>
      var w := After(cfg, events[..i]);
      Budget(w, events[i]).Some? ==> CalmPoll(cfg, w)
  }

  lemma NextKeeps(cfg: Config, w: World, event: Event)
    requires cfg.Valid() && Stable(cfg.split) && Invariant(cfg, w)
    requires Budget(w, event).Some? ==> CalmPoll(cfg, w)
    ensures Invariant(cfg, Next(cfg, w, event))
    ensures event.CompletePoll? ==>
              var w' := Next(cfg, w, event); w'.log.done == Cuts(cfg.split, w'.file[w'.log.start..])
  {
    match event
    case Append(bytes) => AppendKeeps(cfg, w, bytes);
    case Restart => RestartKeeps(cfg, w);
    case CompletePoll =>
      if w.file == [] {
        EmptyPollKeeps(cfg, w, Unbounded(w.file));
        assert w.file[0..] == [];
      } else {
        PollKeeps(cfg, w, Unbounded(w.file));
        CompletePollKeeps(cfg, w, Unbounded(w.file));
      }
    case StopInPoll(budget) =>
      if w.file == [] {
        EmptyPollKeeps(cfg, w, budget);
      } else {
        PollKeeps(cfg, w, budget);
      }
      RestartKeeps(cfg, Polled(cfg, w, budget));
  }

  lemma {:induction false} AfterKeeps(cfg: Config, events: seq<Event>)
    requires cfg.Valid() && Stable(cfg.split) && CalmRun(cfg, events)
    ensures Invariant(cfg, After(cfg, events))
  {
    if events == [] {
      assert START.file[0..] == [];
    } else {
      var n := |events| - 1;
      CalmPrefix(cfg, events, n);
      AfterKeeps(cfg, events[..n]);
      NextKeeps(cfg, After(cfg, events[..n]), events[n]);
    }
  }

  lemma CalmPrefix(cfg: Config, events: seq<Event>, n: nat)
    requires CalmRun(cfg, events) && n <= |events|
    ensures CalmRun(cfg, events[..n])
  {
    forall i | 0 <= i < n ensures var w := After(cfg, events[..n][..i]);
                                  Budget(w, events[..n][i]).Some? ==> CalmPoll(cfg, w)
    {
      assert events[..n][..i] == events[..i];
    }
  }

  /** A poll that comes late: the one before it cut no token of the file, and this one has
      time to send some text of it a second time. */
  predicate Late(cfg: Config, w: World, event: Event) {
    && Budget(w, event).Some? && NothingCut(w.op)
    && Texts(PassCuts(cfg, w.file, 0, Left(cfg, w.file, 0, Budget(w, event).value))) != []
  }

  /** What the left-over reader of a poll cuts. */
  lemma PollRepeats(cfg: Config, w: World, budget: nat)
    requires Pollable(cfg, w)
    ensures Poll(cfg, w.op, w.file, budget).again
            == if NothingCut(w.op) then PassCuts(cfg, w.file, 0, Left(cfg, w.file, 0, budget)) else []
  {
    hide Cuts, EarlyCuts, PassCuts, Left, Pass, FindMatch, Saved, History, Based, NewReader, Poll;
    var r, r', kept, again, scratch := PollParts(cfg, w, budget);
    PollKnown(cfg, w, budget, r, r', kept, again, scratch);
    assert NothingCut(Begun(w.op)) <==> NothingCut(w.op);
    if NothingCut(w.op) {
      AgedKeepsGood(cfg, w.file, w.op.known);
      ReadAgain(cfg, Begun(w.op), w.file, r, budget);
    }
  }

  lemma RepeatedWhenLate(cfg: Config, w: World, budget: nat)
    requires Pollable(cfg, w)
    ensures var late := NothingCut(w.op) && Texts(PassCuts(cfg, w.file, 0, Left(cfg, w.file, 0, budget))) != [];
            Polled(cfg, w, budget).log.repeated == [] <==> w.log.repeated == [] && !late
  {
    PollRepeats(cfg, w, budget);
    var again := Poll(cfg, w.op, w.file, budget).again;
    assert Polled(cfg, w, budget).log.repeated == w.log.repeated + Texts(again);
    assert w.log.repeated + Texts(again) == [] <==> w.log.repeated == [] && Texts(again) == [];
  }

  // ------------------------------------------ the polls of a run are determined

  ghost predicate LeftOverReady(cfg: Config, op: Operator, file: Bytes, fingerprint: Bytes) {
    op.lastOpen && op.known != [] && !StartsWith(fingerprint, op.known[|op.known| - 1].fingerprint) ==>
      PassReady(cfg, file, op.known[|op.known| - 1].fingerprint, op.known[|op.known| - 1].offset)
  }

  /** Both passes of a poll are such that their outcome is determined. */
  ghost predicate PollReady(cfg: Config, op: Operator, file: Bytes, budget: nat) {
    var r := NewReader(cfg, Begun(op), file);
    && PassReady(cfg, file, r.fingerprint, r.offset)
    && LeftOverReady(cfg, Begun(op), file, Pass(cfg, file, r, budget).fingerprint)
  }

  /** The texts a poll sends are determined, if not the fingerprints it leaves: the tokens of
      both passes are, and whether the second one takes place. */
  ghost predicate TextsReady(cfg: Config, op: Operator, file: Bytes) {
    var r, known := NewReader(cfg, Begun(op), file), Begun(op).known;
    && TokensReady(cfg, file, r.offset)
    && (op.lastOpen && known != [] ==>
          var last := known[|known| - 1];
          && TokensReady(cfg, file, last.offset)
          && (|| PassStart(cfg, file, r.fingerprint, r.offset)
              || (last.fingerprint != [] && last.fingerprint <= Beginning(r.fingerprint, r.offset))))
  }

  /** In every state of a run in which the tokens fit the scanner's buffer, the operator's
      poll is the function `Poll`. */
  lemma PollsAreDetermined(cfg: Config, w: World, budget: nat)
    requires Pollable(cfg, w)
    requires Fits(cfg.split, cfg.bufferLimit, w.file[Min(|w.file|, NewReader(cfg, Begun(w.op), w.file).offset)..])
    ensures PollReady(cfg, w.op, w.file, budget)
  {
    hide Cuts, EarlyCuts, Fits, FindMatch;
    var r, r', kept, again, scratch := PollParts(cfg, w, budget);
    var op := Begun(w.op);
    if op.lastOpen && op.known != [] && !StartsWith(r'.fingerprint, op.known[|op.known| - 1].fingerprint) {
      AgedKeepsGood(cfg, w.file, w.op.known);
      ReadAgain(cfg, op, w.file, r, budget);
      assert Good(cfg, w.file, op.known[|op.known| - 1]);
    }
  }

  /** Some event of the run is a late poll. */
  predicate AnyLate(cfg: Config, events: seq<Event>) {
    events != [] &&
    var n := |events| - 1;
    AnyLate(cfg, events[..n]) || Late(cfg, After(cfg, events[..n]), events[n])
  }

  /** Whether anything has been repeated. */
  predicate Repeats(cfg: Config, events: seq<Event>) {
    After(cfg, events).log.repeated != []
  }

  lemma RepeatsStep(cfg: Config, events: seq<Event>, n: nat)
    requires cfg.Valid() && Stable(cfg.split) && CalmRun(cfg, events) && |events| == n + 1
    ensures Repeats(cfg, events) <==> Repeats(cfg, events[..n]) || Late(cfg, After(cfg, events[..n]), events[n])
  {
    CalmPrefix(cfg, events, n);
    AfterKeeps(cfg, events[..n]);
    RepeatedStep(cfg, After(cfg, events[..n]), events[n]);
  }

  /** Left-over readers repeat text exactly when some poll of the run is late. */
  lemma {:induction false} RepeatsIff(cfg: Config, events: seq<Event>)
    requires cfg.Valid() && Stable(cfg.split) && CalmRun(cfg, events)
    ensures Repeats(cfg, events) <==> AnyLate(cfg, events)
  {
    if events != [] {
      var n := |events| - 1;
      CalmPrefix(cfg, events, n);
      RepeatsIff(cfg, events[..n]);
      RepeatsStep(cfg, events, n);
    }
  }

  lemma RepeatedStep(cfg: Config, w: World, event: Event)
    requires cfg.Valid() && Stable(cfg.split) && Invariant(cfg, w)
    requires Budget(w, event).Some? ==> CalmPoll(cfg, w)
    ensures Next(cfg, w, event).log.repeated == [] <==> w.log.repeated == [] && !Late(cfg, w, event)
  {
    if Budget(w, event).Some? {
      if w.file == [] {
        EmptyPollKeeps(cfg, w, Budget(w, event).value);
      } else {
        RepeatedWhenLate(cfg, w, Budget(w, event).value);
      }
    }
  }

  /** A poll of a file whose reading had begun, but of which nothing had been cut, that after
      a restart starts at its end. */
  predicate Skips(cfg: Config, w: World, event: Event) {
    Budget(w, event).Some? && w.file != [] && Skipping(cfg, w.op)
  }

  predicate AnySkips(cfg: Config, events: seq<Event>) {
    events != [] &&
    var n := |events| - 1;
    AnySkips(cfg, events[..n]) || Skips(cfg, After(cfg, events[..n]), events[n])
  }

  lemma MovedStep(cfg: Config, w: World, event: Event)
    requires cfg.Valid() && Stable(cfg.split) && Invariant(cfg, w)
    requires Budget(w, event).Some? ==> CalmPoll(cfg, w)
    ensures Moved(Next(cfg, w, event).log) <==> Moved(w.log) || Skips(cfg, w, event)
  {
    if Budget(w, event).Some? {
      if w.file == [] {
        EmptyPollKeeps(cfg, w, Budget(w, event).value);
      } else {
        PollKeepsBase(cfg, w, Budget(w, event).value);
      }
    }
  }

  /** Reading goes on from where it began if and only if no poll skips. */
  lemma {:induction false} MovedIff(cfg: Config, events: seq<Event>)
    requires cfg.Valid() && Stable(cfg.split) && CalmRun(cfg, events)
    ensures Moved(After(cfg, events).log) <==> AnySkips(cfg, events)
  {
    if events != [] {
      var n := |events| - 1;
      CalmPrefix(cfg, events, n);
      MovedIff(cfg, events[..n]);
      AfterKeeps(cfg, events[..n]);
      MovedStep(cfg, After(cfg, events[..n]), events[n]);
    }
  }

  /** What a skip loses: nothing has been sent by then, and the poll sends nothing, whatever
      tokens the file has. */
  lemma SkipLosesTheText(cfg: Config, w: World, budget: nat)
    requires Pollable(cfg, w) && Skipping(cfg, w.op)
    ensures var w' := Polled(cfg, w, budget);
            && w'.log.base == Some(0) && w'.log.start == |w.file| && w'.log.emitted == []
            && (w'.log.emitted == Texts(Cuts(cfg.split, w.file)) <==> Texts(Cuts(cfg.split, w.file)) == [])
  {
    var r, r', kept, again, scratch := PollParts(cfg, w, budget);
    PollKnown(cfg, w, budget, r, r', kept, again, scratch);
    PollKeepsBase(cfg, w, budget);
    NothingInNothing(cfg.split);
    assert w.file[|w.file|..] == [];
    assert [] + Texts([]) + Texts([]) == [];
  }

  lemma NothingInNothing(split: SplitFunc)
    ensures Cuts(split, []) == []
  {
    assert Progressive(split);
  }

  /** After any run of appends, polls and restarts that ends in a complete poll, what was
      sent on is what tokenising the file from `start` gives, together with what left-over
      readers repeated. It is exactly that, in order, if and only if no poll was late; and
      `start` is where reading began if and only if no poll skipped. */
  lemma TailingIsExact(cfg: Config, events: seq<Event>)
    requires cfg.Valid() && Stable(cfg.split) && CalmRun(cfg, events + [CompletePoll])
    ensures var w := After(cfg, events + [CompletePoll]); w.log.start <= |w.file|
    ensures var w := After(cfg, events + [CompletePoll]);
            var expected := Texts(Cuts(cfg.split, w.file[w.log.start..]));
            && multiset(w.log.emitted) == multiset(expected) + multiset(w.log.repeated)
            && (w.log.emitted == expected <==> !AnyLate(cfg, events + [CompletePoll]))
    ensures var w := After(cfg, events + [CompletePoll]);
            && (w.file != [] ==> w.log.base.Some?)
            && (w.log.base.Some? ==>
                  (w.log.start == w.log.base.value <==> !AnySkips(cfg, events + [CompletePoll])))
            && (cfg.startAtBeginning ==> w.log.start == 0 && !AnySkips(cfg, events + [CompletePoll]))
            && (forall i :: 0 <= i < |w.op.known| ==> w.op.known[i].fingerprint <= w.file)
  {
    var all := events + [CompletePoll];
    assert all[..|events|] == events;
    CalmPrefix(cfg, all, |events|);
    AfterKeeps(cfg, events);
    NextKeeps(cfg, After(cfg, events), CompletePoll);
    RepeatsIff(cfg, all);
    MovedIff(cfg, all);
    var w := After(cfg, all);
    if w.file != [] {
      PollKeepsBase(cfg, After(cfg, events), Unbounded(w.file));
    }
    forall i | 0 <= i < |w.op.known| ensures w.op.known[i].fingerprint <= w.file {
      assert Good(cfg, w.file, w.op.known[i]);
    }
    if w.log.emitted == Texts(w.log.done) {
      assert |multiset(w.log.emitted)| == |multiset(w.log.emitted)| + |multiset(w.log.repeated)|;
    }
  }
}
