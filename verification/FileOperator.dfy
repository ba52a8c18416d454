// The file input operator as the object it is: the methods of
// operator/builtin/input/file/file.go, each proved against the function that says what
// a poll does. Known readers are kept as values.
module FileOperator {
  import opened Wrappers
  import opened Sequences
  import opened Multiline
  import opened FileReader
  import opened FileInput
  import opened Tailing

  class InputOperator {
    const cfg: Config
    const maxConcurrentFiles: nat
    var knownFiles: seq<ReaderState>
    var queuedMatches: seq<string>
    var lastOpen: bool
    var firstCheck: bool

    constructor (cfg: Config, maxConcurrentFiles: nat)
      ensures this.cfg == cfg && this.maxConcurrentFiles == maxConcurrentFiles
      ensures State() == START.op && queuedMatches == []
    {
      this.cfg, this.maxConcurrentFiles := cfg, maxConcurrentFiles;
      knownFiles, queuedMatches, lastOpen, firstCheck := [], [], false, true;
    }

    ghost function State(): Operator
      reads this
    {
      Operator(knownFiles, lastOpen, firstCheck)
    }

    /** The paths of this poll; listing the file system starts a generation. */
    method NextBatch(found: seq<string>) returns (matches: seq<string>)
      modifies this`knownFiles, this`queuedMatches
      ensures var batch := Batch(old(queuedMatches), found, maxConcurrentFiles / 2);
              matches == batch.0 && queuedMatches == batch.1
      ensures knownFiles == if old(queuedMatches) == [] then Aged(old(knownFiles)) else old(knownFiles)
    {
      var maxBatchFiles := maxConcurrentFiles / 2;
      if |queuedMatches| > maxBatchFiles && queuedMatches != [] {
        matches, queuedMatches := queuedMatches[..maxBatchFiles], queuedMatches[maxBatchFiles..];
      } else if |queuedMatches| > 0 {
        matches, queuedMatches := queuedMatches, [];
      } else {
        StartGeneration();
        matches := found;
        if |matches| > maxBatchFiles {
          matches, queuedMatches := matches[..maxBatchFiles], matches[maxBatchFiles..];
        }
      }
    }

    method StartGeneration()
      modifies this`knownFiles
      ensures knownFiles == Aged(old(knownFiles))
    {
      var i := 0;
      while i < |knownFiles|
        invariant i <= |knownFiles| == |old(knownFiles)|
        invariant knownFiles[..i] == Aged(old(knownFiles))[..i] && knownFiles[i..] == old(knownFiles)[i..]
      {
        knownFiles := knownFiles[i := knownFiles[i].(generation := knownFiles[i].generation + 1)];
        i := i + 1;
      }
    }

    method SaveCurrent(readers: seq<ReaderState>)
      modifies this`knownFiles
      ensures knownFiles == Saved(old(knownFiles), readers)
    {
      for k := 0 to |readers|
        invariant knownFiles == old(knownFiles) + readers[..k]
      {
        knownFiles := knownFiles + [readers[k]];
      }
      assert readers[..|readers|] == readers;
      var i := 0;
      while i < |knownFiles| && knownFiles[i].generation > 3
        invariant i <= |knownFiles| && Young(knownFiles) == i + Young(knownFiles[i..])
      {
        assert knownFiles[i..][1..] == knownFiles[i + 1..];
        i := i + 1;
      }
      if i < |knownFiles| {
        knownFiles := knownFiles[i..];
      }
    }

    /** Newest first. */
    method FindFingerprintMatch(fp: Bytes) returns (r: Option<nat>)
      ensures r == FindMatch(knownFiles, fp)
    {
      var i := |knownFiles|;
      while i > 0
        invariant 0 <= i <= |knownFiles| && FindMatch(knownFiles, fp) == FindMatch(knownFiles[..i], fp)
      {
        i := i - 1;
        assert knownFiles[..i + 1][..i] == knownFiles[..i];
        if StartsWith(fp, knownFiles[i].fingerprint) {
          return Some(i);
        }
      }
      return None;
    }

    /** `newReader` for a file that was found, without reading headers. */
    method MakeReader(file: Bytes) returns (reader: Reader)
      ensures fresh(reader) && reader.cfg == cfg
      ensures var r := NewReader(cfg, State(), file); reader.fingerprint == r.fingerprint && reader.offset == r.offset
    {
      var fp := NewFingerprint(cfg.fingerprintSize, file);
      var found := FindFingerprintMatch(fp);
      match found {
        case Some(i) => reader := new Reader(cfg, knownFiles[i].fingerprint, knownFiles[i].offset);
        case None => reader := new Reader(cfg, fp, if !firstCheck || cfg.startAtBeginning then 0 else |file|);
      }
    }

    /** What a pass leaves of a reader, and what it sends on. */
    method ReadToEnd(reader: Reader, generation: nat, file: Bytes, budget: nat)
        returns (r: ReaderState, emitted: seq<Bytes>, left: nat)
      requires reader.cfg == cfg && cfg.Valid() && reader.offset <= |file|
      modifies reader
      ensures var r0 := ReaderState(old(reader.fingerprint), old(reader.offset), generation);
              Passes(file, budget, r0, r, emitted, left)
    {
      var used;
      emitted, used := reader.ReadFile(file, budget);
      r, left := ReaderState(reader.fingerprint, reader.offset, generation), budget - used;
    }

    /** What is known of a pass: its tokens if they are determined; and its fingerprint if
        that is, too, or else that it keeps what was before the offset. */
    ghost predicate Passes(file: Bytes, budget: nat, r0: ReaderState, r: ReaderState, emitted: seq<Bytes>, left: nat) {
      && (TokensReady(cfg, file, r0.offset) ==>
            && r.offset == Pass(cfg, file, r0, budget).offset && r.generation == r0.generation
            && emitted == Texts(PassCuts(cfg, file, r0.offset, budget))
            && left == Left(cfg, file, r0.offset, budget))
      && (PassReady(cfg, file, r0.fingerprint, r0.offset) ==>
            r.fingerprint == Pass(cfg, file, r0, budget).fingerprint)
      && Beginning(r0.fingerprint, r0.offset) <= r.fingerprint
    }

    /** The pass over a file that was found. */
    method ReadFound(file: Bytes, budget: nat) returns (r: ReaderState, first: seq<Bytes>, left: nat)
      requires cfg.Valid() && forall i :: 0 <= i < |knownFiles| ==> knownFiles[i].offset <= |file|
      ensures Passes(file, budget, NewReader(cfg, State(), file), r, first, left)
    {
      var reader := MakeReader(file);
      r, first, left := ReadToEnd(reader, 0, file, budget);
    }

    /** What the left-over reader sends, if its tokens are determined. */
    ghost predicate Rereads(op: Operator, file: Bytes, fingerprint: Bytes, budget: nat, again: seq<Bytes>) {
      if op.lastOpen && op.known != [] && !StartsWith(fingerprint, op.known[|op.known| - 1].fingerprint) then
        var last := op.known[|op.known| - 1];
        TokensReady(cfg, file, last.offset) ==> again == Texts(PassCuts(cfg, file, last.offset, budget))
      else again == []
    }

    /** The reader left over from the previous poll is read again when the new reader's
        fingerprint does not start with its own. */
    method ReadLeftOver(fingerprint: Bytes, file: Bytes, budget: nat) returns (again: seq<Bytes>)
      requires cfg.Valid() && forall i :: 0 <= i < |knownFiles| ==> knownFiles[i].offset <= |file|
      modifies this`knownFiles
      ensures LeftOverReady(cfg, old(State()), file, fingerprint) ==>
                knownFiles == LeftOver(cfg, old(State()), file, fingerprint, budget).0
      ensures Rereads(old(State()), file, fingerprint, budget, again)
    {
      again := [];
      var last := |knownFiles| - 1;
      if lastOpen && 0 <= last && !StartsWith(fingerprint, knownFiles[last].fingerprint) {
        var over := new Reader(cfg, knownFiles[last].fingerprint, knownFiles[last].offset);
        var r, left;
        r, again, left := ReadToEnd(over, knownFiles[last].generation, file, budget);
        knownFiles := knownFiles[last := r];
      }
    }

    /** A poll that finds one file with bytes in it. */
    method PollFile(path: string, file: Bytes, budget: nat) returns (emitted: seq<Bytes>)
      requires cfg.Valid() && 2 <= maxConcurrentFiles && queuedMatches == [] && file != []
      requires forall i :: 0 <= i < |knownFiles| ==> knownFiles[i].offset <= |file|
      modifies this
      ensures queuedMatches == []
      ensures PollReady(cfg, old(State()), file, budget) ==> State() == Tailing.Poll(cfg, old(State()), file, budget).op
      ensures TextsReady(cfg, old(State()), file) ==>
                var p := Tailing.Poll(cfg, old(State()), file, budget);
                emitted == Texts(p.first) + Texts(p.again)
    {
      hide Tailing.Poll, NewReader, Pass, PassCuts, Left, LeftOver, Saved, TextsReady, PollReady, TokensReady;
      ghost var before := State();
      var matches := NextBatch([path]);
      assert State() == Begun(before);
      var r, first, left := ReadFound(file, budget);
      var again := ReadLeftOver(r.fingerprint, file, left);
      if PollReady(cfg, before, file, budget) {
        PollLeaves(before, file, budget, r, first, left, knownFiles);
      }
      if TextsReady(cfg, before, file) {
        PollSends(before, file, budget, r, first, left, again);
      }
      emitted, lastOpen, firstCheck := first + again, true, false;
      SaveCurrent([r]);
    }

    lemma PollLeaves(op: Operator, file: Bytes, budget: nat, r: ReaderState, first: seq<Bytes>, left: nat,
                     kept: seq<ReaderState>)
      requires PollReady(cfg, op, file, budget) && file != []
      requires Passes(file, budget, NewReader(cfg, Begun(op), file), r, first, left)
      requires LeftOverReady(cfg, Begun(op), file, r.fingerprint) ==>
                 kept == LeftOver(cfg, Begun(op), file, r.fingerprint, left).0
      ensures Operator(Saved(kept, [r]), true, false) == Tailing.Poll(cfg, op, file, budget).op
    {
      var r0 := NewReader(cfg, Begun(op), file);
      assert r == Pass(cfg, file, r0, budget);
    }

    /** Whether the left-over reader is read again does not depend on what a fingerprint that
        does not reach to the offset picks up. */
    lemma PollSends(op: Operator, file: Bytes, budget: nat, r: ReaderState, first: seq<Bytes>, left: nat,
                    again: seq<Bytes>)
      requires TextsReady(cfg, op, file) && file != []
      requires Passes(file, budget, NewReader(cfg, Begun(op), file), r, first, left)
      requires Rereads(Begun(op), file, r.fingerprint, left, again)
      ensures var p := Tailing.Poll(cfg, op, file, budget);
              first + again == Texts(p.first) + Texts(p.again)
    {
      hide PassCuts, NewReader, FindMatch, Cuts;
      var r0, known := NewReader(cfg, Begun(op), file), Begun(op).known;
      if op.lastOpen && known != [] {
        var last := known[|known| - 1];
        assert StartsWith(r.fingerprint, last.fingerprint)
            <==> StartsWith(Pass(cfg, file, r0, budget).fingerprint, last.fingerprint);
      }
      assert Texts([]) == [];
    }

    /** A poll that finds a file without bytes: it is left alone until it can be told from
        others. */
    method PollEmptyFile(path: string)
      requires 2 <= maxConcurrentFiles && queuedMatches == []
      modifies this
      ensures queuedMatches == []
      ensures var p := Tailing.Poll(cfg, old(State()), [], 0);
              knownFiles == p.op.known && lastOpen == p.op.lastOpen && firstCheck == p.op.firstCheck
    {
      var matches := NextBatch([path]);
      lastOpen, firstCheck := false, false;
      SaveCurrent([]);
    }

    /** Stop, and start again from what was saved after the last poll. */
    method Restart()
      modifies this
      ensures State() == Restarted(old(State())) && queuedMatches == old(queuedMatches)
    {
      var saved := knownFiles;
      knownFiles, lastOpen, firstCheck := [], false, true;
      for i := 0 to |saved|
        invariant queuedMatches == old(queuedMatches) && knownFiles == Forget(saved)[..i] && !lastOpen && firstCheck
      {
        knownFiles := knownFiles + [ReaderState(saved[i].fingerprint, saved[i].offset, 0)];
      }
    }
  }

  // -------------------------------------------------------------- whole runs

  /** The tokens that the poll of an event may have to cut fit the scanner's buffer. */
  ghost predicate FitsAt(cfg: Config, w: World) {
    Fits(cfg.split, cfg.bufferLimit, w.file[Min(|w.file|, NewReader(cfg, Begun(w.op), w.file).offset)..])
  }

  ghost predicate FitRun(cfg: Config, events: seq<Event>) {
    forall i :: 0 <= i < |events| ==> FitsAt(cfg, After(cfg, events[..i]))
  }

  /** In a state of a run the poll of the file is determined, and so is what it sends. */
  lemma PollIsReady(cfg: Config, w: World, budget: nat)
    requires Pollable(cfg, w) && FitsAt(cfg, w)
    ensures PollReady(cfg, w.op, w.file, budget) && TextsReady(cfg, w.op, w.file)
    ensures forall i :: 0 <= i < |w.op.known| ==> w.op.known[i].offset <= |w.file|
  {
    hide Fits, EarlyCuts, Cuts, FindMatch, Pass, CalmPoll;
    PollsAreDetermined(cfg, w, budget);
    AgedKeepsGood(cfg, w.file, w.op.known);
    var op := Begun(w.op);
    NewReaderIsGood(cfg, op, w.file);
    forall i | 0 <= i < |w.op.known| ensures w.op.known[i].offset <= |w.file| {
      assert Good(cfg, w.file, w.op.known[i]);
    }
    if op.lastOpen && op.known != [] {
      var r, last := NewReader(cfg, op, w.file), op.known[|op.known| - 1];
      assert Good(cfg, w.file, last);
    }
  }

  /** One poll of the operator in the state of a run. */
  method DrivePoll(operator: InputOperator, path: string, budget: nat, ghost w: World, file: Bytes)
      returns (emitted: seq<Bytes>)
    requires operator.cfg.Valid() && Stable(operator.cfg.split) && Invariant(operator.cfg, w)
    requires CalmPoll(operator.cfg, w) && FitsAt(operator.cfg, w)
    requires operator.State() == w.op && file == w.file && operator.queuedMatches == []
    requires 2 <= operator.maxConcurrentFiles
    modifies operator
    ensures operator.queuedMatches == [] && operator.State() == Polled(operator.cfg, w, budget).op
    ensures w.log.emitted + emitted == Polled(operator.cfg, w, budget).log.emitted
  {
    hide Tailing.Poll, PollReady, TextsReady, FitsAt, Invariant, CalmPoll;
    ghost var p := Tailing.Poll(operator.cfg, w.op, file, budget);
    if file == [] {
      operator.PollEmptyFile(path);
      emitted := [];
      NothingPolled(operator.cfg, w.op, budget);
    } else {
      PollIsReady(operator.cfg, w, budget);
      emitted := operator.PollFile(path, file, budget);
    }
    Associative(w.log.emitted, Texts(p.first), Texts(p.again));
  }

  lemma NothingPolled(cfg: Config, op: Operator, budget: nat)
    ensures var p := Tailing.Poll(cfg, op, [], budget);
            p == Tailing.Poll(cfg, op, [], 0) && Texts(p.first) == Texts(p.again) == [] && [] + Texts(p.again) == []
  {}

  /** The operator driven by any events: over every calm run whose tokens fit the buffer, its
      state and everything it sends are those of the run. */
  method Drive(cfg: Config, path: string, events: seq<Event>) returns (operator: InputOperator, emitted: seq<Bytes>)
    requires cfg.Valid() && Stable(cfg.split) && CalmRun(cfg, events) && FitRun(cfg, events)
    ensures operator.State() == After(cfg, events).op
    ensures emitted == After(cfg, events).log.emitted
  {
    AfterNothing(cfg);
    hide Invariant, CalmPoll, FitsAt, Tailing.Poll, After;
    operator := new InputOperator(cfg, 2);
    emitted := [];
    var file: Bytes := [];
    for i := 0 to |events|
      invariant fresh(operator) && operator.cfg == cfg && operator.maxConcurrentFiles == 2
      invariant operator.queuedMatches == []
      invariant var w := After(cfg, events[..i]);
                operator.State() == w.op && file == w.file && emitted == w.log.emitted
    {
      ghost var w := After(cfg, events[..i]);
      CalmPrefix(cfg, events, i);
      AfterKeeps(cfg, events[..i]);
      AfterOneMore(cfg, events[..i], events[i]);
      assert events[..i] + [events[i]] == events[..i + 1];
      assert FitsAt(cfg, w);
      match events[i]
      case Append(bytes) =>
        file := file + bytes;
      case Restart =>
        operator.Restart();
      case CompletePoll =>
        var more := DrivePoll(operator, path, 2 * |file| + 2, w, file);
        emitted := emitted + more;
      case StopInPoll(budget) =>
        var more := DrivePoll(operator, path, budget, w, file);
        emitted := emitted + more;
        operator.Restart();
    }
    assert events[..|events|] == events;
  }
}
