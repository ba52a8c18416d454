// Where tailing one file loses or repeats text, or stops the program: what it takes, for
// all files, and the smallest ones.
module TailingFaults {
  import opened Wrappers
  import opened Sequences
  import opened Multiline
  import opened Delimiters
  import opened FileReader
  import opened FileInput
  import opened Tailing
  import opened TailingOnce

  // ------------------------------------------------- tokens held back at the end

  lemma {:induction false} AllEarly(split: SplitFunc, data: Bytes)
    requires Stable(split)
    ensures Consumed(EarlyCuts(split, data)) == Consumed(Cuts(split, data))
            <==> EarlyCuts(split, data) == Cuts(split, data)
    decreases |data|
  {
    var early, cuts := EarlyCuts(split, data), Cuts(split, data);
    EarlyCutsAreCuts(split, data);
    if early != cuts {
      var n := Consumed(early);
      CutsAfter(split, data, |early|);
      assert cuts[..|early|] == early;
      SplitAt(cuts, |early|);
      ConsumedConcat(early, cuts[|early|..]);
      CutFirst(split, data[n..]);
    }
  }

  /** A complete pass over a short file leaves a reader that can be resumed exactly when
      the split function held no token back until the end of the file. */
  lemma ResumableIff(cfg: Config, file: Bytes, r: ReaderState, budget: nat)
    requires cfg.Valid() && Stable(cfg.split) && Good(cfg, file, r) && |r.fingerprint| < cfg.fingerprintSize
    requires |file| < cfg.fingerprintSize && Unbounded(file) <= budget
    ensures Good(cfg, file, Pass(cfg, file, r, budget))
            <==> EarlyCuts(cfg.split, file[r.offset..]) == Cuts(cfg.split, file[r.offset..])
  {
    var data := file[r.offset..];
    FingerprintIsPrefix(cfg, file, r.fingerprint, r.offset, budget);
    CutsCount(cfg.split, data);
    AllEarly(cfg.split, data);
    EarlyCutsAreCuts(cfg.split, data);
    PassReaches(cfg, file, r.offset, budget);
    var early, cuts := EarlyCuts(cfg.split, data), Cuts(cfg.split, data);
    assert cuts[..|cuts|] == cuts && cuts[..|early|] == early;
    ConsumedMonotone(cuts, |early|, |cuts|);
  }

  /** A poll of an operator that knows no reader yet, of a file that is shorter than the
      fingerprint, from its beginning. */
  predicate FirstPoll(cfg: Config, w: World) {
    && cfg.Valid() && 0 < |w.file| < cfg.fingerprintSize
    && w.op.known == [] && w.log == START.log && (cfg.startAtBeginning || !w.op.firstCheck)
  }

  /** It sends every token and leaves a fingerprint that ends where the early tokens end. */
  lemma FirstPollOutcome(cfg: Config, w: World)
    requires FirstPoll(cfg, w) && Stable(cfg.split)
    ensures var early, cuts := EarlyCuts(cfg.split, w.file), Cuts(cfg.split, w.file);
            var w' := Next(cfg, w, CompletePoll);
            && Consumed(early) <= Consumed(cuts) <= |w.file|
            && w'.file == w.file && !w'.op.firstCheck && w'.op.lastOpen
            && w'.op.known == [ReaderState(w.file[..Consumed(early)], Consumed(cuts), 0)]
            && w'.log.emitted == Texts(cuts) && w'.log.base == Some(0)
  {
    var file, cuts, early := w.file, Cuts(cfg.split, w.file), EarlyCuts(cfg.split, w.file);
    var budget := Unbounded(file);
    assert file[0..] == file && NewFingerprint(cfg.fingerprintSize, file) == file;
    CutsCount(cfg.split, file);
    EarlyCutsAreCuts(cfg.split, file);
    ConsumedBound(cfg.split, file);
    ConsumedMonotone(cuts, |early|, |cuts|);
    assert cuts[..|cuts|] == cuts && cuts[..|early|] == early;
    var r := ReaderState(file, 0, 0);
    FingerprintIsPrefix(cfg, file, file, 0, budget);
    var r' := Pass(cfg, file, r, budget);
    assert r' == ReaderState(file[..Consumed(early)], Consumed(cuts), 0);
    assert NewReader(cfg, Begun(w.op), file) == r;
    assert Young([] + [r']) == 0 && ([] + [r'])[0..] == [r'];
    assert Texts(cuts) + Texts([]) == Texts(cuts) && [] + Texts(cuts) == Texts(cuts);
  }

  /** The poll after that, of the same file. */
  lemma SecondPollOutcome(cfg: Config, w: World, early: nat, done: nat)
    requires cfg.Valid() && 0 < |w.file| < cfg.fingerprintSize && early <= done <= |w.file|
    requires w.op.known == [ReaderState(w.file[..early], done, 0)] && !w.op.firstCheck && w.op.lastOpen
    requires Cuts(cfg.split, w.file[done..]) == []
    ensures Next(cfg, w, CompletePoll).log.emitted
            == w.log.emitted + if early == 0 then Texts(Cuts(cfg.split, w.file)) else []
  {
    var file, cuts, budget := w.file, Cuts(cfg.split, w.file), Unbounded(w.file);
    var known := Begun(w.op).known;
    var last := ReaderState(file[..early], done, 1);
    assert known == [last];
    assert file[0..] == file && NewFingerprint(cfg.fingerprintSize, file) == file;
    assert FindMatch(known[..0], file) == None;
    var p := Poll(cfg, w.op, file, budget);
    if early == 0 {
      assert NewReader(cfg, Begun(w.op), file) == ReaderState(file, 0, 0);
      CutsCount(cfg.split, file);
      assert cuts[..|cuts|] == cuts;
      assert p.first == cuts && p.again == [];
    } else {
      var r := ReaderState(file[..early], done, 0);
      assert NewReader(cfg, Begun(w.op), file) == r;
      assert p.first == [];
      var r' := Pass(cfg, file, r, budget);
      if PassStart(cfg, file, r.fingerprint, done) {
        FingerprintIsPrefix(cfg, file, r.fingerprint, done, budget);
      }
      assert StartsWith(r'.fingerprint, last.fingerprint);
      assert p.again == [];
    }
    assert w.log.emitted + Texts(p.first) + [] == w.log.emitted + Texts(p.first);
  }

  lemma {:induction false} ShortFits(split: SplitFunc, limit: nat, data: Bytes)
    requires |data| < limit
    ensures Fits(split, limit, data)
    decreases |data|
  {
    if split(data, true).Token? {
      assert Progressive(split);
      ShortFits(split, limit, data[split(data, true).advance..]);
    }
  }

  /** Two complete polls of a short file, the first from its beginning: the second one sends
      text again if and only if no token is cut early and some text is cut. Then it sends all
      of it; and its texts are those of the operator's poll. */
  lemma SecondPollRepeatsIff(cfg: Config, w: World)
    requires FirstPoll(cfg, w) && Stable(cfg.split)
    ensures var w1 := Next(cfg, w, CompletePoll);
            var w2 := Next(cfg, w1, CompletePoll);
            var texts := Texts(Cuts(cfg.split, w.file));
            && w1.log.emitted == texts
            && w2.log.emitted == texts + (if EarlyCuts(cfg.split, w.file) == [] then texts else [])
            && (w2.log.emitted != w1.log.emitted <==> EarlyCuts(cfg.split, w.file) == [] && texts != [])
            && TextsReady(cfg, w1.op, w.file)
  {
    var file, split := w.file, cfg.split;
    var early, cuts := EarlyCuts(split, file), Cuts(split, file);
    var w1 := Next(cfg, w, CompletePoll);
    FirstPollOutcome(cfg, w);
    RestHasNoToken(split, file);
    assert Cuts(split, file[Consumed(cuts)..]) == [];
    EarlyConsumed(split, file);
    SecondPollOutcome(cfg, w1, Consumed(early), Consumed(cuts));
    ShortFits(split, cfg.bufferLimit, file);
    ShortFits(split, cfg.bufferLimit, file[Consumed(cuts)..]);
    SecondPollIsReady(cfg, w1, Consumed(early), Consumed(cuts));
    assert |Texts(cuts) + Texts(cuts)| == 2 * |Texts(cuts)|;
  }

  lemma EarlyConsumed(split: SplitFunc, data: Bytes)
    ensures Consumed(EarlyCuts(split, data)) == 0 <==> EarlyCuts(split, data) == []
  {
    if split(data, false).Token? {
      assert Progressive(split);
      EarlyFirst(split, data);
    }
  }

  lemma SecondPollIsReady(cfg: Config, w: World, early: nat, done: nat)
    requires cfg.Valid() && 0 < |w.file| < cfg.fingerprintSize && early <= done <= |w.file|
    requires w.op.known == [ReaderState(w.file[..early], done, 0)] && !w.op.firstCheck && w.op.lastOpen
    requires TokensReady(cfg, w.file, 0) && TokensReady(cfg, w.file, done)
    ensures TextsReady(cfg, w.op, w.file)
  {
    var file := w.file;
    assert file[0..] == file && NewFingerprint(cfg.fingerprintSize, file) == file;
    assert FindMatch(Begun(w.op).known[..0], file) == None;
    assert Begun(w.op).known == [ReaderState(file[..early], done, 1)];
  }

  /** With a line-end pattern: if and only if the first match of the file ends one byte before
      its end. */
  lemma LineEndRepeatsIff(cfg: Config, find: Matcher, w: World)
    requires FirstPoll(cfg, w) && PrefixStable(find) && NeverEmpty(find) && cfg.split == LineEnd(find)
    ensures var w1 := Next(cfg, w, CompletePoll);
            var w2 := Next(cfg, w1, CompletePoll);
            w2.log.emitted != w1.log.emitted <==> find(w.file).Some? && find(w.file).value.end == |w.file| - 1
  {
    hide Next, TextsReady;
    var split, file := cfg.split, w.file;
    LineEndStable(find);
    SecondPollRepeatsIff(cfg, w);
    LineEndHoldsBack(find, file);
    assert EarlyCuts(split, file) == [] <==> split(file, false).More?;
    if split(file, true).Token? {
      CutFirst(split, file);
      assert Texts(Cuts(split, file)) != [];
    } else {
      assert Cuts(split, file) == [] && Texts([]) == [];
    }
  }

  /** The smallest such file: the token is sent twice. */
  lemma HeldBackTokenIsRepeated(cfg: Config, x: Byte, b: Byte, y: Byte)
    requires cfg.Valid() && 3 < cfg.fingerprintSize && cfg.startAtBeginning && x != b && y != b
    requires cfg.split == LineEnd(Literal([b]))
    ensures Cuts(cfg.split, [x, b, y]) == [Cut(2, [x, b])]
    ensures After(cfg, [Append([x, b, y]), CompletePoll]).log.emitted == [[x, b]]
    ensures After(cfg, [Append([x, b, y]), CompletePoll, CompletePoll]).log.emitted == [[x, b], [x, b]]
  {
    hide Next, TextsReady, EarlyCuts;
    var file := [x, b, y];
    LiteralIsStable([b]);
    LineEndStable(Literal([b]));
    HeldBackCuts(b, x, y);
    var w := Grown(START, file);
    AfterOneMore(cfg, [], Append(file));
    AfterOneMore(cfg, [Append(file)], CompletePoll);
    AfterOneMore(cfg, [Append(file), CompletePoll], CompletePoll);
    AppendIsGrowth(cfg, START, file);
    assert [] + file == file && [] + [Append(file)] == [Append(file)];
    assert [Append(file)] + [CompletePoll] == [Append(file), CompletePoll];
    assert [Append(file), CompletePoll] + [CompletePoll] == [Append(file), CompletePoll, CompletePoll];
    SecondPollRepeatsIff(cfg, w);
    assert Texts([Cut(2, [x, b])]) == [[x, b]] + [];
    assert [[x, b]] + [[x, b]] == [[x, b], [x, b]];
  }

  function Grown(w: World, bytes: Bytes): World {
    w.(file := w.file + bytes)
  }

  lemma AppendIsGrowth(cfg: Config, w: World, bytes: Bytes)
    ensures Next(cfg, w, Append(bytes)) == Grown(w, bytes)
  {}

  lemma FindsSecond(b: Byte, x: Byte, y: Byte)
    requires x != b && y != b
    ensures IndexOf([x, b, y], [b]) == Some(1) && IndexOf([y], [b]) == None
  {
    var d := [x, b, y];
    assert !OccursAt(d, [b], 0) by { assert d[0..1] == [x]; assert [x][0] != [b][0]; }
    assert OccursAt(d, [b], 1) by { assert d[1..2] == [b]; }
    assert !Contains([y], [b]) by {
      assert [y][0..1] == [y] && [y][0] != [b][0];
    }
  }

  lemma HeldBackCuts(b: Byte, x: Byte, y: Byte)
    requires x != b && y != b
    ensures NeverEmpty(Literal([b]))
    ensures var split := LineEnd(Literal([b]));
            && split([x, b, y], false) == More && split([x, b, y], true) == Token(2, [x, b])
            && Cuts(split, [x, b, y]) == [Cut(2, [x, b])] && Cuts(split, [y]) == []
            && EarlyCuts(split, [x, b, y]) == []
  {
    LiteralIsStable([b]);
    FindsSecond(b, x, y);
    var d, split := [x, b, y], LineEnd(Literal([b]));
    assert d[..2] == [x, b] && d[2..] == [y];
    assert split([y], true) == More;
    CutFirst(split, d);
  }

  // -------------------------------------------------- lines lost by a restart

  /** The operator is started again and finds a file it had begun to read from the beginning,
      and of which nothing was cut: it goes on from the end. */
  lemma SkipOutcome(cfg: Config, w: World)
    requires cfg.Valid() && !cfg.startAtBeginning && w.file != [] && w.log.emitted == [] && w.log.base.Some?
    requires w.op == Operator([ReaderState([], 0, 0)], false, true)
    ensures var w' := Next(cfg, w, CompletePoll);
            w'.file == w.file && w'.log.emitted == [] && w'.log.start == |w.file| && w'.log.base == w.log.base
  {
    var file, known := w.file, Begun(w.op).known;
    assert known == [ReaderState([], 0, 1)];
    var fp := NewFingerprint(cfg.fingerprintSize, file);
    assert FindMatch(known[..0], fp) == None;
    assert NewReader(cfg, Begun(w.op), file) == ReaderState(fp, |file|, 0);
    NothingInNothing(cfg.split);
    assert file[|file|..] == [];
    var p := Poll(cfg, w.op, file, Unbounded(file));
    assert p.first == [] && p.again == [];
    assert [] + Texts([]) + Texts([]) == [];
  }

  /** Reading from the end of files, an operator that has been running finds a new file that
      does not hold a complete token yet, and is restarted before the token is completed:
      nothing of the file is sent, whatever tokens it has by then. */
  lemma RestartLosesTheFirstTokens(cfg: Config, part: Bytes, more: Bytes)
    requires cfg.Valid() && Stable(cfg.split) && !cfg.startAtBeginning
    requires 0 < |part| < cfg.fingerprintSize && cfg.split(part, true).More?
    ensures var events := [CompletePoll, Append(part), CompletePoll, Restart, Append(more), CompletePoll];
            var w := After(cfg, events);
            && w.file == part + more && w.log.base == Some(0) && w.log.start == |part + more|
            && w.log.emitted == [] && Expected(cfg, events) == Texts(Cuts(cfg.split, part + more))
  {
    hide Next, After;
    var a, b, c := CompletePoll, Append(part), CompletePoll;
    var d, e, f := Restart, Append(more), CompletePoll;
    var w2 := Grown(World([], Operator([], false, false), START.log), part);
    AfterEach(cfg, a, b, c, d, e, f);
    EmptyPollOfStart(cfg);
    AppendIsGrowth(cfg, World([], Operator([], false, false), START.log), part);
    assert [] + part == part;
    FirstPollOutcome(cfg, w2);
    var w3 := Next(cfg, w2, c);
    NothingHeldBack(cfg.split, part);
    assert part[..0] == [];
    var w4 := w3.(op := Restarted(w3.op));
    RestartIsForgetting(cfg, w3);
    assert Forget(w3.op.known) == [ReaderState([], 0, 0)];
    AppendIsGrowth(cfg, w4, more);
    SkipOutcome(cfg, Grown(w4, more));
    ExpectedOfRun(cfg, part, more);
  }

  lemma SixEvents(a: Event, b: Event, c: Event, d: Event, e: Event, f: Event)
    ensures [] + [a] + [b] + [c] + [d] + [e] + [f] == [a, b, c, d, e, f]
  {}

  lemma AfterEach(cfg: Config, a: Event, b: Event, c: Event, d: Event, e: Event, f: Event)
    ensures After(cfg, [a, b, c, d, e, f])
            == Next(cfg, Next(cfg, Next(cfg, Next(cfg, Next(cfg, Next(cfg, START, a), b), c), d), e), f)
  {
    AfterNothing(cfg);
    hide Next, After;
    AfterOneMore(cfg, [], a);
    AfterOneMore(cfg, [] + [a], b);
    AfterOneMore(cfg, [] + [a] + [b], c);
    AfterOneMore(cfg, [] + [a] + [b] + [c], d);
    AfterOneMore(cfg, [] + [a] + [b] + [c] + [d], e);
    AfterOneMore(cfg, [] + [a] + [b] + [c] + [d] + [e], f);
    SixEvents(a, b, c, d, e, f);
  }

  lemma EmptyPollOfStart(cfg: Config)
    ensures Next(cfg, START, CompletePoll) == World([], Operator([], false, false), START.log)
  {
    assert Aged([]) == [] && Saved([], []) == [];
    assert [] + Texts([]) + Texts([]) == [] && [] + Texts([]) == [];
  }

  lemma NothingHeldBack(split: SplitFunc, part: Bytes)
    requires Stable(split) && split(part, true).More?
    ensures Cuts(split, part) == [] && EarlyCuts(split, part) == [] && Consumed([]) == 0 && Texts([]) == []
  {
    assert Keeps(split, part, false, []) && part + [] == part;
  }

  lemma RestartIsForgetting(cfg: Config, w: World)
    ensures Next(cfg, w, Restart) == w.(op := Restarted(w.op))
  {}

  lemma OneMoreInput(cfg: Config, events: seq<Event>, event: Event)
    ensures FileAfter(events + [event])
            == if event.Append? then FileAfter(events) + event.bytes else FileAfter(events)
    ensures Base(cfg, events).Some? ==> Base(cfg, events + [event]) == Base(cfg, events)
    ensures Base(cfg, events).None? && (!IsPoll(event) || FileAfter(events) == []) ==>
              Base(cfg, events + [event]) == None
    ensures Base(cfg, events).None? && IsPoll(event) && FileAfter(events) != [] && !FirstCheckAfter(events) ==>
              Base(cfg, events + [event]) == Some(0)
    ensures FirstCheckAfter(events + [event])
            <==> if event.Append? then FirstCheckAfter(events) else !event.CompletePoll?
  {
    assert (events + [event])[..|events|] == events;
  }

  lemma ExpectedOfRun(cfg: Config, part: Bytes, more: Bytes)
    requires part != []
    ensures var events := [CompletePoll, Append(part), CompletePoll, Restart, Append(more), CompletePoll];
            Expected(cfg, events) == Texts(Cuts(cfg.split, part + more))
  {
    var a, b, c := CompletePoll, Append(part), CompletePoll;
    var d, e, f := Restart, Append(more), CompletePoll;
    SixEvents(a, b, c, d, e, f);
    InputsOfRun(cfg, a, b, c, d, e, f, part, more);
    hide FileAfter, Base, Cuts;
    assert (part + more)[0..] == part + more;
  }

  lemma InputsOfRun(cfg: Config, a: Event, b: Event, c: Event, d: Event, e: Event, f: Event, part: Bytes, more: Bytes)
    requires a == c == f == CompletePoll && b == Append(part) && d == Restart && e == Append(more) && part != []
    ensures var events := [] + [a] + [b] + [c] + [d] + [e] + [f];
            FileAfter(events) == part + more && Base(cfg, events) == Some(0)
  {
    assert FileAfter([]) == [] && Base(cfg, []) == None;
    hide FileAfter, Base, FirstCheckAfter;
    OneMoreInput(cfg, [], a);
    OneMoreInput(cfg, [] + [a], b);
    OneMoreInput(cfg, [] + [a] + [b], c);
    OneMoreInput(cfg, [] + [a] + [b] + [c], d);
    OneMoreInput(cfg, [] + [a] + [b] + [c] + [d], e);
    OneMoreInput(cfg, [] + [a] + [b] + [c] + [d] + [e], f);
    assert [] + part == part;
  }

  lemma FindsLast(x: Byte, newline: Byte)
    requires x != newline
    ensures IndexOf([x], [newline]) == None && IndexOf([x, newline], [newline]) == Some(1)
  {
    var d := [x, newline];
    assert !OccursAt(d, [newline], 0) by { assert d[0..1] == [x]; assert [x][0] != [newline][0]; }
    assert OccursAt(d, [newline], 1) by { assert d[1..2] == [newline]; }
    assert !Contains([x], [newline]) by {
      assert [x][0..1] == [x] && [x][0] != [newline][0];
    }
  }

  /** The smallest such file: a line of one character. */
  lemma RestartLosesALine(cfg: Config, x: Byte, newline: Byte, carriageReturn: Bytes)
    requires cfg.Valid() && !cfg.startAtBeginning && 1 < cfg.fingerprintSize
    requires x != newline && carriageReturn != [x] && cfg.split == Newline([newline], carriageReturn)
    ensures var events := [CompletePoll, Append([x]), CompletePoll, Restart, Append([newline]), CompletePoll];
            After(cfg, events).log.emitted == [] && Expected(cfg, events) == [[x]]
  {
    var split, file := cfg.split, [x, newline];
    NewlineStable([newline], carriageReturn);
    FindsLast(x, newline);
    assert file[..1] == [x] && [x] + [newline] == file && file[2..] == [];
    assert [x][0..1] == [x];
    assert TrimSuffix([x], carriageReturn) == [x];
    RestartLosesTheFirstTokens(cfg, [x], [newline]);
    NothingInNothing(split);
    CutFirst(split, file);
    assert Texts([Cut(2, [x])]) == [[x]] + [];
    assert [Cut(2, [x])] + [] == [Cut(2, [x])];
  }

  // ---------------------------------------------- slices beyond the capacity

  /** The capacity of a fingerprint that was loaded: what its base64 text can decode to. */
  function LoadedCapacity(length: nat): nat {
    (length + 2) / 3 * 3
  }

  /** Reading slices a fingerprint that is not full up to the offset, which stops the program
      if the offset is beyond its capacity. */
  predicate SliceFails(cfg: Config, r: ReaderState, capacity: nat) {
    |r.fingerprint| != cfg.fingerprintSize && r.offset > capacity
  }

  /** In every calm run, the slice is in range for every reader a poll may read. */
  lemma CalmSlicesAreInRange(cfg: Config, events: seq<Event>, i: nat, capacity: nat)
    requires cfg.Valid() && Stable(cfg.split) && CalmRun(cfg, events)
    requires i < |After(cfg, events).op.known| && |After(cfg, events).op.known[i].fingerprint| <= capacity
    ensures !SliceFails(cfg, After(cfg, events).op.known[i], capacity)
  {
    AfterKeeps(cfg, events);
    var w := After(cfg, events);
    assert Good(cfg, w.file, w.op.known[i]);
  }

  /** A short file is polled from its beginning, the operator is restarted, the file may grow,
      and is polled again: the program stops if and only if some tokens were cut early, and
      others end beyond the capacity of what these left of the fingerprint. */
  lemma RestartFailsIff(cfg: Config, w: World, more: Bytes)
    requires FirstPoll(cfg, w) && Stable(cfg.split)
    ensures var early, cuts := EarlyCuts(cfg.split, w.file), Cuts(cfg.split, w.file);
            var op := Restarted(Next(cfg, w, CompletePoll).op);
            var file := w.file + more;
            var found := FindMatch(Begun(op).known, NewFingerprint(cfg.fingerprintSize, file));
            var r := NewReader(cfg, Begun(op), file);
            (found.Some? && SliceFails(cfg, r, LoadedCapacity(|r.fingerprint|)))
            <==> early != [] && Consumed(cuts) > LoadedCapacity(Consumed(early))
  {
    var early, cuts := EarlyCuts(cfg.split, w.file), Cuts(cfg.split, w.file);
    FirstPollOutcome(cfg, w);
    EarlyConsumed(cfg.split, w.file);
    var op, file := Restarted(Next(cfg, w, CompletePoll).op), w.file + more;
    var fp, e := NewFingerprint(cfg.fingerprintSize, file), Consumed(early);
    assert Begun(op).known == [ReaderState(w.file[..e], Consumed(cuts), 1)];
    assert FindMatch(Begun(op).known[..0], fp) == None;
    assert fp[..e] == w.file[..e];
  }
}
