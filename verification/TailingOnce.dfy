// When tailing sends every token exactly once, told from what happens to the file and to
// the operator alone: growth, polls and restarts.
module TailingOnce {
  import opened Wrappers
  import opened Sequences
  import opened Multiline
  import opened Delimiters
  import opened FileReader
  import opened FileInput
  import opened Tailing

  // ------------------------------------------------------------------ inputs

  predicate IsPoll(event: Event) {
    event.CompletePoll? || event.StopInPoll?
  }

  /** The file is what was appended. */
  function FileAfter(events: seq<Event>): Bytes {
    if events == [] then []
    else
      var n := |events| - 1;
      if events[n].Append? then FileAfter(events[..n]) + events[n].bytes else FileAfter(events[..n])
  }

  /** No poll has been completed since the operator was last started. */
  predicate FirstCheckAfter(events: seq<Event>) {
    events == [] ||
    var n := |events| - 1;
    match events[n]
    case Append(_) => FirstCheckAfter(events[..n])
    case CompletePoll => false
    case _ => true
  }

  /** Where reading begins: at the first poll that finds bytes, at their end if that is the
      first check of the operator and it is so configured. */
  function Base(cfg: Config, events: seq<Event>): Option<nat> {
    if events == [] then None
    else
      var n := |events| - 1;
      var file := FileAfter(events[..n]);
      if Base(cfg, events[..n]).Some? then Base(cfg, events[..n])
      else if !IsPoll(events[n]) || file == [] then None
      else Some(if FirstCheckAfter(events[..n]) && !cfg.startAtBeginning then |file| else 0)
  }

  /** The tokens of a file from an offset on. */
  function TokensFrom(cfg: Config, file: Bytes, base: nat): seq<Cut> {
    if base <= |file| then Cuts(cfg.split, file[base..]) else []
  }

  /** What a file is expected to have given. */
  function Expected(cfg: Config, events: seq<Event>): seq<Bytes> {
    match Base(cfg, events)
    case None => []
    case Some(base) => Texts(TokensFrom(cfg, FileAfter(events), base))
  }

  lemma {:induction false} InputsTell(cfg: Config, events: seq<Event>)
    ensures After(cfg, events).file == FileAfter(events)
    ensures After(cfg, events).op.firstCheck <==> FirstCheckAfter(events)
  {
    if events != [] {
      InputsTell(cfg, events[..|events| - 1]);
    }
  }

  lemma {:induction false} BaseIsInput(cfg: Config, events: seq<Event>)
    requires cfg.Valid() && Stable(cfg.split) && CalmRun(cfg, events)
    ensures After(cfg, events).log.base == Base(cfg, events)
  {
    if events != [] {
      var n := |events| - 1;
      var w := After(cfg, events[..n]);
      CalmPrefix(cfg, events, n);
      BaseIsInput(cfg, events[..n]);
      AfterKeeps(cfg, events[..n]);
      InputsTell(cfg, events[..n]);
      if IsPoll(events[n]) {
        var budget := Budget(w, events[n]).value;
        if w.file == [] {
          EmptyPollKeeps(cfg, w, budget);
        } else {
          PollKeepsBase(cfg, w, budget);
        }
      }
    }
  }

  // -------------------------------------------------------------- promptness

  /** When reading begins, it begins at the end of the file or the first token of the file
      is complete. */
  predicate PromptAt(cfg: Config, events: seq<Event>, event: Event) {
    IsPoll(event) && Base(cfg, events).None? && FileAfter(events) != [] ==>
      (FirstCheckAfter(events) && !cfg.startAtBeginning) || cfg.split(FileAfter(events), true).Token?
  }

  ghost predicate Prompt(cfg: Config, events: seq<Event>) {
    forall n :: 0 <= n < |events| ==> PromptAt(cfg, events[..n], events[n])
  }

  lemma PromptPrefix(cfg: Config, events: seq<Event>, n: nat)
    requires Prompt(cfg, events) && n <= |events|
    ensures Prompt(cfg, events[..n])
  {
    forall m | 0 <= m < n ensures PromptAt(cfg, events[..n][..m], events[..n][m]) {
      assert events[..n][..m] == events[..m];
    }
  }

  /** The newest reader is past the beginning of the file; or it recognises the file, and the
      first token is complete. */
  predicate Settled(cfg: Config, w: World) {
    w.op.known != [] ==>
      || Reached(w) > 0
      || (cfg.split(w.file, true).Token? && w.op.known[|w.op.known| - 1].fingerprint != [])
  }

  lemma SettledPoll(cfg: Config, w: World, budget: nat)
    requires Pollable(cfg, w) && Settled(cfg, w)
    requires w.op.known == [] ==> (w.op.firstCheck && !cfg.startAtBeginning) || cfg.split(w.file, true).Token?
    ensures Settled(cfg, Polled(cfg, w, budget))
  {
    hide Calm, History, LeftOver, Saved, FindMatch, EarlyCuts, Poll, Stable, OpenReader;
    var r, r', kept, again, scratch := PollParts(cfg, w, budget);
    PollKnown(cfg, w, budget, r, r', kept, again, scratch);
    AgedKeepsGood(cfg, w.file, w.op.known);
    NewReaderIsGood(cfg, Begun(w.op), w.file);
    if r.offset == 0 && budget > 0 {
      assert w.file[0..] == w.file;
      CutFirst(cfg.split, w.file);
      CutSomething(cfg.split, w.file, Min(budget, |Cuts(cfg.split, w.file)|));
    }
  }

  lemma {:induction false} PromptIsSettled(cfg: Config, events: seq<Event>)
    requires cfg.Valid() && Stable(cfg.split) && CalmRun(cfg, events) && Prompt(cfg, events)
    ensures Settled(cfg, After(cfg, events))
  {
    if events != [] {
      hide Next, CalmPoll, Settled;
      var n := |events| - 1;
      var w := After(cfg, events[..n]);
      CalmPrefix(cfg, events, n);
      PromptPrefix(cfg, events, n);
      PromptIsSettled(cfg, events[..n]);
      AfterKeeps(cfg, events[..n]);
      InputsTell(cfg, events[..n]);
      BaseIsInput(cfg, events[..n]);
      assert PromptAt(cfg, events[..n], events[n]);
      SettledStep(cfg, w, events[n]);
    }
  }

  lemma SettledStep(cfg: Config, w: World, event: Event)
    requires cfg.Valid() && Stable(cfg.split) && Invariant(cfg, w) && Settled(cfg, w)
    requires IsPoll(event) ==> CalmPoll(cfg, w)
    requires IsPoll(event) && w.op.known == [] && w.file != [] ==>
               (w.op.firstCheck && !cfg.startAtBeginning) || cfg.split(w.file, true).Token?
    ensures Settled(cfg, Next(cfg, w, event))
  {
    hide Poll, Extended;
    match event
    case Append(bytes) => assert Keeps(cfg.split, w.file, true, bytes);
    case Restart =>
    case CompletePoll => PollSettles(cfg, w, Unbounded(w.file));
    case StopInPoll(budget) => PollSettles(cfg, w, budget);
  }

  lemma PollSettles(cfg: Config, w: World, budget: nat)
    requires cfg.Valid() && Stable(cfg.split) && Invariant(cfg, w) && CalmPoll(cfg, w) && Settled(cfg, w)
    requires w.op.known == [] && w.file != [] ==>
               (w.op.firstCheck && !cfg.startAtBeginning) || cfg.split(w.file, true).Token?
    ensures Settled(cfg, Polled(cfg, w, budget))
    ensures Settled(cfg, Polled(cfg, w, budget).(op := Restarted(Polled(cfg, w, budget).op)))
  {
    if w.file == [] {
      EmptyPollKeeps(cfg, w, budget);
    } else {
      SettledPoll(cfg, w, budget);
    }
  }

  /** A newest reader that recognises the file makes a poll neither late nor skipping. */
  lemma SettledIsFine(cfg: Config, w: World, event: Event)
    requires Invariant(cfg, w) && Settled(cfg, w)
    ensures !Late(cfg, w, event) && !Skips(cfg, w, event)
  {
    if w.op.known != [] {
      assert Good(cfg, w.file, w.op.known[|w.op.known| - 1]);
    }
  }

  /** If the first token is complete when reading begins, or reading begins at the end of the
      file, no poll is late and none skips. */
  lemma {:induction false} PromptIsFine(cfg: Config, events: seq<Event>)
    requires cfg.Valid() && Stable(cfg.split) && CalmRun(cfg, events) && Prompt(cfg, events)
    ensures !AnyLate(cfg, events) && !AnySkips(cfg, events)
  {
    if events != [] {
      var n := |events| - 1;
      CalmPrefix(cfg, events, n);
      PromptPrefix(cfg, events, n);
      PromptIsFine(cfg, events[..n]);
      AfterKeeps(cfg, events[..n]);
      PromptIsSettled(cfg, events[..n]);
      SettledIsFine(cfg, After(cfg, events[..n]), events[n]);
    }
  }

  /** Exactly once: over every calm and prompt run that ends in a complete poll, what was
      sent is the text of the file's tokens from where reading began, in order. */
  lemma ExactlyOnce(cfg: Config, events: seq<Event>)
    requires cfg.Valid() && Stable(cfg.split)
    requires CalmRun(cfg, events + [CompletePoll]) && Prompt(cfg, events + [CompletePoll])
    ensures After(cfg, events + [CompletePoll]).log.emitted == Expected(cfg, events + [CompletePoll])
    ensures var all := events + [CompletePoll];
            Base(cfg, all).Some? ==> Base(cfg, all).value <= |FileAfter(all)|
  {
    var all := events + [CompletePoll];
    TailingIsExact(cfg, events);
    PromptIsFine(cfg, all);
    InputsTell(cfg, all);
    BaseIsInput(cfg, all);
    AfterKeeps(cfg, all);
    if Base(cfg, all).None? {
      NothingInNothing(cfg.split);
      assert After(cfg, all).op.known == [] && After(cfg, all).file[0..] == [];
    }
  }

  /** The part of the file from where reading began. */
  function FileRead(cfg: Config, events: seq<Event>): Bytes {
    match Base(cfg, events)
    case None => []
    case Some(base) => if base <= |FileAfter(events)| then FileAfter(events)[base..] else []
  }

  lemma ExpectedIsRead(cfg: Config, events: seq<Event>)
    requires Base(cfg, events).Some? ==> Base(cfg, events).value <= |FileAfter(events)|
    ensures Expected(cfg, events) == NonEmpty(TokensOf(Cuts(cfg.split, FileRead(cfg, events))))
  {
    NothingInNothing(cfg.split);
    TextsAreNonEmpty(Cuts(cfg.split, FileRead(cfg, events)));
  }

  /** Lines, whatever the encoding of the newline: what is sent are the lines of the file from
      where reading began, without the empty ones. */
  lemma LinesExactlyOnce(cfg: Config, newline: Bytes, carriageReturn: Bytes, events: seq<Event>)
      returns (lines: seq<Bytes>)
    requires cfg.Valid() && newline != [] && cfg.split == Newline(newline, carriageReturn)
    requires Prompt(cfg, events + [CompletePoll])
    ensures Lines(newline, carriageReturn, FileRead(cfg, events + [CompletePoll]), lines)
    ensures After(cfg, events + [CompletePoll]).log.emitted == NonEmpty(lines)
  {
    var all := events + [CompletePoll];
    NewlineStable(newline, carriageReturn);
    BlindRunIsCalm(cfg, all);
    ExactlyOnce(cfg, events);
    ExpectedIsRead(cfg, all);
    CutsAreLines(newline, carriageReturn, FileRead(cfg, all));
    lines := TokensOf(Cuts(cfg.split, FileRead(cfg, all)));
  }

  /** Records that begin with a pattern, for any prefix-stable pattern. */
  lemma RecordsExactlyOnce(cfg: Config, find: Matcher, events: seq<Event>)
    requires cfg.Valid() && PrefixStable(find) && cfg.split == LineStart(find)
    requires Prompt(cfg, events + [CompletePoll])
    ensures After(cfg, events + [CompletePoll]).log.emitted == Expected(cfg, events + [CompletePoll])
    ensures var all := events + [CompletePoll];
            Base(cfg, all).Some? ==> Base(cfg, all).value <= |FileAfter(all)|
  {
    LineStartStable(find);
    BlindRunIsCalm(cfg, events + [CompletePoll]);
    ExactlyOnce(cfg, events);
  }

  /** Records that begin with a literal. */
  lemma LiteralRecordsExactlyOnce(cfg: Config, p: Bytes, events: seq<Event>) returns (records: seq<Bytes>)
    requires cfg.Valid() && p != [] && cfg.split == LineStart(Literal(p))
    requires Prompt(cfg, events + [CompletePoll])
    ensures Records(p, FileRead(cfg, events + [CompletePoll]), records)
    ensures After(cfg, events + [CompletePoll]).log.emitted == NonEmpty(records)
  {
    var all := events + [CompletePoll];
    LiteralIsStable(p);
    RecordsExactlyOnce(cfg, Literal(p), events);
    ExpectedIsRead(cfg, all);
    CutsAreRecords(p, FileRead(cfg, all));
    records := TokensOf(Cuts(cfg.split, FileRead(cfg, all)));
  }

  lemma {:induction false} BlindRunIsCalm(cfg: Config, events: seq<Event>)
    requires EofBlind(cfg.split)
    ensures CalmRun(cfg, events)
  {
    forall i | 0 <= i < |events| ensures CalmPoll(cfg, After(cfg, events[..i])) {
      var w := After(cfg, events[..i]);
      var offset := NewReader(cfg, Begun(w.op), w.file).offset;
      if offset <= |w.file| {
        BlindCuts(cfg.split, w.file[offset..]);
      }
    }
  }

  // --------------------------------------------------------------- line ends

  /** No token from number `from` on ends one byte before the end of the data. */
  ghost predicate NoneHeldBack(cuts: seq<Cut>, from: nat, length: int) {
    forall k :: from <= k < |cuts| ==> EndOf(cuts, k) != length - 1
  }

  /** Where token `k` ends. */
  function EndOf(cuts: seq<Cut>, k: nat): nat
    requires k < |cuts|
  {
    Consumed(cuts[..k + 1])
  }

  /** The line-end function cuts every token early if and only if none ends one byte before
      the end of the data. */
  lemma {:induction false} LineEndsAreEarlyIff(find: Matcher, data: Bytes)
    requires NeverEmpty(find)
    ensures var split := LineEnd(find);
            EarlyCuts(split, data) == Cuts(split, data) <==> NoneHeldBack(Cuts(split, data), 0, |data|)
    decreases |data|
  {
    var split := LineEnd(find);
    var cuts := Cuts(split, data);
    if split(data, true).Token? {
      var a := split(data, true).advance;
      CutFirst(split, data);
      FirstOf(cuts);
      if a == |data| - 1 {
        assert EndOf(cuts, 0) == |data| - 1;
      } else {
        EarlyFirst(split, data);
        LineEndsAreEarlyIff(find, data[a..]);
        NoneHeldBackAfterFirst(cuts, |data|);
        assert cuts[1..] == Cuts(split, data[a..]);
        SameTail(EarlyCuts(split, data), cuts);
      }
    }
  }

  lemma FirstOf(cuts: seq<Cut>)
    requires cuts != []
    ensures EndOf(cuts, 0) == cuts[0].advance
  {
    assert cuts[..1] == [cuts[0]];
    ConsumedFirst(cuts[0], []);
    assert [cuts[0]] + [] == [cuts[0]];
  }

  lemma SameTail(a: seq<Cut>, b: seq<Cut>)
    requires a != [] && b != [] && a[0] == b[0]
    ensures a == b <==> a[1..] == b[1..]
  {
    assert a == [a[0]] + a[1..] && b == [b[0]] + b[1..];
  }

  lemma EndOfLater(a: seq<Cut>, b: seq<Cut>, k: nat)
    requires k < |b|
    ensures EndOf(a + b, |a| + k) == Consumed(a) + EndOf(b, k)
  {
    assert (a + b)[..|a| + k + 1] == a + b[..k + 1];
    ConsumedConcat(a, b[..k + 1]);
  }

  /** The tokens after some others. */
  lemma NoneHeldBackLater(a: seq<Cut>, b: seq<Cut>, from: nat, length: int)
    requires from <= |a|
    ensures NoneHeldBack(a + b, from, length) ==> NoneHeldBack(b, 0, length - Consumed(a))
    ensures NoneHeldBack(a + b, |a|, length) <==> NoneHeldBack(b, 0, length - Consumed(a))
  {
    hide EndOf, Consumed;
    var all := a + b;
    if NoneHeldBack(all, from, length) || NoneHeldBack(all, |a|, length) {
      forall k | 0 <= k < |b| ensures EndOf(b, k) != length - Consumed(a) - 1 {
        EndOfLater(a, b, k);
        assert EndOf(all, |a| + k) != length - 1;
      }
    }
    if NoneHeldBack(b, 0, length - Consumed(a)) {
      forall k | |a| <= k < |all| ensures EndOf(all, k) != length - 1 {
        EndOfLater(a, b, k - |a|);
      }
    }
  }

  lemma NoneHeldBackAfterFirst(cuts: seq<Cut>, length: int)
    requires cuts != [] && cuts[0].advance != length - 1
    ensures NoneHeldBack(cuts, 0, length) <==> NoneHeldBack(cuts[1..], 0, length - cuts[0].advance)
  {
    var one := [cuts[0]];
    assert cuts == one + cuts[1..];
    FirstOf(cuts);
    FirstOf(one);
    assert one[..1] == one;
    NoneHeldBackLater(one, cuts[1..], 0, length);
    if NoneHeldBack(cuts, 1, length) {
      assert forall k :: 0 <= k < |cuts| ==> EndOf(cuts, k) != length - 1;
    }
  }

  /** A poll with a line-end pattern is calm if and only if the fingerprint will be full or no
      token left to cut ends one byte before the end of the file. */
  lemma LineEndCalmIff(cfg: Config, find: Matcher, file: Bytes, offset: nat)
    requires NeverEmpty(find) && cfg.split == LineEnd(find) && offset <= |file|
    ensures Calm(cfg, file, offset)
            <==> cfg.fingerprintSize <= |file| || NoneHeldBack(Cuts(cfg.split, file[offset..]), 0, |file| - offset)
  {
    LineEndsAreEarlyIff(find, file[offset..]);
  }

  /** The file as it was at the last poll that was completed. */
  function LastPolled(events: seq<Event>): Bytes {
    if events == [] then []
    else
      var n := |events| - 1;
      if events[n].CompletePoll? then FileAfter(events[..n]) else LastPolled(events[..n])
  }

  /** Where reading began, or begins with a poll now. */
  function BaseOfPoll(cfg: Config, events: seq<Event>): nat {
    match Base(cfg, events)
    case Some(base) => base
    case None => if FirstCheckAfter(events) && !cfg.startAtBeginning then |FileAfter(events)| else 0
  }

  /** At a poll of a short file, no token that was completed since the last complete poll ends
      one byte before the end of the file. */
  ghost predicate QuietAt(cfg: Config, events: seq<Event>, event: Event) {
    IsPoll(event) && FileAfter(events) != [] ==>
      var file, base := FileAfter(events), BaseOfPoll(cfg, events);
      || cfg.fingerprintSize <= |file|
      || NoneHeldBack(TokensFrom(cfg, file, base), |TokensFrom(cfg, LastPolled(events), base)|, |file| - base)
  }

  ghost predicate QuietEnds(cfg: Config, events: seq<Event>) {
    forall n :: 0 <= n < |events| ==> QuietAt(cfg, events[..n], events[n])
  }

  lemma QuietPrefix(cfg: Config, events: seq<Event>, n: nat)
    requires QuietEnds(cfg, events) && n <= |events|
    ensures QuietEnds(cfg, events[..n])
  {
    forall m | 0 <= m < n ensures QuietAt(cfg, events[..n][..m], events[..n][m]) {
      assert events[..n][..m] == events[..m];
    }
  }

  /** Before reading has begun, every poll found the file empty. */
  lemma {:induction false} NotBegun(cfg: Config, events: seq<Event>)
    requires Base(cfg, events).None?
    ensures LastPolled(events) == []
  {
    if events != [] {
      NotBegun(cfg, events[..|events| - 1]);
    }
  }

  lemma NoTokensOfNothing(cfg: Config, base: nat)
    ensures TokensFrom(cfg, [], base) == []
  {
    NothingInNothing(cfg.split);
    var nothing: Bytes := [];
    assert nothing[0..] == nothing;
  }

  /** A poll undoes no token, unless nothing had been cut. */
  lemma NoTokenUndone(cfg: Config, w: World, budget: nat)
    requires Pollable(cfg, w)
    ensures |w.log.done| <= |Polled(cfg, w, budget).log.done|
  {
    var r, r', kept, again, scratch := PollParts(cfg, w, budget);
  }

  /** All tokens that the file had at the last complete poll have been cut. */
  lemma {:induction false} DoneSinceLastPoll(cfg: Config, events: seq<Event>)
    requires cfg.Valid() && Stable(cfg.split) && CalmRun(cfg, events) && Prompt(cfg, events)
    ensures var log := After(cfg, events).log;
            log.base.Some? ==> |TokensFrom(cfg, LastPolled(events), log.base.value)| <= |log.done|
  {
    if events != [] {
      var n := |events| - 1;
      var w, w' := After(cfg, events[..n]), After(cfg, events);
      CalmPrefix(cfg, events, n);
      PromptPrefix(cfg, events, n);
      AfterKeeps(cfg, events[..n]);
      InputsTell(cfg, events[..n]);
      BaseIsInput(cfg, events[..n]);
      if events[n].CompletePoll? {
        PromptIsFine(cfg, events);
        MovedIff(cfg, events);
        NextKeeps(cfg, w, events[n]);
      } else {
        DoneSinceLastPoll(cfg, events[..n]);
        if IsPoll(events[n]) && w.file != [] {
          NoTokenUndone(cfg, w, events[n].budget);
        }
        if w.log.base.None? {
          NotBegun(cfg, events[..n]);
          if w'.log.base.Some? {
            NoTokensOfNothing(cfg, w'.log.base.value);
          }
        }
      }
    }
  }

  /** Where the reader of a poll is: at the first token not cut yet. */
  lemma PollOffset(cfg: Config, w: World)
    requires cfg.Valid() && Invariant(cfg, w) && Settled(cfg, w) && w.file != []
    ensures NewReader(cfg, Begun(w.op), w.file).offset
            == if w.op.known != [] then Reached(w)
               else if w.op.firstCheck && !cfg.startAtBeginning then |w.file| else 0
  {
    AgedKeepsGood(cfg, w.file, w.op.known);
    NewReaderIsGood(cfg, Begun(w.op), w.file);
    if w.op.known != [] {
      assert Good(cfg, w.file, w.op.known[|w.op.known| - 1]);
    }
  }

  lemma TokensWithin(cfg: Config, file: Bytes, base: nat)
    requires base <= |file|
    ensures TokensFrom(cfg, file, base) == Cuts(cfg.split, file[base..])
  {}

  /** The tokens of the file are those done and those left. */
  lemma TokensLeft(cfg: Config, w: World)
    requires Invariant(cfg, w) && !Moved(w.log)
    ensures w.op.known != [] <==> w.log.base.Some?
    ensures Reached(w) <= |w.file|
    ensures w.log.base.Some? ==>
              var base := w.log.base.value;
              && TokensFrom(cfg, w.file, base) == w.log.done + Cuts(cfg.split, w.file[Reached(w)..])
              && base + Consumed(w.log.done) == Reached(w)
  {}

  lemma QuietPollIsCalm(cfg: Config, find: Matcher, w: World, events: seq<Event>, event: Event)
    requires cfg.Valid() && Invariant(cfg, w) && Settled(cfg, w) && w.file != [] && !Moved(w.log)
    requires NeverEmpty(find) && cfg.split == LineEnd(find)
    requires w.file == FileAfter(events) && w.log.base == Base(cfg, events)
    requires w.op.firstCheck <==> FirstCheckAfter(events)
    requires w.log.base.Some? ==> |TokensFrom(cfg, LastPolled(events), w.log.base.value)| <= |w.log.done|
    requires IsPoll(event) && QuietAt(cfg, events, event)
    ensures CalmPoll(cfg, w)
  {
    hide Cuts, Consumed, NoneHeldBack, NewReader, Invariant, Calm, Base, FileAfter, LastPolled, TokensFrom;
    var file, base := w.file, BaseOfPoll(cfg, events);
    var offset := NewReader(cfg, Begun(w.op), file).offset;
    PollOffset(cfg, w);
    if w.log.base.Some? {
      TokensLeft(cfg, w);
      var done, left := w.log.done, Cuts(cfg.split, file[offset..]);
      NoneHeldBackLater(done, left, |TokensFrom(cfg, LastPolled(events), base)|, |file| - base);
    } else {
      TokensLeft(cfg, w);
      NotBegun(cfg, events);
      NoTokensOfNothing(cfg, base);
      assert TokensFrom(cfg, file, base) == Cuts(cfg.split, file[base..]) by {
        TokensWithin(cfg, file, base);
      }
    }
    LineEndCalmIff(cfg, find, file, offset);
  }

  lemma {:induction false} QuietRunIsCalm(cfg: Config, find: Matcher, events: seq<Event>)
    requires cfg.Valid() && PrefixStable(find) && NeverEmpty(find) && cfg.split == LineEnd(find)
    requires Prompt(cfg, events) && QuietEnds(cfg, events)
    ensures CalmRun(cfg, events)
  {
    LineEndStable(find);
    if events != [] {
      var n := |events| - 1;
      var before := events[..n];
      var w := After(cfg, before);
      PromptPrefix(cfg, events, n);
      QuietPrefix(cfg, events, n);
      QuietRunIsCalm(cfg, find, before);
      assert QuietAt(cfg, before, events[n]);
      if IsPoll(events[n]) && w.file != [] {
        AfterKeeps(cfg, before);
        InputsTell(cfg, before);
        BaseIsInput(cfg, before);
        PromptIsSettled(cfg, before);
        PromptIsFine(cfg, before);
        MovedIff(cfg, before);
        DoneSinceLastPoll(cfg, before);
        QuietPollIsCalm(cfg, find, w, before, events[n]);
      }
      CalmOneMore(cfg, events);
    }
  }

  lemma CalmOneMore(cfg: Config, events: seq<Event>)
    requires events != []
    requires var n := |events| - 1;
             var w := After(cfg, events[..n]);
             CalmRun(cfg, events[..n]) && (Budget(w, events[n]).Some? ==> CalmPoll(cfg, w))
    ensures CalmRun(cfg, events)
  {
    var n := |events| - 1;
    forall i | 0 <= i < |events| ensures var w := After(cfg, events[..i]);
                                         Budget(w, events[i]).Some? ==> CalmPoll(cfg, w)
    {
      if i < n {
        assert events[..n][..i] == events[..i] && events[..n][i] == events[i];
      }
    }
  }

  /** Records that end with a pattern, for any prefix-stable pattern with non-empty matches:
      exactly once, if no poll of a short file finds a new token one byte before its end. */
  lemma LineEndsExactlyOnce(cfg: Config, find: Matcher, events: seq<Event>)
    requires cfg.Valid() && PrefixStable(find) && NeverEmpty(find) && cfg.split == LineEnd(find)
    requires Prompt(cfg, events + [CompletePoll]) && QuietEnds(cfg, events + [CompletePoll])
    ensures After(cfg, events + [CompletePoll]).log.emitted == Expected(cfg, events + [CompletePoll])
    ensures var all := events + [CompletePoll];
            Base(cfg, all).Some? ==> Base(cfg, all).value <= |FileAfter(all)|
  {
    LineEndStable(find);
    QuietRunIsCalm(cfg, find, events + [CompletePoll]);
    ExactlyOnce(cfg, events);
  }

  /** Records that end with a literal. */
  lemma LiteralLineEndsExactlyOnce(cfg: Config, p: Bytes, events: seq<Event>) returns (records: seq<Bytes>)
    requires cfg.Valid() && p != [] && NeverEmpty(Literal(p)) && cfg.split == LineEnd(Literal(p))
    requires Prompt(cfg, events + [CompletePoll]) && QuietEnds(cfg, events + [CompletePoll])
    ensures Terminated(p, FileRead(cfg, events + [CompletePoll]), records)
    ensures After(cfg, events + [CompletePoll]).log.emitted == NonEmpty(records)
  {
    var all := events + [CompletePoll];
    LiteralIsStable(p);
    LineEndsExactlyOnce(cfg, Literal(p), events);
    ExpectedIsRead(cfg, all);
    CutsAreTerminated(p, FileRead(cfg, all));
    records := TokensOf(Cuts(cfg.split, FileRead(cfg, all)));
  }
}
