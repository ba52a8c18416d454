// The reader of one file: operator/builtin/input/file/reader.go, with the positional
// scanner it drives and the fingerprint it grows while reading.
module FileReader {
  import opened Sequences
  import opened Multiline

  // The scanner starts with a buffer of this size (positional_scanner.go).
  const SCANNER_BUFFER: nat := 16384

  /** `bufferLimit` is the size to which the scanner's buffer may grow: the larger of
      its initial size and `max_log_size`. */
  datatype Config = Config(split: SplitFunc, fingerprintSize: nat, bufferLimit: nat, startAtBeginning: bool) {
    predicate Valid() {
      0 < fingerprintSize <= SCANNER_BUFFER <= bufferLimit
    }
  }

  function Min(a: int, b: int): int {
    if a < b then a else b
  }

  function Min0(a: int, b: int): (r: nat)
    ensures 0 <= a && 0 <= b ==> r == Min(a, b)
  {
    if a < 0 || b < 0 then 0 else if a < b then a else b
  }

  // ------------------------------------------------------------ specification

  /** What is sent on for one token: `emit` skips an empty one. */
  function Text(cut: Cut): seq<Bytes> {
    if cut.token == [] then [] else [cut.token]
  }

  function Texts(cuts: seq<Cut>): seq<Bytes> {
    if cuts == [] then [] else Text(cuts[0]) + Texts(cuts[1..])
  }

  lemma {:induction false} TextsConcat(a: seq<Cut>, b: seq<Cut>)
    ensures Texts(a + b) == Texts(a) + Texts(b)
  {
    if a == [] {
      assert a + b == b;
    } else {
      calc {
        Texts(a + b);
        { assert (a + b)[0] == a[0] && (a + b)[1..] == a[1..] + b; }
        Text(a[0]) + Texts(a[1..] + b);
        { TextsConcat(a[1..], b); }
        Text(a[0]) + (Texts(a[1..]) + Texts(b));
        Texts(a) + Texts(b);
      }
    }
  }

  /** The tokens the split function cuts without being told that the file has ended. */
  function EarlyCuts(split: SplitFunc, data: Bytes): seq<Cut>
    decreases |data|
  {
    match split(data, false)
    case More => []
    case Token(a, t) => [Cut(a, t)] + EarlyCuts(split, data[a..])
  }

  /** The scanner's buffer is large enough for every token of `data`. */
  ghost predicate Fits(split: SplitFunc, limit: nat, data: Bytes)
    decreases |data|
  {
    && (|data| >= limit ==> split(data[..limit], false).Token?)
    && (split(data, true).Token? ==> Fits(split, limit, data[split(data, true).advance..]))
  }

  lemma {:induction false} EarlyCutsAreCuts(split: SplitFunc, data: Bytes)
    requires Stable(split)
    ensures EarlyCuts(split, data) <= Cuts(split, data)
    decreases |data|
  {
    match split(data, false)
    case More =>
    case Token(a, t) =>
      assert Keeps(split, data, false, []) && data + [] == data;
      EarlyCutsAreCuts(split, data[a..]);
  }

  lemma {:induction false} BlindCuts(split: SplitFunc, data: Bytes)
    requires EofBlind(split)
    ensures EarlyCuts(split, data) == Cuts(split, data)
    decreases |data|
  {
    match split(data, false)
    case More =>
    case Token(a, t) =>
      assert split(data, true) == split(data, false);
      BlindCuts(split, data[a..]);
  }

  /** Where the last of those tokens ends. */
  function EarlyEnd(split: SplitFunc, file: Bytes, start: nat): nat
    requires start <= |file|
  {
    Min(|file|, start + Consumed(EarlyCuts(split, file[start..])))
  }

  /** The fingerprint after a pass from `offset` over `file` that was allowed `budget`
      scans: a full one is left alone; otherwise the first read appends what it got, and
      the empty read at the end of a short file, which comes once the early tokens are
      used up, cuts it back to the offset reached by then. */
  function FingerprintAfter(cfg: Config, file: Bytes, fp: Bytes, offset: nat, budget: nat): Bytes
    requires PassStart(cfg, file, fp, offset)
  {
    if |fp| == cfg.fingerprintSize || budget == 0 then fp
    else if cfg.fingerprintSize <= |file| then
      fp[..offset] + file[offset..cfg.fingerprintSize]
    else
      var cuts := Cuts(cfg.split, file[offset..]);
      var end := EarlyEnd(cfg.split, file, offset);
      if budget <= |cuts| && offset + Consumed(cuts[..budget]) <= end
      then fp[..offset] + file[offset..]
      else (fp[..offset] + file[offset..])[..end]
  }

  predicate PassStart(cfg: Config, file: Bytes, fp: Bytes, start: nat) {
    cfg.Valid() && start <= |file| && (|fp| == cfg.fingerprintSize || start <= |fp| < cfg.fingerprintSize)
  }

  /** Where the fingerprint `now` stands in a pass that began at `start` with `fp`. */
  ghost predicate Tracking(cfg: Config, file: Bytes, fp: Bytes, start: nat,
                           now: Bytes, pos: nat, position: nat, untouched: bool, ended: bool)
    requires PassStart(cfg, file, fp, start)
  {
    && start <= pos <= position <= |file|
    && (untouched ==> pos == start == position && !ended)
    && if |fp| == cfg.fingerprintSize || untouched then
         now == fp
       else if cfg.fingerprintSize <= |file| then
         now == fp[..start] + file[start..cfg.fingerprintSize]
       else
         && position == |file|
         && if ended then
              && now == (fp[..start] + file[start..])[..EarlyEnd(cfg.split, file, start)]
              && EarlyEnd(cfg.split, file, start) <= pos
            else
              && now == fp[..start] + file[start..]
              && EarlyEnd(cfg.split, file, pos) == EarlyEnd(cfg.split, file, start)
  }

  /** A read keeps the fingerprint on track: the first one fills it or takes in the whole
      file, and a later one finds it full or cuts it where the early tokens end. */
  lemma ReadTracks(cfg: Config, file: Bytes, fp: Bytes, start: nat,
                   now: Bytes, pos: nat, position: nat, untouched: bool, next: Bytes, want: nat)
    requires PassStart(cfg, file, fp, start)
    requires Tracking(cfg, file, fp, start, now, pos, position, untouched, false)
    requires 0 < want && (untouched ==> SCANNER_BUFFER <= want)
    requires !untouched ==> cfg.split(file[pos..position], false).More?
    requires |now| == cfg.fingerprintSize ==> next == now
    requires |now| != cfg.fingerprintSize && pos <= |now| ==>
               var n := Min(|file| - position, want);
               next == now[..pos] + file[position..position + n][..Min0(n, cfg.fingerprintSize - pos)]
    ensures var n := Min(|file| - position, want);
            Tracking(cfg, file, fp, start, next, pos, position + n, false, n == 0)
  {
    var n := Min(|file| - position, want);
    if |fp| != cfg.fingerprintSize {
      if untouched {
        if cfg.fingerprintSize <= |file| {
          assert file[position..position + n][..cfg.fingerprintSize - pos] == file[start..cfg.fingerprintSize];
        } else {
          assert file[position..position + n] == file[start..];
          if n == 0 {
            assert cfg.split(file[start..], false).More?;
          }
        }
      } else if |file| < cfg.fingerprintSize {
        assert file[pos..position] == file[pos..];
        assert EarlyEnd(cfg.split, file, pos) == pos;
      }
    }
  }

  /** A pass that has used up the tokens `done`. */
  ghost predicate Passed(cfg: Config, file: Bytes, start: nat, offset: nat, done: seq<Cut>, emitted: seq<Bytes>)
    requires start <= |file|
  {
    && emitted == Texts(done)
    && offset == start + Consumed(done) <= |file|
    && Cuts(cfg.split, file[start..]) == done + Cuts(cfg.split, file[offset..])
    && Fits(cfg.split, cfg.bufferLimit, file[offset..])
  }

  lemma PassedStep(cfg: Config, file: Bytes, start: nat, offset: nat, done: seq<Cut>, emitted: seq<Bytes>,
                   cut: Cut, next: nat)
    requires start <= |file| && Passed(cfg, file, start, offset, done, emitted)
    requires cfg.split(file[offset..], true) == Token(cut.advance, cut.token)
    requires next == offset + cut.advance
    ensures Passed(cfg, file, start, next, done + [cut], emitted + Text(cut))
  {
    assert Progressive(cfg.split);
    assert file[offset..][cut.advance..] == file[next..];
    assert Cuts(cfg.split, file[start..]) == (done + [cut]) + Cuts(cfg.split, file[next..]) by {
      CutFirst(cfg.split, file[offset..]);
    }
    assert Consumed(done + [cut]) == Consumed(done) + cut.advance by {
      ConsumedConcat(done, [cut]);
      assert Consumed([cut]) == cut.advance;
    }
    assert Texts(done + [cut]) == Texts(done) + Text(cut) by {
      TextsConcat(done, [cut]);
      assert Texts([cut]) == Text(cut) + [];
    }
  }

  /** What a pass needs for its tokens to be determined: a stable split function and tokens
      that fit the scanner's buffer. */
  ghost predicate TokensReady(cfg: Config, file: Bytes, start: nat) {
    start <= |file| && Stable(cfg.split) && Fits(cfg.split, cfg.bufferLimit, file[start..])
  }

  /** For its fingerprint to be determined it must be full or cover the offset, too. */
  ghost predicate PassReady(cfg: Config, file: Bytes, fp: Bytes, start: nat) {
    PassStart(cfg, file, fp, start) && TokensReady(cfg, file, start)
  }

  /** The outcome of a pass that was allowed `budget` scans. */
  ghost predicate PassOutcome(cfg: Config, file: Bytes, start: nat, budget: nat,
                              used: nat, emitted: seq<Bytes>, offset: nat, eof: bool)
    requires start <= |file|
  {
    var cuts := Cuts(cfg.split, file[start..]);
    var done := cuts[..Min(budget, |cuts|)];
    && used == Min(budget, |cuts| + 1)
    && emitted == Texts(done)
    && offset == start + Consumed(done)
    && eof == (|cuts| < budget)
  }

  lemma PassFinishes(cfg: Config, file: Bytes, start: nat, budget: nat, used: nat, done: seq<Cut>,
                     emitted: seq<Bytes>, offset: nat, eof: bool)
    requires start <= |file| && Passed(cfg, file, start, offset, done, emitted)
    requires if eof then |done| + 1 == used <= budget && cfg.split(file[offset..], true).More?
             else |done| == used == budget
    ensures PassOutcome(cfg, file, start, budget, used, emitted, offset, eof)
    ensures done == Cuts(cfg.split, file[start..])[..Min(budget, |Cuts(cfg.split, file[start..])|)]
  {
    var cuts := Cuts(cfg.split, file[start..]);
    if eof {
      assert Cuts(cfg.split, file[offset..]) == [];
      assert done == cuts;
    }
    assert done == cuts[..Min(budget, |cuts|)];
  }

  lemma FingerprintFinishes(cfg: Config, file: Bytes, fp: Bytes, start: nat, budget: nat, done: seq<Cut>,
                            offset: nat, eof: bool, now: Bytes, position: nat, untouched: bool, ended: bool)
    requires PassStart(cfg, file, fp, start)
    requires Tracking(cfg, file, fp, start, now, offset, position, untouched, ended)
    requires done == Cuts(cfg.split, file[start..])[..Min(budget, |Cuts(cfg.split, file[start..])|)]
    requires offset == start + Consumed(done) && eof == (|Cuts(cfg.split, file[start..])| < budget)
    requires untouched <==> budget == 0
    requires |fp| != cfg.fingerprintSize && |file| < cfg.fingerprintSize && !untouched ==>
               (ended <==> eof || EarlyEnd(cfg.split, file, start) < offset)
    ensures now == FingerprintAfter(cfg, file, fp, start, budget)
  {}

  // ------------------------------------------------------------------- reader

  /** The part of a fingerprint that a read at `offset` keeps. */
  function Beginning(fp: Bytes, offset: nat): (r: Bytes)
    ensures r <= fp
  {
    fp[..Min(|fp|, offset)]
  }

  class Reader {
    const cfg: Config
    var fingerprint: Bytes
    var offset: nat
    var eof: bool

    // The open file's read position and the scanner over it.
    var position: nat
    var pos: nat
    var held: Bytes
    var untouched: bool
    var ended: bool

    constructor (cfg: Config, fingerprint: Bytes, offset: nat)
      ensures this.cfg == cfg && this.fingerprint == fingerprint && this.offset == offset
    {
      this.cfg, this.fingerprint, this.offset, this.eof := cfg, fingerprint, offset, false;
      this.position, this.pos, this.held, this.untouched, this.ended := offset, offset, [], true, false;
    }

    /** The scanner holds the bytes between its position and the file's. */
    ghost predicate Scanning(file: Bytes)
      reads this
    {
      && cfg.Valid()
      && pos <= position <= |file| && held == file[pos..position]
      && |held| <= cfg.bufferLimit
      && (ended ==> position == |file|)
    }

    ghost predicate Tracks(file: Bytes, fp: Bytes, start: nat)
      reads this
    {
      PassStart(cfg, file, fp, start) && Tracking(cfg, file, fp, start, fingerprint, pos, position, untouched, ended)
    }

    /** `file.Read` followed by the growth of a fingerprint that is not yet full. Slicing
        it up to the offset can reach beyond its length, into bytes of its capacity that
        nothing here determines. */
    method Read(file: Bytes, want: nat) returns (dst: Bytes)
      requires position <= |file|
      modifies this`fingerprint, this`position
      ensures position == Min(|file|, old(position) + want)
      ensures dst == file[old(position)..position]
      ensures Beginning(old(fingerprint), offset) <= fingerprint
      ensures |old(fingerprint)| == cfg.fingerprintSize ==> fingerprint == old(fingerprint)
      ensures |old(fingerprint)| != cfg.fingerprintSize && offset <= |old(fingerprint)| ==>
                fingerprint == old(fingerprint)[..offset] + dst[..Min0(|dst|, cfg.fingerprintSize - offset)]
    {
      var n := Min(|file| - position, want);
      dst := file[position..position + n];
      position := position + n;
      if |fingerprint| == cfg.fingerprintSize {
        return;
      }
      var appendCount := Min0(n, cfg.fingerprintSize - offset);
      var kept := fingerprint;
      if offset <= |fingerprint| {
        kept := fingerprint[..offset];
      } else {
        assert |seq(offset - |fingerprint|, _ => 0 as Byte)| == offset - |fingerprint|;
        var spare: Bytes :| |spare| == offset - |fingerprint|;
        kept := fingerprint + spare;
      }
      fingerprint := kept + dst[..appendCount];
    }

    /** A token cut after the end of a short file was seen lies beyond the early ones. */
    ghost predicate HeldBack(file: Bytes, fp: Bytes, start: nat)
      reads this
    {
      start <= |file| && |fp| != cfg.fingerprintSize && |file| < cfg.fingerprintSize && ended ==>
        EarlyEnd(cfg.split, file, start) < pos
    }

    /** The scanner reads into its buffer. The room for a read is whatever the buffer has
        left; in a new scanner that is all of it. */
    method Fill(file: Bytes, ghost fp: Bytes, ghost start: nat)
      requires Scanning(file) && offset == pos && !ended && |held| < cfg.bufferLimit
      requires cfg.split(held, false).More? && (untouched ==> held == [])
      modifies this`fingerprint, this`position, this`held, this`untouched, this`ended
      ensures Scanning(file) && offset == pos == old(pos) && !untouched
      ensures old(position) < position || ended
      ensures Beginning(old(fingerprint), offset) <= fingerprint
      ensures old(Tracks(file, fp, start)) ==> Tracks(file, fp, start)
    {
      hide Tracking, Beginning;
      var want :| 0 < want <= cfg.bufferLimit - |held| && (untouched ==> SCANNER_BUFFER <= want);
      var dst := Read(file, want);
      if old(Tracks(file, fp, start)) {
        ReadTracks(cfg, file, fp, start, old(fingerprint), pos, old(position), untouched, fingerprint, want);
      }
      JoinSlices(file, pos, old(position), position);
      held, ended, untouched := held + dst, |dst| == 0, false;
    }

    /** One call of the scanner: split what is held, read more until that gives a token,
        and give up at the end of the file or when the buffer is full. The room for a read
        is whatever the buffer has left; in a new scanner that is all of it. */
    method Scan(file: Bytes, ghost fp: Bytes, ghost start: nat) returns (step: Step)
      requires Scanning(file) && offset == pos && (untouched ==> held == [] && !ended)
      modifies this`fingerprint, this`position, this`pos, this`held, this`untouched, this`ended
      ensures Scanning(file) && !untouched
      ensures Beginning(old(fingerprint), offset) <= fingerprint
      ensures pos == old(pos) + (if step.Token? then step.advance else 0)
      ensures Stable(cfg.split) && Fits(cfg.split, cfg.bufferLimit, file[old(pos)..]) ==>
                step == cfg.split(file[old(pos)..], true)
      ensures old(Tracks(file, fp, start)) ==> Tracks(file, fp, start)
      ensures old(Tracks(file, fp, start)) && step.Token? ==> HeldBack(file, fp, start)
      ensures step.More? && |file| < cfg.bufferLimit ==> ended
    {
      hide Tracking, Fits, Beginning, Stable, EarlyCuts;
      ghost var good := Stable(cfg.split) && Fits(cfg.split, cfg.bufferLimit, file[pos..]);
      ghost var answer := cfg.split(file[pos..], true);
      ghost var tracked := Tracks(file, fp, start);
      step := cfg.split(held, ended);
      SplitOfHeld(file, step, good);
      while step.More? && !ended && |held| < cfg.bufferLimit
        invariant Scanning(file) && offset == pos == old(pos) && (untouched ==> held == [] && !ended)
        invariant step == cfg.split(held, ended)
        invariant good && (step.Token? || ended) ==> step == answer
        invariant good && step.More? && !ended ==> |held| < cfg.bufferLimit
        invariant tracked ==> Tracks(file, fp, start)
        invariant Beginning(old(fingerprint), offset) <= fingerprint
        decreases |file| - position, !ended
      {
        BeginningKept(old(fingerprint), offset, fingerprint, offset);
        Fill(file, fp, start);
        step := cfg.split(held, ended);
        SplitOfHeld(file, step, good);
      }
      if step.Token? {
        Advance(file, fp, start, step);
      }
    }

    /** Move past a token. */
    method Advance(file: Bytes, ghost fp: Bytes, ghost start: nat, step: Step)
      requires Scanning(file) && step == cfg.split(held, ended) && step.Token?
      modifies this`pos, this`held
      ensures Scanning(file) && pos == old(pos) + step.advance
      ensures old(Tracks(file, fp, start)) ==> Tracks(file, fp, start) && HeldBack(file, fp, start)
    {
      assert Progressive(cfg.split);
      if Tracks(file, fp, start) {
        TokenTracks(file, fp, start, step);
      }
      pos, held := pos + step.advance, held[step.advance..];
    }

    /** A pass over the file from the saved offset, cancelled after `budget` scans. When
        the split function is stable and the tokens fit the buffer, the pass sends on the
        first tokens of tokenising the remaining bytes at once, however they were read. What
        the fingerprint holds before the offset stays. */
    method ReadFile(file: Bytes, budget: nat) returns (emitted: seq<Bytes>, used: nat)
      requires cfg.Valid() && offset <= |file|
      modifies this
      ensures TokensReady(cfg, file, old(offset)) ==>
                PassOutcome(cfg, file, old(offset), budget, used, emitted, offset, eof)
      ensures PassReady(cfg, file, old(fingerprint), old(offset)) ==>
                fingerprint == FingerprintAfter(cfg, file, old(fingerprint), old(offset), budget)
      ensures Beginning(old(fingerprint), old(offset)) <= fingerprint
      ensures used <= budget
    {
      eof := false;
      position, pos, held, untouched, ended := offset, offset, [], true, false;
      ghost var ready := TokensReady(cfg, file, offset);
      ghost var good := PassReady(cfg, file, fingerprint, offset);
      ghost var done;
      emitted, used, done := Tokens(file, budget, fingerprint, offset, ready, good);
      if ready {
        PassFinishes(cfg, file, old(offset), budget, used, done, emitted, offset, eof);
      }
      if good {
        FingerprintFinishes(cfg, file, old(fingerprint), old(offset), budget, done,
                            offset, eof, fingerprint, position, untouched, ended);
      }
    }

    /** The loop of `readFile` over the tokens of the scanner. */
    method Tokens(file: Bytes, budget: nat, ghost fp: Bytes, ghost start: nat, ghost ready: bool, ghost good: bool)
        returns (emitted: seq<Bytes>, used: nat, ghost done: seq<Cut>)
      requires Scanning(file) && offset == pos == start && untouched && !ended && held == [] && !eof
      requires fp == fingerprint && (ready ==> TokensReady(cfg, file, start))
      requires good ==> ready && Tracks(file, fp, start)
      modifies this
      ensures offset == pos && (untouched <==> budget == 0)
      ensures if eof then |done| + 1 == used <= budget else |done| == used == budget
      ensures Beginning(fp, start) <= fingerprint
      ensures good ==> Tracks(file, fp, start)
      ensures ready ==> Passed(cfg, file, start, offset, done, emitted)
      ensures ready && eof ==> cfg.split(file[offset..], true).More?
      ensures good && !eof ==> HeldBack(file, fp, start)
      ensures eof && |file| < cfg.bufferLimit ==> ended
    {
      hide Tracking, Fits, Beginning, Stable, EarlyCuts;
      emitted, used, done := [], 0, [];
      while used < budget && !eof
        invariant Scanning(file) && start <= offset == pos && used <= budget
        invariant untouched <==> used == 0
        invariant untouched ==> held == [] && !ended
        invariant |done| == if eof then used - 1 else used
        invariant Beginning(fp, start) <= fingerprint
        invariant good ==> Tracks(file, fp, start)
        invariant ready ==> Passed(cfg, file, start, offset, done, emitted)
        invariant good && !eof ==> HeldBack(file, fp, start)
        invariant ready && eof ==> cfg.split(file[offset..], true).More?
        invariant eof && |file| < cfg.bufferLimit ==> ended
        decreases budget - used, !eof
      {
        BeginningKept(fp, start, fingerprint, offset);
        var step := Scan(file, fp, start);
        used := used + 1;
        if step.More? {
          eof := true;
        } else {
          var cut := Cut(step.advance, step.token);
          if ready {
            PassedStep(cfg, file, start, offset, done, emitted, cut, pos);
          }
          done, emitted, offset := done + [cut], emitted + Text(cut), pos;
        }
      }
    }

    /** Moving past a token keeps the fingerprint on track. */
    lemma TokenTracks(file: Bytes, fp: Bytes, start: nat, step: Step)
      requires Scanning(file) && step == cfg.split(held, ended) && step.Token?
      requires Tracks(file, fp, start)
      ensures pos + step.advance <= position
      ensures Tracking(cfg, file, fp, start, fingerprint, pos + step.advance, position, untouched, ended)
    {
      assert Progressive(cfg.split);
      if !ended && position == |file| {
        assert held == file[pos..];
        EarlyFirst(cfg.split, file[pos..]);
        assert file[pos..][step.advance..] == file[pos + step.advance..];
      }
    }

    /** What the split function says of the bytes held is what it says of all that is left. */
    lemma SplitOfHeld(file: Bytes, step: Step, good: bool)
      requires Scanning(file) && step == cfg.split(held, ended)
      requires good ==> Stable(cfg.split) && Fits(cfg.split, cfg.bufferLimit, file[pos..])
      ensures good && (step.Token? || ended) ==> step == cfg.split(file[pos..], true)
      ensures good && step.More? && !ended ==> |held| < cfg.bufferLimit
    {
      assert file[pos..] == held + file[position..];
      assert ended ==> held == file[pos..];
      if good {
        assert Keeps(cfg.split, held, ended, file[position..]);
        if |held| == cfg.bufferLimit {
          assert held == file[pos..][..cfg.bufferLimit];
        }
      }
    }
  }

  lemma JoinSlices(file: Bytes, i: nat, j: nat, k: nat)
    requires i <= j <= k <= |file|
    ensures file[i..j] + file[j..k] == file[i..k]
  {}

  /** What is kept at one offset is kept at a later one. */
  lemma BeginningKept(fp: Bytes, start: nat, now: Bytes, offset: nat)
    requires Beginning(fp, start) <= now && start <= offset
    ensures Beginning(fp, start) <= Beginning(now, offset)
  {}

  lemma EarlyFirst(split: SplitFunc, data: Bytes)
    requires split(data, false).Token?
    ensures var a := split(data, false).advance;
            && EarlyCuts(split, data) == [Cut(a, split(data, false).token)] + EarlyCuts(split, data[a..])
            && Consumed(EarlyCuts(split, data)) == a + Consumed(EarlyCuts(split, data[a..]))
  {
    assert EarlyCuts(split, data)[1..] == EarlyCuts(split, data[split(data, false).advance..]);
  }
}