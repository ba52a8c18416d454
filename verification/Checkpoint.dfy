// The checkpointed reader of operator/builtin/input/filecheck/reader.go: reading with a
// saved offset, crashing at any point, and starting again.
module Checkpoint {
  import opened Wrappers
  import opened Sequences
  import opened Multiline
  import opened FileReader
  import opened FileInput

  /** The offset is saved every `checkpointAt` tokens; not if that is zero. */
  datatype Setup = Setup(split: SplitFunc, size: nat, checkpointAt: nat, startAtBeginning: bool)

  datatype Saved = Saved(fp: Bytes, offset: nat)

  /** Where a reader is: not there, between two passes, before a scan, after a token was sent
      and before the offset moves, and before the offset is saved because the count is up. */
  datatype Phase = Down | Idle | Ready | Sent | CountUp

  /** The file, what is saved, and the reader; and the history: the tokens sent, their
      numbers, the numbers of the tokens at the three offsets, and how often it went down. */
  datatype World = World(
    file: Bytes, saved: Option<Saved>,
    phase: Phase, fp: Bytes, offset: nat, pos: nat, counter: nat,
    sent: seq<Cut>, numbers: seq<nat>, next: nat, done: nat, kept: nat, crashes: nat)

  datatype Action = Append(more: Bytes) | Restart | Begin | Tick | Send | Move | Save | Finish | Crash

  /** `checkCheckpointAndFP`: the saved fingerprint must start with the one the file has
      now. */
  predicate Resumes(saved: Option<Saved>, fp: Bytes) {
    saved.Some? && StartsWith(saved.value.fp, fp)
  }

  function StartOffset(cfg: Setup, w: World): nat {
    if Resumes(w.saved, NewFingerprint(cfg.size, w.file)) then w.saved.value.offset
    else if cfg.startAtBeginning then 0
    else |w.file|
  }

  predicate Can(cfg: Setup, w: World, a: Action) {
    match a
    case Append(_) => true
    case Crash => w.phase != Down
    case Restart => w.phase == Down && w.file != [] && cfg.size > 0
    case Begin => w.phase == Idle
    case Tick => w.phase == Ready
    case Send => w.phase == Ready && w.pos <= |w.file| && cfg.split(w.file[w.pos..], true).Token?
    case Move => w.phase == Sent
    case Save => w.phase == CountUp
    case Finish => w.phase == Ready
  }

  /** `encodeAndPutAndFlush` */
  function Persisted(w: World): World {
    w.(saved := Some(Saved(w.fp, w.offset)), kept := w.done)
  }

  function Do(cfg: Setup, w: World, a: Action): World
    requires Can(cfg, w, a)
  {
    match a
    case Append(more) => w.(file := w.file + more)
    case Crash => w.(phase := Down, next := w.kept, done := w.kept, crashes := w.crashes + 1)
    case Restart => w.(phase := Idle, fp := NewFingerprint(cfg.size, w.file), offset := StartOffset(cfg, w))
    case Begin => w.(phase := Ready, pos := w.offset, counter := 0)
    case Tick => Persisted(w)
    case Send =>
      var step := cfg.split(w.file[w.pos..], true);
      w.(phase := Sent, pos := w.pos + step.advance, next := w.next + 1,
         sent := w.sent + [Cut(step.advance, step.token)], numbers := w.numbers + [w.next])
    case Move =>
      w.(phase := if w.counter + 1 == cfg.checkpointAt then CountUp else Ready,
         offset := w.pos, done := w.next, counter := if cfg.checkpointAt > 0 then w.counter + 1 else w.counter)
    case Save => Persisted(w).(phase := Ready, counter := 0)
    case Finish => Persisted(w).(phase := Idle)
  }

  ghost predicate Run(cfg: Setup, worlds: seq<World>, actions: seq<Action>) {
    && |worlds| == |actions| + 1
    && forall i :: 0 <= i < |actions| ==>
         Can(cfg, worlds[i], actions[i]) && worlds[i + 1] == Do(cfg, worlds[i], actions[i])
  }

  // --------------------------------------------------------------- resuming

  /** For a file that keeps its beginning, the checkpoint is used exactly if the saved
      fingerprint is full or the file is no longer than it. A saved fingerprint that is
      shorter is outgrown: reading starts anew, from the beginning or from the end. */
  lemma ResumesIff(cfg: Setup, file: Bytes, saved: Saved)
    requires saved.fp <= file && |saved.fp| <= cfg.size && file != [] && cfg.size > 0
    ensures Resumes(Some(saved), NewFingerprint(cfg.size, file)) <==> |saved.fp| == cfg.size || |file| <= |saved.fp|
  {
    var fp := NewFingerprint(cfg.size, file);
    if |fp| <= |saved.fp| {
      assert saved.fp[..|fp|] == file[..|fp|] == fp;
    }
  }

  /** What happens to a checkpoint that the file has outgrown. */
  lemma OutgrownStartsAnew(cfg: Setup, w: World)
    requires w.saved.Some? && w.saved.value.fp <= w.file
    requires |w.saved.value.fp| < cfg.size && |w.saved.value.fp| < |w.file|
    ensures StartOffset(cfg, w) == if cfg.startAtBeginning then 0 else |w.file|
  {
    ResumesIff(cfg, w.file, w.saved.value);
  }

  // -------------------------------------------------------------- invariant

  function Tokens(cfg: Setup, base: nat, file: Bytes): seq<Cut>
    requires base <= |file|
  {
    Cuts(cfg.split, file[base..])
  }

  /** The offset at which token `n` begins. */
  predicate Boundary(cuts: seq<Cut>, base: nat, n: nat, offset: nat) {
    n <= |cuts| && offset == base + Consumed(cuts[..n])
  }

  ghost predicate FullPrefix(cfg: Setup, fp: Bytes, file: Bytes) {
    |fp| == cfg.size && fp <= file
  }

  /** What is saved is a boundary that is not ahead of what was sent. */
  ghost predicate SavedOk(cfg: Setup, base: nat, w: World)
    requires base <= |w.file|
  {
    match w.saved
    case None => cfg.startAtBeginning && base == 0 && w.kept == 0
    case Some(s) => FullPrefix(cfg, s.fp, w.file) && Boundary(Tokens(cfg, base, w.file), base, w.kept, s.offset)
  }

  ghost predicate ReaderOk(cfg: Setup, base: nat, w: World)
    requires base <= |w.file|
  {
    var cuts := Tokens(cfg, base, w.file);
    && (w.phase != Down ==> FullPrefix(cfg, w.fp, w.file) && Boundary(cuts, base, w.done, w.offset))
    && (w.phase != Down && w.phase != Idle ==> Boundary(cuts, base, w.next, w.pos))
  }

  /** How far the sent tokens are ahead of the saved offset. */
  ghost predicate LagOk(cfg: Setup, w: World) {
    && w.kept <= w.done <= w.next
    && match w.phase
       case Down => w.next == w.done == w.kept
       case Idle => w.next == w.done == w.kept
       case Ready => w.next == w.done && w.done - w.kept <= w.counter < cfg.checkpointAt
       case Sent => w.next == w.done + 1 && w.done - w.kept <= w.counter < cfg.checkpointAt
       case CountUp => w.next == w.done && w.done - w.kept <= w.counter == cfg.checkpointAt
  }

  /** The tokens that were sent: all before the next one, each the one of its number, and
      few of them twice. */
  ghost predicate HistoryOk(cfg: Setup, cuts: seq<Cut>, w: World) {
    && |w.sent| == |w.numbers| <= w.next + cfg.checkpointAt * w.crashes
    && (forall i :: 0 <= i < |w.numbers| ==> w.numbers[i] < |cuts| && w.sent[i] == cuts[w.numbers[i]])
    && (forall k :: 0 <= k < w.next ==> k in w.numbers)
  }

  ghost predicate Inv(cfg: Setup, base: nat, w: World) {
    && Stable(cfg.split) && 0 < cfg.size <= |w.file| && base <= |w.file|
    && SavedOk(cfg, base, w) && ReaderOk(cfg, base, w) && LagOk(cfg, w)
    && HistoryOk(cfg, Tokens(cfg, base, w.file), w)
  }

  // ------------------------------------------------------------------ steps

  lemma BoundaryNext(cfg: Setup, base: nat, file: Bytes, n: nat, pos: nat)
    requires base <= |file| && Boundary(Tokens(cfg, base, file), base, n, pos)
    ensures pos <= |file|
    ensures var step, cuts := cfg.split(file[pos..], true), Tokens(cfg, base, file);
            && (step.Token? <==> n < |cuts|)
            && (step.Token? ==>
                  cuts[n] == Cut(step.advance, step.token) && Boundary(cuts, base, n + 1, pos + step.advance))
  {
    var data, cuts := file[base..], Tokens(cfg, base, file);
    CutsAfter(cfg.split, data, n);
    assert data[pos - base..] == file[pos..];
    if n < |cuts| {
      assert cuts[..n + 1] == cuts[..n] + [cuts[n]];
      ConsumedConcat(cuts[..n], [cuts[n]]);
      assert Consumed([cuts[n]]) == cuts[n].advance + Consumed([cuts[n]][1..]);
      assert cuts[n..][0] == cuts[n];
    }
  }

  lemma TokensGrow(cfg: Setup, base: nat, file: Bytes, more: Bytes)
    requires Stable(cfg.split) && base <= |file|
    ensures Tokens(cfg, base, file) <= Tokens(cfg, base, file + more)
  {
    assert (file + more)[base..] == file[base..] + more;
    CutsOfGrownData(cfg.split, file[base..], more);
  }

  lemma BoundaryGrows(cuts: seq<Cut>, longer: seq<Cut>, base: nat, n: nat, offset: nat)
    requires cuts <= longer && Boundary(cuts, base, n, offset)
    ensures Boundary(longer, base, n, offset)
  {
    assert longer[..n] == cuts[..n];
  }

  lemma AppendKeeps(cfg: Setup, base: nat, w: World, more: Bytes)
    requires Inv(cfg, base, w)
    ensures Inv(cfg, base, Do(cfg, w, Append(more)))
  {
    var cuts, longer := Tokens(cfg, base, w.file), Tokens(cfg, base, w.file + more);
    TokensGrow(cfg, base, w.file, more);
    if w.saved.Some? {
      BoundaryGrows(cuts, longer, base, w.kept, w.saved.value.offset);
    }
    if w.phase != Down {
      BoundaryGrows(cuts, longer, base, w.done, w.offset);
    }
    if w.phase != Down && w.phase != Idle {
      BoundaryGrows(cuts, longer, base, w.next, w.pos);
    }
  }

  lemma SendKeeps(cfg: Setup, base: nat, w: World)
    requires Inv(cfg, base, w) && Can(cfg, w, Send)
    ensures Inv(cfg, base, Do(cfg, w, Send))
  {
    BoundaryNext(cfg, base, w.file, w.next, w.pos);
    var w' := Do(cfg, w, Send);
    forall k | 0 <= k < w'.next ensures k in w'.numbers {
      if k == w.next {
        assert w'.numbers[|w.numbers|] == k;
      }
    }
  }

  lemma CrashKeeps(cfg: Setup, base: nat, w: World)
    requires Inv(cfg, base, w) && Can(cfg, w, Crash)
    ensures Inv(cfg, base, Do(cfg, w, Crash))
  {
    assert cfg.checkpointAt * (w.crashes + 1) == cfg.checkpointAt * w.crashes + cfg.checkpointAt;
  }

  lemma RestartKeeps(cfg: Setup, base: nat, w: World)
    requires Inv(cfg, base, w) && Can(cfg, w, Restart)
    ensures Inv(cfg, base, Do(cfg, w, Restart))
  {
    if w.saved.Some? {
      ResumesIff(cfg, w.file, w.saved.value);
    }
  }

  /** Every step keeps the invariant. */
  lemma StepKeeps(cfg: Setup, base: nat, w: World, a: Action)
    requires Inv(cfg, base, w) && Can(cfg, w, a) && cfg.checkpointAt > 0
    ensures Inv(cfg, base, Do(cfg, w, a))
  {
    match a
    case Append(more) => AppendKeeps(cfg, base, w, more);
    case Send => SendKeeps(cfg, base, w);
    case Crash => CrashKeeps(cfg, base, w);
    case Restart => RestartKeeps(cfg, base, w);
    case _ =>
  }

  // ------------------------------------------------------------------- runs

  /** Before the first start: nothing is saved and the file is to be read from its beginning,
      or a first offset is saved; the fingerprint is full from the start. */
  ghost predicate Initial(cfg: Setup, base: nat, w: World) {
    && w.phase == Down && w.sent == [] && w.numbers == [] && w.next == w.done == w.kept == w.crashes == 0
    && 0 < cfg.size <= |w.file| && base <= |w.file|
    && match w.saved
       case None => cfg.startAtBeginning && base == 0
       case Some(s) => FullPrefix(cfg, s.fp, w.file) && s.offset == base
  }

  /** A run from one world to another. */
  ghost predicate Leads(cfg: Setup, from: World, worlds: seq<World>, actions: seq<Action>, last: World) {
    Run(cfg, worlds, actions) && worlds[0] == from && worlds[|actions|] == last
  }

  lemma RunPrefix(cfg: Setup, worlds: seq<World>, actions: seq<Action>)
    requires Run(cfg, worlds, actions) && actions != []
    ensures var n := |actions| - 1;
            && Run(cfg, worlds[..n + 1], actions[..n])
            && Can(cfg, worlds[n], actions[n]) && worlds[n + 1] == Do(cfg, worlds[n], actions[n])
  {
    var n := |actions| - 1;
    forall i | 0 <= i < n
      ensures Can(cfg, worlds[..n + 1][i], actions[..n][i])
      ensures worlds[..n + 1][i + 1] == Do(cfg, worlds[..n + 1][i], actions[..n][i])
    {
      assert worlds[..n + 1][i] == worlds[i] && actions[..n][i] == actions[i];
    }
  }

  lemma {:induction false} RunKeeps(cfg: Setup, base: nat, worlds: seq<World>, actions: seq<Action>)
    requires Run(cfg, worlds, actions) && Initial(cfg, base, worlds[0]) && Stable(cfg.split) && cfg.checkpointAt > 0
    ensures Inv(cfg, base, worlds[|actions|])
    decreases |actions|
  {
    if actions == [] {
      InitialIsFine(cfg, base, worlds[0]);
    } else {
      hide Inv, Can, Do, Initial;
      var n := |actions| - 1;
      RunPrefix(cfg, worlds, actions);
      RunKeeps(cfg, base, worlds[..n + 1], actions[..n]);
      StepKeeps(cfg, base, worlds[n], actions[n]);
    }
  }

  lemma InitialIsFine(cfg: Setup, base: nat, w: World)
    requires Initial(cfg, base, w) && Stable(cfg.split)
    ensures Inv(cfg, base, w)
  {
    assert Tokens(cfg, base, w.file)[..0] == [];
  }

  /** The tokens of the file from the first offset on. */
  ghost function AllTokens(cfg: Setup, base: nat, w: World): seq<Cut>
    requires base <= |w.file|
  {
    Tokens(cfg, base, w.file)
  }

  /** After every run, wherever it goes down: the saved offset is where a token begins, none
      that has not been sent lies before it, and at most `checkpointAt` that have been sent
      lie after it; each time down costs at most that many repetitions; and once nothing
      is left to scan, every token has been sent. */
  lemma CrashesLoseNothing(cfg: Setup, base: nat, worlds: seq<World>, actions: seq<Action>)
    requires Run(cfg, worlds, actions) && Initial(cfg, base, worlds[0]) && Stable(cfg.split) && cfg.checkpointAt > 0
    ensures var w := worlds[|actions|];
            && base <= |w.file|
            && var cuts := AllTokens(cfg, base, w);
            && (w.saved.Some? ==> Boundary(cuts, base, w.kept, w.saved.value.offset))
            && (forall k :: 0 <= k < w.next ==> k in w.numbers)
            && w.kept <= w.next <= w.kept + cfg.checkpointAt && w.next <= |cuts|
            && |w.sent| == |w.numbers| <= |cuts| + cfg.checkpointAt * w.crashes
            && (forall i :: 0 <= i < |w.sent| ==> w.numbers[i] < |cuts| && w.sent[i] == cuts[w.numbers[i]])
            && (w.phase == Ready && w.pos <= |w.file| && cfg.split(w.file[w.pos..], true).More? ==>
                  forall k :: 0 <= k < |cuts| ==> k in w.numbers)
  {
    RunKeeps(cfg, base, worlds, actions);
    var w := worlds[|actions|];
    if w.phase == Ready {
      BoundaryNext(cfg, base, w.file, w.next, w.pos);
    }
  }

  /** Going down at any point of a run and starting again, reading goes on where a token
      begins that follows only tokens already sent. */
  lemma RestartsAtASentToken(cfg: Setup, base: nat, w: World)
    requires Inv(cfg, base, w) && cfg.checkpointAt > 0 && w.phase != Down
    ensures Can(cfg, w, Crash) && Can(cfg, Do(cfg, w, Crash), Restart)
    ensures var again := Do(cfg, Do(cfg, w, Crash), Restart);
            && Boundary(Tokens(cfg, base, w.file), base, w.kept, again.offset)
            && w.next - w.kept <= cfg.checkpointAt
            && (forall k :: 0 <= k < w.kept ==> k in w.numbers)
  {
    CrashKeeps(cfg, base, w);
    RestartKeeps(cfg, base, Do(cfg, w, Crash));
  }

  /** After the timer went off, a crash costs nothing: reading resumes exactly where it was. */
  lemma TimerSavesEverything(cfg: Setup, base: nat, w: World)
    requires Inv(cfg, base, w) && cfg.checkpointAt > 0 && Can(cfg, w, Tick)
    ensures var ticked := Do(cfg, w, Tick);
            && ticked.saved == Some(Saved(w.fp, w.offset)) && ticked.kept == ticked.done == ticked.next == w.next
            && Can(cfg, ticked, Crash) && Can(cfg, Do(cfg, ticked, Crash), Restart)
            && Do(cfg, Do(cfg, ticked, Crash), Restart).offset == w.offset == w.pos
  {
    var ticked := Do(cfg, w, Tick);
    StepKeeps(cfg, base, w, Tick);
    RestartsAtASentToken(cfg, base, ticked);
    ResumesIff(cfg, w.file, Saved(w.fp, w.offset));
  }

  /** Without the timer, the offset is saved every `checkpointAt` tokens and not before. */
  ghost predicate Counted(cfg: Setup, w: World) {
    w.phase != Down ==> w.done - w.kept == if w.phase == Idle then 0 else w.counter
  }

  lemma {:induction false} SavedEverySoMany(cfg: Setup, base: nat, worlds: seq<World>, actions: seq<Action>)
    requires Run(cfg, worlds, actions) && Initial(cfg, base, worlds[0]) && Stable(cfg.split) && cfg.checkpointAt > 0
    requires Tick !in actions
    ensures Counted(cfg, worlds[|actions|])
    decreases |actions|
  {
    if actions != [] {
      var n := |actions| - 1;
      RunPrefix(cfg, worlds, actions);
      assert Tick !in actions[..n] && actions[n] != Tick;
      SavedEverySoMany(cfg, base, worlds[..n + 1], actions[..n]);
      RunKeeps(cfg, base, worlds[..n + 1], actions[..n]);
      CountedStep(cfg, base, worlds[n], actions[n]);
    }
  }

  lemma CountedStep(cfg: Setup, base: nat, w: World, a: Action)
    requires Inv(cfg, base, w) && Counted(cfg, w) && Can(cfg, w, a) && a != Tick && cfg.checkpointAt > 0
    ensures Counted(cfg, Do(cfg, w, a))
  {
    hide SavedOk, ReaderOk, HistoryOk;
  }

  // ----------------------------------------------------------- the program

  lemma NextCut(split: SplitFunc, file: Bytes, pos: nat, cuts: seq<Cut>)
    requires pos <= |file| && split(file[pos..], true).Token?
    ensures var step := split(file[pos..], true);
            var more := cuts + [Cut(step.advance, step.token)];
            && step.advance > 0 && pos + step.advance <= |file|
            && cuts + Cuts(split, file[pos..]) == more + Cuts(split, file[pos + step.advance..])
            && Consumed(more) == Consumed(cuts) + step.advance
            && Texts(more) == Texts(cuts) + if step.token != [] then [step.token] else []
  {
    assert Progressive(split);
    var step := split(file[pos..], true);
    var one := [Cut(step.advance, step.token)];
    assert file[pos..][step.advance..] == file[pos + step.advance..];
    CutFirst(split, file[pos..]);
    Associative(cuts, one, Cuts(split, file[pos + step.advance..]));
    ConsumedConcat(cuts, one);
    assert Consumed(one) == step.advance + Consumed(one[1..]);
    TextsConcat(cuts, one);
    assert Texts(one) == Text(one[0]) + Texts(one[1..]);
  }

  /** The tokens before `pos` are `cuts`, and they have been sent. */
  ghost predicate SentSoFar(split: SplitFunc, file: Bytes, start: nat, pos: nat, cuts: seq<Cut>, emitted: seq<Bytes>) {
    && start <= pos <= |file|
    && Cuts(split, file[start..]) == cuts + Cuts(split, file[pos..])
    && emitted == Texts(cuts) && pos == start + Consumed(cuts)
  }

  lemma SentIsPrefix(split: SplitFunc, file: Bytes, start: nat, pos: nat, cuts: seq<Cut>, emitted: seq<Bytes>)
    requires SentSoFar(split, file, start, pos, cuts, emitted)
    ensures start <= pos <= |file|
    ensures var all := Cuts(split, file[start..]);
            && |cuts| <= |all| && emitted == Texts(all[..|cuts|]) && pos == start + Consumed(all[..|cuts|])
            && (split(file[pos..], true).More? ==> |cuts| == |all|)
  {
    assert Cuts(split, file[start..])[..|cuts|] == cuts;
  }

  lemma SendsNext(split: SplitFunc, file: Bytes, start: nat, pos: nat, cuts: seq<Cut>, emitted: seq<Bytes>)
    requires SentSoFar(split, file, start, pos, cuts, emitted) && split(file[pos..], true).Token?
    ensures var step := split(file[pos..], true);
            && 0 < step.advance <= |file| - pos
            && SentSoFar(split, file, start, pos + step.advance, cuts + [Cut(step.advance, step.token)],
                         if step.token != [] then emitted + [step.token] else emitted)
  {
    NextCut(split, file, pos, cuts);
    assert emitted + [] == emitted;
  }

  lemma NothingYet(cfg: Setup, w: World, file: Bytes, start: nat)
    requires start <= |file|
    ensures Leads(cfg, w, [w], [], w) && SentSoFar(cfg.split, file, start, start, [], [])
  {
    var cuts := Cuts(cfg.split, file[start..]);
    assert [] + cuts == cuts;
  }

  datatype Signal = Quiet | Ticked | Cancelled

  class Reader {
    const cfg: Setup
    const fp: Bytes
    var offset: nat
    var saved: Option<Saved>
    ghost var world: World

    /** The fields are those of the world. */
    ghost predicate Valid(file: Bytes)
      reads this
    {
      world.file == file && world.fp == fp && world.offset == offset && world.saved == saved
    }

    /** `NewReader`: go on from the checkpoint, or start anew. */
    constructor (c: Setup, file: Bytes, stored: Option<Saved>, ghost w: World)
      requires w.file == file && w.saved == stored && Can(c, w, Restart)
      ensures cfg == c && Valid(file) && world == Do(c, w, Restart)
    {
      cfg := c;
      fp := NewFingerprint(c.size, file);
      saved := stored;
      var first := NewFingerprint(c.size, file);
      if stored.Some? && StartsWith(stored.value.fp, first) {
        offset := stored.value.offset;
      } else if c.startAtBeginning {
        offset := 0;
      } else {
        offset := |file|;
      }
      world := Do(c, w, Restart);
    }

    /** The world takes a step. */
    ghost method Go(from: World, worlds: seq<World>, actions: seq<Action>, a: Action)
      returns (worlds': seq<World>, actions': seq<Action>)
      requires Leads(cfg, from, worlds, actions, world) && Can(cfg, world, a)
      modifies this`world
      ensures world == Do(cfg, old(world), a) && Leads(cfg, from, worlds', actions', world)
    {
      world := Do(cfg, world, a);
      worlds', actions' := worlds + [world], actions + [a];
    }

    /** Ready for a scan at the offset. */
    ghost predicate ReadyAt(file: Bytes, counter: nat)
      reads this
    {
      Valid(file) && world.phase == Ready && world.pos == offset <= |file| && world.counter == counter
    }

    /** The timer: save the offset. */
    method Flush(file: Bytes, ghost counter: nat, ghost from: World,
                 ghost worlds: seq<World>, ghost actions: seq<Action>)
      returns (ghost worlds': seq<World>, ghost actions': seq<Action>)
      requires ReadyAt(file, counter) && Leads(cfg, from, worlds, actions, world)
      modifies this`saved, this`world
      ensures ReadyAt(file, counter) && Leads(cfg, from, worlds', actions', world)
      ensures saved == Some(Saved(fp, offset))
    {
      saved := Some(Saved(fp, offset));
      worlds', actions' := Go(from, worlds, actions, Tick);
    }

    /** After a token was sent: move the offset, count, and save it if the count is up. */
    method Count(file: Bytes, step: Step, counter: nat, ghost from: World,
                 ghost worlds: seq<World>, ghost actions: seq<Action>)
      returns (counter': nat, ghost worlds': seq<World>, ghost actions': seq<Action>)
      requires ReadyAt(file, counter) && Leads(cfg, from, worlds, actions, world)
      requires step == cfg.split(file[offset..], true) && step.Token?
      modifies this
      ensures ReadyAt(file, counter') && Leads(cfg, from, worlds', actions', world)
      ensures offset == old(offset) + step.advance
    {
      hide Leads;
      assert Progressive(cfg.split);
      worlds', actions' := Go(from, worlds, actions, Send);
      offset := offset + step.advance;
      counter' := if cfg.checkpointAt > 0 then counter + 1 else counter;
      worlds', actions' := Go(from, worlds', actions', Move);
      if cfg.checkpointAt > 0 && counter' == cfg.checkpointAt {
        saved := Some(Saved(fp, offset));
        worlds', actions' := Go(from, worlds', actions', Save);
        counter' := 0;
      }
    }

    /** One pass. `signals` says what the loop finds before each scan: nothing, that the timer
        has gone off, or that the context was cancelled. Whatever the pass does is a run of the
        protocol, so that it may be cut short anywhere. It has sent the first `sent` tokens
        after the offset; if it was not cancelled, all of them, and saves where they end. */
    method ReadFile(file: Bytes, signals: nat -> Signal)
        returns (emitted: seq<Bytes>, sent: nat, finished: bool, ghost worlds: seq<World>, ghost actions: seq<Action>)
      requires Valid(file) && world.phase == Idle && offset <= |file|
      modifies this
      ensures Valid(file) && world.phase == (if finished then Idle else Ready)
      ensures Leads(cfg, old(world), worlds, actions, world)
      ensures var cuts := Cuts(cfg.split, file[old(offset)..]);
              && sent <= |cuts| && emitted == Texts(cuts[..sent])
              && offset == old(offset) + Consumed(cuts[..sent])
              && (finished ==> sent == |cuts|)
      ensures finished ==> saved == Some(Saved(fp, offset))
    {
      hide Leads, Cuts, Consumed, Texts, SentSoFar;
      ghost var from := world;
      var pos, counter := offset, 0;
      NothingYet(cfg, world, file, offset);
      emitted, sent, finished, worlds, actions := [], 0, false, [world], [];
      worlds, actions := Go(from, worlds, actions, Begin);
      ghost var cuts := [];
      while true
        invariant ReadyAt(file, counter) && pos == offset && sent == |cuts| && !finished
        invariant Leads(cfg, from, worlds, actions, world)
        invariant SentSoFar(cfg.split, file, old(offset), pos, cuts, emitted)
        decreases |file| - pos
      {
        SentIsPrefix(cfg.split, file, old(offset), pos, cuts, emitted);
        if signals(sent).Cancelled? {
          return;
        } else if signals(sent).Ticked? {
          worlds, actions := Flush(file, counter, from, worlds, actions);
        }
        var step := cfg.split(file[pos..], true);
        if step.More? {
          break;
        }
        SendsNext(cfg.split, file, old(offset), pos, cuts, emitted);
        cuts, sent := cuts + [Cut(step.advance, step.token)], sent + 1;
        if step.token != [] {
          emitted := emitted + [step.token];
        }
        pos := pos + step.advance;
        counter, worlds, actions := Count(file, step, counter, from, worlds, actions);
      }
      saved := Some(Saved(fp, offset));
      finished := true;
      worlds, actions := Go(from, worlds, actions, Finish);
    }
  }
}
