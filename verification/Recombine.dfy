// Combining consecutive entries: operator/builtin/transformer/recombine/recombine.go.
module Recombine {
  import opened Wrappers
  import opened Sequences

  /** An entry: the text of its combine field, if that reads as text, and all the rest. */
  datatype Message = Message(rest: int, text: Option<string>)

  datatype Config = Config(maxBatchSize: int, matchFirstLine: bool, overwriteWithOldest: bool, sendOnError: bool)

  /** An entry that the expression matches or not, or the operator stopping. */
  datatype Event = Line(entry: Message, matches: bool) | Halt

  // ---------------------------------------------------------- specification

  /** The combined text: the texts that can be read, each but the last entry's followed by
      a newline. */
  function CombinedText(batch: seq<Message>): string {
    if batch == [] then ""
    else
      var more := CombinedText(batch[1..]);
      match batch[0].text
      case None => more
      case Some(s) => s + (if |batch| == 1 then "" else "\n") + more
  }

  function Combined(cfg: Config, batch: seq<Message>): Message
    requires batch != []
  {
    (if cfg.overwriteWithOldest then batch[0] else batch[|batch| - 1]).(text := Some(CombinedText(batch)))
  }

  /** The limit in effect. */
  function Limit(cfg: Config): nat {
    if cfg.maxBatchSize <= 1 then 1 else cfg.maxBatchSize
  }

  /** How many entries of a run are given up combining: as many whole batches as leave
      something over. */
  function GivenUp(cfg: Config, n: nat): (k: nat)
    ensures k <= n && (n > 0 ==> k < n) && n - k <= Limit(cfg)
  {
    if n == 0 then 0 else
      assert (n - 1) / Limit(cfg) * Limit(cfg) + (n - 1) % Limit(cfg) == n - 1;
      (n - 1) / Limit(cfg) * Limit(cfg)
  }

  /** What a run of entries that belong together becomes. */
  function Output(cfg: Config, run: seq<Message>): seq<Message> {
    if run == [] then []
    else run[..GivenUp(cfg, |run|)] + [Combined(cfg, run[GivenUp(cfg, |run|)..])]
  }

  /** The events cut into runs, before or after each match: what the closed runs became, and
      the run that is open. */
  datatype Progress = Progress(out: seq<Message>, run: seq<Message>)

  function After(cfg: Config, events: seq<Event>): Progress
    decreases |events|
  {
    if events == [] then Progress([], [])
    else
      var p := After(cfg, events[..|events| - 1]);
      match events[|events| - 1]
      case Halt => Progress(p.out + p.run, [])
      case Line(e, matches) =>
        if matches && cfg.matchFirstLine then Progress(p.out + Output(cfg, p.run), [e])
        else if matches then Progress(p.out + Output(cfg, p.run + [e]), [])
        else Progress(p.out, p.run + [e])
  }

  lemma CombinedFirst(before: string, batch: seq<Message>)
    requires batch != []
    ensures before + CombinedText(batch)
            == (match batch[0].text
                case None => before
                case Some(s) => before + s + (if |batch| == 1 then "" else "\n"))
               + CombinedText(batch[1..])
  {
    if batch[0].text.Some? {
      var s, end := batch[0].text.value, if |batch| == 1 then "" else "\n";
      Associative(before, s + end, CombinedText(batch[1..]));
      Associative(before, s, end);
    }
  }

  lemma CombinedNone(before: string)
    ensures before + CombinedText([]) == before
  {}

  /** The loop that writes the texts one after the other. */
  method JoinTexts(batch: seq<Message>) returns (recombined: string)
    ensures recombined == CombinedText(batch)
  {
    hide CombinedText;
    recombined := "";
    assert "" + CombinedText(batch) == CombinedText(batch);
    assert batch[0..] == batch;
    for i := 0 to |batch|
      invariant CombinedText(batch) == recombined + CombinedText(batch[i..])
    {
      assert batch[i..][0] == batch[i] && batch[i..][1..] == batch[i + 1..];
      CombinedFirst(recombined, batch[i..]);
      if batch[i].text.Some? {
        recombined := recombined + batch[i].text.value;
        if i != |batch| - 1 {
          recombined := recombined + "\n";
        } else {
          assert recombined + "" == recombined;
        }
      }
    }
    assert batch[|batch|..] == [];
    CombinedNone(recombined);
  }

  // ----------------------------------------------------------- the operator

  class Recombiner {
    const cfg: Config
    var batch: seq<Message>
    var written: seq<Message>

    constructor (c: Config)
      ensures cfg == c && batch == [] && written == []
    {
      cfg, batch, written := c, [], [];
    }

    /** Where the operator is: the run's whole batches have been written one by one. */
    ghost predicate At(p: Progress)
      reads this
    {
      && written == p.out + p.run[..GivenUp(cfg, |p.run|)]
      && batch == p.run[GivenUp(cfg, |p.run|)..]
    }

    method FlushUncombined()
      modifies this
      ensures batch == [] && written == old(written) + old(batch)
    {
      var i := 0;
      while i < |batch|
        invariant 0 <= i <= |batch| && batch == old(batch)
        invariant written == old(written) + batch[..i]
      {
        written := written + [batch[i]];
        i := i + 1;
      }
      batch := [];
    }

    method AddToBatch(e: Message, ghost p: Progress)
      modifies this
      ensures old(At(p)) ==> At(p.(run := p.run + [e]))
    {
      hide GivenUp;
      RunGrows(cfg, p, e);
      if |batch| >= cfg.maxBatchSize {
        FlushUncombined();
      }
      batch := batch + [e];
    }

    method FlushCombined(ghost p: Progress)
      modifies this
      ensures old(At(p)) ==> At(Progress(p.out + Output(cfg, p.run), []))
    {
      hide CombinedText, GivenUp;
      ghost var k := GivenUp(cfg, |p.run|);
      NothingGivenUp(cfg);
      if |batch| == 0 {
        assert At(p) ==> p.run == [];
        return;
      }
      var base := if cfg.overwriteWithOldest then batch[0] else batch[|batch| - 1];
      var recombined := JoinTexts(batch);
      written := written + [base.(text := Some(recombined))];
      batch := [];
      if old(At(p)) {
        Associative(p.out, p.run[..k], [Combined(cfg, p.run[k..])]);
      }
    }

    /** An entry, with what the expression said of it; an expression that fails leaves the
        batch as it is. */
    method Process(e: Message, result: Option<bool>, ghost events: seq<Event>)
      modifies this
      ensures result.None? ==> batch == old(batch) && written == old(written) + if cfg.sendOnError then [e] else []
      ensures result.Some? && old(At(After(cfg, events))) ==> At(After(cfg, events + [Line(e, result.value)]))
    {
      if result.None? {
        if cfg.sendOnError {
          written := written + [e];
        }
        return;
      }
      var matches := result.value;
      ghost var p := After(cfg, events);
      AfterOneMore(cfg, events, Line(e, matches));
      if matches && cfg.matchFirstLine {
        FlushCombined(p);
        AddToBatch(e, Progress(p.out + Output(cfg, p.run), []));
        assert [] + [e] == [e];
      } else if matches && !cfg.matchFirstLine {
        AddToBatch(e, p);
        FlushCombined(p.(run := p.run + [e]));
      } else {
        AddToBatch(e, p);
      }
    }

    method Stop(ghost events: seq<Event>)
      modifies this
      ensures old(At(After(cfg, events))) ==> At(After(cfg, events + [Halt]))
    {
      hide After, GivenUp;
      ghost var p := After(cfg, events);
      AfterOneMore(cfg, events, Halt);
      AddsUp(p, GivenUp(cfg, |p.run|));
      NothingGivenUp(cfg);
      FlushUncombined();
      assert (p.out + p.run) + [] == p.out + p.run;
    }
  }

  lemma AfterOneMore(cfg: Config, events: seq<Event>, event: Event)
    ensures After(cfg, events + [event])
            == var p := After(cfg, events);
               match event
               case Halt => Progress(p.out + p.run, [])
               case Line(e, matches) =>
                 if matches && cfg.matchFirstLine then Progress(p.out + Output(cfg, p.run), [e])
                 else if matches then Progress(p.out + Output(cfg, p.run + [e]), [])
                 else Progress(p.out, p.run + [e])
  {
    assert (events + [event])[..|events|] == events;
  }

  lemma AddsUp(p: Progress, k: nat)
    requires k <= |p.run|
    ensures (p.out + p.run[..k]) + p.run[k..] == p.out + p.run
  {}

  /** One entry more: if the batch is full it is given up, and otherwise it grows. */
  lemma RunGrows(cfg: Config, p: Progress, e: Message)
    ensures var k, k', run' := GivenUp(cfg, |p.run|), GivenUp(cfg, |p.run| + 1), p.run + [e];
            if |p.run| - k >= cfg.maxBatchSize
            then p.out + run'[..k'] == (p.out + p.run[..k]) + p.run[k..] && run'[k'..] == [] + [e]
            else p.out + run'[..k'] == p.out + p.run[..k] && run'[k'..] == p.run[k..] + [e]
  {
    hide GivenUp;
    var k := GivenUp(cfg, |p.run|);
    GivenUpNext(cfg, |p.run|);
    AddsUp(p, k);
    AppendAfter(p.run, e, k);
    AppendAfter(p.run, e, |p.run|);
  }

  lemma AppendAfter(run: seq<Message>, e: Message, k: nat)
    requires k <= |run|
    ensures (run + [e])[..k] == run[..k] && (run + [e])[k..] == run[k..] + [e]
  {}

  /** A batch is given up when it is full and another entry comes. */
  lemma GivenUpNext(cfg: Config, n: nat)
    ensures GivenUp(cfg, n + 1) == if n > 0 && n - GivenUp(cfg, n) == Limit(cfg) then n else GivenUp(cfg, n)
  {
    var l := Limit(cfg);
    if n > 0 {
      var q, r := (n - 1) / l, (n - 1) % l;
      assert n - 1 == q * l + r;
      if r == l - 1 {
        assert n == (q + 1) * l;
        DivMod(n, l, q + 1, 0);
      } else {
        DivMod(n, l, q, r + 1);
      }
    } else {
      DivMod(0, l, 0, 0);
    }
  }

  lemma DivMod(n: nat, l: nat, q: nat, r: nat)
    requires r < l && n == q * l + r
    ensures n / l == q
  {
    var d: int := n / l - q;
    assert l * d == r - n % l;
    assert d >= 1 ==> l * d >= l;
    assert d <= -1 ==> l * d <= 0 - l;
  }

  lemma NothingGivenUp(cfg: Config)
    ensures GivenUp(cfg, 0) == 0
  {}

  // -------------------------------------------------------------- whole runs

  /** `strings.Join(texts, "\n")` */
  function Join(texts: seq<string>): string {
    if texts == [] then ""
    else if |texts| == 1 then texts[0]
    else texts[0] + "\n" + Join(texts[1..])
  }

  function TextOf(e: Message): string {
    match e.text case None => "" case Some(s) => s
  }

  function Texts(entries: seq<Message>): seq<string> {
    seq(|entries|, i requires 0 <= i < |entries| => TextOf(entries[i]))
  }

  /** The entries that came in, in order. */
  function Inputs(events: seq<Event>): seq<Message> {
    if events == [] then []
    else
      var n := |events| - 1;
      match events[n]
      case Halt => Inputs(events[..n])
      case Line(e, _) => Inputs(events[..n]) + [e]
  }

  ghost predicate Readable(entries: seq<Message>) {
    forall i :: 0 <= i < |entries| ==> entries[i].text.Some?
  }

  lemma {:induction false} CombinedTextIsJoin(batch: seq<Message>)
    requires Readable(batch)
    ensures CombinedText(batch) == Join(Texts(batch))
  {
    if batch != [] {
      assert Texts(batch)[1..] == Texts(batch[1..]);
      CombinedTextIsJoin(batch[1..]);
    }
  }

  /** Joining some texts beforehand makes no difference. */
  lemma {:induction false} JoinJoined(a: seq<string>, b: seq<string>, c: seq<string>)
    requires b != []
    ensures Join(a + [Join(b)] + c) == Join(a + b + c)
    decreases |a| + |b|
  {
    if a != [] {
      JoinJoined(a[1..], b, c);
      assert (a + [Join(b)] + c)[1..] == a[1..] + [Join(b)] + c && (a + b + c)[1..] == a[1..] + b + c;
    } else {
      assert a + [Join(b)] + c == [Join(b)] + c && a + b + c == b + c;
      JoinFirst(b, c);
    }
  }

  lemma {:induction false} JoinFirst(b: seq<string>, c: seq<string>)
    requires b != []
    ensures Join([Join(b)] + c) == Join(b + c)
    decreases |b|
  {
    assert ([Join(b)] + c)[1..] == c;
    if |b| == 1 {
      assert b == [Join(b)];
    } else {
      JoinFirst(b[1..], c);
      assert ([Join(b[1..])] + c)[1..] == c;
      assert (b + c)[1..] == b[1..] + c && (b + c)[0] == b[0];
      if c == [] {
        assert [Join(b)] + c == [Join(b)] && [Join(b[1..])] + c == [Join(b[1..])];
      } else {
        assert b[0] + "\n" + Join(b[1..]) + "\n" + Join(c) == b[0] + "\n" + (Join(b[1..]) + "\n" + Join(c));
      }
    }
  }

  lemma TextsAppend(a: seq<Message>, b: seq<Message>)
    ensures Texts(a + b) == Texts(a) + Texts(b)
  {}

  /** What a run becomes has the run's texts. */
  lemma OutputKeepsText(cfg: Config, out: seq<Message>, run: seq<Message>, more: seq<Message>)
    requires Readable(run)
    ensures Readable(Output(cfg, run))
    ensures Join(Texts(out + Output(cfg, run) + more)) == Join(Texts(out + run + more))
  {
    if run != [] {
      var k := GivenUp(cfg, |run|);
      var kept, rest := run[..k], run[k..];
      CombinedTextIsJoin(rest);
      TextsAppend(out, kept);
      var one := [Combined(cfg, rest)];
      assert out + Output(cfg, run) + more == (out + kept) + one + more;
      assert out + run + more == (out + kept) + rest + more by {
        assert run == kept + rest;
      }
      TextsAppend((out + kept) + one, more);
      TextsAppend((out + kept) + rest, more);
      TextsAppend(out + kept, one);
      TextsAppend(out + kept, rest);
      assert Texts(one) == [Join(Texts(rest))];
      JoinJoined(Texts(out + kept), Texts(rest), Texts(more));
    }
  }

  lemma ReadableAppend(a: seq<Message>, b: seq<Message>)
    ensures Readable(a + b) <==> Readable(a) && Readable(b)
  {
    var c := a + b;
    if Readable(c) {
      assert forall i :: 0 <= i < |a| ==> a[i] == c[i];
      assert forall i :: 0 <= i < |b| ==> b[i] == c[|a| + i];
    }
  }

  /** Over every run of entries and stops, if every combine field reads as text: what has
      been written and what is still open, joined, is what came in, joined. */
  lemma {:induction false} TextIsConserved(cfg: Config, events: seq<Event>)
    requires Readable(Inputs(events))
    ensures var p := After(cfg, events);
            && Readable(p.out + p.run) && (p.out + p.run == [] <==> Inputs(events) == [])
            && Join(Texts(p.out + p.run)) == Join(Texts(Inputs(events)))
    decreases |events|
  {
    if events != [] {
      hide Join, Texts, Readable, Output;
      var n := |events| - 1;
      var before := events[..n];
      assert events == before + [events[n]];
      if events[n].Line? {
        ReadableAppend(Inputs(before), [events[n].entry]);
      }
      TextIsConserved(cfg, before);
      var p := After(cfg, before);
      AfterOneMore(cfg, before, events[n]);
      match events[n]
      case Halt => assert (p.out + p.run) + [] == p.out + p.run;
      case Line(e, matches) => LineKeepsText(cfg, p, Inputs(before), e);
    }
  }

  /** The three ways an entry is taken in keep its text at the end. */
  lemma LineKeepsText(cfg: Config, p: Progress, inputs: seq<Message>, e: Message)
    requires Readable(p.out + p.run) && Readable([e]) && (p.out + p.run == [] <==> inputs == [])
    requires Join(Texts(p.out + p.run)) == Join(Texts(inputs))
    ensures var first, open := p.out + Output(cfg, p.run) + [e], p.out + (p.run + [e]);
            var last := p.out + Output(cfg, p.run + [e]) + [];
            && Readable(first) && Readable(last) && Readable(open)
            && first != [] && last != [] && open != []
            && Join(Texts(first)) == Join(Texts(inputs + [e]))
            && Join(Texts(last)) == Join(Texts(inputs + [e]))
            && Join(Texts(open)) == Join(Texts(inputs + [e]))
  {
    hide Join, Readable, Texts, Output;
    var q := p.out + p.run;
    TextsAppend(q, [e]);
    TextsAppend(inputs, [e]);
    TextsOne(e);
    TextsEmpty(q);
    TextsEmpty(inputs);
    JoinLonger(Texts(q), Texts(inputs), TextOf(e));
    Associative(p.out, p.run, [e]);
    NoMore(p.out + (p.run + [e]));
    NoMore(p.out + Output(cfg, p.run + [e]));
    OutputIsSomething(cfg, p.run + [e]);
    ReadableAppend(p.out, p.run);
    ReadableAppend(p.run, [e]);
    ReadableAppend(q, [e]);
    OutputKeepsText(cfg, p.out, p.run, [e]);
    OutputKeepsText(cfg, p.out, p.run + [e], []);
    ReadableAppend(p.out, Output(cfg, p.run));
    ReadableAppend(p.out + Output(cfg, p.run), [e]);
    ReadableAppend(p.out, Output(cfg, p.run + [e]));
  }

  lemma NoMore(a: seq<Message>)
    ensures a + [] == a
  {}

  lemma TextsOne(e: Message)
    ensures Texts([e]) == [TextOf(e)]
  {}

  lemma TextsEmpty(a: seq<Message>)
    ensures Texts(a) == [] <==> a == []
  {}

  lemma OutputIsSomething(cfg: Config, run: seq<Message>)
    ensures Output(cfg, run) == [] <==> run == []
  {}

  /** A run within the limit becomes one entry; a longer one gives up whole batches first. */
  lemma ShortRunsAreCombined(cfg: Config, run: seq<Message>)
    requires run != []
    ensures Output(cfg, run) == [Combined(cfg, run)] <==> |run| <= Limit(cfg)
    ensures |run| > Limit(cfg) ==> Output(cfg, run)[..Limit(cfg)] == run[..Limit(cfg)]
  {
    hide CombinedText, Combined;
    var l, n := Limit(cfg), |run|;
    if n <= l {
      DivMod(n - 1, l, 0, n - 1);
      assert run[0..] == run && run[..0] == [];
    } else {
      var q := (n - 1) / l;
      assert n - 1 == q * l + (n - 1) % l;
      assert q == 0 ==> q * l == 0;
      assert q >= 1 ==> q * l >= l;
      assert Output(cfg, run)[..l] == run[..GivenUp(cfg, n)][..l];
    }
  }

  // -------------------------------------------------- whose other fields stand

  function Rests(entries: seq<Message>): seq<int> {
    seq(|entries|, i requires 0 <= i < |entries| => entries[i].rest)
  }

  lemma RestsAppend(a: seq<Message>, b: seq<Message>)
    ensures Rests(a + b) == Rests(a) + Rests(b)
  {}

  lemma RestsFew(e: Message)
    ensures Rests([]) == [] && Rests([e]) == [e.rest]
    ensures forall m: Message :: Rests([m]) == [m.rest]
  {}

  /** A closed run: what was given up stands for itself, and the combined entry has the other
      fields of the first or of the last entry it was made of. */
  lemma RestsOfRun(cfg: Config, run: seq<Message>)
    requires run != []
    ensures var k, n := GivenUp(cfg, |run|), |run|;
            Rests(Output(cfg, run))
            == Rests(run[..k]) + [if cfg.overwriteWithOldest then run[k].rest else run[n - 1].rest]
  {
    hide CombinedText, GivenUp;
    var k := GivenUp(cfg, |run|);
    RestsAppend(run[..k], [Combined(cfg, run[k..])]);
  }

  lemma NoneGivenUp(cfg: Config, n: nat)
    requires n <= Limit(cfg)
    ensures GivenUp(cfg, n) == 0
  {
    if n > 0 {
      DivMod(n - 1, Limit(cfg), 0, n - 1);
    }
  }

  /** The lines that matched. */
  function MatchedRests(events: seq<Event>): seq<int> {
    if events == [] then []
    else
      var n := |events| - 1;
      MatchedRests(events[..n]) + if events[n].Line? && events[n].matches then [events[n].entry.rest] else []
  }

  /** How many lines there are since the last match, with it if matches are first lines. */
  function SinceMatch(cfg: Config, events: seq<Event>): nat {
    if events == [] then 0
    else
      var n := |events| - 1;
      match events[n]
      case Halt => 0
      case Line(_, matches) =>
        if !matches then SinceMatch(cfg, events[..n]) + 1 else if cfg.matchFirstLine then 1 else 0
  }

  /** The event is a line, and does not make its run too long. */
  predicate FitsIn(cfg: Config, events: seq<Event>, event: Event) {
    && event.Line?
    && (if event.matches && cfg.matchFirstLine then 1 else SinceMatch(cfg, events) + 1) <= Limit(cfg)
  }

  ghost predicate RunsFit(cfg: Config, events: seq<Event>) {
    forall n :: 0 <= n < |events| ==> FitsIn(cfg, events[..n], events[n])
  }

  lemma FitPrefix(cfg: Config, events: seq<Event>, n: nat)
    requires RunsFit(cfg, events) && n <= |events|
    ensures RunsFit(cfg, events[..n])
  {
    forall m | 0 <= m < n ensures FitsIn(cfg, events[..n][..m], events[..n][m]) {
      assert events[..n][..m] == events[..m];
    }
  }

  lemma {:induction false} OpenRunLength(cfg: Config, events: seq<Event>)
    ensures |After(cfg, events).run| == SinceMatch(cfg, events)
    decreases |events|
  {
    if events != [] {
      OpenRunLength(cfg, events[..|events| - 1]);
    }
  }

  lemma RunWithinLimit(cfg: Config, run: seq<Message>)
    requires run != [] && |run| <= Limit(cfg)
    ensures Rests(Output(cfg, run)) == [if cfg.overwriteWithOldest then run[0].rest else run[|run| - 1].rest]
  {
    RestsOfRun(cfg, run);
    NoneGivenUp(cfg, |run|);
    hide Output;
    assert Rests(run[..0]) == [];
  }

  /** The first entry of a run, if there is one. */
  function FirstOf(run: seq<Message>): seq<Message> {
    if run == [] then [] else [run[0]]
  }

  /** If matches are first lines and the oldest entry stands, the entries written and the
      first one of the open run are, but for the text, the lines that matched. */
  lemma {:induction false} FirstLinesStand(cfg: Config, events: seq<Event>)
    requires cfg.matchFirstLine && cfg.overwriteWithOldest && RunsFit(cfg, events)
    requires events != [] ==> events[0].Line? && events[0].matches
    ensures var p := After(cfg, events);
            && Rests(p.out + FirstOf(p.run)) == MatchedRests(events)
            && (events != [] ==> p.run != []) && |p.run| <= Limit(cfg)
    decreases |events|
  {
    if events != [] {
      var n := |events| - 1;
      var before := events[..n];
      FitPrefix(cfg, events, n);
      FirstLinesStand(cfg, before);
      OpenRunLength(cfg, before);
      assert FitsIn(cfg, before, events[n]);
      var p, e := After(cfg, before), events[n].entry;
      assert events == before + [events[n]];
      AfterOneMore(cfg, before, events[n]);
      RestsAppend(p.out, FirstOf(p.run));
      RestsFew(e);
      hide Output, Rests, After, RunsFit, GivenUp;
      if events[n].matches {
        if p.run != [] {
          RunWithinLimit(cfg, p.run);
        } else {
          NoOutput(cfg);
        }
        RestsAppend(p.out, Output(cfg, p.run));
        RestsAppend(p.out + Output(cfg, p.run), [e]);
      } else {
        assert FirstOf(p.run + [e]) == FirstOf(p.run);
        assert MatchedRests(before) + [] == MatchedRests(before);
      }
    }
  }

  lemma NoOutput(cfg: Config)
    ensures Output(cfg, []) == []
  {}

  /** If matches are last lines and the newest entry stands, the entries written are, but for
      the text, the lines that matched. */
  lemma {:induction false} LastLinesStand(cfg: Config, events: seq<Event>)
    requires !cfg.matchFirstLine && !cfg.overwriteWithOldest && RunsFit(cfg, events)
    ensures Rests(After(cfg, events).out) == MatchedRests(events) && |After(cfg, events).run| <= Limit(cfg)
    decreases |events|
  {
    if events != [] {
      var n := |events| - 1;
      var before := events[..n];
      FitPrefix(cfg, events, n);
      LastLinesStand(cfg, before);
      OpenRunLength(cfg, before);
      assert FitsIn(cfg, before, events[n]);
      var p, e := After(cfg, before), events[n].entry;
      assert events == before + [events[n]];
      AfterOneMore(cfg, before, events[n]);
      hide Output, Rests, After, RunsFit, GivenUp;
      assert MatchedRests(before) + [] == MatchedRests(before);
      if events[n].matches {
        RunWithinLimit(cfg, p.run + [e]);
        RestsAppend(p.out, Output(cfg, p.run + [e]));
      }
    }
  }

  /** The operator driven by any events. */
  method Drive(cfg: Config, events: seq<Event>) returns (written: seq<Message>, batch: seq<Message>)
    ensures |batch| <= Limit(cfg)
    ensures Readable(Inputs(events)) ==> Join(Texts(written + batch)) == Join(Texts(Inputs(events)))
    ensures written + batch == After(cfg, events).out + After(cfg, events).run
    ensures cfg.matchFirstLine && cfg.overwriteWithOldest && RunsFit(cfg, events)
            && (events != [] ==> events[0].Line? && events[0].matches) ==>
              Rests(written + FirstOf(batch)) == MatchedRests(events)
    ensures !cfg.matchFirstLine && !cfg.overwriteWithOldest && RunsFit(cfg, events) ==>
              Rests(written) == MatchedRests(events)
  {
    hide After, Join, Texts, Readable, Inputs, RunsFit, GivenUp;
    var operator := new Recombiner(cfg);
    AfterNothing(cfg);
    NothingGivenUp(cfg);
    for i := 0 to |events|
      invariant operator.cfg == cfg && fresh(operator)
      invariant operator.At(After(cfg, events[..i]))
    {
      assert events[..i + 1] == events[..i] + [events[i]];
      match events[i]
      case Halt => operator.Stop(events[..i]);
      case Line(e, matches) => operator.Process(e, Some(matches), events[..i]);
    }
    assert events[..|events|] == events;
    written, batch := operator.written, operator.batch;
    ghost var p := After(cfg, events);
    AddsUp(p, GivenUp(cfg, |p.run|));
    if Readable(Inputs(events)) {
      TextIsConserved(cfg, events);
    }
    if RunsFit(cfg, events) && |p.run| <= Limit(cfg) {
      NoneGivenUp(cfg, |p.run|);
      assert p.out + p.run[..0] == p.out && p.run[0..] == p.run;
    }
    if cfg.matchFirstLine && cfg.overwriteWithOldest && RunsFit(cfg, events)
       && (events != [] ==> events[0].Line? && events[0].matches) {
      FirstLinesStand(cfg, events);
    }
    if !cfg.matchFirstLine && !cfg.overwriteWithOldest && RunsFit(cfg, events) {
      LastLinesStand(cfg, events);
    }
  }

  /** Lines that never match are written as they are, however many they are, once the operator
      stops. */
  lemma {:induction false} UnmatchedPassThrough(cfg: Config, events: seq<Event>)
    requires forall i :: 0 <= i < |events| ==> events[i].Line? && !events[i].matches
    ensures After(cfg, events) == Progress([], Inputs(events))
    ensures After(cfg, events + [Halt]) == Progress(Inputs(events), [])
    decreases |events|
  {
    if events != [] {
      UnmatchedPassThrough(cfg, events[..|events| - 1]);
    }
    AfterOneMore(cfg, events, Halt);
    assert [] + Inputs(events) == Inputs(events);
  }

  // -------------------------------------------------------- fields that do not read

  /** The texts that can be read. */
  function ReadableTexts(batch: seq<Message>): seq<string> {
    if batch == [] then []
    else (match batch[0].text case None => [] case Some(s) => [s]) + ReadableTexts(batch[1..])
  }

  /** Entries whose combine field does not read as text are left out; if the last one is, a
      newline stays at the end. */
  lemma {:induction false} UnreadableAreLeftOut(batch: seq<Message>)
    ensures CombinedText(batch)
            == Join(ReadableTexts(batch))
               + (if batch != [] && batch[|batch| - 1].text.None? && ReadableTexts(batch) != [] then "\n" else "")
  {
    if batch != [] {
      UnreadableAreLeftOut(batch[1..]);
      var rest := batch[1..];
      var texts := ReadableTexts(rest);
      assert rest != [] ==> rest[|rest| - 1] == batch[|batch| - 1];
      match batch[0].text
      case None =>
        assert [] + texts == texts;
      case Some(s) =>
        assert ([s] + texts)[1..] == texts;
        if texts == [] {
          assert [s] + texts == [s];
          OnlyUnreadable(rest);
        } else {
          Associative(s + "\n", Join(texts), if batch[|batch| - 1].text.None? then "\n" else "");
        }
    }
  }

  lemma {:induction false} OnlyUnreadable(batch: seq<Message>)
    requires ReadableTexts(batch) == []
    ensures batch != [] ==> batch[|batch| - 1].text.None?
  {
    if |batch| > 1 {
      OnlyUnreadable(batch[1..]);
    }
  }

  lemma AfterNothing(cfg: Config)
    ensures After(cfg, []) == Progress([], [])
  {}

  lemma JoinLonger(a: seq<string>, b: seq<string>, s: string)
    requires Join(a) == Join(b) && (a == [] <==> b == [])
    ensures Join(a + [s]) == Join(b + [s])
  {
    if a != [] {
      JoinFirst(a, [s]);
      JoinFirst(b, [s]);
    }
  }
}
