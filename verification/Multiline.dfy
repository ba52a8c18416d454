// The split functions of operator/helper/multiline.go and what a scanner that
// feeds them makes of a byte stream.
module Multiline {
  import opened Wrappers
  import opened Sequences

  // ---------------------------------------------------------------- matchers

  datatype Span = Span(start: nat, end: nat)

  /** A compiled pattern, seen only through `FindIndex`: it may find nothing, and
      what it finds lies inside the data. */
  type Matcher = f: Bytes -> Option<Span> | Bounded(f) witness (d: Bytes) => None

  ghost predicate Bounded(f: Bytes -> Option<Span>) {
    forall d :: f(d).Some? ==> f(d).value.start <= f(d).value.end <= |d|
  }

  /** More data never changes a match that was already found. */
  ghost predicate PrefixStable(find: Matcher) {
    forall d, x :: find(d).Some? ==> find(d + x) == find(d)
  }

  ghost predicate NeverEmpty(find: Matcher) {
    forall d :: find(d).Some? ==> find(d).value.start < find(d).value.end
  }

  // ---------------------------------------------------------- split functions

  /** What a split function answers: ask for more data, or cut a token and move on. */
  datatype Step = More | Token(advance: nat, token: Bytes)

  type SplitFunc = f: (Bytes, bool) -> Step | Progressive(f) witness (d: Bytes, e: bool) => More

  /** A token always consumes something, and never more than there is. */
  ghost predicate Progressive(f: (Bytes, bool) -> Step) {
    forall d, e :: f(d, e).Token? ==> 0 < f(d, e).advance <= |d|
  }

  function LineStartSplit(find: Matcher, flushAtEOF: bool, data: Bytes, atEOF: bool): (r: Step)
    ensures r.Token? ==> 0 < r.advance <= |data| && r.token == data[..r.advance]
  {
    match find(data)
    case None => More
    case Some(first) =>
      if first.start != 0 then
        Token(first.start, data[..first.start])
      else if first.end == |data| then
        More
      else if atEOF && flushAtEOF then
        Token(|data|, data)
      else
        var second := find(data[first.end + 1..]);
        if second.None? then More
        else
          var secondStart := second.value.start + first.end + 1;
          Token(secondStart, data[..secondStart])
  }

  function LineEndSplit(find: Matcher, flushAtEOF: bool, data: Bytes, atEOF: bool): (r: Step)
    ensures r.Token? ==> r.advance <= |data| && r.token == data[..r.advance]
    ensures r.Token? && NeverEmpty(find) ==> 0 < r.advance
  {
    match find(data)
    case None =>
      if |data| != 0 && atEOF && flushAtEOF then Token(|data|, data) else More
    case Some(loc) =>
      if loc.end == |data| - 1 && !atEOF then More
      else Token(loc.end, data[..loc.end])
  }

  /** The newline and the carriage return are whatever the configured encoding makes of them. */
  function NewlineSplit(newline: Bytes, carriageReturn: Bytes, flushAtEOF: bool, data: Bytes, atEOF: bool): (r: Step)
    ensures r.Token? ==> r.advance <= |data|
    ensures r.Token? && newline != [] ==> 0 < r.advance
    ensures r.Token? && !flushAtEOF ==>
              || data[..r.advance] == r.token + newline
              || data[..r.advance] == r.token + carriageReturn + newline
  {
    if atEOF && |data| == 0 then More
    else
      match IndexOf(data, newline)
      case Some(i) =>
        assert data[..i + |newline|] == data[..i] + newline;
        Token(i + |newline|, TrimSuffix(data[..i], carriageReturn))
      case None =>
        if atEOF && flushAtEOF then Token(|data|, data) else More
  }

  // The three functions as first-class split functions, as the file input builds
  // them: without flushing at the end of the file.

  ghost function LineStart(find: Matcher): SplitFunc {
    (d, e) => LineStartSplit(find, false, d, e)
  }

  ghost function LineEnd(find: Matcher): SplitFunc
    requires NeverEmpty(find)
  {
    (d, e) => LineEndSplit(find, false, d, e)
  }

  ghost function Newline(newline: Bytes, carriageReturn: Bytes): SplitFunc
    requires newline != []
  {
    (d, e) => NewlineSplit(newline, carriageReturn, false, d, e)
  }

  // ----------------------------------------------------------- batch and stream

  /** One token together with the number of bytes consumed for it. */
  datatype Cut = Cut(advance: nat, token: Bytes)

  /** One pass over all the data, with nothing more to come. */
  function Cuts(split: SplitFunc, data: Bytes): seq<Cut>
    decreases |data|
  {
    match split(data, true)
    case More => []
    case Token(a, t) => [Cut(a, t)] + Cuts(split, data[a..])
  }

  function Consumed(cuts: seq<Cut>): nat {
    if cuts == [] then 0 else cuts[0].advance + Consumed(cuts[1..])
  }

  /** What a scanner does: it splits what it holds, and reads the next chunk only when
      that yields no token; after the last chunk it splits the remainder as final. */
  function Stream(split: SplitFunc, held: Bytes, chunks: seq<Bytes>): seq<Cut>
    decreases |chunks|, |held|
  {
    match split(held, false)
    case Token(a, t) => [Cut(a, t)] + Stream(split, held[a..], chunks)
    case More =>
      if chunks == [] then Cuts(split, held)
      else Stream(split, held + chunks[0], chunks[1..])
  }

  /** The token cut from `d` is the one to be cut from `d + x` when nothing follows that. */
  ghost predicate Keeps(split: SplitFunc, d: Bytes, e: bool, x: Bytes) {
    split(d, e).Token? ==> split(d + x, true) == split(d, e)
  }

  /** A token cut before the end of the data is never revised. */
  ghost predicate EarlyStable(split: SplitFunc) {
    forall d, x :: Keeps(split, d, false, x)
  }

  /** Nor is a token cut at the end of a file that later grows. */
  ghost predicate Stable(split: SplitFunc) {
    forall d, e, x :: Keeps(split, d, e, x)
  }

  /** Being at the end of the file makes no difference to the split function. */
  ghost predicate EofBlind(split: SplitFunc) {
    forall d :: split(d, true) == split(d, false)
  }

  lemma {:induction false} ConsumedBound(split: SplitFunc, data: Bytes)
    ensures Consumed(Cuts(split, data)) <= |data|
    decreases |data|
  {
    match split(data, true)
    case More =>
    case Token(a, t) =>
      ConsumedBound(split, data[a..]);
      assert Cuts(split, data)[1..] == Cuts(split, data[a..]);
  }

  /** The bytes no token was made of. */
  function Rest(split: SplitFunc, data: Bytes): Bytes {
    ConsumedBound(split, data);
    data[Consumed(Cuts(split, data))..]
  }

  lemma {:induction false} ConsumedConcat(a: seq<Cut>, b: seq<Cut>)
    ensures Consumed(a + b) == Consumed(a) + Consumed(b)
  {
    if a == [] {
      assert a + b == b;
    } else {
      ConsumedConcat(a[1..], b);
      assert (a + b)[1..] == a[1..] + b;
    }
  }

  lemma CutFirst(split: SplitFunc, data: Bytes)
    requires split(data, true).Token?
    ensures var rest := data[split(data, true).advance..];
            && Cuts(split, data) == [Cut(split(data, true).advance, split(data, true).token)] + Cuts(split, rest)
            && Rest(split, data) == Rest(split, rest)
  {
    var first := Cut(split(data, true).advance, split(data, true).token);
    var rest := data[first.advance..];
    var cuts := Cuts(split, rest);
    assert Cuts(split, data) == [first] + cuts;
    hide Cuts;
    ConsumedBound(split, rest);
    ConsumedFirst(first, cuts);
    DropTwice(data, first.advance, Consumed(cuts));
  }

  lemma ConsumedFirst(first: Cut, cuts: seq<Cut>)
    ensures Consumed([first] + cuts) == first.advance + Consumed(cuts)
  {
    assert ([first] + cuts)[1..] == cuts;
  }

  lemma DropTwice(data: Bytes, m: nat, n: nat)
    requires m + n <= |data|
    ensures data[m..][n..] == data[m + n..]
  {}

  /** From the end of a token on, the tokens that follow it. */
  lemma {:induction false} CutsAfter(split: SplitFunc, data: Bytes, m: nat)
    requires m <= |Cuts(split, data)|
    ensures var n := Consumed(Cuts(split, data)[..m]);
            n <= |data| && Cuts(split, data[n..]) == Cuts(split, data)[m..]
    decreases m
  {
    var cuts := Cuts(split, data);
    if m == 0 {
      assert data[0..] == data;
    } else {
      CutFirst(split, data);
      var a := split(data, true).advance;
      CutsAfter(split, data[a..], m - 1);
      assert cuts[..m][1..] == cuts[1..][..m - 1] && cuts[..m][0] == cuts[0];
      var n := Consumed(cuts[1..][..m - 1]);
      assert data[a..][n..] == data[a + n..];
    }
  }

  /** Appending to the data keeps every token already cut and goes on from the rest. */
  lemma {:induction false} CutsOfGrownData(split: SplitFunc, data: Bytes, x: Bytes)
    requires Stable(split)
    ensures Cuts(split, data + x) == Cuts(split, data) + Cuts(split, Rest(split, data) + x)
    decreases |data|
  {
    if split(data, true).More? {
      assert Rest(split, data) == data;
    } else {
      var a := split(data, true).advance;
      var first := [Cut(a, split(data, true).token)];
      assert Keeps(split, data, true, x);
      calc {
        Cuts(split, data + x);
        { CutFirst(split, data + x); assert (data + x)[a..] == data[a..] + x; }
        first + Cuts(split, data[a..] + x);
        { CutsOfGrownData(split, data[a..], x); }
        first + (Cuts(split, data[a..]) + Cuts(split, Rest(split, data[a..]) + x));
        { CutFirst(split, data); }
        Cuts(split, data) + Cuts(split, Rest(split, data) + x);
      }
    }
  }

  /** Nothing is left to cut in the rest. */
  lemma {:induction false} RestHasNoToken(split: SplitFunc, data: Bytes)
    ensures split(Rest(split, data), true) == More
    decreases |data|
  {
    if split(data, true).More? {
      assert Rest(split, data) == data;
    } else {
      CutFirst(split, data);
      RestHasNoToken(split, data[split(data, true).advance..]);
    }
  }

  lemma {:induction false} StreamFrom(split: SplitFunc, held: Bytes, chunks: seq<Bytes>)
    requires EarlyStable(split)
    ensures Stream(split, held, chunks) == Cuts(split, held + Flatten(chunks))
    decreases |chunks|, |held|
  {
    var all := held + Flatten(chunks);
    match split(held, false)
    case Token(a, t) =>
      assert Keeps(split, held, false, Flatten(chunks));
      assert all[a..] == held[a..] + Flatten(chunks);
      StreamFrom(split, held[a..], chunks);
    case More =>
      if chunks == [] {
        assert all == held;
      } else {
        assert all == held + chunks[0] + Flatten(chunks[1..]);
        StreamFrom(split, held + chunks[0], chunks[1..]);
      }
  }

  ghost predicate StreamsAsBatch(split: SplitFunc, chunks: seq<Bytes>) {
    Stream(split, [], chunks) == Cuts(split, Flatten(chunks))
  }

  /** Streaming equals batch for every chunking of every input exactly when tokens cut
      early are never revised. */
  lemma StreamingEqualsBatch(split: SplitFunc)
    ensures (forall chunks :: StreamsAsBatch(split, chunks)) <==> EarlyStable(split)
  {
    if EarlyStable(split) {
      forall chunks ensures StreamsAsBatch(split, chunks) {
        StreamFrom(split, [], chunks);
        assert [] + Flatten(chunks) == Flatten(chunks);
      }
    }
    if forall chunks :: StreamsAsBatch(split, chunks) {
      forall d, x | split(d, false).Token? ensures Keeps(split, d, false, x) {
        assert StreamsAsBatch(split, [d, x]);
        TwoChunks(split, d, x);
      }
    }
  }

  lemma TwoChunks(split: SplitFunc, d: Bytes, x: Bytes)
    requires split(d, false).Token?
    requires StreamsAsBatch(split, [d, x])
    ensures split(d + x, true) == split(d, false)
  {
    var chunks := [d, x];
    assert chunks[1..] == [x] && [x][1..] == [];
    assert Flatten([x]) == x + [] == x;
    assert Flatten(chunks) == d + x;
    assert [] + d == d;
    assert Stream(split, [], chunks) == Stream(split, d, [x]);
    assert Stream(split, d, [x])[0] == Cut(split(d, false).advance, split(d, false).token);
  }

  // ------------------------------------------- the three functions are stable

  lemma LineStartStable(find: Matcher)
    requires PrefixStable(find)
    ensures Stable(LineStart(find)) && EofBlind(LineStart(find))
  {
    var split := LineStart(find);
    forall d, e, x | split(d, e).Token? ensures Keeps(split, d, e, x) {
      var first := find(d).value;
      assert find(d + x) == find(d);
      if first.start == 0 {
        var tail := d[first.end + 1..];
        assert (d + x)[first.end + 1..] == tail + x;
        assert find(tail + x) == find(tail);
      }
      assert (d + x)[..split(d, e).advance] == d[..split(d, e).advance];
    }
  }

  lemma LineEndStable(find: Matcher)
    requires PrefixStable(find) && NeverEmpty(find)
    ensures Stable(LineEnd(find))
  {
    var split := LineEnd(find);
    forall d, e, x | split(d, e).Token? ensures Keeps(split, d, e, x) {
      assert find(d + x) == find(d);
      assert (d + x)[..split(d, e).advance] == d[..split(d, e).advance];
    }
  }

  lemma NewlineStable(newline: Bytes, carriageReturn: Bytes)
    requires newline != []
    ensures Stable(Newline(newline, carriageReturn)) && EofBlind(Newline(newline, carriageReturn))
  {
    var split := Newline(newline, carriageReturn);
    forall d, e, x | split(d, e).Token? ensures Keeps(split, d, e, x) {
      IndexOfGrownData(d, x, newline);
      var i := IndexOf(d, newline).value;
      assert (d + x)[..i] == d[..i];
    }
    forall d ensures split(d, true) == split(d, false) {}
  }

  /** The line-end function holds a token back until the end of the file exactly when
      the first match ends one byte before the end of the data. */
  lemma LineEndHoldsBack(find: Matcher, d: Bytes)
    requires NeverEmpty(find)
    ensures LineEnd(find)(d, true) != LineEnd(find)(d, false)
            <==> find(d).Some? && find(d).value.end == |d| - 1
  {}

  lemma StreamingLineStart(find: Matcher, chunks: seq<Bytes>)
    requires PrefixStable(find)
    ensures StreamsAsBatch(LineStart(find), chunks)
  {
    LineStartStable(find);
    StreamingEqualsBatch(LineStart(find));
  }

  lemma StreamingLineEnd(find: Matcher, chunks: seq<Bytes>)
    requires PrefixStable(find) && NeverEmpty(find)
    ensures StreamsAsBatch(LineEnd(find), chunks)
  {
    LineEndStable(find);
    StreamingEqualsBatch(LineEnd(find));
  }

  lemma StreamingNewline(newline: Bytes, carriageReturn: Bytes, chunks: seq<Bytes>)
    requires newline != []
    ensures StreamsAsBatch(Newline(newline, carriageReturn), chunks)
  {
    NewlineStable(newline, carriageReturn);
    StreamingEqualsBatch(Newline(newline, carriageReturn));
  }
}
