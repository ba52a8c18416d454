// Splitting entries into write requests: operator/builtin/output/googlecloud/request.go.
// The size of a request is a base plus a positive weight for each of its entries.
module RequestBuilder {
  import opened Sequences

  type Weight = n: int | n > 0 witness 1

  datatype LogEntry = LogEntry(payload: string, size: Weight)

  type Request = seq<LogEntry>

  function Total(entries: seq<LogEntry>): nat {
    if entries == [] then 0 else entries[0].size + Total(entries[1..])
  }

  /** `limit` is the maximal request size less the base; it is negative when the base
      exceeds the maximum by itself. */
  predicate Fits(limit: int, entries: seq<LogEntry>) {
    Total(entries) <= limit
  }

  /** Where the loop stops: the first prefix that no longer fits, less its last entry. */
  function Take(limit: int, entries: seq<LogEntry>): (n: nat)
    ensures n <= |entries|
    decreases |entries|
  {
    if entries == [] || entries[0].size > limit then 0
    else 1 + Take(limit - entries[0].size, entries[1..])
  }

  lemma {:induction false} TakeIsMaximal(limit: int, entries: seq<LogEntry>)
    requires 0 <= limit
    ensures var n := Take(limit, entries);
            && Fits(limit, entries[..n])
            && (n < |entries| ==> !Fits(limit, entries[..n + 1]))
    decreases |entries|
  {
    if entries != [] && entries[0].size <= limit {
      var n := Take(limit - entries[0].size, entries[1..]);
      TakeIsMaximal(limit - entries[0].size, entries[1..]);
      assert entries[..n + 1][1..] == entries[1..][..n];
      assert n + 1 < |entries| ==> entries[..n + 2][1..] == entries[1..][..n + 1];
    } else if entries != [] {
      assert entries[..1][1..] == [];
    }
  }

  lemma {:induction false} TotalConcat(a: seq<LogEntry>, b: seq<LogEntry>)
    ensures Total(a + b) == Total(a) + Total(b)
  {
    if a == [] {
      assert a + b == b;
    } else {
      TotalConcat(a[1..], b);
      assert (a + b)[1..] == a[1..] + b;
    }
  }

  // ------------------------------------------------------------ termination

  /** The entries of the recursive call, for a call that makes one. */
  function Next(limit: int, entries: seq<LogEntry>): seq<LogEntry> {
    entries[Take(limit, entries)..]
  }

  /** A call that returns without another one. */
  predicate Returns(limit: int, entries: seq<LogEntry>) {
    Fits(limit, entries) || |entries| == 1
  }

  /** The entries of the call after `n` more calls. */
  function Call(limit: int, entries: seq<LogEntry>, n: nat): seq<LogEntry> {
    if n == 0 || Returns(limit, entries) then entries else Call(limit, Next(limit, entries), n - 1)
  }

  predicate ReturnsAt(limit: int, entries: seq<LogEntry>, n: nat) {
    Returns(limit, Call(limit, entries, n))
  }

  /** Every entry but the last fits a request of its own. */
  predicate AllButLastFit(limit: int, entries: seq<LogEntry>) {
    0 <= limit && forall i :: 0 <= i < |entries| - 1 ==> entries[i].size <= limit
  }

  /** The calls come to an end. */
  predicate Ends(limit: int, entries: seq<LogEntry>) {
    AllButLastFit(limit, entries) || Returns(limit, entries)
  }

  lemma {:induction false} NextProgress(limit: int, entries: seq<LogEntry>)
    requires AllButLastFit(limit, entries) && !Returns(limit, entries)
    ensures |Next(limit, entries)| < |entries| && AllButLastFit(limit, Next(limit, entries))
    ensures Next(limit, entries) != [] && Next(limit, entries)[|Next(limit, entries)| - 1] == entries[|entries| - 1]
  {
    TakeIsMaximal(limit, entries);
    assert entries[..|entries|] == entries;
  }

  /** The recursion ends if and only if the first call returns at once or every entry but the
      last fits a request of its own: otherwise some call makes a call with the very same
      entries. */
  lemma RecursionEndsIff(limit: int, entries: seq<LogEntry>)
    ensures (exists n :: ReturnsAt(limit, entries, n)) <==> Ends(limit, entries)
  {
    if Returns(limit, entries) {
      assert ReturnsAt(limit, entries, 0);
    } else if AllButLastFit(limit, entries) {
      var n := EndsAfter(limit, entries);
      assert ReturnsAt(limit, entries, n);
    } else {
      forall n ensures !ReturnsAt(limit, entries, n) {
        NeverReturns(limit, entries, n);
      }
    }
  }

  lemma {:induction false} EndsAfter(limit: int, entries: seq<LogEntry>) returns (n: nat)
    requires AllButLastFit(limit, entries)
    ensures Returns(limit, Call(limit, entries, n))
    decreases |entries|
  {
    if Returns(limit, entries) {
      n := 0;
    } else {
      NextProgress(limit, entries);
      n := EndsAfter(limit, Next(limit, entries));
      n := n + 1;
    }
  }

  lemma {:induction false} NeverReturns(limit: int, entries: seq<LogEntry>, n: nat)
    requires !AllButLastFit(limit, entries) && !Returns(limit, entries)
    ensures !Returns(limit, Call(limit, entries, n))
    decreases n
  {
    if n > 0 {
      StaysBad(limit, entries);
      NeverReturns(limit, Next(limit, entries), n - 1);
    }
  }

  /** An entry that is too large, or a base that is, is never got past. */
  lemma StaysBad(limit: int, entries: seq<LogEntry>)
    requires !AllButLastFit(limit, entries) && !Returns(limit, entries)
    ensures !AllButLastFit(limit, Next(limit, entries)) && !Returns(limit, Next(limit, entries))
  {
    if limit < 0 {
      assert Take(limit, entries) == 0;
    } else {
      var i :| 0 <= i < |entries| - 1 && entries[i].size > limit;
      var n := Take(limit, entries);
      TakeStopsAt(limit, entries, i);
      assert Next(limit, entries)[i - n] == entries[i];
      TotalAtLeast(Next(limit, entries), i - n);
    }
  }

  lemma {:induction false} TakeStopsAt(limit: int, entries: seq<LogEntry>, i: nat)
    requires i < |entries| && entries[i].size > limit
    ensures Take(limit, entries) <= i
    decreases i
  {
    if i > 0 && entries[0].size <= limit {
      TakeStopsAt(limit - entries[0].size, entries[1..], i - 1);
    }
  }

  lemma {:induction false} TotalAtLeast(entries: seq<LogEntry>, i: nat)
    requires i < |entries|
    ensures entries[i].size <= Total(entries)
  {
    if i > 0 {
      TotalAtLeast(entries[1..], i - 1);
    }
  }

  // ---------------------------------------------------------------- requests

  /** What `buildRequests` returns when it returns. */
  function Requests(limit: int, entries: seq<LogEntry>): seq<Request>
    requires Ends(limit, entries)
    decreases |entries|
  {
    if Fits(limit, entries) then [entries]
    else if |entries| == 1 then []
    else
      NextProgress(limit, entries);
      [entries[..Take(limit, entries)]] + Requests(limit, Next(limit, entries))
  }

  /** `buildRequests`: the first request is filled by appending until it is too large. */
  method BuildRequests(limit: int, entries: seq<LogEntry>) returns (requests: seq<Request>)
    requires Ends(limit, entries)
    ensures requests == Requests(limit, entries)
    decreases |entries|
  {
    if Total(entries) <= limit {
      return [entries];
    }
    if |entries| == 1 {
      return [];
    }
    var index := FillFirst(limit, entries);
    NextProgress(limit, entries);
    var rest := BuildRequests(limit, entries[index..]);
    requests := [entries[..index]] + rest;
  }

  method FillFirst(limit: int, entries: seq<LogEntry>) returns (index: nat)
    requires 0 <= limit && !Fits(limit, entries)
    ensures index == Take(limit, entries)
  {
    var first: Request := [];
    var i := 0;
    index := 0;
    while i < |entries|
      invariant i < |entries| && first == entries[..i] && Fits(limit, first)
    {
      first := first + [entries[i]];
      assert first == entries[..i + 1] && entries[..|entries|] == entries;
      if Total(first) > limit {
        FirstTooLarge(limit, entries, i);
        index := i;
        first := first[..index];
        break;
      }
      i := i + 1;
    }
  }

  lemma FirstTooLarge(limit: int, entries: seq<LogEntry>, i: nat)
    requires 0 <= limit && i < |entries| && Fits(limit, entries[..i]) && !Fits(limit, entries[..i + 1])
    ensures Take(limit, entries) == i
  {
    TakeIsMaximal(limit, entries);
    var n := Take(limit, entries);
    if n < i {
      PrefixFits(limit, entries, n + 1, i);
    } else if i < n {
      PrefixFits(limit, entries, i + 1, n);
    }
  }

  lemma PrefixFits(limit: int, entries: seq<LogEntry>, m: nat, n: nat)
    requires m <= n <= |entries| && Fits(limit, entries[..n])
    ensures Fits(limit, entries[..m])
  {
    assert entries[..n] == entries[..m] + entries[m..n];
    TotalConcat(entries[..m], entries[m..n]);
  }

  /** All entries, without the last one if that is too large by itself. */
  function Accepted(limit: int, entries: seq<LogEntry>): seq<LogEntry> {
    if entries != [] && entries[|entries| - 1].size > limit then entries[..|entries| - 1] else entries
  }

  lemma RequestsStep(limit: int, entries: seq<LogEntry>)
    requires AllButLastFit(limit, entries) && !Returns(limit, entries)
    ensures AllButLastFit(limit, Next(limit, entries))
    ensures var n, all := Take(limit, entries), Requests(limit, entries);
            all != [] && all[0] == entries[..n] && all[1..] == Requests(limit, Next(limit, entries))
            && Accepted(limit, entries) == entries[..n] + Accepted(limit, Next(limit, entries))
  {
    NextProgress(limit, entries);
    var n, rest := Take(limit, entries), Next(limit, entries);
    assert entries == entries[..n] + rest;
    assert entries[..|entries| - 1] == entries[..n] + rest[..|rest| - 1];
  }

  /** Every request fits. */
  lemma {:induction false} RequestsFit(limit: int, entries: seq<LogEntry>)
    requires Ends(limit, entries)
    ensures forall i :: 0 <= i < |Requests(limit, entries)| ==> Fits(limit, Requests(limit, entries)[i])
    decreases |entries|
  {
    if !Returns(limit, entries) {
      RequestsStep(limit, entries);
      NextProgress(limit, entries);
      TakeIsMaximal(limit, entries);
      RequestsFit(limit, Next(limit, entries));
      var all := Requests(limit, entries);
      assert forall i :: 0 < i < |all| ==> all[i] == all[1..][i - 1];
    }
  }

  /** Together they are the entries in order, without the last one if that is too large by
      itself. */
  lemma {:induction false} RequestsAreTheEntries(limit: int, entries: seq<LogEntry>)
    requires Ends(limit, entries)
    ensures Flatten(Requests(limit, entries)) == Accepted(limit, entries)
    decreases |entries|
  {
    if Fits(limit, entries) {
      if entries != [] {
        TotalAtLeast(entries, |entries| - 1);
      }
      assert Flatten([entries]) == entries + [];
    } else if |entries| == 1 {
      assert entries[1..] == [] && Total(entries) == entries[0].size;
    } else {
      RequestsStep(limit, entries);
      NextProgress(limit, entries);
      RequestsAreTheEntries(limit, Next(limit, entries));
    }
  }

  // -------------------------------------------------------------- optimality

  /** `parts` cuts the entries, in order, into requests that fit. */
  ghost predicate Splits(limit: int, parts: seq<Request>, entries: seq<LogEntry>) {
    Flatten(parts) == entries && forall i :: 0 <= i < |parts| ==> Fits(limit, parts[i])
  }

  /** Leaving out the first `k` entries needs no more requests. */
  lemma {:induction false} DropFromSplit(limit: int, parts: seq<Request>, entries: seq<LogEntry>, k: nat)
      returns (fewer: seq<Request>)
    requires Splits(limit, parts, entries) && k <= |entries|
    ensures Splits(limit, fewer, entries[k..]) && |fewer| <= |parts|
    decreases |parts|
  {
    if parts == [] {
      fewer := [];
    } else {
      var first, rest := parts[0], Flatten(parts[1..]);
      if k <= |first| {
        fewer := [first[k..]] + parts[1..];
        assert first == first[..k] + first[k..];
        TotalConcat(first[..k], first[k..]);
        assert fewer[1..] == parts[1..];
        assert (first + rest)[k..] == first[k..] + rest;
      } else {
        fewer := DropFromSplit(limit, parts[1..], rest, k - |first|);
        assert (first + rest)[k..] == rest[k - |first|..];
      }
    }
  }

  /** No way of cutting the entries into requests that fit, in order, uses fewer. */
  lemma {:induction false} GreedyIsOptimal(limit: int, entries: seq<LogEntry>, parts: seq<Request>)
    requires Ends(limit, entries) && entries != [] && Splits(limit, parts, entries)
    ensures |Requests(limit, entries)| <= |parts|
    decreases |entries|
  {
    assert parts != [];
    if !Fits(limit, entries) && |entries| != 1 {
      var n, first, rest := Take(limit, entries), parts[0], Flatten(parts[1..]);
      assert entries == first + rest;
      NextProgress(limit, entries);
      assert |first| <= n by {
        TakeIsMaximal(limit, entries);
        if n < |first| {
          assert entries[..|first|] == first;
          PrefixFits(limit, entries, n + 1, |first|);
        }
      }
      var fewer := DropFromSplit(limit, parts[1..], rest, n - |first|);
      assert rest[n - |first|..] == Next(limit, entries);
      GreedyIsOptimal(limit, Next(limit, entries), fewer);
    }
  }
}