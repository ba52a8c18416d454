// What the tokens of the split functions are: lines, records that begin with a literal and
// records that end with one, defined by where the literal occurs in the data.
module Delimiters {
  import opened Wrappers
  import opened Sequences
  import opened Multiline
  import opened FileReader

  // ---------------------------------------------------------------- literals

  /** A pattern that is a literal. */
  ghost function Literal(p: Bytes): Matcher {
    d => match IndexOf(d, p) case None => None case Some(i) => Some(Span(i, i + |p|))
  }

  lemma LiteralIsStable(p: Bytes)
    ensures PrefixStable(Literal(p)) && (p != [] ==> NeverEmpty(Literal(p)))
  {
    hide IndexOf, OccursAt;
    forall d, x | Literal(p)(d).Some? ensures Literal(p)(d + x) == Literal(p)(d) {
      IndexOfGrownData(d, x, p);
    }
  }

  /** The first place from `from` on where `p` occurs. */
  ghost predicate FirstAt(data: Bytes, p: Bytes, from: nat, i: int) {
    from <= i && OccursAt(data, p, i) && forall j :: from <= j < i ==> !OccursAt(data, p, j)
  }

  ghost predicate NoneFrom(data: Bytes, p: Bytes, from: nat) {
    forall j :: from <= j ==> !OccursAt(data, p, j)
  }

  lemma FoundFirst(data: Bytes, p: Bytes)
    ensures match IndexOf(data, p)
            case None => NoneFrom(data, p, 0)
            case Some(i) => FirstAt(data, p, 0, i)
  {
    if IndexOf(data, p).None? {
      forall j | 0 <= j ensures !OccursAt(data, p, j) {
        assert OccursAt(data, p, j) ==> j <= |data|;
      }
    }
  }

  lemma OneFirst(data: Bytes, p: Bytes, from: nat, i: int, j: int)
    requires FirstAt(data, p, from, i) && FirstAt(data, p, from, j)
    ensures i == j
  {}

  // ----------------------------------------------------- records begun by a literal

  /** Where the next record may begin: after a match at the beginning and one more byte. */
  function NextFrom(data: Bytes, p: Bytes): nat {
    if OccursAt(data, p, 0) then |p| + 1 else 0
  }

  /** The line-start function cuts where the next record begins, and at nothing else. */
  lemma LineStartCutsAtRecords(p: Bytes, data: Bytes, atEOF: bool)
    requires p != []
    ensures var r := LineStartSplit(Literal(p), false, data, atEOF);
            && (r.Token? ==> r.token == data[..r.advance] && FirstAt(data, p, NextFrom(data, p), r.advance))
            && (r.More? <==> NoneFrom(data, p, NextFrom(data, p)))
  {
    hide IndexOf, OccursAt, FirstAt, NoneFrom;
    FoundFirst(data, p);
    AtBeginning(data, p);
    if OccursAt(data, p, 0) && |data| > |p| {
      var n := |p| + 1;
      FoundFirst(data[n..], p);
      FirstInTail(data, p, n);
    }
  }

  lemma AtBeginning(data: Bytes, p: Bytes)
    ensures NoneFrom(data, p, 0) ==> !OccursAt(data, p, 0)
    ensures forall i :: FirstAt(data, p, 0, i) ==> 0 <= i <= |data| - |p| && (i == 0 <==> OccursAt(data, p, 0))
    ensures |data| <= |p| ==> NoneFrom(data, p, |p| + 1)
    ensures forall i, from :: FirstAt(data, p, from, i) ==> !NoneFrom(data, p, from)
  {}

  lemma FirstInTail(data: Bytes, p: Bytes, n: nat)
    requires n <= |data|
    ensures NoneFrom(data[n..], p, 0) <==> NoneFrom(data, p, n)
    ensures forall k :: FirstAt(data[n..], p, 0, k) ==> FirstAt(data, p, n, n + k)
  {
    var tail := data[n..];
    assert tail == data[n..|data|];
    forall j: nat ensures OccursAt(tail, p, j) <==> OccursAt(data, p, n + j) {
      OccursInPart(data, p, n, |data|, j);
    }
    hide OccursAt;
    if NoneFrom(tail, p, 0) {
      forall j | n <= j ensures !OccursAt(data, p, j) {
        assert !OccursAt(tail, p, j - n);
      }
    }
    forall k | FirstAt(tail, p, 0, k) ensures FirstAt(data, p, n, n + k) {
      forall j | n <= j < n + k ensures !OccursAt(data, p, j) {
        assert !OccursAt(tail, p, j - n);
      }
    }
  }

  /** `records` are the records of `data`, in order; what is left after them is not complete. */
  ghost predicate Records(p: Bytes, data: Bytes, records: seq<Bytes>)
    decreases |records|
  {
    if records == [] then NoneFrom(data, p, NextFrom(data, p))
    else exists i :: RecordAt(p, data, i, records[0]) && Records(p, data[i..], records[1..])
  }

  ghost predicate RecordAt(p: Bytes, data: Bytes, i: int, record: Bytes) {
    FirstAt(data, p, NextFrom(data, p), i) && record == data[..i]
  }

  // ----------------------------------------------------- records ended by a literal

  /** The line-end function cuts after the first occurrence; it asks for more if there is none,
      and if one byte follows it that is not known to be the last. */
  lemma LineEndCutsAfterLiteral(p: Bytes, data: Bytes, atEOF: bool)
    requires p != []
    ensures var r := LineEndSplit(Literal(p), false, data, atEOF);
            && (r.Token? ==> exists i :: EndsAt(p, data, i, r.token) && r.advance == i + |p|)
            && (r.More? <==> NoneFrom(data, p, 0) || (!atEOF && FirstAt(data, p, 0, |data| - 1 - |p|)))
  {
    FoundFirst(data, p);
    var r := LineEndSplit(Literal(p), false, data, atEOF);
    match IndexOf(data, p)
    case None =>
    case Some(i) =>
      assert OccursAt(data, p, i);
      if r.Token? {
        assert EndsAt(p, data, i, r.token);
      }
  }

  ghost predicate EndsAt(p: Bytes, data: Bytes, i: int, record: Bytes) {
    FirstAt(data, p, 0, i) && record == data[..i + |p|]
  }

  ghost predicate Terminated(p: Bytes, data: Bytes, records: seq<Bytes>)
    decreases |records|
  {
    if records == [] then NoneFrom(data, p, 0)
    else exists i :: EndsAt(p, data, i, records[0]) && Terminated(p, data[i + |p|..], records[1..])
  }

  // ------------------------------------------------------------------- lines

  /** A line without its carriage return, if it ends with one. */
  predicate Trimmed(raw: Bytes, carriageReturn: Bytes, line: Bytes) {
    if OccursAt(raw, carriageReturn, |raw| - |carriageReturn|) then line + carriageReturn == raw else line == raw
  }

  ghost predicate LineAt(newline: Bytes, carriageReturn: Bytes, data: Bytes, i: int, line: Bytes) {
    FirstAt(data, newline, 0, i) && Trimmed(data[..i], carriageReturn, line)
  }

  /** The newline function cuts after the first newline, and takes off that and a carriage
      return just before it. */
  lemma NewlineCutsLines(newline: Bytes, carriageReturn: Bytes, data: Bytes, atEOF: bool)
    requires newline != []
    ensures var r := NewlineSplit(newline, carriageReturn, false, data, atEOF);
            && (r.Token? ==>
                  exists i :: LineAt(newline, carriageReturn, data, i, r.token) && r.advance == i + |newline|)
            && (r.More? <==> NoneFrom(data, newline, 0))
  {
    FoundFirst(data, newline);
    var r := NewlineSplit(newline, carriageReturn, false, data, atEOF);
    match IndexOf(data, newline)
    case None =>
    case Some(i) =>
      TrimmedSuffix(data[..i], carriageReturn);
      assert LineAt(newline, carriageReturn, data, i, r.token);
  }

  lemma TrimmedSuffix(raw: Bytes, carriageReturn: Bytes)
    ensures Trimmed(raw, carriageReturn, TrimSuffix(raw, carriageReturn))
  {}

  ghost predicate Lines(newline: Bytes, carriageReturn: Bytes, data: Bytes, lines: seq<Bytes>)
    decreases |lines|
  {
    if lines == [] then NoneFrom(data, newline, 0)
    else exists i :: LineAt(newline, carriageReturn, data, i, lines[0])
                     && Lines(newline, carriageReturn, data[i + |newline|..], lines[1..])
  }

  // ----------------------------------------------- the tokens are what they should be

  function TokensOf(cuts: seq<Cut>): seq<Bytes> {
    seq(|cuts|, i requires 0 <= i < |cuts| => cuts[i].token)
  }

  lemma TokensFirst(first: Cut, cuts: seq<Cut>)
    ensures TokensOf([first] + cuts) == [first.token] + TokensOf(cuts)
    ensures TokensOf([first] + cuts)[0] == first.token && TokensOf([first] + cuts)[1..] == TokensOf(cuts)
  {}

  /** The texts that are sent: the tokens that are not empty. */
  function NonEmpty(tokens: seq<Bytes>): seq<Bytes> {
    if tokens == [] then [] else (if tokens[0] == [] then [] else [tokens[0]]) + NonEmpty(tokens[1..])
  }

  lemma {:induction false} TextsAreNonEmpty(cuts: seq<Cut>)
    ensures Texts(cuts) == NonEmpty(TokensOf(cuts))
  {
    if cuts != [] {
      TextsAreNonEmpty(cuts[1..]);
      assert cuts == [cuts[0]] + cuts[1..];
      TokensFirst(cuts[0], cuts[1..]);
    }
  }

  lemma {:induction false} CutsAreRecords(p: Bytes, data: Bytes)
    requires p != []
    ensures Records(p, data, TokensOf(Cuts(LineStart(Literal(p)), data)))
    decreases |data|
  {
    var split := LineStart(Literal(p));
    LineStartCutsAtRecords(p, data, true);
    var r := split(data, true);
    if r.Token? {
      var rest := Cuts(split, data[r.advance..]);
      CutFirst(split, data);
      TokensFirst(Cut(r.advance, r.token), rest);
      CutsAreRecords(p, data[r.advance..]);
      assert RecordAt(p, data, r.advance, r.token);
    } else {
      assert Cuts(split, data) == [];
    }
  }

  lemma {:induction false} RecordsAreUnique(p: Bytes, data: Bytes, a: seq<Bytes>, b: seq<Bytes>)
    requires Records(p, data, a) && Records(p, data, b)
    ensures a == b
    decreases |a|
  {
    if a != [] && b != [] {
      var i :| RecordAt(p, data, i, a[0]) && Records(p, data[i..], a[1..]);
      var j :| RecordAt(p, data, j, b[0]) && Records(p, data[j..], b[1..]);
      OneFirst(data, p, NextFrom(data, p), i, j);
      RecordsAreUnique(p, data[i..], a[1..], b[1..]);
      assert a == [a[0]] + a[1..] && b == [b[0]] + b[1..];
    }
  }

  /** Every record but the first begins with the literal, the first does if the data does, and
      after its beginning and one more byte no record contains it. */
  lemma {:induction false} RecordsBeginWithLiteral(p: Bytes, data: Bytes, records: seq<Bytes>, k: nat)
    requires p != [] && Records(p, data, records) && k < |records|
    ensures k > 0 || OccursAt(data, p, 0) ==> OccursAt(records[k], p, 0)
    ensures forall j :: |p| < j ==> !OccursAt(records[k], p, j)
    decreases k
  {
    var i :| RecordAt(p, data, i, records[0]) && Records(p, data[i..], records[1..]);
    if k > 0 {
      assert data[i..] == data[i..|data|];
      OccursInPart(data, p, i, |data|, 0);
      RecordsBeginWithLiteral(p, data[i..], records[1..], k - 1);
    } else {
      assert data[..i] == data[0..i];
      OccursInPart(data, p, 0, i, 0);
      forall j | |p| < j ensures !OccursAt(data[..i], p, j) {
        OccursInPart(data, p, 0, i, j);
      }
    }
  }

  lemma {:induction false} CutsAreTerminated(p: Bytes, data: Bytes)
    requires p != []
    ensures NeverEmpty(Literal(p)) && Terminated(p, data, TokensOf(Cuts(LineEnd(Literal(p)), data)))
    decreases |data|
  {
    LiteralIsStable(p);
    var split := LineEnd(Literal(p));
    LineEndCutsAfterLiteral(p, data, true);
    var r := split(data, true);
    if r.Token? {
      var i :| EndsAt(p, data, i, r.token) && r.advance == i + |p|;
      var rest := Cuts(split, data[r.advance..]);
      CutFirst(split, data);
      TokensFirst(Cut(r.advance, r.token), rest);
      CutsAreTerminated(p, data[r.advance..]);
    } else {
      assert Cuts(split, data) == [];
    }
  }

  lemma {:induction false} TerminatedAreUnique(p: Bytes, data: Bytes, a: seq<Bytes>, b: seq<Bytes>)
    requires Terminated(p, data, a) && Terminated(p, data, b)
    ensures a == b
    decreases |a|
  {
    if a != [] && b != [] {
      var i, j := FirstEnd(p, data, a), FirstEnd(p, data, b);
      hide OccursAt;
      OneFirst(data, p, 0, i, j);
      TerminatedAreUnique(p, data[i + |p|..], a[1..], b[1..]);
      assert a == [a[0]] + a[1..] && b == [b[0]] + b[1..];
    }
  }

  /** Where the literal that ends the first record begins. */
  ghost function FirstEnd(p: Bytes, data: Bytes, records: seq<Bytes>): (i: nat)
    requires records != [] && Terminated(p, data, records)
    ensures i + |p| <= |data| && EndsAt(p, data, i, records[0]) && Terminated(p, data[i + |p|..], records[1..])
  {
    var i :| EndsAt(p, data, i, records[0]) && Terminated(p, data[i + |p|..], records[1..]);
    i
  }

  lemma {:induction false} CutsAreLines(newline: Bytes, carriageReturn: Bytes, data: Bytes)
    requires newline != []
    ensures Lines(newline, carriageReturn, data, TokensOf(Cuts(Newline(newline, carriageReturn), data)))
    decreases |data|
  {
    var split := Newline(newline, carriageReturn);
    NewlineCutsLines(newline, carriageReturn, data, true);
    var r := split(data, true);
    if r.Token? {
      var i :| LineAt(newline, carriageReturn, data, i, r.token) && r.advance == i + |newline|;
      var rest := Cuts(split, data[r.advance..]);
      CutFirst(split, data);
      TokensFirst(Cut(r.advance, r.token), rest);
      CutsAreLines(newline, carriageReturn, data[r.advance..]);
    } else {
      assert Cuts(split, data) == [];
    }
  }

  lemma {:induction false} LinesAreUnique(newline: Bytes, carriageReturn: Bytes, data: Bytes,
                                          a: seq<Bytes>, b: seq<Bytes>)
    requires Lines(newline, carriageReturn, data, a) && Lines(newline, carriageReturn, data, b)
    ensures a == b
    decreases |a|
  {
    if a != [] && b != [] {
      hide OccursAt, Trimmed;
      var n := |newline|;
      var i, j := FirstLine(newline, carriageReturn, data, a), FirstLine(newline, carriageReturn, data, b);
      OneFirst(data, newline, 0, i, j);
      OneTrimmed(data[..i], carriageReturn, a[0], b[0]);
      LinesAreUnique(newline, carriageReturn, data[i + n..], a[1..], b[1..]);
      assert a == [a[0]] + a[1..] && b == [b[0]] + b[1..];
    }
  }

  /** Where the first line ends. */
  ghost function FirstLine(newline: Bytes, carriageReturn: Bytes, data: Bytes, lines: seq<Bytes>): (i: nat)
    requires lines != [] && Lines(newline, carriageReturn, data, lines)
    ensures i + |newline| <= |data| && LineAt(newline, carriageReturn, data, i, lines[0])
    ensures Lines(newline, carriageReturn, data[i + |newline|..], lines[1..])
  {
    var i :| LineAt(newline, carriageReturn, data, i, lines[0])
             && Lines(newline, carriageReturn, data[i + |newline|..], lines[1..]);
    i
  }

  lemma OneTrimmed(raw: Bytes, carriageReturn: Bytes, a: Bytes, b: Bytes)
    requires Trimmed(raw, carriageReturn, a) && Trimmed(raw, carriageReturn, b)
    ensures a == b
  {
    var n := |raw| - |carriageReturn|;
    if OccursAt(raw, carriageReturn, n) {
      assert a == raw[..n] && b == raw[..n];
    }
  }

  // ---------------------------------------------------------------- flushing

  // The functions as inputs without files build them: at the end, what is left is a token.

  ghost function FlushedLineStart(find: Matcher): SplitFunc {
    (d, e) => LineStartSplit(find, true, d, e)
  }

  ghost function FlushedLineEnd(find: Matcher): SplitFunc
    requires NeverEmpty(find)
  {
    (d, e) => LineEndSplit(find, true, d, e)
  }

  ghost function FlushedNewline(newline: Bytes, carriageReturn: Bytes): SplitFunc
    requires newline != []
  {
    (d, e) => NewlineSplit(newline, carriageReturn, true, d, e)
  }

  /** What is left after the tokens, as one more token. */
  function Remainder(rest: Bytes): seq<Cut> {
    if rest == [] then [] else [Cut(|rest|, rest)]
  }

  lemma {:induction false} FlushAddsTheRest(split: SplitFunc, flushed: SplitFunc, data: Bytes)
    requires forall d :: flushed(d, true)
                         == if split(d, true).More? && d != [] then Token(|d|, d) else split(d, true)
    ensures Cuts(flushed, data) == Cuts(split, data) + Remainder(Rest(split, data))
    decreases |data|
  {
    if split(data, true).Token? {
      var a := split(data, true).advance;
      CutFirst(split, data);
      CutFirst(flushed, data);
      FlushAddsTheRest(split, flushed, data[a..]);
      Associative([Cut(a, split(data, true).token)], Cuts(split, data[a..]), Remainder(Rest(split, data[a..])));
    } else {
      assert Cuts(split, data) == [] && Rest(split, data) == data;
      NothingLeft(flushed, data);
    }
  }

  lemma NothingLeft(flushed: SplitFunc, data: Bytes)
    requires flushed(data, true) == if data != [] then Token(|data|, data) else More
    ensures Cuts(flushed, data) == [] + Remainder(data)
  {
    if data != [] {
      CutFirst(flushed, data);
      assert data[|data|..] == [];
      assert Progressive(flushed);
      assert Cuts(flushed, []) == [];
    }
  }

  /** Flushing line ends and lines adds one token, of what is left, to those cut anyway. */
  lemma FlushedLineEndIs(find: Matcher, data: Bytes)
    requires NeverEmpty(find)
    ensures Cuts(FlushedLineEnd(find), data) == Cuts(LineEnd(find), data) + Remainder(Rest(LineEnd(find), data))
  {
    FlushAddsTheRest(LineEnd(find), FlushedLineEnd(find), data);
  }

  lemma FlushedNewlineIs(newline: Bytes, carriageReturn: Bytes, data: Bytes)
    requires newline != []
    ensures var split := Newline(newline, carriageReturn);
            Cuts(FlushedNewline(newline, carriageReturn), data) == Cuts(split, data) + Remainder(Rest(split, data))
  {
    FlushAddsTheRest(Newline(newline, carriageReturn), FlushedNewline(newline, carriageReturn), data);
  }

  /** Flushing line starts makes one token of everything from the first record on, however many
      records that are; it is left if it is nothing but the literal. */
  lemma FlushedLineStartIs(p: Bytes, data: Bytes)
    requires p != []
    ensures var cuts := Cuts(FlushedLineStart(Literal(p)), data);
            match IndexOf(data, p)
            case None => cuts == []
            case Some(i) =>
              cuts == Remainder(data[..i]) + (if i + |p| == |data| then [] else Remainder(data[i..]))
  {
    if IndexOf(data, p).None? {
      assert FlushedLineStart(Literal(p))(data, true) == More;
    } else {
      var i := IndexOf(data, p).value;
      TailBegins(data, p, i);
      FlushedRecord(p, data[i..]);
      if i > 0 {
        FlushedPrefix(p, data, i);
      }
      hide Cuts, IndexOf, FlushedLineStart, Literal;
      assert i == 0 ==> data[0..] == data && Remainder(data[..0]) == [];
    }
  }

  lemma TailBegins(data: Bytes, p: Bytes, i: nat)
    requires OccursAt(data, p, i)
    ensures OccursAt(data[i..], p, 0)
  {
    assert data[i..] == data[i..|data|];
    OccursInPart(data, p, i, |data|, 0);
  }

  lemma FlushedPrefix(p: Bytes, data: Bytes, i: nat)
    requires IndexOf(data, p) == Some(i) && i > 0
    ensures var split := FlushedLineStart(Literal(p));
            Cuts(split, data) == Remainder(data[..i]) + Cuts(split, data[i..])
  {
    hide IndexOf;
    var split := FlushedLineStart(Literal(p));
    assert split(data, true) == Token(i, data[..i]);
    CutFirst(split, data);
  }

  lemma FlushedRecord(p: Bytes, data: Bytes)
    requires p != [] && OccursAt(data, p, 0)
    ensures Cuts(FlushedLineStart(Literal(p)), data) == if |p| == |data| then [] else Remainder(data)
  {
    var split := FlushedLineStart(Literal(p));
    assert IndexOf(data, p) == Some(0);
    if |p| < |data| {
      CutFirst(split, data);
      assert data[|data|..] == [];
      assert Progressive(split);
      assert Cuts(split, []) == [];
    }
  }
}
