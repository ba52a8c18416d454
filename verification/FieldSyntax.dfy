// The notation of fields: entry/field.go, and the printers of entry/record_field.go,
// entry/label_field.go and entry/resource_field.go.
module FieldSyntax {
  import opened Wrappers
  import opened Sequences

  // ---------------------------------------------------------------- grammar

  /** A field is written as segments: bare, after a dot unless it comes first; or quoted,
      in brackets. */
  datatype Segment = Bare(text: string) | Quoted(text: string, quote: char)

  function Texts(segs: seq<Segment>): seq<string> {
    seq(|segs|, i requires 0 <= i < |segs| => segs[i].text)
  }

  function Bracketed(quote: char, text: string): string {
    ['[', quote] + text + [quote, ']']
  }

  /** Segments that follow others. */
  function Tail(segs: seq<Segment>): string {
    if segs == [] then ""
    else if segs[0].Bare? then "." + segs[0].text + Tail(segs[1..])
    else Bracketed(segs[0].quote, segs[0].text) + Tail(segs[1..])
  }

  function Written(segs: seq<Segment>): string {
    if segs != [] && segs[0].Bare? then segs[0].text + Tail(segs[1..]) else Tail(segs)
  }

  predicate IsQuote(c: char) {
    c == '\'' || c == '"'
  }

  predicate IsSeparator(c: char) {
    c == '.' || c == '['
  }

  ghost predicate Clean(text: string) {
    forall i :: 0 <= i < |text| ==> !IsSeparator(text[i])
  }

  ghost predicate FollowsWell(seg: Segment) {
    if seg.Bare? then Clean(seg.text) else IsQuote(seg.quote) && seg.quote !in seg.text
  }

  /** A bare segment that comes first is not empty, and may begin with a dot. */
  ghost predicate StartsWell(seg: Segment) {
    if seg.Bare? then seg.text != "" && seg.text[0] != '[' && Clean(seg.text[1..]) else FollowsWell(seg)
  }

  ghost predicate WellFormed(segs: seq<Segment>) {
    segs != [] ==> StartsWell(segs[0]) && forall i :: 1 <= i < |segs| ==> FollowsWell(segs[i])
  }

  // ---------------------------------------------------------------- scanner

  datatype SplitError = NotQuoted | AfterQuote | AfterBracket | UnclosedBracket | UnclosedDouble | UnclosedSingle

  /** The six states of the scanner, with what is kept of the token being read. */
  datatype State =
    | Begin
    | InBracket
    | InQuote(quote: char, token: string)
    | OutQuote
    | OutBracket
    | InToken(token: string)

  type Split = Result<seq<Segment>, SplitError>

  function Cons(seg: Segment, r: Split): Split {
    match r case Ok(segs) => Ok([seg] + segs) case Err(e) => r
  }

  /** What the scanner makes of the rest of a string. */
  function Scan(st: State, rest: string): Split
    decreases |rest|
  {
    if rest == "" then
      match st
      case Begin => Ok([])
      case OutBracket => Ok([])
      case InToken(token) => Ok([Bare(token)])
      case InBracket => Err(UnclosedBracket)
      case OutQuote => Err(UnclosedBracket)
      case InQuote(quote, _) => Err(if quote == '"' then UnclosedDouble else UnclosedSingle)
    else
      var c, more := rest[0], rest[1..];
      match st
      case Begin => if c == '[' then Scan(InBracket, more) else Scan(InToken([c]), more)
      case InBracket => if IsQuote(c) then Scan(InQuote(c, ""), more) else Err(NotQuoted)
      case InQuote(quote, token) =>
        if c == quote then Cons(Quoted(token, quote), Scan(OutQuote, more)) else Scan(InQuote(quote, token + [c]), more)
      case OutQuote => if c == ']' then Scan(OutBracket, more) else Err(AfterQuote)
      case OutBracket =>
        if c == '.' then Scan(InToken(""), more)
        else if c == '[' then Scan(InBracket, more)
        else Err(AfterBracket)
      case InToken(token) =>
        if c == '.' then Cons(Bare(token), Scan(InToken(""), more))
        else if c == '[' then Cons(Bare(token), Scan(InBracket, more))
        else Scan(InToken(token + [c]), more)
  }

  // ------------------------------------------------ the scanner and the grammar

  ghost predicate FollowWell(segs: seq<Segment>) {
    forall i :: 0 <= i < |segs| ==> FollowsWell(segs[i])
  }

  /** The rest of a text of which `token` has been read, and then `after`. */
  predicate Continues(token: string, text: string, rest: string, after: string) {
    |token| <= |text| && text[..|token|] == token && rest == text[|token|..] + after
  }

  /** What is left to read, in each state, when the segments still to come are `segs`. */
  ghost predicate Reads(st: State, rest: string, segs: seq<Segment>) {
    match st
    case Begin => rest == Written(segs) && WellFormed(segs)
    case OutBracket => rest == Tail(segs) && FollowWell(segs)
    case OutQuote => rest == "]" + Tail(segs) && FollowWell(segs)
    case InBracket => "[" + rest == Tail(segs) && FollowWell(segs)
    case InQuote(quote, token) =>
      && segs != [] && segs[0].Quoted? && segs[0].quote == quote && FollowWell(segs[1..])
      && Continues(token, segs[0].text, rest, [quote, ']'] + Tail(segs[1..])) && quote !in segs[0].text[|token|..]
    case InToken(token) =>
      && segs != [] && segs[0].Bare? && FollowWell(segs[1..])
      && Continues(token, segs[0].text, rest, Tail(segs[1..])) && Clean(segs[0].text[|token|..])
  }

  lemma ContinuesByOne(token: string, text: string, rest: string, after: string)
    requires rest != ""
    ensures Continues(token, text, rest, after) && |token| < |text|
            <==> Continues(token + [rest[0]], text, rest[1..], after)
    ensures Continues(token, text, rest, after) && |token| < |text|
            ==> text[|token|..] == [rest[0]] + text[|token| + 1..]
  {
    if Continues(token, text, rest, after) && |token| < |text| {
      assert rest[0] == text[|token|];
      assert text[..|token| + 1] == token + [rest[0]];
    }
    if Continues(token + [rest[0]], text, rest[1..], after) {
      assert text[..|token|] == (token + [rest[0]])[..|token|];
      assert text[|token|] == (token + [rest[0]])[|token|];
      assert rest == [rest[0]] + rest[1..];
      assert text[|token|..] == [rest[0]] + text[|token| + 1..];
    }
  }

  lemma TailFirst(segs: seq<Segment>)
    ensures Tail(segs) == "" <==> segs == []
    ensures segs != [] ==> Tail(segs)[0] == (if segs[0].Bare? then '.' else '[')
    ensures segs != [] ==>
              Tail(segs)[1..] == (if segs[0].Bare? then segs[0].text + Tail(segs[1..])
                                  else [segs[0].quote] + segs[0].text + [segs[0].quote, ']'] + Tail(segs[1..]))
  {
    if segs != [] {
      var seg, after := segs[0], Tail(segs[1..]);
      if seg.Bare? {
        DropFirst('.', seg.text + after);
        Associative(".", seg.text, after);
      } else {
        var q := seg.quote;
        DropFirst('[', [q] + seg.text + [q, ']'] + after);
        assert Bracketed(q, seg.text) == ['['] + ([q] + seg.text + [q, ']']);
        Associative("[", [q] + seg.text + [q, ']'], after);
      }
    }
  }

  lemma DropFirst(c: char, s: string)
    ensures ([c] + s)[0] == c && ([c] + s)[1..] == s
  {}

  /** Where a text goes on, its next character comes next. */
  lemma NextOfText(token: string, text: string, rest: string, after: string)
    ensures Continues(token, text, rest, after) && |token| < |text| ==> rest != "" && rest[0] == text[|token|..][0]
  {}

  lemma TokenEnds(token: string, segs: seq<Segment>)
    ensures Reads(InToken(token), "", segs) <==> segs == [Bare(token)]
  {
    if Reads(InToken(token), "", segs) {
      TailFirst(segs[1..]);
      assert segs[0].text == token;
    }
  }

  /** In a token, at a separator. */
  lemma TokenStops(token: string, rest: string, segs: seq<Segment>)
    requires rest != "" && IsSeparator(rest[0])
    ensures Reads(InToken(token), rest, segs)
            <==> segs != [] && segs[0] == Bare(token) && rest == Tail(segs[1..]) && FollowWell(segs[1..])
  {
    if segs != [] {
      NextOfText(token, segs[0].text, rest, Tail(segs[1..]));
    }
    if Reads(InToken(token), rest, segs) {
      var text := segs[0].text;
      assert text[|token|..] == "";
    }
    if segs != [] && segs[0] == Bare(token) && rest == Tail(segs[1..]) {
      assert token[|token|..] + Tail(segs[1..]) == Tail(segs[1..]);
    }
  }

  lemma TokenAtDot(token: string, rest: string, segs: seq<Segment>)
    requires rest != "" && rest[0] == '.'
    ensures Reads(InToken(token), rest, segs)
            <==> segs != [] && segs[0] == Bare(token) && Reads(InToken(""), rest[1..], segs[1..])
  {
    TokenStops(token, rest, segs);
    assert rest == [rest[0]] + rest[1..];
    if segs != [] {
      TailFirst(segs[1..]);
      if |segs| > 1 {
        assert segs[1].text[0..] == segs[1].text;
      }
    }
  }

  lemma TokenAtBracket(token: string, rest: string, segs: seq<Segment>)
    requires rest != "" && rest[0] == '['
    ensures Reads(InToken(token), rest, segs)
            <==> segs != [] && segs[0] == Bare(token) && Reads(InBracket, rest[1..], segs[1..])
  {
    TokenStops(token, rest, segs);
    assert rest == "[" + rest[1..];
  }

  lemma TokenGoesOn(token: string, rest: string, segs: seq<Segment>)
    requires rest != "" && !IsSeparator(rest[0])
    ensures Reads(InToken(token), rest, segs) <==> Reads(InToken(token + [rest[0]]), rest[1..], segs)
  {
    if segs != [] && segs[0].Bare? {
      var text, after := segs[0].text, Tail(segs[1..]);
      ContinuesByOne(token, text, rest, after);
      TailFirst(segs[1..]);
      assert Continues(token, text, rest, after) && |token| == |text| ==> rest == after;
    }
  }

  lemma QuoteStops(quote: char, token: string, rest: string, segs: seq<Segment>)
    requires rest != "" && rest[0] == quote
    ensures Reads(InQuote(quote, token), rest, segs)
            <==> segs != [] && segs[0] == Quoted(token, quote) && Reads(OutQuote, rest[1..], segs[1..])
  {
    assert rest == [quote] + rest[1..];
    if segs != [] {
      NextOfText(token, segs[0].text, rest, [quote, ']'] + Tail(segs[1..]));
    }
    if Reads(InQuote(quote, token), rest, segs) {
      var text := segs[0].text;
      assert text[|token|..] == "";
    }
    if segs != [] && segs[0] == Quoted(token, quote) && Reads(OutQuote, rest[1..], segs[1..]) {
      assert rest == token[|token|..] + ([quote, ']'] + Tail(segs[1..]));
    }
  }

  lemma QuoteGoesOn(quote: char, token: string, rest: string, segs: seq<Segment>)
    requires rest != "" && rest[0] != quote
    ensures Reads(InQuote(quote, token), rest, segs) <==> Reads(InQuote(quote, token + [rest[0]]), rest[1..], segs)
  {
    if segs != [] && segs[0].Quoted? {
      var text, after := segs[0].text, [quote, ']'] + Tail(segs[1..]);
      ContinuesByOne(token, text, rest, after);
      assert Continues(token, text, rest, after) && |token| == |text| ==> rest == after;
    }
  }

  lemma BracketOpens(rest: string, segs: seq<Segment>)
    requires rest != ""
    ensures Reads(InBracket, rest, segs) <==> IsQuote(rest[0]) && Reads(InQuote(rest[0], ""), rest[1..], segs)
  {
    TailFirst(segs);
    if segs != [] && segs[0].Quoted? {
      var seg := segs[0];
      assert segs == [seg] + segs[1..];
      assert FollowWell(segs) <==> FollowsWell(seg) && FollowWell(segs[1..]);
      assert seg.text[0..] == seg.text;
      assert rest == [rest[0]] + rest[1..];
      assert Tail(segs) == "[" + [seg.quote] + (seg.text + ([seg.quote, ']'] + Tail(segs[1..])));
      assert "[" + rest == "[" + [rest[0]] + rest[1..];
      assert "[" + rest == Tail(segs) ==> rest == Tail(segs)[1..];
    } else if segs != [] {
      assert ("[" + rest)[0] == '[';
    }
  }

  lemma FollowsBracket(rest: string, segs: seq<Segment>)
    requires rest != ""
    ensures Reads(OutBracket, rest, segs)
            <==> || (rest[0] == '.' && Reads(InToken(""), rest[1..], segs))
                 || (rest[0] == '[' && Reads(InBracket, rest[1..], segs))
  {
    TailFirst(segs);
    assert rest == [rest[0]] + rest[1..];
    if segs != [] {
      assert segs == [segs[0]] + segs[1..];
      assert segs[0].text[0..] == segs[0].text;
    }
  }

  lemma Starts(rest: string, segs: seq<Segment>)
    requires rest != ""
    ensures Reads(Begin, rest, segs)
            <==> if rest[0] == '[' then Reads(InBracket, rest[1..], segs)
                 else Reads(InToken([rest[0]]), rest[1..], segs)
  {
    TailFirst(segs);
    assert rest == [rest[0]] + rest[1..];
    if segs != [] {
      var seg, after := segs[0], Tail(segs[1..]);
      assert WellFormed(segs) <==> StartsWell(seg) && FollowWell(segs[1..]) by {
        assert forall i :: 1 <= i < |segs| ==> segs[i] == segs[1..][i - 1];
      }
      if seg.Bare? {
        assert rest == seg.text + after && seg.text != "" ==> rest[0] == seg.text[0];
        assert seg.text[0..] == seg.text;
        ContinuesByOne("", seg.text, rest, after);
        assert "" + [rest[0]] == [rest[0]];
      }
    }
  }

  lemma NothingLeft(st: State, segs: seq<Segment>)
    ensures Scan(st, "") == Ok(segs) <==> Reads(st, "", segs)
  {
    match st
    case InToken(token) => TokenEnds(token, segs);
    case InBracket =>
      TailFirst(segs);
      assert "[" + "" == "[";
      if segs != [] && segs[0].Quoted? {
        assert |Tail(segs)| > 1;
      }
    case _ => TailFirst(segs);
  }

  lemma ConsIff(seg: Segment, r: Split, segs: seq<Segment>)
    ensures Cons(seg, r) == Ok(segs) <==> segs != [] && segs[0] == seg && r == Ok(segs[1..])
  {
    if segs != [] {
      assert segs == [segs[0]] + segs[1..];
    }
  }

  /** The scanner accepts exactly what the grammar writes, and finds the segments. */
  lemma {:induction false} ScanIff(st: State, rest: string, segs: seq<Segment>)
    ensures Scan(st, rest) == Ok(segs) <==> Reads(st, rest, segs)
    decreases |rest|, 2
  {
    if rest == "" {
      NothingLeft(st, segs);
    } else {
      ScanMore(st, rest, segs);
    }
  }

  lemma {:induction false} ScanMore(st: State, rest: string, segs: seq<Segment>)
    requires rest != ""
    ensures Scan(st, rest) == Ok(segs) <==> Reads(st, rest, segs)
    decreases |rest|, 1
  {
    hide Reads, Cons;
    var c, more := rest[0], rest[1..];
    match st
    case Begin =>
      Starts(rest, segs);
      ScanIff(if c == '[' then InBracket else InToken([c]), more, segs);
    case InBracket =>
      BracketOpens(rest, segs);
      ScanIff(InQuote(c, ""), more, segs);
    case InQuote(quote, token) =>
      if c == quote {
        QuoteStops(quote, token, rest, segs);
        ConsIff(Quoted(token, quote), Scan(OutQuote, more), segs);
        if segs != [] {
          ScanIff(OutQuote, more, segs[1..]);
        }
      } else {
        QuoteGoesOn(quote, token, rest, segs);
        ScanIff(InQuote(quote, token + [c]), more, segs);
      }
    case OutQuote =>
      QuoteCloses(rest, segs);
      ScanIff(OutBracket, more, segs);
    case OutBracket =>
      FollowsBracket(rest, segs);
      ScanIff(if c == '[' then InBracket else InToken(""), more, segs);
    case InToken(token) =>
      ScanToken(token, rest, segs);
  }

  lemma {:induction false} ScanToken(token: string, rest: string, segs: seq<Segment>)
    requires rest != ""
    ensures Scan(InToken(token), rest) == Ok(segs) <==> Reads(InToken(token), rest, segs)
    decreases |rest|, 0
  {
    hide Reads, Cons;
    var c, more := rest[0], rest[1..];
    if c == '.' {
      TokenAtDot(token, rest, segs);
      ConsIff(Bare(token), Scan(InToken(""), more), segs);
      if segs != [] {
        ScanIff(InToken(""), more, segs[1..]);
      }
    } else if c == '[' {
      TokenAtBracket(token, rest, segs);
      ConsIff(Bare(token), Scan(InBracket, more), segs);
      if segs != [] {
        ScanIff(InBracket, more, segs[1..]);
      }
    } else {
      TokenGoesOn(token, rest, segs);
      ScanIff(InToken(token + [c]), more, segs);
    }
  }

  lemma QuoteCloses(rest: string, segs: seq<Segment>)
    requires rest != ""
    ensures Reads(OutQuote, rest, segs) <==> rest[0] == ']' && Reads(OutBracket, rest[1..], segs)
  {
    assert rest == [rest[0]] + rest[1..];
  }

  /** Splitting a string finds the one way to write it as well-formed segments, and fails
      exactly if there is none. */
  lemma SplitsIff(s: string, segs: seq<Segment>)
    ensures Scan(Begin, s) == Ok(segs) <==> s == Written(segs) && WellFormed(segs)
  {
    ScanIff(Begin, s, segs);
  }

  // ----------------------------------------------------------------- errors

  lemma {:induction false} ScanQuoted(quote: char, token: string, more: string, rest: string)
    requires quote !in more
    ensures Scan(InQuote(quote, token), more + [quote] + rest)
            == Cons(Quoted(token + more, quote), Scan(OutQuote, rest))
    ensures Scan(InQuote(quote, token), more) == Err(if quote == '"' then UnclosedDouble else UnclosedSingle)
    decreases |more|
  {
    var all := more + [quote] + rest;
    if more == "" {
      assert all[0] == quote && all[1..] == rest && token + more == token;
    } else {
      assert all[0] == more[0] && all[1..] == more[1..] + [quote] + rest;
      ScanQuoted(quote, token + [more[0]], more[1..], rest);
      assert token + [more[0]] + more[1..] == token + more;
    }
  }

  lemma {:induction false} ScanBare(token: string, text: string, rest: string)
    requires Clean(text)
    ensures Scan(InToken(token), text + rest) == Scan(InToken(token + text), rest)
    decreases |text|
  {
    if text == "" {
      assert text + rest == rest && token + text == token;
    } else {
      var all := text + rest;
      assert all[0] == text[0] && all[1..] == text[1..] + rest;
      ScanBare(token + [text[0]], text[1..], rest);
      assert token + [text[0]] + text[1..] == token + text;
    }
  }

  /** What cannot follow `segs`, and why. */
  ghost predicate Faulty(segs: seq<Segment>, bad: string, error: SplitError) {
    match error
    case NotQuoted => |bad| >= 2 && bad[0] == '[' && !IsQuote(bad[1])
    case AfterQuote =>
      exists quote, text, c, x :: c != ']' && Opens(quote, text) && bad == ['[', quote] + text + [quote, c] + x
    case UnclosedBracket =>
      bad == "[" || exists quote, text :: Opens(quote, text) && bad == ['[', quote] + text + [quote]
    case UnclosedDouble => exists text :: Opens('"', text) && bad == ['[', '"'] + text
    case UnclosedSingle => exists text :: Opens('\'', text) && bad == ['[', '\''] + text
    case AfterBracket => segs != [] && segs[|segs| - 1].Quoted? && bad != "" && !IsSeparator(bad[0])
  }

  predicate Opens(quote: char, text: string) {
    IsQuote(quote) && quote !in text
  }

  lemma FaultIsFound(segs: seq<Segment>, bad: string, error: SplitError)
    requires Faulty(segs, bad, error)
    ensures bad != "" && Scan(OutBracket, bad) == Err(error)
    ensures error != AfterBracket ==> bad[0] == '['
  {
    match error
    case AfterQuote =>
      var quote, text, c, x :| c != ']' && Opens(quote, text) && bad == ['[', quote] + text + [quote, c] + x;
      assert bad[1..][0] == quote && bad[1..][1..] == text + [quote] + ([c] + x);
      ScanQuoted(quote, "", text, [c] + x);
      assert ([c] + x)[0] == c;
    case UnclosedBracket =>
      if bad != "[" {
        var quote, text :| Opens(quote, text) && bad == ['[', quote] + text + [quote];
        assert bad[1..][0] == quote && bad[1..][1..] == text + [quote] + "";
        ScanQuoted(quote, "", text, "");
      }
    case UnclosedDouble =>
      var text :| Opens('"', text) && bad == ['[', '"'] + text;
      assert bad[1..][0] == '"' && bad[1..][1..] == text;
      ScanQuoted('"', "", text, "");
    case UnclosedSingle =>
      var text :| Opens('\'', text) && bad == ['[', '\''] + text;
      assert bad[1..][0] == '\'' && bad[1..][1..] == text;
      ScanQuoted('\'', "", text, "");
    case _ =>
  }

  /** A token that a separator follows. */
  lemma TokenThen(token: string, rest: string)
    requires rest != "" && IsSeparator(rest[0])
    ensures Scan(InToken(token), rest) == Cons(Bare(token), Scan(OutBracket, rest))
  {}

  lemma {:induction false} FaultAfterSegments(segs: seq<Segment>, bad: string, error: SplitError)
    requires FollowWell(segs) && bad != "" && Scan(OutBracket, bad) == Err(error)
    requires bad[0] == '[' || (segs != [] && segs[|segs| - 1].Quoted?)
    ensures Scan(OutBracket, Tail(segs) + bad) == Err(error)
    decreases |segs|
  {
    if segs == [] {
      assert Tail(segs) + bad == bad;
    } else {
      hide Scan, Bracketed;
      var seg, rest := segs[0], segs[1..];
      var after := Tail(rest) + bad;
      if rest != [] || bad[0] == '[' {
        FaultAfterSegments(rest, bad, error);
      } else {
        assert after == bad;
      }
      if seg.Bare? {
        AfterStarts(rest, bad);
        BareThen(seg.text, after);
        Associative("." + seg.text, Tail(rest), bad);
      } else {
        QuotedThen(seg.quote, seg.text, after);
        Associative(Bracketed(seg.quote, seg.text), Tail(rest), bad);
      }
    }
  }

  lemma AfterStarts(rest: seq<Segment>, bad: string)
    requires bad != "" && (rest != [] || bad[0] == '[')
    ensures Tail(rest) + bad != "" && IsSeparator((Tail(rest) + bad)[0])
  {
    TailFirst(rest);
  }

  lemma BareThen(text: string, after: string)
    requires Clean(text) && after != "" && IsSeparator(after[0])
    ensures Scan(OutBracket, "." + text + after) == Cons(Bare(text), Scan(OutBracket, after))
  {
    var all := "." + text + after;
    assert all[0] == '.' && all[1..] == text + after;
    ScanBare("", text, after);
    assert "" + text == text;
    TokenThen(text, after);
  }

  lemma QuotedThen(quote: char, text: string, after: string)
    requires Opens(quote, text)
    ensures Scan(OutBracket, Bracketed(quote, text) + after) == Cons(Quoted(text, quote), Scan(OutBracket, after))
  {
    var all := Bracketed(quote, text) + after;
    var end := [']'] + after;
    assert all[0] == '[' && all[1..][0] == quote && all[1..][1..] == text + [quote] + end;
    ScanQuoted(quote, "", text, end);
    assert end[0] == ']' && end[1..] == after && "" + text == text;
    assert Scan(OutQuote, end) == Scan(OutBracket, after);
    assert Scan(InBracket, all[1..]) == Scan(InQuote(quote, ""), all[1..][1..]);
  }

  /** Every way in which a string can be wrong after well-formed segments gives its own error. */
  lemma FaultsAreNamed(segs: seq<Segment>, bad: string, error: SplitError)
    requires WellFormed(segs) && Faulty(segs, bad, error)
    ensures Scan(Begin, Written(segs) + bad) == Err(error)
  {
    FaultIsFound(segs, bad, error);
    if segs != [] && segs[0].Bare? {
      var text, rest := segs[0].text, segs[1..];
      assert rest != [] ==> rest[|rest| - 1] == segs[|segs| - 1];
      assert forall i :: 0 <= i < |rest| ==> rest[i] == segs[i + 1];
      FaultAfterSegments(rest, bad, error);
      AfterStarts(rest, bad);
      FirstBareThen(text, Tail(rest) + bad);
      Associative(text, Tail(rest), bad);
    } else {
      FaultAfterSegments(segs, bad, error);
      TailFirst(segs);
      BracketFirst(Tail(segs) + bad);
    }
  }

  lemma FirstBareThen(text: string, after: string)
    requires StartsWell(Bare(text)) && after != "" && IsSeparator(after[0])
    ensures Scan(Begin, text + after) == Cons(Bare(text), Scan(OutBracket, after))
  {
    var all := text + after;
    assert all[0] == text[0] && all[1..] == text[1..] + after;
    ScanBare([text[0]], text[1..], after);
    assert [text[0]] + text[1..] == text;
    TokenThen(text, after);
  }

  lemma BracketFirst(s: string)
    requires s != "" && s[0] == '['
    ensures Scan(Begin, s) == Scan(OutBracket, s)
  {}

  // ------------------------------------------------------------ the split loop

  datatype SplitState = AtBegin | AtBracket | AtQuote | PastQuote | PastBracket | AtToken

  /** The state of the loop as a state of the scanner. */
  function StateOf(state: SplitState, quoteChar: char, token: string): State {
    match state
    case AtBegin => Begin
    case AtBracket => InBracket
    case AtQuote => InQuote(quoteChar, token)
    case PastQuote => OutQuote
    case PastBracket => OutBracket
    case AtToken => InToken(token)
  }

  function SplitOf(r: Split): Result<seq<string>, SplitError> {
    match r case Ok(segs) => Ok(Texts(segs)) case Err(e) => Err(e)
  }

  function Prepended(fields: seq<string>, r: Split): Result<seq<string>, SplitError> {
    match r case Ok(segs) => Ok(fields + Texts(segs)) case Err(e) => Err(e)
  }

  lemma PrependedCons(fields: seq<string>, seg: Segment, r: Split)
    ensures Prepended(fields, Cons(seg, r)) == Prepended(fields + [seg.text], r)
  {
    if r.Ok? {
      assert Texts([seg] + r.value) == [seg.text] + Texts(r.value);
      Associative(fields, [seg.text], Texts(r.value));
    }
  }

  method SplitField(s: string) returns (r: Result<seq<string>, SplitError>)
    ensures r == SplitOf(Scan(Begin, s))
  {
    hide Texts, Cons;
    var fields: seq<string> := [];
    var state, quoteChar, tokenStart := AtBegin, ' ', 0;
    PrependedNone(Scan(Begin, s));
    assert s[0..] == s;
    for i := 0 to |s|
      invariant state == AtQuote || state == AtToken ==> tokenStart <= i
      invariant var token := if state == AtQuote || state == AtToken then s[tokenStart..i] else "";
                SplitOf(Scan(Begin, s)) == Prepended(fields, Scan(StateOf(state, quoteChar, token), s[i..]))
    {
      var c := s[i];
      assert s[i..][0] == c && s[i..][1..] == s[i + 1..];
      assert s[i..i + 1] == [c] && s[i + 1..i + 1] == "";
      match state
      case AtBegin =>
        if c == '[' {
          state := AtBracket;
        } else {
          tokenStart, state := i, AtToken;
        }
      case AtBracket =>
        if !(c == '\'' || c == '"') {
          return Err(NotQuoted);
        }
        state, quoteChar, tokenStart := AtQuote, c, i + 1;
      case AtQuote =>
        if c == quoteChar {
          PrependedCons(fields, Quoted(s[tokenStart..i], c), Scan(OutQuote, s[i + 1..]));
          fields := fields + [s[tokenStart..i]];
          state := PastQuote;
        } else {
          assert s[tokenStart..i] + [c] == s[tokenStart..i + 1];
        }
      case PastQuote =>
        if c != ']' {
          return Err(AfterQuote);
        }
        state := PastBracket;
      case PastBracket =>
        if c == '.' {
          state, tokenStart := AtToken, i + 1;
        } else if c == '[' {
          state := AtBracket;
        } else {
          return Err(AfterBracket);
        }
      case AtToken =>
        PrependedCons(fields, Bare(s[tokenStart..i]), Scan(InToken(""), s[i + 1..]));
        PrependedCons(fields, Bare(s[tokenStart..i]), Scan(InBracket, s[i + 1..]));
        assert s[tokenStart..i] + [c] == s[tokenStart..i + 1];
        if c == '.' {
          fields := fields + [s[tokenStart..i]];
          tokenStart := i + 1;
        } else if c == '[' {
          fields := fields + [s[tokenStart..i]];
          state := AtBracket;
        }
    }
    assert s[|s|..] == "";
    match state
    case AtBracket => return Err(UnclosedBracket);
    case PastQuote => return Err(UnclosedBracket);
    case AtQuote => return Err(if quoteChar == '"' then UnclosedDouble else UnclosedSingle);
    case AtToken =>
      assert s[tokenStart..] == s[tokenStart..|s|];
      TextsOne(Bare(s[tokenStart..]));
      return Ok(fields + [s[tokenStart..]]);
    case _ =>
      TextsNone();
      assert fields + [] == fields;
      return Ok(fields);
  }

  lemma PrependedNone(r: Split)
    ensures Prepended([], r) == SplitOf(r)
  {
    if r.Ok? {
      assert [] + Texts(r.value) == Texts(r.value);
    }
  }

  lemma TextsOne(seg: Segment)
    ensures Texts([seg]) == [seg.text]
  {}

  lemma TextsNone()
    ensures Texts([]) == []
  {}
}
