// Strings with embedded expressions: operator/helper/expr_string.go.
module ExprString {
  import opened Wrappers
  import opened Sequences

  const START_TOKEN := "EXPR("
  const END_TOKEN := ")"

  /** `strings.LastIndex`. */
  function LastIndexOf(data: string, pattern: string): (r: Option<nat>)
    ensures r.Some? ==> OccursAt(data, pattern, r.value)
    ensures r.Some? ==> forall j :: r.value < j <= |data| ==> !OccursAt(data, pattern, j)
    ensures r.None? ==> !Contains(data, pattern)
  {
    LastIndexUpTo(data, pattern, |data|)
  }

  function LastIndexUpTo(data: string, pattern: string, upTo: nat): (r: Option<nat>)
    requires upTo <= |data|
    requires forall j :: upTo < j <= |data| ==> !OccursAt(data, pattern, j)
    ensures r.Some? ==> OccursAt(data, pattern, r.value)
    ensures r.Some? ==> forall j :: r.value < j <= |data| ==> !OccursAt(data, pattern, j)
    ensures r.None? ==> !Contains(data, pattern)
  {
    if OccursAt(data, pattern, upTo) then Some(upTo)
    else if upTo == 0 then None
    else LastIndexUpTo(data, pattern, upTo - 1)
  }

  /** Literals and expressions in turn; there is one literal more. */
  datatype Template = Template(literals: seq<string>, exprs: seq<string>)

  /** The end of the range in which an expression starting at `i` may be closed: the next
      start token, or the end of the string. */
  function RangeEnd(s: string, i: nat): (r: nat)
    requires OccursAt(s, START_TOKEN, i)
    ensures i + |START_TOKEN| <= r <= |s|
  {
    match IndexOf(s[i + |START_TOKEN|..], START_TOKEN)
    case None => |s|
    case Some(n) => i + |START_TOKEN| + n
  }

  /** Where the first expression of `s` starts and where it is closed, if it is: at the
      last end token before the next start token. */
  function FirstExpr(s: string): (r: Option<(nat, nat)>)
    ensures r.Some? ==> r.value.0 + |START_TOKEN| <= r.value.1 < |s|
  {
    match IndexOf(s, START_TOKEN)
    case None => None
    case Some(i) =>
      match LastIndexOf(s[i..RangeEnd(s, i)], END_TOKEN)
      case None => None
      case Some(n) =>
        ClosesAfterStart(s, i, n);
        Some((i, i + n))
  }

  /** The start token contains no end token. */
  lemma ClosesAfterStart(s: string, i: nat, n: nat)
    requires OccursAt(s, START_TOKEN, i) && OccursAt(s[i..RangeEnd(s, i)], END_TOKEN, n)
    ensures |START_TOKEN| <= n && i + n < RangeEnd(s, i) && s[i + n] == ')'
  {
    var range := s[i..RangeEnd(s, i)];
    OccursElement(range, END_TOKEN, n, 0);
    assert range[n] == s[i + n] == ')';
    assert forall k :: 0 <= k < |START_TOKEN| ==> START_TOKEN[k] != ')';
    if n < |START_TOKEN| {
      OccursElement(s, START_TOKEN, i, n);
    }
  }

  lemma FirstExprTokens(s: string)
    requires FirstExpr(s).Some?
    ensures var (i, j) := FirstExpr(s).value;
            && s[i..i + |START_TOKEN|] == START_TOKEN && s[j..j + 1] == END_TOKEN
            && j < RangeEnd(s, i) && (forall k :: 0 <= k < i ==> !OccursAt(s, START_TOKEN, k))
  {
    var (i, j) := FirstExpr(s).value;
    ClosesAfterStart(s, i, j - i);
  }

  /** The template of a string: literal, expression, and so on with the rest. */
  function Split(s: string): Template
    decreases |s|
  {
    match FirstExpr(s)
    case None => Template([s], [])
    case Some((i, j)) =>
      var rest := Split(s[j + 1..]);
      Template([s[..i]] + rest.literals, [s[i + |START_TOKEN|..j]] + rest.exprs)
  }

  /** The string a template was made of. */
  function Unsplit(t: Template): string
    requires |t.literals| == |t.exprs| + 1
    decreases |t.exprs|
  {
    if t.exprs == [] then t.literals[0]
    else t.literals[0] + START_TOKEN + t.exprs[0] + END_TOKEN + Unsplit(Template(t.literals[1..], t.exprs[1..]))
  }

  lemma {:induction false} SplitShape(s: string)
    ensures |Split(s).literals| == |Split(s).exprs| + 1
    decreases |s|
  {
    hide FirstExpr;
    match FirstExpr(s)
    case None =>
    case Some((i, j)) => SplitShape(s[j + 1..]);
  }

  lemma SplitFirst(s: string)
    requires FirstExpr(s).Some?
    ensures var (i, j) := FirstExpr(s).value;
            var t, rest := Split(s), Split(s[j + 1..]);
            && |t.literals| > 0 && |t.exprs| > 0
            && t.literals[0] == s[..i] && t.exprs[0] == s[i + |START_TOKEN|..j]
            && t.literals[1..] == rest.literals && t.exprs[1..] == rest.exprs
  {
    hide FirstExpr;
  }

  lemma Reassemble(s: string, i: nat, n: nat, j: nat)
    requires i <= n <= j < |s|
    ensures s == s[..i] + s[i..n] + s[n..j] + s[j..j + 1] + s[j + 1..]
  {}

  /** Splitting loses nothing. */
  lemma {:induction false} UnsplitSplit(s: string)
    ensures |Split(s).literals| == |Split(s).exprs| + 1
    ensures Unsplit(Split(s)) == s
    decreases |s|
  {
    hide FirstExpr;
    SplitShape(s);
    if FirstExpr(s).Some? {
      var (i, j) := FirstExpr(s).value;
      var n := i + |START_TOKEN|;
      var t, rest := Split(s), Split(s[j + 1..]);
      SplitFirst(s);
      FirstExprTokens(s);
      UnsplitSplit(s[j + 1..]);
      assert Template(t.literals[1..], t.exprs[1..]) == rest;
      assert Unsplit(t) == s[..i] + START_TOKEN + s[n..j] + END_TOKEN + s[j + 1..];
      Reassemble(s, i, n, j);
    }
  }

  // ------------------------------------------------------- the other direction

  /** How much of `s` lies before its first start token. */
  function Plain(s: string): (n: nat)
    ensures n <= |s|
  {
    match IndexOf(s, START_TOKEN) case None => |s| case Some(i) => i
  }

  /** No end token before the first start token. */
  ghost predicate OpenEnded(s: string) {
    forall k :: 0 <= k < Plain(s) ==> s[k] != ')'
  }

  /** A template that splitting yields: start tokens occur in the last literal at most, and
      there none that is closed; and no expression could be closed later. */
  ghost predicate Canonical(t: Template)
    decreases |t.exprs|
  {
    && |t.literals| == |t.exprs| + 1
    && if t.exprs == [] then FirstExpr(t.literals[0]).None?
       else
         var rest := Template(t.literals[1..], t.exprs[1..]);
         && !Contains(t.literals[0], START_TOKEN) && !Contains(t.exprs[0], START_TOKEN)
         && Canonical(rest) && OpenEnded(Unsplit(rest))
  }

  /** A part that ends before the next occurrence of the start token contains none. */
  lemma NoStartWithin(s: string, lo: nat, hi: nat)
    requires lo <= hi <= |s| && forall k :: lo <= k < hi ==> !OccursAt(s, START_TOKEN, k)
    ensures !Contains(s[lo..hi], START_TOKEN)
  {
    forall k | 0 <= k <= hi - lo ensures !OccursAt(s[lo..hi], START_TOKEN, k) {
      OccursInPart(s, START_TOKEN, lo, hi, k);
    }
  }

  /** There is no start token between the one at `i` and the end of its range, where there
      is one unless that is the end of the string. */
  lemma RangeIsPlain(s: string, i: nat)
    requires OccursAt(s, START_TOKEN, i)
    ensures forall k :: i + |START_TOKEN| <= k < RangeEnd(s, i) ==> !OccursAt(s, START_TOKEN, k)
    ensures RangeEnd(s, i) < |s| ==> OccursAt(s, START_TOKEN, RangeEnd(s, i))
  {
    var n, end := i + |START_TOKEN|, RangeEnd(s, i);
    assert s[n..] == s[n..|s|];
    forall k | n <= k < end ensures !OccursAt(s, START_TOKEN, k) {
      OccursInPart(s, START_TOKEN, n, |s|, k - n);
    }
    OccursInPart(s, START_TOKEN, n, |s|, end - n);
  }

  lemma FirstExprParts(s: string)
    requires FirstExpr(s).Some?
    ensures var (i, j) := FirstExpr(s).value;
            !Contains(s[..i], START_TOKEN) && !Contains(s[i + |START_TOKEN|..j], START_TOKEN) && OpenEnded(s[j + 1..])
  {
    var (i, j) := FirstExpr(s).value;
    FirstExprTokens(s);
    RangeIsPlain(s, i);
    NoStartWithin(s, 0, i);
    assert s[0..i] == s[..i];
    NoStartWithin(s, i + |START_TOKEN|, j);
    OpenAfterClose(s, i, j);
  }

  lemma OpenAfterClose(s: string, i: nat, j: nat)
    requires FirstExpr(s) == Some((i, j))
    ensures OpenEnded(s[j + 1..])
  {
    hide FirstExpr, RangeEnd, Plain;
    FirstExprTokens(s);
    PlainWithinRange(s, i, j);
    var rest := s[j + 1..];
    forall k | 0 <= k < Plain(rest) ensures rest[k] != ')' {
      NotClosedLater(s, i, j, j + 1 + k);
    }
  }

  lemma PlainWithinRange(s: string, i: nat, j: nat)
    requires OccursAt(s, START_TOKEN, i) && i + |START_TOKEN| <= j < RangeEnd(s, i)
    ensures j + 1 + Plain(s[j + 1..]) <= RangeEnd(s, i)
  {
    hide RangeEnd;
    var end := RangeEnd(s, i);
    RangeIsPlain(s, i);
    assert s[j + 1..] == s[j + 1..|s|];
    if end < |s| {
      OccursInPart(s, START_TOKEN, j + 1, |s|, end - j - 1);
    }
  }

  lemma NotClosedLater(s: string, i: nat, j: nat, k: nat)
    requires FirstExpr(s) == Some((i, j)) && j < k < RangeEnd(s, i)
    ensures s[k] != ')'
  {
    var range := s[i..RangeEnd(s, i)];
    assert !OccursAt(range, END_TOKEN, k - i);
    assert range[k - i..k - i + 1] == [s[k]];
  }

  /** Splitting yields canonical templates. */
  lemma {:induction false} SplitIsCanonical(s: string)
    ensures Canonical(Split(s))
    decreases |s|
  {
    hide FirstExpr;
    SplitShape(s);
    if FirstExpr(s).Some? {
      var (i, j) := FirstExpr(s).value;
      var rest := Split(s[j + 1..]);
      SplitFirst(s);
      FirstExprParts(s);
      SplitIsCanonical(s[j + 1..]);
      UnsplitSplit(s[j + 1..]);
      assert Template(Split(s).literals[1..], Split(s).exprs[1..]) == rest;
    }
  }

  /** No literal but the last contains a start token, and no expression does. */
  lemma {:induction false} StartTokensAreCutOut(s: string, k: nat)
    requires k < |Split(s).exprs|
    ensures k < |Split(s).literals| - 1
    ensures !Contains(Split(s).literals[k], START_TOKEN) && !Contains(Split(s).exprs[k], START_TOKEN)
  {
    SplitShape(s);
    SplitIsCanonical(s);
    CanonicalParts(Split(s), k);
  }

  lemma {:induction false} CanonicalParts(t: Template, k: nat)
    requires Canonical(t) && k < |t.exprs|
    ensures !Contains(t.literals[k], START_TOKEN) && !Contains(t.exprs[k], START_TOKEN)
    decreases k
  {
    hide FirstExpr, OpenEnded, Unsplit;
    if k > 0 {
      CanonicalParts(Template(t.literals[1..], t.exprs[1..]), k - 1);
    }
  }

  /** No character of the start token but the first is an 'E', and none is a ')'. */
  lemma StartTokenIsClean(k: nat)
    requires k < |START_TOKEN|
    ensures START_TOKEN[k] != ')' && (0 < k ==> START_TOKEN[k] != 'E')
  {}

  /** A string built of a literal, an expression and a rest. */
  function Joined(l: string, e: string, r: string): string {
    l + START_TOKEN + e + END_TOKEN + r
  }

  lemma JoinedParts(l: string, e: string, r: string)
    ensures var u := Joined(l, e, r);
            var n := |l| + |START_TOKEN|;
            && |u| == n + |e| + 1 + |r|
            && u[..|l|] == l && u[n..n + |e|] == e && u[n + |e|] == ')' && u[n + |e| + 1..] == r
            && OccursAt(u, START_TOKEN, |l|)
  {
    var u, n := Joined(l, e, r), |l| + |START_TOKEN|;
    assert u[|l|..n] == START_TOKEN;
  }

  lemma NoEarlierStart(l: string, e: string, r: string, k: nat)
    requires !Contains(l, START_TOKEN) && k < |l|
    ensures !OccursAt(Joined(l, e, r), START_TOKEN, k)
  {
    var u := Joined(l, e, r);
    JoinedParts(l, e, r);
    assert u[0..|l|] == l;
    if OccursAt(u, START_TOKEN, k) {
      if k + |START_TOKEN| <= |l| {
        OccursInPart(u, START_TOKEN, 0, |l|, k);
      } else {
        OccursElement(u, START_TOKEN, k, |l| - k);
        OccursElement(u, START_TOKEN, |l|, 0);
        StartTokenIsClean(|l| - k);
      }
    }
  }

  lemma NoStartInExpr(l: string, e: string, r: string, k: nat)
    requires !Contains(e, START_TOKEN) && |l| + |START_TOKEN| <= k <= |l| + |START_TOKEN| + |e|
    ensures !OccursAt(Joined(l, e, r), START_TOKEN, k)
  {
    var u, n := Joined(l, e, r), |l| + |START_TOKEN|;
    JoinedParts(l, e, r);
    if OccursAt(u, START_TOKEN, k) {
      if k + |START_TOKEN| <= n + |e| {
        OccursInPart(u, START_TOKEN, n, n + |e|, k - n);
      } else {
        OccursElement(u, START_TOKEN, k, n + |e| - k);
        StartTokenIsClean(n + |e| - k);
      }
    }
  }

  /** The range of the expression goes to the first start token of the rest. */
  lemma RangeOfJoined(l: string, e: string, r: string)
    requires !Contains(e, START_TOKEN)
    ensures OccursAt(Joined(l, e, r), START_TOKEN, |l|)
    ensures var c := |l| + |START_TOKEN| + |e|;
            c < RangeEnd(Joined(l, e, r), |l|) <= c + 1 + Plain(r)
  {
    hide RangeEnd, Joined;
    var u, c := Joined(l, e, r), |l| + |START_TOKEN| + |e|;
    JoinedParts(l, e, r);
    RangeIsPlain(u, |l|);
    var end := RangeEnd(u, |l|);
    if end <= c {
      NoStartInExpr(l, e, r, end);
    }
    if Plain(r) < |r| {
      assert u[c + 1..|u|] == r;
      OccursInPart(u, START_TOKEN, c + 1, |u|, Plain(r));
    }
  }

  /** The last end token of the range is the one that closes the expression. */
  lemma CloseOfJoined(l: string, e: string, r: string)
    requires OccursAt(Joined(l, e, r), START_TOKEN, |l|)
    requires var c := |l| + |START_TOKEN| + |e|;
             c < RangeEnd(Joined(l, e, r), |l|) <= c + 1 + Plain(r)
    requires OpenEnded(r)
    ensures var u := Joined(l, e, r);
            LastIndexOf(u[|l|..RangeEnd(u, |l|)], END_TOKEN) == Some(|START_TOKEN| + |e|)
  {
    hide RangeEnd, Plain, LastIndexOf;
    var u, c := Joined(l, e, r), |l| + |START_TOKEN| + |e|;
    JoinedParts(l, e, r);
    var end := RangeEnd(u, |l|);
    hide Joined;
    forall k | c < k < end ensures u[k] != ')' {
      assert u[k] == u[c + 1..][k - c - 1] == r[k - c - 1];
    }
    LastClose(u, |l|, c, end);
  }

  lemma LastClose(u: string, lo: nat, c: nat, hi: nat)
    requires lo <= c < hi <= |u| && u[c] == ')' && forall k :: c < k < hi ==> u[k] != ')'
    ensures LastIndexOf(u[lo..hi], END_TOKEN) == Some(c - lo)
  {
    hide LastIndexOf;
    var range := u[lo..hi];
    assert range[c - lo..c - lo + 1] == END_TOKEN;
    assert OccursAt(range, END_TOKEN, c - lo);
    var n := LastIndexOf(range, END_TOKEN).value;
    OccursElement(range, END_TOKEN, n, 0);
    assert range[n] == u[lo + n];
  }

  lemma FirstExprOfJoined(l: string, e: string, r: string)
    requires !Contains(l, START_TOKEN) && !Contains(e, START_TOKEN) && OpenEnded(r)
    ensures FirstExpr(Joined(l, e, r)) == Some((|l|, |l| + |START_TOKEN| + |e|))
  {
    hide IndexOf, LastIndexOf, RangeEnd, Joined, Plain, OpenEnded;
    var u := Joined(l, e, r);
    JoinedParts(l, e, r);
    forall k | 0 <= k < |l| ensures !OccursAt(u, START_TOKEN, k) {
      NoEarlierStart(l, e, r, k);
    }
    assert IndexOf(u, START_TOKEN) == Some(|l|);
    RangeOfJoined(l, e, r);
    CloseOfJoined(l, e, r);
  }

  /** Templates that splitting yields are recovered from their strings: splitting and its
      inverse are one to one. */
  lemma {:induction false} SplitUnsplit(t: Template)
    requires Canonical(t)
    ensures Split(Unsplit(t)) == t
    decreases |t.exprs|
  {
    hide FirstExpr, OpenEnded;
    if t.exprs == [] {
      assert t.literals == [t.literals[0]];
    } else {
      var rest := Template(t.literals[1..], t.exprs[1..]);
      var l, e, r := t.literals[0], t.exprs[0], Unsplit(rest);
      SplitUnsplit(rest);
      FirstExprOfJoined(l, e, r);
      JoinedParts(l, e, r);
      var u := Joined(l, e, r);
      assert Unsplit(t) == u;
      SplitFirst(u);
      assert Split(u).literals == [l] + rest.literals == t.literals;
      assert Split(u).exprs == [e] + rest.exprs == t.exprs;
    }
  }

  // ------------------------------------------------------------------ methods

  /** One round of the loop: the first start token, and the last end token before the next
      one. */
  method FindExpr(s: string) returns (r: Option<(nat, nat)>)
    ensures r == FirstExpr(s)
  {
    var indexStart := IndexOf(s, START_TOKEN);
    if indexStart.None? {
      return None;
    }
    var i := indexStart.value;
    var nextIndexStart := IndexOf(s[i + |START_TOKEN|..], START_TOKEN);
    var rangeEnd := if nextIndexStart.None? then |s| else i + |START_TOKEN| + nextIndexStart.value;
    var indexEnd := LastIndexOf(s[i..rangeEnd], END_TOKEN);
    if indexEnd.None? {
      return None;
    }
    return Some((i, i + indexEnd.value));
  }

  /** The loop of `Build`. */
  method Build(s: string) returns (subStrings: seq<string>, subExprs: seq<string>)
    ensures subStrings == Split(s).literals && subExprs == Split(s).exprs
  {
    hide FirstExpr;
    subStrings, subExprs := [], [];
    var rangeStart := 0;
    assert s[0..] == s;
    while true
      invariant rangeStart <= |s|
      invariant Split(s).literals == subStrings + Split(s[rangeStart..]).literals
      invariant Split(s).exprs == subExprs + Split(s[rangeStart..]).exprs
      decreases |s| - rangeStart
    {
      var tail := s[rangeStart..];
      var found := FindExpr(tail);
      if found.None? {
        subStrings := subStrings + [tail];
        break;
      }
      var (i, j) := found.value;
      SplitFirst(tail);
      MoveOne(subStrings, Split(tail).literals);
      MoveOne(subExprs, Split(tail).exprs);
      subStrings, subExprs := subStrings + [tail[..i]], subExprs + [tail[i + |START_TOKEN|..j]];
      rangeStart := rangeStart + j + |END_TOKEN|;
      assert tail[j + 1..] == s[rangeStart..];
    }
  }

  /** Why an expression has no string value: it fails, or its value is not a string. */
  datatype RenderError = EvalFailed(expr: string) | NotAString(expr: string)

  type Evaluator = string -> Result<string, RenderError>

  /** What rendering gives: each expression replaced by its value, or the error of the first
      expression that has none. */
  function Rendered(t: Template, eval: Evaluator): Result<string, RenderError>
    requires |t.literals| == |t.exprs| + 1
    decreases |t.exprs|
  {
    if t.exprs == [] then Ok(t.literals[0])
    else
      match eval(t.exprs[0])
      case Err(error) => Err(error)
      case Ok(v) => Prepended(t.literals[0] + v, Rendered(Template(t.literals[1..], t.exprs[1..]), eval))
  }

  function Prepended(b: string, r: Result<string, RenderError>): Result<string, RenderError> {
    match r case Err(error) => r case Ok(s) => Ok(b + s)
  }

  /** Rendering fails if and only if some expression does, and with the error of the first. */
  lemma {:induction false} RenderFailsIff(t: Template, eval: Evaluator)
    requires |t.literals| == |t.exprs| + 1
    ensures Rendered(t, eval).Err? <==> exists i :: 0 <= i < |t.exprs| && eval(t.exprs[i]).Err?
    ensures forall i :: 0 <= i < |t.exprs| && eval(t.exprs[i]).Err? && AllRender(t.exprs[..i], eval) ==>
              Rendered(t, eval) == Err(eval(t.exprs[i]).error)
    decreases |t.exprs|
  {
    if t.exprs != [] {
      var rest := Template(t.literals[1..], t.exprs[1..]);
      RenderFailsIff(rest, eval);
      assert forall i :: 0 < i < |t.exprs| ==> t.exprs[i] == rest.exprs[i - 1];
      if Rendered(rest, eval).Err? {
        var i :| 0 <= i < |rest.exprs| && eval(rest.exprs[i]).Err?;
        assert eval(t.exprs[i + 1]).Err?;
      }
      forall i | 0 <= i < |t.exprs| && eval(t.exprs[i]).Err? && AllRender(t.exprs[..i], eval)
        ensures Rendered(t, eval) == Err(eval(t.exprs[i]).error)
      {
        if i > 0 {
          assert t.exprs[..i][0] == t.exprs[0];
          assert rest.exprs[..i - 1] == t.exprs[..i][1..];
          assert AllRender(rest.exprs[..i - 1], eval);
          assert eval(rest.exprs[i - 1]).Err?;
        }
      }
    }
  }

  ghost predicate AllRender(exprs: seq<string>, eval: Evaluator) {
    forall i :: 0 <= i < |exprs| ==> eval(exprs[i]).Ok?
  }

  /** Rendering every expression as itself gives the string back. */
  lemma {:induction false} RenderAsIs(t: Template, eval: Evaluator)
    requires |t.literals| == |t.exprs| + 1
    requires forall e :: eval(e) == Ok(START_TOKEN + e + END_TOKEN)
    ensures Rendered(t, eval) == Ok(Unsplit(t))
    decreases |t.exprs|
  {
    if t.exprs != [] {
      var rest := Template(t.literals[1..], t.exprs[1..]);
      RenderAsIs(rest, eval);
      assert t.literals[0] + (START_TOKEN + t.exprs[0] + END_TOKEN) + Unsplit(rest)
          == t.literals[0] + START_TOKEN + t.exprs[0] + END_TOKEN + Unsplit(rest);
    }
  }

  method Render(t: Template, eval: Evaluator) returns (r: Result<string, RenderError>)
    requires |t.literals| == |t.exprs| + 1
    ensures r == Rendered(t, eval)
  {
    var b := "";
    var i := 0;
    assert From(t, 0) == t;
    assert Rendered(t, eval).Ok? ==> b + Rendered(t, eval).value == Rendered(t, eval).value;
    while i < |t.exprs|
      invariant 0 <= i <= |t.exprs|
      invariant Rendered(t, eval) == Prepended(b, Rendered(From(t, i), eval))
    {
      RenderedFrom(t, i, b, eval);
      b := b + t.literals[i];
      var out := eval(t.exprs[i]);
      if out.Err? {
        return Err(out.error);
      }
      b := b + out.value;
      i := i + 1;
    }
    b := b + t.literals[|t.literals| - 1];
    r := Ok(b);
  }

  function From(t: Template, i: nat): (r: Template)
    requires |t.literals| == |t.exprs| + 1 && i <= |t.exprs|
    ensures |r.literals| == |r.exprs| + 1
  {
    Template(t.literals[i..], t.exprs[i..])
  }

  lemma RenderedFrom(t: Template, i: nat, b: string, eval: Evaluator)
    requires |t.literals| == |t.exprs| + 1 && i < |t.exprs|
    ensures Prepended(b, Rendered(From(t, i), eval))
            == match eval(t.exprs[i])
               case Err(error) => Err(error)
               case Ok(v) => Prepended(b + t.literals[i] + v, Rendered(From(t, i + 1), eval))
  {
    var rest := From(t, i);
    assert rest.literals[1..] == t.literals[i + 1..] && rest.exprs[1..] == t.exprs[i + 1..];
    var next := Rendered(From(t, i + 1), eval);
    if eval(t.exprs[i]).Ok? && next.Ok? {
      var v := eval(t.exprs[i]).value;
      assert b + (t.literals[i] + v + next.value) == (b + t.literals[i] + v) + next.value;
    }
  }
}
