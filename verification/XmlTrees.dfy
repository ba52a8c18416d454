// What a stream of XML tokens means: trees, and how they are written as tokens.
module XmlTrees {
  import opened Sequences

  datatype Token =
    | Start(name: string, attrs: seq<(string, string)>)
    | End
    | CharData(data: string)
    | Comment

  datatype Xml = Xml(tag: string, content: string, attributes: map<string, string>, children: seq<Xml>)

  /** Well-nested contents: text, comments and elements in order. */
  datatype Items =
    | Nil
    | Text(data: string, rest: Items)
    | Remark(rest: Items)
    | Elem(name: string, attrs: seq<(string, string)>, inside: Items, rest: Items)

  function Tokens(items: Items): seq<Token> {
    match items
    case Nil => []
    case Text(data, rest) => [CharData(data)] + Tokens(rest)
    case Remark(rest) => [Comment] + Tokens(rest)
    case Elem(name, attrs, inside, rest) => [Start(name, attrs)] + Tokens(inside) + [End] + Tokens(rest)
  }

  // ------------------------------------------------------------ text, attributes

  /** Unicode's white space. */
  predicate IsSpace(c: char) {
    || '\t' <= c <= '\r' || c == ' ' || c == '\U{0085}' || c == '\U{00A0}' || c == '\U{1680}'
    || '\U{2000}' <= c <= '\U{200A}' || c == '\U{2028}' || c == '\U{2029}' || c == '\U{202F}'
    || c == '\U{205F}' || c == '\U{3000}'
  }

  /** How many characters in front are white space. */
  function Leading(s: string): (n: nat)
    ensures n <= |s| && (forall k :: 0 <= k < n ==> IsSpace(s[k])) && (n < |s| ==> !IsSpace(s[n]))
  {
    if s == "" || !IsSpace(s[0]) then 0 else 1 + Leading(s[1..])
  }

  /** Where the white space at the end begins. */
  function Trailing(s: string): (n: nat)
    ensures n <= |s| && (forall k :: n <= k < |s| ==> IsSpace(s[k])) && (n > 0 ==> !IsSpace(s[n - 1]))
  {
    if s == "" || !IsSpace(s[|s| - 1]) then |s| else Trailing(s[..|s| - 1])
  }

  /** `bytes.TrimSpace` */
  function Trim(s: string): (r: string)
    ensures r != "" ==> !IsSpace(r[0]) && !IsSpace(r[|r| - 1])
  {
    var i, j := Leading(s), Trailing(s);
    if i < j then s[i..j] else ""
  }

  ghost predicate Blank(s: string) {
    forall k :: 0 <= k < |s| ==> IsSpace(s[k])
  }

  /** Trimming takes away white space only. */
  lemma TrimIsTheCore(s: string) returns (before: string, after: string)
    ensures s == before + Trim(s) + after && Blank(before) && Blank(after)
  {
    hide IsSpace, Leading, Trailing;
    var i, j := Leading(s), Trailing(s);
    if i < j {
      before, after := s[..i], s[j..];
    } else {
      before, after := s, "";
    }
  }

  /** The attributes as a map. */
  function AttributeMap(attrs: seq<(string, string)>): map<string, string> {
    if attrs == [] then map[]
    else
      var n := |attrs| - 1;
      AttributeMap(attrs[..n])[attrs[n].0 := attrs[n].1]
  }

  /** Of attributes of one name the last one stands. */
  lemma {:induction false} LastAttributeStands(attrs: seq<(string, string)>, i: nat)
    requires i < |attrs| && forall j :: i < j < |attrs| ==> attrs[j].0 != attrs[i].0
    ensures attrs[i].0 in AttributeMap(attrs) && AttributeMap(attrs)[attrs[i].0] == attrs[i].1
  {
    var n := |attrs| - 1;
    if i < n {
      assert forall j :: i < j < n ==> attrs[..n][j] == attrs[j];
      LastAttributeStands(attrs[..n], i);
    }
  }

  /** There is nothing else in the map. */
  lemma {:induction false} OnlyAttributes(attrs: seq<(string, string)>, name: string)
    requires name in AttributeMap(attrs)
    ensures exists i :: 0 <= i < |attrs| && attrs[i] == (name, AttributeMap(attrs)[name])
  {
    var n := |attrs| - 1;
    if name == attrs[n].0 {
      assert attrs[n] == (name, AttributeMap(attrs)[name]);
    } else {
      OnlyAttributes(attrs[..n], name);
      var i :| 0 <= i < n && attrs[..n][i] == (name, AttributeMap(attrs[..n])[name]);
      assert attrs[i] == attrs[..n][i];
    }
  }

  // ----------------------------------------------------------- recursive parsing

  /** The content of an element: its last direct text, trimmed; what it was if there is none. */
  function Content(items: Items, was: string): string {
    match items
    case Nil => was
    case Text(data, rest) => Content(rest, Trim(data))
    case Remark(rest) => Content(rest, was)
    case Elem(_, _, _, rest) => Content(rest, was)
  }

  /** The direct texts among some items. */
  function DirectTexts(items: Items): seq<string> {
    match items
    case Nil => []
    case Text(data, rest) => [data] + DirectTexts(rest)
    case Remark(rest) => DirectTexts(rest)
    case Elem(_, _, _, rest) => DirectTexts(rest)
  }

  /** The content is the last of them, trimmed. */
  lemma {:induction false} ContentIsLastText(items: Items, was: string)
    ensures var texts := DirectTexts(items);
            Content(items, was) == if texts == [] then was else Trim(texts[|texts| - 1])
  {
    match items
    case Nil =>
    case Text(data, rest) => ContentIsLastText(rest, Trim(data));
    case Remark(rest) => ContentIsLastText(rest, was);
    case Elem(_, _, _, rest) => ContentIsLastText(rest, was);
  }

  /** The elements among some items. */
  function Elements(items: Items): seq<Xml> {
    match items
    case Nil => []
    case Text(_, rest) => Elements(rest)
    case Remark(rest) => Elements(rest)
    case Elem(name, attrs, inside, rest) =>
      [Xml(name, Content(inside, ""), AttributeMap(attrs), Elements(inside))] + Elements(rest)
  }

  /** Items after items. */
  function Followed(a: Items, b: Items): Items {
    match a
    case Nil => b
    case Text(data, rest) => Text(data, Followed(rest, b))
    case Remark(rest) => Remark(Followed(rest, b))
    case Elem(name, attrs, inside, rest) => Elem(name, attrs, inside, Followed(rest, b))
  }

  /** Elements are in document order. */
  lemma {:induction false} DocumentOrder(a: Items, b: Items)
    ensures Tokens(Followed(a, b)) == Tokens(a) + Tokens(b)
    ensures Elements(Followed(a, b)) == Elements(a) + Elements(b)
  {
    match a
    case Nil =>
      assert [] + Tokens(b) == Tokens(b) && [] + Elements(b) == Elements(b);
    case Text(data, rest) =>
      DocumentOrder(rest, b);
      Associative([CharData(data)], Tokens(rest), Tokens(b));
    case Remark(rest) =>
      DocumentOrder(rest, b);
      Associative([Comment], Tokens(rest), Tokens(b));
    case Elem(name, attrs, inside, rest) =>
      DocumentOrder(rest, b);
      Associative([Start(name, attrs)] + Tokens(inside) + [End], Tokens(rest), Tokens(b));
      Associative([Elements(a)[0]], Elements(rest), Elements(b));
  }

  /** How much deeper a stream leads; none if it closes more than it opens. */
  predicate Balanced(tokens: seq<Token>, depth: nat) {
    if tokens == [] then depth == 0
    else
      match tokens[0]
      case Start(_, _) => Balanced(tokens[1..], depth + 1)
      case End => depth > 0 && Balanced(tokens[1..], depth - 1)
      case _ => Balanced(tokens[1..], depth)
  }

  /** Recursive descent: the items up to the end of the enclosing element, and what is left. */
  function Descend(tokens: seq<Token>): (r: (Items, seq<Token>))
    ensures |r.1| <= |tokens|
    ensures r.1 == [] || r.1[0] == End
    decreases |tokens|
  {
    if tokens == [] || tokens[0] == End then (Nil, tokens)
    else
      match tokens[0]
      case CharData(data) => var (rest, left) := Descend(tokens[1..]); (Text(data, rest), left)
      case Comment => var (rest, left) := Descend(tokens[1..]); (Remark(rest), left)
      case Start(name, attrs) =>
        var (inside, close) := Descend(tokens[1..]);
        if close == [] then (Nil, [])
        else var (rest, left) := Descend(close[1..]); (Elem(name, attrs, inside, rest), left)
  }

  lemma {:induction false} DescendBalanced(tokens: seq<Token>, depth: nat)
    requires Balanced(tokens, depth)
    ensures var (items, left) := Descend(tokens);
            && tokens == Tokens(items) + left
            && (if depth == 0 then left == [] else left != [] && Balanced(left[1..], depth - 1))
    decreases |tokens|
  {
    if tokens != [] && tokens[0] != End {
      var head, more := tokens[0], tokens[1..];
      assert tokens == [head] + more;
      DescendBalanced(more, if head.Start? then depth + 1 else depth);
      var (first, close) := Descend(more);
      Associative([head], Tokens(first), close);
      if head.Start? {
        DescendBalanced(close[1..], depth);
        var (rest, left) := Descend(close[1..]);
        assert close == [End] + close[1..];
        var unclosed := [head] + Tokens(first);
        Associative([End], Tokens(rest), left);
        Associative(unclosed, [End] + Tokens(rest), left);
        Associative(unclosed, [End], Tokens(rest));
      }
    }
  }

  lemma {:induction false} TokensBalance(items: Items, more: seq<Token>, depth: nat)
    ensures Balanced(Tokens(items) + more, depth) <==> Balanced(more, depth)
  {
    var tokens := Tokens(items) + more;
    match items
    case Nil => assert tokens == more;
    case Text(_, rest) =>
      assert tokens[1..] == Tokens(rest) + more;
      TokensBalance(rest, more, depth);
    case Remark(rest) =>
      assert tokens[1..] == Tokens(rest) + more;
      TokensBalance(rest, more, depth);
    case Elem(_, _, inside, rest) =>
      var after := [End] + (Tokens(rest) + more);
      ElemTokens(items, more);
      TokensBalance(inside, after, depth + 1);
      TokensBalance(rest, more, depth);
  }

  /** The well-nested streams are exactly those of some items, and of no others. */
  lemma WellNestedIff(tokens: seq<Token>)
    ensures Balanced(tokens, 0) <==> tokens == Tokens(Descend(tokens).0)
    ensures forall items :: tokens == Tokens(items) ==> items == Descend(tokens).0
  {
    forall items | tokens == Tokens(items) ensures items == Descend(tokens).0 {
      assert Tokens(items) + [] == tokens;
      DescendTokens(items, []);
    }
    var items := Descend(tokens).0;
    if Balanced(tokens, 0) {
      DescendBalanced(tokens, 0);
    }
    if tokens == Tokens(items) {
      assert Tokens(items) + [] == tokens;
      TokensBalance(items, [], 0);
    }
  }

  /** The tokens of an element and what follows it. */
  lemma ElemTokens(items: Items, more: seq<Token>)
    requires items.Elem?
    ensures var tokens, after := Tokens(items) + more, [End] + (Tokens(items.rest) + more);
            && tokens != [] && tokens[0] == Start(items.name, items.attrs)
            && tokens[1..] == Tokens(items.inside) + after && after[1..] == Tokens(items.rest) + more
  {
    var head, inside, rest := Start(items.name, items.attrs), Tokens(items.inside), Tokens(items.rest);
    Associative([head] + inside + [End], rest, more);
    Associative([head] + inside, [End], rest + more);
    Associative([head], inside, [End] + (rest + more));
  }

  lemma {:induction false} DescendTokens(items: Items, more: seq<Token>)
    requires more == [] || more[0] == End
    ensures Descend(Tokens(items) + more) == (items, more)
  {
    var tokens := Tokens(items) + more;
    match items
    case Nil => assert tokens == more;
    case Text(_, rest) =>
      assert tokens[1..] == Tokens(rest) + more;
      DescendTokens(rest, more);
    case Remark(rest) =>
      assert tokens[1..] == Tokens(rest) + more;
      DescendTokens(rest, more);
    case Elem(_, _, inside, rest) =>
      ElemTokens(items, more);
      var after := [End] + (Tokens(rest) + more);
      DescendTokens(inside, after);
      DescendTokens(rest, more);
  }

  // ------------------------------------------------------------- the zipper

  /** The state of building: the elements that are done, and those that are open. */
  datatype Zipper =
    | Top(done: seq<Xml>)
    | Inside(up: Zipper, tag: string, content: string, attributes: map<string, string>, done: seq<Xml>)

  /** The element that is open innermost, closed. */
  function Closed(z: Zipper): Xml
    requires z.Inside?
  {
    Xml(z.tag, z.content, z.attributes, z.done)
  }

  function Step(z: Zipper, token: Token): Zipper {
    match token
    case Start(name, attrs) => Inside(z, name, "", AttributeMap(attrs), [])
    case End => if z.Top? then z else z.up.(done := z.up.done + [Closed(z)])
    case CharData(data) => if z.Top? then z else z.(content := Trim(data))
    case Comment => z
  }

  function Run(z: Zipper, tokens: seq<Token>): Zipper
    decreases |tokens|
  {
    if tokens == [] then z else Run(Step(z, tokens[0]), tokens[1..])
  }

  /** Where reading items leads. */
  function Absorb(z: Zipper, items: Items): Zipper {
    if z.Top? then Top(z.done + Elements(items))
    else z.(content := Content(items, z.content), done := z.done + Elements(items))
  }

  lemma AbsorbElem(z: Zipper, name: string, attrs: seq<(string, string)>, inside: Items, rest: Items)
    ensures Absorb(Step(Absorb(Step(z, Start(name, attrs)), inside), End), rest)
            == Absorb(z, Elem(name, attrs, inside, rest))
  {
    var x := Xml(name, Content(inside, ""), AttributeMap(attrs), Elements(inside));
    var unclosed := Absorb(Step(z, Start(name, attrs)), inside);
    assert [] + Elements(inside) == Elements(inside);
    assert Closed(unclosed) == x;
    assert (z.done + [x]) + Elements(rest) == z.done + ([x] + Elements(rest));
  }

  /** The loop reads items as recursive parsing does, wherever it is. */
  lemma {:induction false} RunTokens(z: Zipper, items: Items, more: seq<Token>)
    ensures Run(z, Tokens(items) + more) == Run(Absorb(z, items), more)
    decreases items
  {
    var tokens := Tokens(items) + more;
    match items
    case Nil =>
      assert tokens == more;
      assert z.done + [] == z.done;
    case Text(data, rest) =>
      assert tokens[0] == CharData(data) && tokens[1..] == Tokens(rest) + more;
      RunTokens(Step(z, CharData(data)), rest, more);
    case Remark(rest) =>
      assert tokens[0] == Comment && tokens[1..] == Tokens(rest) + more;
      RunTokens(z, rest, more);
    case Elem(name, attrs, inside, rest) =>
      var after := [End] + (Tokens(rest) + more);
      ElemTokens(items, more);
      var unclosed := Step(z, Start(name, attrs));
      RunTokens(unclosed, inside, after);
      RunTokens(Step(Absorb(unclosed, inside), End), rest, more);
      AbsorbElem(z, name, attrs, inside, rest);
  }

  /** On every well-nested stream the loop builds what recursive parsing builds, and no
      element is left open. */
  lemma LoopIsRecursiveParsing(tokens: seq<Token>)
    requires Balanced(tokens, 0)
    ensures Run(Top([]), tokens) == Top(Elements(Descend(tokens).0))
  {
    var items := Descend(tokens).0;
    WellNestedIff(tokens);
    assert Tokens(items) + [] == tokens;
    RunTokens(Top([]), items, []);
    assert [] + Elements(items) == Elements(items);
  }
}
