// Building elements with pointers to the open ones: operator/builtin/parser/xml/xml.go and
// operator/builtin/parser/xml/element.go.
module XmlParser {
  import opened Wrappers
  import opened XmlTrees

  class Element {
    const tag: string
    const attributes: map<string, string>
    var content: string
    var children: seq<Element>
    var parent: Element?

    /** `newElement` */
    constructor (name: string, attrs: map<string, string>)
      ensures tag == name && attributes == attrs && content == "" && children == [] && parent == null
    {
      tag, attributes, content, children, parent := name, attrs, "", [], null;
    }
  }

  /** An element that is closed, with what is in it. */
  datatype Node = Node(elem: Element, content: string, kids: seq<Node>)

  function ElemsOf(nodes: seq<Node>): seq<Element> {
    seq(|nodes|, i requires 0 <= i < |nodes| => nodes[i].elem)
  }

  ghost function Within(nodes: seq<Node>): set<Element> {
    if nodes == [] then {} else {nodes[0].elem} + Within(nodes[0].kids) + Within(nodes[1..])
  }

  /** The objects hold what the nodes say. */
  ghost predicate Laid(nodes: seq<Node>)
    reads Within(nodes)
  {
    nodes != [] ==>
      && nodes[0].elem.content == nodes[0].content && nodes[0].elem.children == ElemsOf(nodes[0].kids)
      && Laid(nodes[0].kids) && Laid(nodes[1..])
  }

  function Erase(nodes: seq<Node>): seq<Xml> {
    if nodes == [] then []
    else [Xml(nodes[0].elem.tag, nodes[0].content, nodes[0].elem.attributes, Erase(nodes[0].kids))] + Erase(nodes[1..])
  }

  /** The open elements, innermost first, and what is done beside and in them. */
  datatype Place =
    | Outside(done: seq<Node>)
    | In(up: Place, elem: Element, content: string, done: seq<Node>)

  function Current(z: Place): Element? {
    if z.Outside? then null else z.elem
  }

  ghost function Open(z: Place): set<Element> {
    if z.Outside? then {} else {z.elem} + Open(z.up)
  }

  ghost function All(z: Place): set<Element> {
    Within(z.done) + if z.Outside? then {} else {z.elem} + All(z.up)
  }

  /** The objects hold what the place says; `last` is what has been added to the innermost
      open element, or to the list of root elements, but is not done. */
  ghost predicate Holds(z: Place, roots: seq<Element>, last: seq<Element>)
    reads All(z)
  {
    && Laid(z.done)
    && (z.Outside? ==> roots == ElemsOf(z.done) + last)
    && (z.In? ==> z.elem.children == ElemsOf(z.done) + last && z.elem.content == z.content
                  && z.elem.parent == Current(z.up) && Holds(z.up, roots, [z.elem]))
  }

  /** An open element occurs nowhere else. */
  ghost predicate Apart(z: Place) {
    z.In? ==>
      && z.elem !in All(z.up) && z.elem !in Within(z.done)
      && Within(z.done) !! Open(z.up) && Apart(z.up)
  }

  function ErasePlace(z: Place): Zipper {
    if z.Outside? then Top(Erase(z.done))
    else Inside(ErasePlace(z.up), z.elem.tag, z.content, z.elem.attributes, Erase(z.done))
  }

  // ------------------------------------------------------------------ steps

  lemma {:induction false} WithinAppend(a: seq<Node>, b: seq<Node>)
    ensures Within(a + b) == Within(a) + Within(b)
  {
    if a == [] {
      assert a + b == b;
    } else {
      assert (a + b)[0] == a[0] && (a + b)[1..] == a[1..] + b;
      WithinAppend(a[1..], b);
    }
  }

  lemma {:induction false} EraseAppend(a: seq<Node>, b: seq<Node>)
    ensures Erase(a + b) == Erase(a) + Erase(b)
  {
    if a == [] {
      assert a + b == b;
    } else {
      assert (a + b)[0] == a[0] && (a + b)[1..] == a[1..] + b;
      EraseAppend(a[1..], b);
    }
  }

  lemma {:induction false} LaidAppend(a: seq<Node>, b: seq<Node>)
    requires Laid(a) && Laid(b)
    ensures Laid(a + b)
  {
    if a == [] {
      assert a + b == b;
    } else {
      assert (a + b)[0] == a[0] && (a + b)[1..] == a[1..] + b;
      LaidAppend(a[1..], b);
    }
  }

  /** The innermost open element closed. */
  function ClosedPlace(z: Place): Place
    requires z.In?
  {
    z.up.(done := z.up.done + [Node(z.elem, z.content, z.done)])
  }

  lemma OneNode(n: Node)
    ensures Within([n]) == {n.elem} + Within(n.kids) && ElemsOf([n]) == [n.elem]
    ensures Erase([n]) == [Xml(n.elem.tag, n.content, n.elem.attributes, Erase(n.kids))]
  {
    assert Within([n][1..]) == {} && Erase([n][1..]) == [];
  }

  lemma CloseKeeps(z: Place, roots: seq<Element>)
    requires z.In? && Apart(z) && Holds(z, roots, [])
    ensures Apart(ClosedPlace(z)) && Holds(ClosedPlace(z), roots, []) && All(ClosedPlace(z)) == All(z)
    ensures Current(ClosedPlace(z)) == Current(z.up)
    ensures ErasePlace(ClosedPlace(z)) == Step(ErasePlace(z), End)
  {
    var n := Node(z.elem, z.content, z.done);
    OneNode(n);
    WithinAppend(z.up.done, [n]);
    EraseAppend(z.up.done, [n]);
    assert ElemsOf(z.up.done + [n]) == ElemsOf(z.up.done) + ElemsOf([n]);
    assert Laid([n][1..]);
    LaidAppend(z.up.done, [n]);
    assert ElemsOf(z.done) + [] == ElemsOf(z.done);
    assert forall s: seq<Element> :: s + [] == s;
    OpenIsWithin(z.up);
  }

  lemma {:induction false} OpenIsWithin(z: Place)
    ensures Open(z) <= All(z)
  {
    if z.In? {
      OpenIsWithin(z.up);
    }
  }

  // ------------------------------------------------------------------- loop

  /** A start element: a new element under the current one, or a new root. */
  method OpenElement(name: string, attrs: seq<(string, string)>, current: Element?, elements: seq<Element>,
                     ghost z: Place)
    returns (child: Element, roots: seq<Element>)
    requires Apart(z) && Holds(z, elements, []) && current == Current(z)
    modifies current
    ensures fresh(child) && child.tag == name && child.attributes == AttributeMap(attrs)
    ensures Apart(In(z, child, "", [])) && Holds(In(z, child, "", []), roots, [])
  {
    hide Open, Apart;
    assert allocated(All(z));
    var attributes := GetAttributes(attrs);
    child := new Element(name, attributes);
    child.parent := current;
    roots := AddChild(child, current, elements, z);
    NewIsApart(z, child);
  }

  method AddChild(child: Element, current: Element?, elements: seq<Element>, ghost z: Place)
      returns (roots: seq<Element>)
    requires Apart(z) && Holds(z, elements, []) && current == Current(z) && child !in All(z)
    modifies current
    ensures Holds(z, roots, [child])
  {
    hide Open, Apart;
    NotItself(z);
    roots := elements;
    if current != null {
      current.children := current.children + [child];
      assert Holds(z.up, roots, [z.elem]);
    } else {
      roots := elements + [child];
    }
    assert Laid(z.done);
  }

  lemma NotItself(z: Place)
    requires Apart(z)
    ensures z.In? ==> z.elem !in All(z.up) && z.elem !in Within(z.done)
  {}

  lemma NewIsApart(z: Place, child: Element)
    requires Apart(z) && child !in All(z)
    ensures Apart(In(z, child, "", []))
  {}

  /** Character data: the content of the current element, if there is one. */
  method SetContent(data: string, current: Element?, elements: seq<Element>, ghost z: Place) returns (ghost z': Place)
    requires Apart(z) && Holds(z, elements, []) && current == Current(z)
    modifies current
    ensures Apart(z') && Holds(z', elements, []) && current == Current(z') && All(z') == All(z)
    ensures ErasePlace(z') == Step(ErasePlace(z), CharData(data))
    ensures z.In? ==> z'.In? && z'.up == z.up
  {
    z' := z;
    if current != null {
      current.content := Trim(data);
      z' := z.(content := Trim(data));
      assert Laid(z.done) && Holds(z.up, elements, [z.elem]);
    }
  }

  method GetAttributes(attrs: seq<(string, string)>) returns (attributes: map<string, string>)
    ensures attributes == AttributeMap(attrs)
  {
    attributes := map[];
    for i := 0 to |attrs|
      invariant attributes == AttributeMap(attrs[..i])
    {
      assert attrs[..i + 1][..i] == attrs[..i];
      attributes := attributes[attrs[i].0 := attrs[i].1];
    }
    assert attrs[..|attrs|] == attrs;
  }

  /** The loop over the tokens. `parent` is always the parent of `current`. */
  method Build(tokens: seq<Token>) returns (elements: seq<Element>, current: Element?, parent: Element?, ghost z: Place)
    ensures Holds(z, elements, []) && Apart(z) && fresh(All(z))
    ensures current == Current(z) && parent == (if current == null then null else current.parent)
    ensures ErasePlace(z) == Run(Top([]), tokens)
  {
    hide Apart;
    elements, current, parent, z := [], null, null, Outside([]);
    NothingOpen();
    assert tokens[0..] == tokens;
    for i := 0 to |tokens|
      invariant Holds(z, elements, []) && Apart(z) && fresh(All(z))
      invariant current == Current(z) && parent == if current == null then null else current.parent
      invariant Run(Top([]), tokens) == Run(ErasePlace(z), tokens[i..])
    {
      assert tokens[i..][0] == tokens[i] && tokens[i..][1..] == tokens[i + 1..];
      match tokens[i]
      case Start(name, attrs) =>
        parent := current;
        current, elements := OpenElement(name, attrs, current, elements, z);
        z := In(z, current, "", []);
      case End =>
        if z.In? {
          CloseKeeps(z, elements);
          z := ClosedPlace(z);
        }
        current := parent;
        if parent != null {
          parent := parent.parent;
        }
      case CharData(data) =>
        z := SetContent(data, current, elements, z);
      case Comment =>
    }
  }

  lemma NothingOpen()
    ensures Apart(Outside([])) && Holds(Outside([]), [], [])
  {}

  // ---------------------------------------------------------------- results

  /** The keys "tag", "content", "attributes" and "children". */
  datatype Key = Tag | Content | Attributes | Children

  datatype Value = Str(text: string) | Pairs(attributes: map<string, string>) | Maps(maps: seq<map<Key, Value>>)

  type Dict = map<Key, Value>

  /** An element as a map: content, attributes and children only if there are any. */
  function Assembled(tag: string, content: string, attributes: map<string, string>, children: seq<Dict>): (m: Dict)
    ensures Tag in m && m[Tag] == Str(tag)
    ensures Content in m <==> content != ""
    ensures Content in m ==> m[Content] == Str(content)
    ensures Attributes in m <==> |attributes| > 0
    ensures Attributes in m ==> m[Attributes] == Pairs(attributes)
    ensures Children in m <==> |children| > 0
    ensures Children in m ==> m[Children] == Maps(children)
  {
    var m := map[Tag := Str(tag)];
    var m := if content != "" then m[Content := Str(content)] else m;
    var m := if |attributes| > 0 then m[Attributes := Pairs(attributes)] else m;
    if |children| > 0 then m[Children := Maps(children)] else m
  }

  function ToMap(x: Xml): Dict
    decreases x
  {
    Assembled(x.tag, x.content, x.attributes, ToMaps(x.children))
  }

  function ToMaps(xs: seq<Xml>): (r: seq<Dict>)
    ensures |r| == |xs|
    ensures forall i :: 0 <= i < |xs| ==> r[i] == ToMap(xs[i])
    decreases xs
  {
    if xs == [] then [] else [ToMap(xs[0])] + ToMaps(xs[1..])
  }

  /** The map tells all there is to know of the element. */
  lemma {:induction false} ToMapIsInjective(x: Xml, y: Xml)
    requires ToMap(x) == ToMap(y)
    ensures x == y
    decreases x
  {
    hide ToMaps, Assembled;
    assert x.attributes == y.attributes;
    if x.children != [] {
      assert ToMaps(x.children) == ToMaps(y.children);
      forall i | 0 <= i < |x.children| ensures x.children[i] == y.children[i] {
        assert ToMaps(x.children)[i] == ToMaps(y.children)[i];
        ToMapIsInjective(x.children[i], y.children[i]);
      }
    }
  }

  lemma {:induction false} NodeAt(nodes: seq<Node>, i: nat)
    requires i < |nodes| && Laid(nodes)
    ensures |Erase(nodes)| == |nodes|
    ensures var n := nodes[i];
            && n.elem.content == n.content && n.elem.children == ElemsOf(n.kids) && Laid(n.kids)
            && Erase(nodes)[i] == Xml(n.elem.tag, n.content, n.elem.attributes, Erase(n.kids))
    decreases |nodes|
  {
    if i > 0 {
      NodeAt(nodes[1..], i - 1);
    } else if |nodes| > 1 {
      NodeAt(nodes[1..], 0);
    }
  }

  /** `convertToMap` */
  method ConvertToMap(element: Element, ghost node: Node, ghost x: Xml) returns (results: Dict)
    requires element == node.elem && element.content == node.content
    requires element.children == ElemsOf(node.kids) && Laid(node.kids)
    requires x == Xml(element.tag, node.content, element.attributes, Erase(node.kids))
    ensures results == ToMap(x)
    decreases node
  {
    hide ToMaps;
    EraseLength(node.kids);
    results := map[Tag := Str(element.tag)];
    if element.content != "" {
      results := results[Content := Str(element.content)];
    }
    if |element.attributes| > 0 {
      results := results[Attributes := Pairs(element.attributes)];
    }
    if |element.children| > 0 {
      var children := ConvertToMaps(element.children, node.kids);
      results := results[Children := Maps(children)];
    }
  }

  lemma {:induction false} EraseLength(nodes: seq<Node>)
    ensures |Erase(nodes)| == |nodes|
  {
    if nodes != [] {
      EraseLength(nodes[1..]);
    }
  }

  /** `convertToMaps` */
  method ConvertToMaps(elements: seq<Element>, ghost nodes: seq<Node>) returns (results: seq<Dict>)
    requires elements == ElemsOf(nodes) && Laid(nodes)
    ensures results == ToMaps(Erase(nodes))
    decreases nodes
  {
    hide ToMap;
    EraseLength(nodes);
    results := [];
    for i := 0 to |elements|
      invariant |results| == i && Laid(nodes)
      invariant forall j :: 0 <= j < i ==> results[j] == ToMap(Erase(nodes)[j])
    {
      NodeAt(nodes, i);
      assert allocated(Within(nodes));
      var e := ConvertToMap(elements[i], nodes[i], Erase(nodes)[i]);
      results := results + [e];
    }
  }

  datatype Parsed = One(element: Dict) | Many(elements: seq<Dict>)
  datatype XmlError = NotXml | BadToken | NoElements

  /** The tokens the decoder yields, ended by the end of the text or by a failure. A decoder
      that does not fail yields a well-nested stream. */
  method Parse(tokens: seq<Token>, failed: bool) returns (r: Result<Parsed, XmlError>)
    requires !failed ==> Balanced(tokens, 0)
    ensures tokens == [] ==> r == Err(NotXml)
    ensures tokens != [] && failed ==> r == Err(BadToken)
    ensures tokens != [] && !failed ==>
              var forest := Elements(Descend(tokens).0);
              r == if forest == [] then Err(NoElements)
                   else if |forest| == 1 then Ok(One(ToMap(forest[0])))
                   else Ok(Many(ToMaps(forest)))
  {
    hide ToMap, Descend, Elements, Apart, Run;
    if tokens == [] {
      return Err(NotXml);
    }
    var elements, current, parent, z := Build(tokens);
    if failed {
      return Err(BadToken);
    }
    LoopIsRecursiveParsing(tokens);
    EraseLength(z.done);
    assert ElemsOf(z.done) + [] == ElemsOf(z.done);
    if |elements| == 0 {
      return Err(NoElements);
    } else if |elements| == 1 {
      NodeAt(z.done, 0);
      var one := ConvertToMap(elements[0], z.done[0], Erase(z.done)[0]);
      return Ok(One(one));
    } else {
      var maps := ConvertToMaps(elements, z.done);
      return Ok(Many(maps));
    }
  }
}
