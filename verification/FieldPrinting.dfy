// Fields from strings and back: `fieldFromString` in entry/field.go, `toJSONDot` and
// `fromJSONDot` in entry/record_field.go, and the printers of entry/label_field.go and
// entry/resource_field.go.
module FieldPrinting {
  import opened Wrappers
  import opened Sequences
  import opened FieldSyntax

  const LABELS := "$labels"
  const RESOURCE := "$resource"
  const RECORD := "$record"

  datatype Field = RecordField(keys: seq<string>) | LabelField(key: string) | ResourceField(key: string)

  /** `IndexPanic`: the program indexes an empty list of keys. */
  datatype FieldError = BadSplit(cause: SplitError) | LabelsNested | ResourceNested | IndexPanic

  /** The field that a list of keys names. */
  function FieldOf(split: seq<string>): Result<Field, FieldError> {
    if split == [] then Err(IndexPanic)
    else if split[0] == LABELS then
      if |split| != 2 then Err(LabelsNested) else Ok(LabelField(split[1]))
    else if split[0] == RESOURCE then
      if |split| != 2 then Err(ResourceNested) else Ok(ResourceField(split[1]))
    else if split[0] == RECORD || split[0] == "$" then Ok(RecordField(split[1..]))
    else Ok(RecordField(split))
  }

  function FieldFrom(s: string): Result<Field, FieldError> {
    match SplitOf(Scan(Begin, s))
    case Err(e) => Err(BadSplit(e))
    case Ok(split) => FieldOf(split)
  }

  method FieldFromString(s: string) returns (r: Result<Field, FieldError>)
    ensures r == FieldFrom(s)
  {
    var split := SplitField(s);
    match split
    case Err(e) => r := Err(BadSplit(e));
    case Ok(keys) => r := FieldOf(keys);
  }

  // --------------------------------------------------------------- printing

  predicate HasDot(key: string) {
    '.' in key
  }

  predicate AnyDot(keys: seq<string>) {
    exists i :: 0 <= i < |keys| && HasDot(keys[i])
  }

  function Bares(keys: seq<string>): seq<Segment> {
    seq(|keys|, i requires 0 <= i < |keys| => Bare(keys[i]))
  }

  function Quoteds(keys: seq<string>): seq<Segment> {
    seq(|keys|, i requires 0 <= i < |keys| => Quoted(keys[i], '\''))
  }

  function OneKey(prefix: string, key: string): seq<Segment> {
    [Bare(prefix), if HasDot(key) then Quoted(key, '\'') else Bare(key)]
  }

  /** The segments a field is printed as. */
  function Printed(f: Field): seq<Segment> {
    match f
    case RecordField(keys) => if keys == [] || AnyDot(keys) then [Bare(RECORD)] + Quoteds(keys) else Bares(keys)
    case LabelField(key) => OneKey(LABELS, key)
    case ResourceField(key) => OneKey(RESOURCE, key)
  }

  function Print(f: Field): string {
    Written(Printed(f))
  }

  /** `LabelField.String` and `ResourceField.String`. */
  function OneKeyString(prefix: string, key: string): (s: string)
    ensures s == Written(OneKey(prefix, key))
  {
    var segs := OneKey(prefix, key);
    OneTail(segs[1]);
    assert segs[1..] == [segs[1]];
    if HasDot(key) then prefix + "['" + key + "']" else prefix + "." + key
  }

  lemma OneTail(seg: Segment)
    ensures Tail([seg]) == if seg.Bare? then "." + seg.text else Bracketed(seg.quote, seg.text)
  {
    assert Tail([seg][1..]) == "";
  }

  lemma {:induction false} TailAppend(a: seq<Segment>, b: seq<Segment>)
    ensures Tail(a + b) == Tail(a) + Tail(b)
  {
    if a == [] {
      assert a + b == b;
    } else {
      assert (a + b)[0] == a[0] && (a + b)[1..] == a[1..] + b;
      TailAppend(a[1..], b);
      var head := if a[0].Bare? then "." + a[0].text else Bracketed(a[0].quote, a[0].text);
      Associative(head, Tail(a[1..]), Tail(b));
    }
  }

  /** `toJSONDot` */
  method ToJSONDot(keys: seq<string>) returns (b: string)
    ensures b == Print(RecordField(keys))
  {
    hide Tail;
    if keys == [] {
      assert Printed(RecordField(keys)) == [Bare(RECORD)];
      assert [Bare(RECORD)][1..] == [];
      TailNone();
      return RECORD;
    }
    var containsDots := false;
    for i := 0 to |keys|
      invariant containsDots <==> AnyDot(keys[..i])
    {
      assert keys[..i + 1] == keys[..i] + [keys[i]];
      AnyDotAppend(keys[..i], keys[i]);
      if HasDot(keys[i]) {
        containsDots := true;
      }
    }
    assert keys[..|keys|] == keys;
    if containsDots {
      b := PrintBracketed(keys);
    } else {
      b := PrintDotted(keys);
    }
  }

  method PrintBracketed(keys: seq<string>) returns (b: string)
    ensures b == Written([Bare(RECORD)] + Quoteds(keys))
  {
    hide Tail;
    b := RECORD;
    TailNone();
    assert Quoteds(keys[..0]) == [];
    assert RECORD + "" == RECORD;
    for i := 0 to |keys|
      invariant b == RECORD + Tail(Quoteds(keys[..i]))
    {
      BracketsAppend(keys, i);
      b := b + "['" + keys[i] + "']";
    }
    assert keys[..|keys|] == keys;
    assert ([Bare(RECORD)] + Quoteds(keys))[1..] == Quoteds(keys);
  }

  lemma BracketsAppend(keys: seq<string>, i: nat)
    requires i < |keys|
    ensures RECORD + Tail(Quoteds(keys[..i + 1])) == RECORD + Tail(Quoteds(keys[..i])) + "['" + keys[i] + "']"
  {
    hide Tail;
    var one := Quoted(keys[i], '\'');
    assert Quoteds(keys[..i + 1]) == Quoteds(keys[..i]) + [one];
    TailAppend(Quoteds(keys[..i]), [one]);
    OneTail(one);
    assert Bracketed('\'', keys[i]) == "['" + keys[i] + "']";
  }

  method PrintDotted(keys: seq<string>) returns (b: string)
    ensures b == Written(Bares(keys))
  {
    hide Tail;
    b := "";
    TailNone();
    assert Bares(keys[..0]) == [];
    for i := 0 to |keys|
      invariant b == Written(Bares(keys[..i]))
    {
      BaresAppend(keys, i);
      if i != 0 {
        b := b + ".";
      }
      b := b + keys[i];
    }
    assert keys[..|keys|] == keys;
  }

  lemma TailNone()
    ensures Tail([]) == ""
  {}

  lemma AnyDotAppend(keys: seq<string>, key: string)
    ensures AnyDot(keys + [key]) <==> AnyDot(keys) || HasDot(key)
  {
    var more := keys + [key];
    if AnyDot(keys) {
      var i :| 0 <= i < |keys| && HasDot(keys[i]);
      assert HasDot(more[i]);
    }
    if HasDot(key) {
      assert HasDot(more[|keys|]);
    }
  }

  lemma BaresAppend(keys: seq<string>, i: nat)
    requires i < |keys|
    ensures Written(Bares(keys[..i + 1])) == Written(Bares(keys[..i])) + (if i != 0 then "." else "") + keys[i]
  {
    var before, one := Bares(keys[..i]), [Bare(keys[i])];
    assert Bares(keys[..i + 1]) == before + one;
    OneTail(one[0]);
    if i == 0 {
      assert before + one == one && one[1..] == [];
    } else {
      assert (before + one)[1..] == before[1..] + one;
      TailAppend(before[1..], one);
    }
  }

  // ------------------------------------------------- texts determine segments

  function Total(texts: seq<string>): nat {
    if texts == [] then 0 else |texts[0]| + Total(texts[1..])
  }

  function CountQuoted(segs: seq<Segment>): (n: nat)
    ensures n <= |segs|
  {
    if segs == [] then 0 else (if segs[0].Quoted? then 1 else 0) + CountQuoted(segs[1..])
  }

  lemma TextsTail(segs: seq<Segment>)
    requires segs != []
    ensures Texts(segs)[1..] == Texts(segs[1..]) && Texts(segs)[0] == segs[0].text && |Texts(segs)| == |segs|
  {}

  lemma {:induction false} TailLength(segs: seq<Segment>)
    ensures |Tail(segs)| == Total(Texts(segs)) + |segs| + 3 * CountQuoted(segs)
  {
    if segs != [] {
      TailLength(segs[1..]);
      TextsTail(segs);
    }
  }

  /** How long segments are when written: by their number, kinds and texts. */
  lemma WrittenLength(segs: seq<Segment>)
    requires segs != []
    ensures |Written(segs)| == Total(Texts(segs)) + |segs| - (if segs[0].Bare? then 1 else 0) + 3 * CountQuoted(segs)
  {
    TailLength(segs);
    TailLength(segs[1..]);
    TextsTail(segs);
  }

  lemma {:induction false} SameTails(a: seq<Segment>, b: seq<Segment>)
    requires Tail(a) == Tail(b) && Texts(a) == Texts(b)
    ensures a == b
  {
    TailFirst(a);
    TailFirst(b);
    if a != [] {
      TextsTail(a);
      TextsTail(b);
      var x, y := Tail(a)[1..], Tail(b)[1..];
      if a[0].Quoted? {
        assert a[0].quote == x[0] == y[0] == b[0].quote;
        SameEnds([a[0].quote] + a[0].text + [a[0].quote, ']'], Tail(a[1..]), Tail(b[1..]));
      } else {
        SameEnds(a[0].text, Tail(a[1..]), Tail(b[1..]));
      }
      SameTails(a[1..], b[1..]);
      assert a == [a[0]] + a[1..] && b == [b[0]] + b[1..];
    }
  }

  lemma SameEnds(head: string, x: string, y: string)
    requires head + x == head + y
    ensures x == y
  {
    assert (head + x)[|head|..] == x && (head + y)[|head|..] == y;
  }

  /** Segments, well-formed or not, that are written alike and have the same texts are the
      same: brackets and dots cannot make up for one another. */
  lemma SameSegments(a: seq<Segment>, b: seq<Segment>)
    requires Written(a) == Written(b) && Texts(a) == Texts(b)
    ensures a == b
  {
    if a != [] {
      TextsTail(a);
      TextsTail(b);
      WrittenLength(a);
      WrittenLength(b);
      if a[0].Bare? && b[0].Bare? {
        SameEnds(a[0].text, Tail(a[1..]), Tail(b[1..]));
        SameTails(a[1..], b[1..]);
        assert a == [a[0]] + a[1..] && b == [b[0]] + b[1..];
      } else {
        SameTails(a, b);
      }
    }
  }

  /** A string is split into the texts of some segments that are written like it if and
      only if those are well-formed. */
  lemma SplitsInto(segs: seq<Segment>)
    ensures SplitOf(Scan(Begin, Written(segs))) == Ok(Texts(segs)) <==> WellFormed(segs)
  {
    hide Written, Texts, Scan;
    var s := Written(segs);
    SplitsIff(s, segs);
    match Scan(Begin, s)
    case Err(_) =>
    case Ok(found) =>
      SplitsIff(s, found);
      if Texts(found) == Texts(segs) {
        SameSegments(found, segs);
      }
  }

  // ------------------------------------------------------------- round trips

  ghost predicate Without(keys: seq<string>, c: char) {
    forall i :: 0 <= i < |keys| ==> c !in keys[i]
  }

  predicate IsPrefix(key: string) {
    key == LABELS || key == RESOURCE || key == RECORD || key == "$"
  }

  /** The fields that survive printing and parsing. */
  ghost predicate Survives(f: Field) {
    match f
    case RecordField(keys) =>
      if keys == [] then true
      else if AnyDot(keys) then Without(keys, '\'')
      else Without(keys, '[') && keys[0] != "" && !IsPrefix(keys[0])
    case LabelField(key) => if HasDot(key) then '\'' !in key else '[' !in key
    case ResourceField(key) => if HasDot(key) then '\'' !in key else '[' !in key
  }

  lemma CleanKey(key: string)
    requires !HasDot(key)
    ensures Clean(key) <==> '[' !in key
    ensures key != "" ==> (key[0] != '[' && Clean(key[1..]) <==> '[' !in key)
  {
    if key != "" {
      assert key == [key[0]] + key[1..];
    }
  }

  lemma BaresWell(keys: seq<string>)
    requires keys != [] && !AnyDot(keys)
    ensures WellFormed(Bares(keys)) <==> Without(keys, '[') && keys[0] != ""
  {
    forall i | 0 <= i < |keys|
      ensures Clean(keys[i]) <==> '[' !in keys[i]
    {
      CleanKey(keys[i]);
    }
    CleanKey(keys[0]);
    assert Bares(keys)[0] == Bare(keys[0]);
    if WellFormed(Bares(keys)) {
      forall i | 0 <= i < |keys| ensures '[' !in keys[i] {
        assert Bares(keys)[i] == Bare(keys[i]);
        if i > 0 {
          assert FollowsWell(Bares(keys)[i]);
        }
      }
    }
  }

  lemma PrefixIsClean(prefix: string)
    requires prefix in {LABELS, RESOURCE, RECORD}
    ensures StartsWell(Bare(prefix))
  {}

  lemma QuotedsWell(keys: seq<string>)
    ensures WellFormed([Bare(RECORD)] + Quoteds(keys)) <==> Without(keys, '\'')
  {
    var segs := [Bare(RECORD)] + Quoteds(keys);
    PrefixIsClean(RECORD);
    assert segs[0] == Bare(RECORD);
    forall i | 0 <= i < |keys| ensures FollowsWell(segs[i + 1]) <==> '\'' !in keys[i] {
      assert segs[i + 1] == Quoted(keys[i], '\'');
    }
    if WellFormed(segs) {
      forall i | 0 <= i < |keys| ensures '\'' !in keys[i] {
        assert FollowsWell(segs[i + 1]);
      }
    }
    if Without(keys, '\'') {
      forall i | 1 <= i < |segs| ensures FollowsWell(segs[i]) {
        assert FollowsWell(segs[(i - 1) + 1]) <==> '\'' !in keys[i - 1];
      }
    }
  }

  lemma OneKeyWell(prefix: string, key: string)
    requires prefix in {LABELS, RESOURCE}
    ensures WellFormed(OneKey(prefix, key)) <==> if HasDot(key) then '\'' !in key else '[' !in key
  {
    var segs := OneKey(prefix, key);
    PrefixIsClean(prefix);
    if !HasDot(key) {
      CleanKey(key);
    }
    assert WellFormed(segs) <==> FollowsWell(segs[1]);
  }

  /** The keys a record path can have come from. */
  lemma FieldOfRecord(split: seq<string>, keys: seq<string>)
    ensures FieldOf(split) == Ok(RecordField(keys))
            <==> || split == [RECORD] + keys || split == ["$"] + keys
                 || (split == keys && keys != [] && !IsPrefix(keys[0]))
  {
    if split != [] {
      assert split == [split[0]] + split[1..];
    }
    assert ([RECORD] + keys)[1..] == keys && (["$"] + keys)[1..] == keys;
  }

  lemma TextsOfPrinted(keys: seq<string>)
    ensures Texts(Bares(keys)) == keys && Texts([Bare(RECORD)] + Quoteds(keys)) == [RECORD] + keys
  {}

  lemma {:induction false} Counts(keys: seq<string>)
    ensures CountQuoted(Bares(keys)) == 0 && CountQuoted(Quoteds(keys)) == |keys|
  {
    if keys != [] {
      Counts(keys[1..]);
      assert Bares(keys)[1..] == Bares(keys[1..]) && Quoteds(keys)[1..] == Quoteds(keys[1..]);
    }
  }

  /** Dotted notation cannot be read as having one key more. */
  lemma NoExtraKey(segs: seq<Segment>, keys: seq<string>, prefix: string)
    requires keys != [] && Written(segs) == Written(Bares(keys))
    ensures Texts(segs) != [prefix] + keys
  {
    WrittenLength(Bares(keys));
    TextsOfPrinted(keys);
    Counts(keys);
    assert ([prefix] + keys)[1..] == keys;
    if segs != [] {
      WrittenLength(segs);
    }
  }

  /** Bracketed notation is too long to be read otherwise than with its prefix. */
  lemma NotWithoutPrefix(segs: seq<Segment>, keys: seq<string>)
    requires Written(segs) == Written([Bare(RECORD)] + Quoteds(keys))
    ensures Texts(segs) != keys && Texts(segs) != ["$"] + keys
  {
    var printed := [Bare(RECORD)] + Quoteds(keys);
    assert printed[0] == Bare(RECORD) && printed[1..] == Quoteds(keys);
    WrittenLength(printed);
    TextsOfPrinted(keys);
    Counts(keys);
    assert ([RECORD] + keys)[1..] == keys && (["$"] + keys)[1..] == keys;
    if segs != [] {
      WrittenLength(segs);
    }
  }

  /** Parsing what was printed gives the field back if and only if its keys allow it. */
  lemma PrintThenParse(f: Field)
    ensures FieldFrom(Print(f)) == Ok(f) <==> Survives(f)
  {
    hide Scan, Written, Texts;
    match f
    case RecordField(keys) => RecordRoundTrip(keys);
    case LabelField(key) =>
      SplitsInto(OneKey(LABELS, key));
      OneKeyWell(LABELS, key);
      OneKeyTexts(LABELS, key);
      OneKeyOnly(SplitOf(Scan(Begin, Print(f))), key);
    case ResourceField(key) =>
      SplitsInto(OneKey(RESOURCE, key));
      OneKeyWell(RESOURCE, key);
      OneKeyTexts(RESOURCE, key);
      OneKeyOnly(SplitOf(Scan(Begin, Print(f))), key);
  }

  lemma OneKeyTexts(prefix: string, key: string)
    ensures Texts(OneKey(prefix, key)) == [prefix, key]
  {}

  lemma OneKeyOnly(split: Result<seq<string>, SplitError>, key: string)
    ensures split.Ok? ==> (FieldOf(split.value) == Ok(LabelField(key)) <==> split.value == [LABELS, key])
    ensures split.Ok? ==> (FieldOf(split.value) == Ok(ResourceField(key)) <==> split.value == [RESOURCE, key])
  {}

  lemma RecordRoundTrip(keys: seq<string>)
    ensures FieldFrom(Print(RecordField(keys))) == Ok(RecordField(keys)) <==> Survives(RecordField(keys))
  {
    hide Scan, Written, Texts, FieldOf, WellFormed;
    var printed := Printed(RecordField(keys));
    var s := Written(printed);
    SplitsInto(printed);
    TextsOfPrinted(keys);
    FieldOfRecord(Texts(printed), keys);
    if keys == [] || AnyDot(keys) {
      QuotedsWell(keys);
    } else {
      BaresWell(keys);
    }
    match Scan(Begin, s)
    case Err(_) =>
    case Ok(segs) =>
      SplitsIff(s, segs);
      FieldOfRecord(Texts(segs), keys);
      if keys == [] || AnyDot(keys) {
        NotWithoutPrefix(segs, keys);
      } else {
        NoExtraKey(segs, keys, RECORD);
        NoExtraKey(segs, keys, "$");
      }
  }

  // -------------------------------------------------------- splitting at dots

  /** `strings.Split(s, ".")` */
  function DotSplit(s: string): (keys: seq<string>)
    ensures keys != []
  {
    if s == "" then [""]
    else
      var rest := DotSplit(s[1..]);
      if s[0] == '.' then [""] + rest else [[s[0]] + rest[0]] + rest[1..]
  }

  lemma WrittenBares(key: string, keys: seq<string>)
    ensures Written(Bares([key] + keys)) == if keys == [] then key else key + "." + Written(Bares(keys))
  {
    var segs := Bares([key] + keys);
    assert segs[1..] == Bares(keys);
    if keys == [] {
      TailNone();
    } else {
      var rest := Bares(keys);
      assert Tail(rest) == "." + rest[0].text + Tail(rest[1..]);
      Associative(".", rest[0].text, Tail(rest[1..]));
      Associative(key, ".", Written(rest));
    }
  }

  /** Joined with dots, the parts are the string. */
  lemma {:induction false} JoinSplit(s: string)
    ensures Written(Bares(DotSplit(s))) == s
  {
    hide Written, Bares;
    if s == "" {
      WrittenBares("", []);
      assert [""] + [] == [""];
    } else {
      var c, rest := s[0], DotSplit(s[1..]);
      JoinSplit(s[1..]);
      assert s == [c] + s[1..];
      if c == '.' {
        WrittenBares("", rest);
        assert "" + "." + s[1..] == "." + s[1..];
      } else {
        var key, keys := rest[0], rest[1..];
        assert rest == [key] + keys;
        WrittenBares(key, keys);
        WrittenBares([c] + key, keys);
        assert ([c] + key) + "." + Written(Bares(keys)) == [c] + (key + "." + Written(Bares(keys)));
      }
    }
  }

  /** The parts hold no dot, and a left bracket only if the string does. */
  lemma {:induction false} SplitParts(s: string)
    ensures !AnyDot(DotSplit(s))
    ensures Without(DotSplit(s), '[') <==> '[' !in s
    ensures DotSplit(s)[0] != "" <==> s != "" && s[0] != '.'
  {
    hide AnyDot, Without;
    if s == "" {
      NoKeys();
      AnyDotTail("", []);
      WithoutTail("", [], '[');
      assert [""] + [] == [""];
    } else {
      var rest := DotSplit(s[1..]);
      SplitParts(s[1..]);
      assert s == [s[0]] + s[1..];
      if s[0] == '.' {
        AnyDotTail("", rest);
        WithoutTail("", rest, '[');
      } else {
        assert rest == [rest[0]] + rest[1..];
        AnyDotTail(rest[0], rest[1..]);
        AnyDotTail([s[0]] + rest[0], rest[1..]);
        WithoutTail(rest[0], rest[1..], '[');
        WithoutTail([s[0]] + rest[0], rest[1..], '[');
      }
    }
  }

  lemma NoKeys()
    ensures !AnyDot([]) && Without([], '[')
  {}

  lemma AnyDotTail(key: string, keys: seq<string>)
    ensures AnyDot([key] + keys) <==> HasDot(key) || AnyDot(keys)
  {
    var more := [key] + keys;
    assert forall i :: 0 <= i < |keys| ==> more[i + 1] == keys[i];
    if HasDot(key) {
      assert HasDot(more[0]);
    }
    if AnyDot(keys) {
      var i :| 0 <= i < |keys| && HasDot(keys[i]);
      assert HasDot(more[i + 1]);
    }
    if AnyDot(more) && !HasDot(key) {
      var i :| 0 <= i < |more| && HasDot(more[i]);
      assert HasDot(keys[i - 1]);
    }
  }

  lemma WithoutTail(key: string, keys: seq<string>, c: char)
    ensures Without([key] + keys, c) <==> c !in key && Without(keys, c)
  {
    var more := [key] + keys;
    assert more[0] == key && forall i :: 0 <= i < |keys| ==> more[i + 1] == keys[i];
    if c !in key && Without(keys, c) {
      forall i | 0 <= i < |more| ensures c !in more[i] {
        assert i > 0 ==> more[i] == keys[i - 1];
      }
    }
    if Without(more, c) {
      forall i | 0 <= i < |keys| ensures c !in keys[i] {
        assert c !in more[i + 1];
      }
    }
  }

  /** The scanner splits a string at every dot if and only if it has no left bracket, is not
      empty and does not begin with a dot. */
  lemma SplitAtDotsIff(s: string)
    ensures SplitOf(Scan(Begin, s)) == Ok(DotSplit(s)) <==> '[' !in s && s != "" && s[0] != '.'
  {
    hide Scan, Written, Texts, WellFormed;
    JoinSplit(s);
    SplitParts(s);
    BaresWell(DotSplit(s));
    TextsOfPrinted(DotSplit(s));
    SplitsInto(Bares(DotSplit(s)));
  }

  /** What every string means: the field that its segments name, an error of its own kind for
      labels and for resources that do not have exactly one key, and a splitting error exactly
      for strings that are not written as well-formed segments. */
  lemma ParseOfWritten(segs: seq<Segment>)
    requires WellFormed(segs)
    ensures var texts := Texts(segs);
            FieldFrom(Written(segs))
            == if texts == [] then Err(IndexPanic)
               else if texts[0] == LABELS && |texts| != 2 then Err(LabelsNested)
               else if texts[0] == RESOURCE && |texts| != 2 then Err(ResourceNested)
               else if texts[0] == LABELS then Ok(LabelField(texts[1]))
               else if texts[0] == RESOURCE then Ok(ResourceField(texts[1]))
               else Ok(RecordField(if texts[0] in {RECORD, "$"} then texts[1..] else texts))
  {
    SplitsIff(Written(segs), segs);
  }

  lemma SplitErrorsIff(s: string)
    ensures (FieldFrom(s).Err? && FieldFrom(s).error.BadSplit?)
            <==> forall segs :: WellFormed(segs) ==> s != Written(segs)
  {
    match Scan(Begin, s)
    case Ok(segs) => SplitsIff(s, segs);
    case Err(_) =>
      forall segs | WellFormed(segs) ensures s != Written(segs) {
        SplitsIff(s, segs);
      }
  }

  /** An empty string makes the program index an empty list. */
  lemma EmptyStringPanics(s: string)
    ensures FieldFrom(s) == Err(IndexPanic) <==> s == ""
  {
    match Scan(Begin, s)
    case Err(_) =>
    case Ok(segs) =>
      SplitsIff(s, segs);
      if s != "" {
        assert segs != [];
      } else if segs != [] {
        TailFirst(segs);
      }
  }

  /** `fromJSONDot` */
  function FromJSONDot(s: string): seq<string> {
    var keys := DotSplit(s);
    if keys[0] == "$" || keys[0] == RECORD then keys[1..] else keys
  }

  lemma {:induction false} DotSplitKey(key: string, after: string)
    requires !HasDot(key)
    ensures DotSplit(key) == [key]
    ensures DotSplit(key + "." + after) == [key] + DotSplit(after)
  {
    var s := key + "." + after;
    if key == "" {
      assert s[0] == '.' && s[1..] == after;
    } else {
      assert s[0] == key[0] && s[1..] == key[1..] + "." + after;
      DotSplitKey(key[1..], after);
      assert key == [key[0]] + key[1..];
    }
  }

  lemma {:induction false} SplitJoin(keys: seq<string>)
    requires keys != [] && !AnyDot(keys)
    ensures DotSplit(Written(Bares(keys))) == keys
  {
    var key, rest := keys[0], keys[1..];
    assert keys == [key] + rest;
    WrittenBares(key, rest);
    AnyDotTail(key, rest);
    DotSplitKey(key, if rest == [] then "" else Written(Bares(rest)));
    if rest != [] {
      SplitJoin(rest);
    }
  }

  /** A record field's own decoder inverts its encoder exactly for the root, and for paths
      without dots in their keys that do not start with a key that stands for the root. */
  lemma JSONDotRoundTrip(keys: seq<string>)
    ensures FromJSONDot(Print(RecordField(keys))) == keys
            <==> keys == [] || (!AnyDot(keys) && keys[0] != "$" && keys[0] != RECORD)
  {
    if keys == [] {
      assert Printed(RecordField(keys)) == Bares([RECORD] + []);
      WrittenBares(RECORD, []);
      DotSplitKey(RECORD, "");
    } else if AnyDot(keys) {
      var s := Print(RecordField(keys));
      SplitParts(s);
      var all := DotSplit(s);
      assert all == [all[0]] + all[1..];
      AnyDotTail(all[0], all[1..]);
    } else {
      SplitJoin(keys);
    }
  }
}
