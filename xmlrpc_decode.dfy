/**
 * The XML-RPC response decoder: `parseVal` and `xmlParseResponse`
 * (main.js:112-163), over the element tree a `DOMParser` builds.
 * `ParseVal` is the specification; `DecodeValue` is the decoder as the
 * source writes it, with its loops over struct members and array items.
 */
module XmlRpcDecode {
  import opened Opt
  import opened Text
  import opened OrderedMap
  import opened Xml

  /** The JavaScript values the decoder produces. `JNumber(t)` stands for
      `Number(t)`, which is not evaluated; `JNaN` is what `parseInt` gives
      for text without digits. */
  datatype JsValue =
    | JNull
    | JBool(b: bool)
    | JInt(i: int)
    | JNaN
    | JNumber(text: string)
    | JStr(s: string)
    | JArr(items: seq<JsValue>)
    | JObj(entries: seq<Entry<JsValue>>)

  /** The element names read as scalars. */
  predicate IsScalarTag(name: string)
  {
    name in ["string", "i4", "int", "double", "boolean", "dateTime.iso8601"]
  }

  /** The branches of `parseVal`, by element name. */
  datatype Kind = ValueKind | ScalarKind | StructKind | ArrayKind | OtherKind

  function KindOf(name: string): Kind
  {
    if name == "value" then ValueKind
    else if IsScalarTag(name) then ScalarKind
    else if name == "struct" then StructKind
    else if name == "array" then ArrayKind
    else OtherKind
  }

  /** The value of a scalar element named `name` whose trimmed text is `s`. */
  function Scalar(name: string, s: string): JsValue
  {
    if name == "boolean" then JBool(s == "1")
    else if name == "int" || name == "i4" then
      match ParseInt(s)
      case None => JNaN
      case Some(i) => JInt(i)
    else if name == "double" then JNumber(s)
    else JStr(s)
  }

  /** The scalar branch is taken for exactly the six scalar names. */
  lemma KindOfScalar(name: string)
    ensures KindOf(name) == ScalarKind <==> IsScalarTag(name)
  {
  }

  /** `boolean` is true iff its text is `1`, `int` and `i4` are NaN iff
      `parseInt` finds no digits, `string` and `dateTime.iso8601` give their
      text. */
  lemma ScalarMeaning(name: string, s: string)
    ensures name == "boolean" ==> (Scalar(name, s) == JBool(true) <==> s == "1")
    ensures (name == "int" || name == "i4") ==> (Scalar(name, s).JNaN? <==> ParseInt(s).None?)
    ensures (name == "string" || name == "dateTime.iso8601") ==> Scalar(name, s) == JStr(s)
  {
  }

  // The element names, one at a time: each lemma evaluates `KindOf` (and
  // `Scalar`) on one name, so that a proof about a tree with that name
  // does not have to.

  lemma ValueName()
    ensures KindOf("value") == ValueKind
  {
  }

  lemma StringName(s: string)
    ensures KindOf("string") == ScalarKind && Scalar("string", s) == JStr(s)
  {
  }

  lemma DoubleName(s: string)
    ensures KindOf("double") == ScalarKind && Scalar("double", s) == JNumber(s)
  {
  }

  lemma BooleanName(s: string)
    ensures KindOf("boolean") == ScalarKind && Scalar("boolean", s) == JBool(s == "1")
  {
  }

  lemma IntName(s: string)
    ensures KindOf("int") == ScalarKind
    ensures Scalar("int", s) == if ParseInt(s).Some? then JInt(ParseInt(s).value) else JNaN
  {
  }

  lemma DateName(s: string)
    ensures KindOf("dateTime.iso8601") == ScalarKind && Scalar("dateTime.iso8601", s) == JStr(s)
  {
  }

  lemma StructName()
    ensures KindOf("struct") == StructKind
  {
  }

  lemma ArrayName()
    ensures KindOf("array") == ArrayKind
  {
  }

  lemma NilName()
    ensures KindOf("nil") == OtherKind
  {
  }

  /** The key of a struct member: the text of its first `name` descendant,
      or the empty string. */
  function MemberKey(m: Node): string
  {
    match FirstByTag(m, "name")
    case None => ""
    case Some(e) => TextContent(e)
  }

  /** `parseVal(node)` for a node that is present. */
  function ParseVal(n: Node): JsValue
    decreases Size(n), 2, 0
  {
    if n.Text? then JStr(n.data)
    else match KindOf(n.name)
      case ValueKind =>
        var ec := ElementChildren(n);
        if ec != [] then ParseVal(ec[0]) else JStr(TextContent(n))
      case ScalarKind => Scalar(n.name, Trim(TextContent(n)))
      case StructKind => JObj(StructEntries(n))
      case ArrayKind => JArr(ArrayItems(n))
      case OtherKind => JStr(TextContent(n))
  }

  /** The object a `struct` element decodes to: its `member` descendants,
      all of them, assigned in document order. */
  function StructEntries(n: Node): seq<Entry<JsValue>>
    decreases Size(n), 1, 0
  {
    MembersFold(n, ElementsByTag(n, "member"))
  }

  /** The array an `array` element decodes to: the `value` children of its
      first `data` descendant, or none without one. */
  function ArrayItems(n: Node): seq<JsValue>
    decreases Size(n), 1, 0
  {
    match FirstByTag(n, "data")
    case None => []
    case Some(d) => ItemsFold(d, ElementChildren(d))
  }

  /** The object built by assigning the members `ms` of struct `n` in turn. */
  function MembersFold(n: Node, ms: seq<Node>): seq<Entry<JsValue>>
    requires forall i :: 0 <= i < |ms| ==> Size(ms[i]) < Size(n)
    decreases Size(n), 0, |ms|
  {
    if ms == [] then []
    else
      var m := ms[|ms| - 1];
      Set(MembersFold(n, ms[..|ms| - 1]), MemberKey(m), ParseOpt(FirstByTag(m, "value")))
  }

  /** The array built from the children `cs` of the `data` element of `n`:
      only the `value` elements count. */
  function ItemsFold(n: Node, cs: seq<Node>): seq<JsValue>
    requires forall i :: 0 <= i < |cs| ==> Size(cs[i]) < Size(n)
    decreases Size(n), 0, |cs|
  {
    if cs == [] then []
    else
      var pre := ItemsFold(n, cs[..|cs| - 1]);
      var c := cs[|cs| - 1];
      if IsElement(c, "value") then pre + [ParseVal(c)] else pre
  }

  /** `parseVal(node)` where `node` may be `undefined`. */
  function ParseOpt(o: Option<Node>): (r: JsValue)
    ensures o.None? ==> r == JNull
    decreases if o.Some? then Size(o.value) else 0, 3, 0
  {
    match o
    case None => JNull
    case Some(n) => ParseVal(n)
  }

  /** `parseVal`, as the source computes it. */
  method DecodeValue(n: Node) returns (r: JsValue)
    ensures r == ParseVal(n)
    decreases Size(n), 2
  {
    if n.Text? {
      return JStr(n.data);
    }
    match KindOf(n.name)
    case ValueKind =>
      var ec := ElementChildren(n);
      if |ec| > 0 {
        r := DecodeValue(ec[0]);
      } else {
        r := JStr(TextContent(n));
      }
    case ScalarKind =>
      r := Scalar(n.name, Trim(TextContent(n)));
    case StructKind =>
      var obj := DecodeStruct(n);
      r := JObj(obj);
    case ArrayKind =>
      var arr := DecodeArray(n);
      r := JArr(arr);
    case OtherKind =>
      r := JStr(TextContent(n));
  }

  /** `parseVal(node)` where `node` may be `undefined`, as the source
      computes it. */
  method DecodeOpt(o: Option<Node>) returns (r: JsValue)
    ensures r == ParseOpt(o)
    decreases if o.Some? then Size(o.value) else 0, 3
  {
    r := JNull;
    if o.Some? {
      r := DecodeValue(o.value);
    }
  }

  lemma MembersFoldStep(n: Node, ms: seq<Node>, i: nat)
    requires i < |ms| && forall j :: 0 <= j < |ms| ==> Size(ms[j]) < Size(n)
    ensures MembersFold(n, ms[..i + 1]) == Set(MembersFold(n, ms[..i]), MemberKey(ms[i]), ParseOpt(FirstByTag(ms[i], "value")))
  {
    assert ms[..i + 1][..i] == ms[..i];
  }

  lemma ItemsFoldStep(n: Node, cs: seq<Node>, i: nat)
    requires i < |cs| && forall j :: 0 <= j < |cs| ==> Size(cs[j]) < Size(n)
    ensures ItemsFold(n, cs[..i + 1]) ==
      if IsElement(cs[i], "value") then ItemsFold(n, cs[..i]) + [ParseVal(cs[i])] else ItemsFold(n, cs[..i])
  {
    assert cs[..i + 1][..i] == cs[..i];
  }

  /** The `struct` branch of `parseVal`: every `member` descendant assigned
      in document order. */
  method DecodeStruct(n: Node) returns (obj: seq<Entry<JsValue>>)
    ensures obj == StructEntries(n)
    decreases Size(n), 1
  {
    var members := ElementsByTag(n, "member");
    obj := [];
    var i := 0;
    while i < |members|
      invariant 0 <= i <= |members|
      invariant obj == MembersFold(n, members[..i])
    {
      var m := members[i];
      var key := MemberKey(m);
      var val := DecodeOpt(FirstByTag(m, "value"));
      MembersFoldStep(n, members, i);
      obj := Set(obj, key, val);
      i := i + 1;
    }
    assert members[..i] == members;
  }

  /** The `array` branch of `parseVal`: the `value` children of the first
      `data` descendant, in order. */
  method DecodeArray(n: Node) returns (arr: seq<JsValue>)
    ensures arr == ArrayItems(n)
    decreases Size(n), 1
  {
    var dataEl := FirstByTag(n, "data");
    if dataEl.None? {
      return [];
    }
    var d := dataEl.value;
    var cs := ElementChildren(d);
    arr := [];
    var i := 0;
    while i < |cs|
      invariant 0 <= i <= |cs|
      invariant arr == ItemsFold(d, cs[..i])
    {
      ItemsFoldStep(d, cs, i);
      if IsElement(cs[i], "value") {
        var x := DecodeValue(cs[i]);
        arr := arr + [x];
      }
      i := i + 1;
    }
    assert cs[..|cs|] == cs;
  }

  // ---------------------------------------------------------------------
  // Responses
  // ---------------------------------------------------------------------

  /** What `xmlParseResponse` returns, or the fault it throws (the error's
      `code` and the message part of its text). */
  datatype Response = Ok(value: JsValue) | Fault(code: JsValue, message: JsValue)

  /** The message used when a fault carries none. */
  const DefaultMessage := "XML-RPC \U{9519}\U{8bef}"

  /** JavaScript truthiness; whether `Number(t)` is truthy is given by
      `numTruthy`, since the number is not evaluated. */
  predicate Truthy(v: JsValue, numTruthy: string -> bool)
  {
    match v
    case JNull => false
    case JBool(b) => b
    case JInt(i) => i != 0
    case JNaN => false
    case JNumber(t) => numTruthy(t)
    case JStr(s) => s != ""
    case JArr(_) => true
    case JObj(_) => true
  }

  /** `(obj && obj[key]) || dflt`: only an object has the property. */
  function FaultField(obj: JsValue, key: string, dflt: JsValue, numTruthy: string -> bool): (r: JsValue)
    ensures r == dflt || (obj.JObj? && Lookup(obj.entries, key) == Some(r) && Truthy(r, numTruthy))
  {
    if obj.JObj? then
      match Lookup(obj.entries, key)
      case Some(x) => if Truthy(x, numTruthy) then x else dflt
      case None => dflt
    else dflt
  }

  /** `xmlParseResponse`, on the document node `doc`. */
  function ResponseOf(doc: Node, numTruthy: string -> bool): Response
  {
    match FirstByTag(doc, "fault")
    case Some(f) =>
      var obj := ParseOpt(FirstByTag(f, "value"));
      Fault(FaultField(obj, "faultCode", JInt(-1), numTruthy), FaultField(obj, "faultString", JStr(DefaultMessage), numTruthy))
    case None =>
      match FirstByTag(doc, "params")
      case None => Ok(JNull)
      case Some(ps) =>
        match FirstByTag(ps, "param")
        case None => Ok(JNull)
        case Some(p) => Ok(ParseOpt(FirstByTag(p, "value")))
  }

  /** Without a fault, the first `value` in the first `param` of the first
      `params` is the result. */
  lemma ParamResponse(doc: Node, ps: Node, p: Node, numTruthy: string -> bool)
    requires FirstByTag(doc, "fault").None?
    requires FirstByTag(doc, "params") == Some(ps) && FirstByTag(ps, "param") == Some(p)
    ensures ResponseOf(doc, numTruthy) == Ok(ParseOpt(FirstByTag(p, "value")))
  {
  }

  /** `xmlParseResponse`, as the source computes it. */
  method ParseResponse(doc: Node, numTruthy: string -> bool) returns (r: Response)
    ensures r == ResponseOf(doc, numTruthy)
  {
    var fault := FirstByTag(doc, "fault");
    if fault.Some? {
      var v := FirstByTag(fault.value, "value");
      var obj := JNull;
      if v.Some? {
        obj := DecodeValue(v.value);
      }
      var msg := FaultField(obj, "faultString", JStr(DefaultMessage), numTruthy);
      var code := FaultField(obj, "faultCode", JInt(-1), numTruthy);
      return Fault(code, msg);
    }
    var params := FirstByTag(doc, "params");
    if params.None? {
      return Ok(JNull);
    }
    var first := FirstByTag(params.value, "param");
    if first.None? {
      return Ok(JNull);
    }
    var value := FirstByTag(first.value, "value");
    var x := JNull;
    if value.Some? {
      x := DecodeValue(value.value);
    }
    r := Ok(x);
  }

  // One step of `ParseVal` for each kind of element.

  lemma ParseValueStep(n: Node)
    requires n.Element? && KindOf(n.name) == ValueKind
    ensures ParseVal(n) == if ElementChildren(n) != [] then ParseVal(ElementChildren(n)[0]) else JStr(TextContent(n))
  {
  }

  lemma ParseScalarStep(n: Node)
    requires n.Element? && KindOf(n.name) == ScalarKind
    ensures ParseVal(n) == Scalar(n.name, Trim(TextContent(n)))
  {
  }

  lemma ParseStructStep(n: Node)
    requires n.Element? && KindOf(n.name) == StructKind
    ensures ParseVal(n) == JObj(StructEntries(n))
  {
  }

  lemma ParseArrayStep(n: Node)
    requires n.Element? && KindOf(n.name) == ArrayKind
    ensures ParseVal(n) == JArr(ArrayItems(n))
  {
  }

  // ---------------------------------------------------------------------
  // Properties of the decoder
  // ---------------------------------------------------------------------

  /** A `value` with an element child decodes that child alone: the text
      before it and the elements after it are ignored. */
  lemma ValueFirstElement(t: string, e: Node, rest: seq<Node>)
    requires e.Element?
    ensures ParseVal(Element("value", [Text(t), e] + rest)) == ParseVal(e)
  {
    ElementsAfterText(t, e, rest);
  }

  /** A `value` with only text gives that text as it stands, while a
      `string` element gives it trimmed. */
  lemma UntypedValueRaw(s: string)
    ensures ParseVal(Element("value", [Text(s)])) == JStr(s)
    ensures ParseVal(Element("string", [Text(s)])) == JStr(Trim(s))
  {
    var cs := [Text(s)];
    assert cs[1..] == [];
    assert ElementsAmong(cs) == [];
    assert TextAll(cs) == s;
    ValueName();
    ParseValueStep(Element("value", cs));
    StringName(Trim(s));
    ParseScalarStep(Element("string", cs));
  }

  /** A `boolean` is true exactly when its trimmed text is `1`. */
  lemma BooleanIsOne(cs: seq<Node>)
    ensures ParseVal(Element("boolean", cs)).JBool?
    ensures ParseVal(Element("boolean", cs)) == JBool(true) <==> Trim(TextAll(cs)) == "1"
  {
    var n := Element("boolean", cs);
    BooleanName(Trim(TextAll(cs)));
    ParseScalarStep(n);
    assert TextContent(n) == TextAll(cs);
  }

  /** In particular the word `true` reads as false. */
  lemma BooleanWordIsFalse()
    ensures ParseVal(Element("boolean", [Text("true")])) == JBool(false)
  {
    assert [Text("true")][1..] == [];
    assert TextAll([Text("true")]) == "true";
    TrimOfTrimmed("true");
    BooleanIsOne([Text("true")]);
  }

  /** The decoded value of member `m`. */
  function MemberValue(m: Node): JsValue
  {
    ParseOpt(FirstByTag(m, "value"))
  }

  /** The key and decoded value of each member, in order. */
  function MemberEntries(ms: seq<Node>): (es: seq<Entry<JsValue>>)
    ensures |es| == |ms|
    ensures forall i :: 0 <= i < |ms| ==> es[i] == Entry(MemberKey(ms[i]), MemberValue(ms[i]))
  {
    if ms == [] then [] else MemberEntries(ms[..|ms| - 1]) + [Entry(MemberKey(ms[|ms| - 1]), MemberValue(ms[|ms| - 1]))]
  }

  /** Decoding the members assigns each member's key in turn. */
  lemma {:induction false} MembersFoldIsSetAll(n: Node, ms: seq<Node>)
    requires forall i :: 0 <= i < |ms| ==> Size(ms[i]) < Size(n)
    ensures MembersFold(n, ms) == SetAll([], MemberEntries(ms))
  {
    if ms != [] {
      var pre := ms[..|ms| - 1];
      MembersFoldIsSetAll(n, pre);
      assert MemberEntries(ms)[..|ms| - 1] == MemberEntries(pre);
    }
  }

  /** Under each key the struct holds the value of the last member with that
      key; a key no member has is absent. */
  lemma MembersFoldLookup(n: Node, ms: seq<Node>, k: string)
    requires forall i :: 0 <= i < |ms| ==> Size(ms[i]) < Size(n)
    ensures var last := LastIndex(Keys(MemberEntries(ms)), k);
      Lookup(MembersFold(n, ms), k) == if last.Some? then Some(MemberValue(ms[last.value])) else None
  {
    MembersFoldIsSetAll(n, ms);
    SetAllLookup([], MemberEntries(ms), k);
    assert Lookup<JsValue>([], k) == None;
  }

  /** The decoded struct never holds a key twice. */
  lemma MembersFoldUnique(n: Node, ms: seq<Node>)
    requires forall i :: 0 <= i < |ms| ==> Size(ms[i]) < Size(n)
    ensures UniqueKeys(MembersFold(n, ms))
  {
    MembersFoldIsSetAll(n, ms);
    SetAllUnique([], MemberEntries(ms));
  }

  lemma NamedSnoc(a: seq<Node>, x: Node, t: string)
    ensures Named(a + [x], t) == Named(a, t) + (if IsElement(x, t) then [x] else [])
  {
    NamedAppend(a, [x], t);
    assert [x][1..] == [];
  }

  /** The items of an array are the decoded `value` children of its `data`
      element, in order; other children are skipped. */
  lemma {:induction false} ItemsFoldIsMap(d: Node, cs: seq<Node>)
    requires forall i :: 0 <= i < |cs| ==> Size(cs[i]) < Size(d)
    ensures var vs := Named(cs, "value"); var r := ItemsFold(d, cs);
      |r| == |vs| && forall i :: 0 <= i < |r| ==> r[i] == ParseVal(vs[i])
  {
    if cs != [] {
      var pre, c := cs[..|cs| - 1], cs[|cs| - 1];
      ItemsFoldIsMap(d, pre);
      assert pre + [c] == cs;
      NamedSnoc(pre, c, "value");
    }
  }

  /** A fault whose value is not a struct reports code -1 and the default
      message. */
  lemma FaultWithoutStruct(doc: Node, numTruthy: string -> bool)
    requires FirstByTag(doc, "fault").Some?
    requires !ParseOpt(FirstByTag(FirstByTag(doc, "fault").value, "value")).JObj?
    ensures ResponseOf(doc, numTruthy) == Fault(JInt(-1), JStr(DefaultMessage))
  {
  }

  /** Without a fault, a response with no `params` or no `param` gives null. */
  lemma NoParamsIsNull(doc: Node, numTruthy: string -> bool)
    requires FirstByTag(doc, "fault").None?
    requires FirstByTag(doc, "params").None? || FirstByTag(FirstByTag(doc, "params").value, "param").None?
    ensures ResponseOf(doc, numTruthy) == Ok(JNull)
  {
  }
}
