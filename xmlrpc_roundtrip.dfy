/**
 * What the decoder makes of the element tree of what the encoder writes;
 * a parser's end-of-line handling (a `\r` in character data read as
 * `\n`) and the control characters XML forbids lie outside these
 * statements, which start from the tree `Tree(v)`. The two are not
 * inverses: `nil` comes back as the empty string, scalar text comes back
 * trimmed, a `Date` comes back as its text, and a struct decodes every
 * `member` below it, those of nested structs included. For values with no
 * struct inside a struct, decoding the tree of `v` gives `Normalize(v)`.
 */
module XmlRpcRoundTrip {
  import opened Opt
  import opened Text
  import opened Dates
  import opened OrderedMap
  import opened Xml
  import opened XmlRpcEncode
  import opened XmlRpcDecode

  /** What an encoded value decodes to. */
  function Normalize(v: Value): JsValue
    decreases v, 1
  {
    match v
    case Nil => JStr("")
    case Bool(b) => JBool(b)
    case Int(i) => JInt(i)
    case Double(r) => JNumber(Trim(r))
    case DateTime(d) => JStr(Iso8601(d))
    case Str(s) => JStr(Trim(s))
    case Arr(xs) => JArr(NormalizeItems(xs))
    case Struct(ms) => JObj(NormalizeMembers(ms))
  }

  function NormalizeItems(xs: seq<Value>): (r: seq<JsValue>)
    ensures |r| == |xs|
    ensures forall i :: 0 <= i < |xs| ==> r[i] == Normalize(xs[i])
    decreases xs, 0
  {
    if xs == [] then [] else [Normalize(xs[0])] + NormalizeItems(xs[1..])
  }

  /** The entries assigned in order, a later one under the same key
      replacing the earlier. */
  function NormalizeMembers(ms: seq<Entry<Value>>): seq<Entry<JsValue>>
    decreases ms, 0
  {
    if ms == [] then []
    else Set(NormalizeMembers(ms[..|ms| - 1]), ms[|ms| - 1].key, Normalize(ms[|ms| - 1].val))
  }

  /** `v` is or holds a struct. */
  predicate HasStruct(v: Value)
  {
    match v
    case Struct(_) => true
    case Arr(xs) => exists i :: 0 <= i < |xs| && HasStruct(xs[i])
    case _ => false
  }

  /** No struct sits inside a member of another struct. */
  predicate Flat(v: Value)
  {
    match v
    case Struct(ms) => forall i :: 0 <= i < |ms| ==> !HasStruct(ms[i].val)
    case Arr(xs) => forall i :: 0 <= i < |xs| ==> Flat(xs[i])
    case _ => true
  }

  lemma {:induction false} NoStructFlat(v: Value)
    requires !HasStruct(v)
    ensures Flat(v)
  {
    if v.Arr? {
      forall i | 0 <= i < |v.items| ensures Flat(v.items[i]) {
        NoStructFlat(v.items[i]);
      }
    }
  }

  /** The element names the tree of any value may use. */
  predicate ValueTag(t: string)
  {
    t in ["nil", "array", "data", "value", "dateTime.iso8601", "boolean", "int", "double", "string"]
  }

  /** The element names only a struct uses. */
  predicate StructTag(t: string)
  {
    t in ["struct", "member", "name"]
  }

  lemma {:induction false} LacksAllOf(cs: seq<Node>, t: string)
    requires forall i :: 0 <= i < |cs| ==> Lacks(cs[i], t)
    ensures LacksAll(cs, t)
  {
    if cs != [] {
      LacksAllOf(cs[1..], t);
    }
  }

  lemma TextNodesLack(s: string, t: string)
    ensures LacksAll(TextNodes(s), t)
  {
    LacksAllOf(TextNodes(s), t);
  }

  /** An element lacks `t` when its name is not `t` and its children lack it. */
  lemma Wrap(name: string, cs: seq<Node>, t: string)
    requires name != t && LacksAll(cs, t)
    ensures Lacks(Element(name, cs), t)
  {
  }

  lemma WrapOne(name: string, c: Node, t: string)
    requires name != t && Lacks(c, t)
    ensures Lacks(Element(name, [c]), t)
  {
    assert [c][1..] == [];
  }

  lemma TextLeaf(name: string, s: string, t: string)
    requires name != t
    ensures Lacks(Element(name, [Text(s)]), t)
  {
    WrapOne(name, Text(s), t);
  }

  /** The tree of a value holds no element outside its vocabulary. */
  lemma {:induction false} TreeLacks(v: Value, t: string)
    requires !ValueTag(t) && (HasStruct(v) ==> !StructTag(t))
    ensures Lacks(Tree(v), t)
    decreases v, 1
  {
    match v
    case Nil =>
      assert t != "nil";
      Wrap("nil", [], t);
    case Bool(b) =>
      assert t != "boolean";
      TextLeaf("boolean", if b then "1" else "0", t);
    case Int(i) =>
      assert t != "int";
      TextLeaf("int", IntToString(i), t);
    case DateTime(d) =>
      assert t != "dateTime.iso8601";
      TextLeaf("dateTime.iso8601", Iso8601(d), t);
    case Double(r) =>
      assert t != "double";
      TextNodesLack(r, t);
      Wrap("double", TextNodes(r), t);
    case Str(s) =>
      assert t != "string";
      TextNodesLack(s, t);
      Wrap("string", TextNodes(s), t);
    case Arr(xs) => ItemsLack(xs, t);
    case Struct(ms) => MembersLack(ms, t);
  }

  lemma ValueTreeLacks(v: Value, t: string)
    requires !ValueTag(t) && (HasStruct(v) ==> !StructTag(t))
    ensures Lacks(ValueTree(v), t)
    decreases v, 2
  {
    TreeLacks(v, t);
    assert t != "value";
    WrapOne("value", Tree(v), t);
  }

  lemma {:induction false} ItemsLack(xs: seq<Value>, t: string)
    requires !ValueTag(t) && (HasStruct(Arr(xs)) ==> !StructTag(t))
    ensures Lacks(Tree(Arr(xs)), t)
    decreases xs, 0
  {
    var ts := ItemTrees(xs);
    forall i | 0 <= i < |xs| ensures Lacks(ts[i], t) {
      assert HasStruct(xs[i]) ==> HasStruct(Arr(xs));
      ValueTreeLacks(xs[i], t);
    }
    LacksAllOf(ts, t);
    assert t != "data" && t != "array";
    Wrap("data", ts, t);
    WrapOne("array", Element("data", ts), t);
  }

  lemma MemberLacks(e: Entry<Value>, t: string)
    requires !ValueTag(t) && !StructTag(t)
    ensures Lacks(MemberTree(e), t)
    decreases e, 3
  {
    ValueTreeLacks(e.val, t);
    TextNodesLack(e.key, t);
    assert t != "name" && t != "member";
    Wrap("name", TextNodes(e.key), t);
    LacksPair(Element("name", TextNodes(e.key)), ValueTree(e.val), t);
    Wrap("member", [Element("name", TextNodes(e.key)), ValueTree(e.val)], t);
  }

  lemma {:induction false} MembersLack(ms: seq<Entry<Value>>, t: string)
    requires !ValueTag(t) && !StructTag(t)
    ensures Lacks(Tree(Struct(ms)), t)
    decreases ms, 0
  {
    var ts := MemberTrees(ms);
    forall i | 0 <= i < |ms| ensures Lacks(ts[i], t) {
      MemberLacks(ms[i], t);
    }
    LacksAllOf(ts, t);
    assert t != "struct";
    Wrap("struct", ts, t);
  }

  lemma ElementsAmongAll(cs: seq<Node>)
    requires forall i :: 0 <= i < |cs| ==> cs[i].Element?
    ensures ElementsAmong(cs) == cs
  {
    if cs != [] {
      ElementsAmongAll(cs[1..]);
      assert [cs[0]] + cs[1..] == cs;
    }
  }

  lemma NamedAll(cs: seq<Node>, t: string)
    requires forall i :: 0 <= i < |cs| ==> IsElement(cs[i], t)
    ensures Named(cs, t) == cs
  {
    if cs != [] {
      NamedAll(cs[1..], t);
      assert [cs[0]] + cs[1..] == cs;
    }
  }

  lemma OnlyChild(name: string, c: Node, t: string)
    requires IsElement(c, t)
    ensures FirstByTag(Element(name, [c]), t) == Some(c)
  {
    assert [c] + [] == [c];
    FirstChildFound(name, c, [], t);
  }

  /** The `value` wrapper decodes its one element child. */
  lemma {:induction false} ValueTreeDecode(v: Value)
    requires Flat(v)
    ensures ParseVal(ValueTree(v)) == Normalize(v)
    decreases v, 2
  {
    ValueName();
    ElementsAmongAll([Tree(v)]);
    TreeDecode(v);
  }

  lemma Ends<T>(a: seq<T>, b: seq<T>)
    requires a != [] && b != []
    ensures (a + b)[0] == a[0] && (a + b)[|a + b| - 1] == b[|b| - 1]
  {
  }

  lemma DigitNotSpace(c: char)
    requires IsDigit(c) || c == '-'
    ensures !IsSpace(c)
  {
  }

  lemma IntTrimmed(i: int)
    ensures Trimmed(IntToString(i))
  {
    var r := IntToString(i);
    DigitNotSpace(r[0]);
    DigitNotSpace(r[|r| - 1]);
  }

  lemma DateDigitsStart(d: DateFields)
    ensures DateDigits(d) != [] && !IsSpace(DateDigits(d)[0])
  {
    var y := IntToString(d.year);
    Ends(y, Pad(d.month + 1));
    Ends(y + Pad(d.month + 1), Pad(d.day));
    DigitNotSpace(y[0]);
  }

  lemma TimeOfDayEnd(d: DateFields)
    ensures var t := TimeOfDay(d); t != [] && !IsSpace(t[|t| - 1])
  {
    var s := Pad(d.seconds);
    var pre := "T" + Pad(d.hours) + ":" + Pad(d.minutes) + ":";
    Ends(pre, s);
    DigitNotSpace(s[|s| - 1]);
  }

  lemma Iso8601Trimmed(d: DateFields)
    ensures Trimmed(Iso8601(d))
  {
    DateDigitsStart(d);
    TimeOfDayEnd(d);
    Ends(DateDigits(d), TimeOfDay(d));
  }

  lemma OneText(s: string)
    ensures TextAll([Text(s)]) == s
  {
    assert [Text(s)][1..] == [];
  }

  lemma ScalarDecode(name: string, t: string)
    requires KindOf(name) == ScalarKind && Trimmed(t)
    ensures ParseVal(Element(name, [Text(t)])) == Scalar(name, t)
  {
    ParseScalarStep(Element(name, [Text(t)]));
    OneText(t);
    TrimOfTrimmed(t);
  }

  // The tree of each kind of value, one kind at a time.

  lemma NilTree()
    ensures Tree(Nil) == Element("nil", [])
  {
  }

  lemma BoolTree(b: bool)
    ensures Tree(Bool(b)) == Element("boolean", [Text(if b then "1" else "0")])
  {
  }

  lemma IntTree(i: int)
    ensures Tree(Int(i)) == Element("int", [Text(IntToString(i))])
  {
  }

  lemma DoubleTree(r: string)
    ensures Tree(Double(r)) == Element("double", TextNodes(r))
  {
  }

  lemma DateTree(d: DateFields)
    ensures Tree(DateTime(d)) == Element("dateTime.iso8601", [Text(Iso8601(d))])
  {
  }

  lemma StrTree(s: string)
    ensures Tree(Str(s)) == Element("string", TextNodes(s))
  {
  }

  lemma ArrTree(xs: seq<Value>)
    ensures Tree(Arr(xs)) == Element("array", [Element("data", ItemTrees(xs))])
  {
  }

  lemma StructTree(ms: seq<Entry<Value>>)
    ensures Tree(Struct(ms)) == Element("struct", MemberTrees(ms))
  {
  }

  lemma IntDecode(i: int)
    ensures ParseVal(Tree(Int(i))) == Normalize(Int(i)) == JInt(i)
  {
    IntTree(i);
    IntName(IntToString(i));
    IntTrimmed(i);
    ScalarDecode("int", IntToString(i));
    ParseIntOfIntToString(i);
  }

  lemma DateTextDecode(t: string)
    requires Trimmed(t)
    ensures ParseVal(Element("dateTime.iso8601", [Text(t)])) == JStr(t)
  {
    DateName(t);
    ScalarDecode("dateTime.iso8601", t);
  }

  lemma DateDecode(d: DateFields)
    ensures ParseVal(Tree(DateTime(d))) == Normalize(DateTime(d)) == JStr(Iso8601(d))
  {
    DateTree(d);
    Iso8601Trimmed(d);
    DateTextDecode(Iso8601(d));
  }

  lemma BoolDecode(b: bool)
    ensures ParseVal(Tree(Bool(b))) == Normalize(Bool(b)) == JBool(b)
  {
    BoolTree(b);
    BooleanName(if b then "1" else "0");
    ScalarDecode("boolean", if b then "1" else "0");
  }

  lemma TextDecode(name: string, s: string)
    requires KindOf(name) == ScalarKind
    ensures ParseVal(Element(name, TextNodes(s))) == Scalar(name, Trim(s))
  {
    ParseScalarStep(Element(name, TextNodes(s)));
  }

  lemma NilDecode()
    ensures ParseVal(Tree(Nil)) == Normalize(Nil) == JStr("")
  {
    NilTree();
    NilName();
  }

  lemma DoubleDecode(r: string)
    ensures ParseVal(Tree(Double(r))) == Normalize(Double(r)) == JNumber(Trim(r))
  {
    DoubleTree(r);
    DoubleName(Trim(r));
    TextDecode("double", r);
  }

  lemma StrDecode(s: string)
    ensures ParseVal(Tree(Str(s))) == Normalize(Str(s)) == JStr(Trim(s))
  {
    StrTree(s);
    StringName(Trim(s));
    TextDecode("string", s);
  }

  /** Every value other than an array or a struct decodes to its
      normalised form. */
  lemma ScalarTreeDecode(v: Value)
    requires !v.Arr? && !v.Struct?
    ensures ParseVal(Tree(v)) == Normalize(v)
  {
    match v
    case Nil => NilDecode();
    case Bool(b) => BoolDecode(b);
    case Int(i) => IntDecode(i);
    case Double(r) => DoubleDecode(r);
    case DateTime(d) => DateDecode(d);
    case Str(s) => StrDecode(s);
  }

  /** Decoding the tree of a value with no struct inside a struct gives
      `Normalize(v)`. */
  lemma {:induction false} TreeDecode(v: Value)
    requires Flat(v)
    ensures ParseVal(Tree(v)) == Normalize(v)
    decreases v, 1
  {
    if v.Arr? {
      ArrayDecode(v.items);
    } else if v.Struct? {
      StructDecode(v.members);
    } else {
      ScalarTreeDecode(v);
    }
  }

  lemma {:induction false} ArrayDecode(xs: seq<Value>)
    requires forall i :: 0 <= i < |xs| ==> Flat(xs[i])
    ensures ParseVal(Tree(Arr(xs))) == JArr(NormalizeItems(xs))
    decreases xs, 1
  {
    var ts := ItemTrees(xs);
    var d := Element("data", ts);
    var a := Element("array", [d]);
    ArrTree(xs);
    ArrayName();
    ParseArrayStep(a);
    OnlyChild("array", d, "data");
    ItemsDecode(xs);
  }

  /** The `data` element of an array decodes to its items, normalised. */
  lemma {:induction false} ItemsDecode(xs: seq<Value>)
    requires forall i :: 0 <= i < |xs| ==> Flat(xs[i])
    ensures var d := Element("data", ItemTrees(xs)); ItemsFold(d, ElementChildren(d)) == NormalizeItems(xs)
    decreases xs, 0
  {
    var ts := ItemTrees(xs);
    var d := Element("data", ts);
    ElementsAmongAll(ts);
    assert ElementChildren(d) == ts;
    NamedAll(ts, "value");
    ItemsFoldIsMap(d, ts);
    var r := ItemsFold(d, ts);
    forall i | 0 <= i < |xs| ensures r[i] == Normalize(xs[i]) {
      ValueTreeDecode(xs[i]);
    }
  }

  /** A member holding no struct is the only `member` in its subtree. */
  lemma MemberFound(e: Entry<Value>)
    requires !HasStruct(e.val)
    ensures var m := MemberTree(e); Named([m] + Descendants(m), "member") == [m]
  {
    var m := MemberTree(e);
    var nm := Element("name", TextNodes(e.key));
    TextNodesLack(e.key, "member");
    Wrap("name", TextNodes(e.key), "member");
    ValueTreeLacks(e.val, "member");
    LacksPair(nm, ValueTree(e.val), "member");
    LacksAllNamed(m.children, "member");
    NamedAppend([m], Descendants(m), "member");
  }

  /** The `member` elements of a struct whose members hold no struct are
      exactly its own. */
  lemma {:induction false} MembersFound(ms: seq<Entry<Value>>)
    requires forall i :: 0 <= i < |ms| ==> !HasStruct(ms[i].val)
    ensures Named(DescendantsAll(MemberTrees(ms)), "member") == MemberTrees(ms)
  {
    if ms != [] {
      var ts := MemberTrees(ms);
      var m := ts[0];
      assert ts[1..] == MemberTrees(ms[1..]);
      assert ts == [m] + ts[1..];
      MembersFound(ms[1..]);
      DescendantsCons(m, ts[1..]);
      MemberFound(ms[0]);
      NamedAppend([m] + Descendants(m), DescendantsAll(ts[1..]), "member");
    }
  }

  /** A member tree gives back its key and, decoded, its value. */
  lemma MemberTreeParts(e: Entry<Value>)
    ensures MemberKey(MemberTree(e)) == e.key
    ensures FirstByTag(MemberTree(e), "value") == Some(ValueTree(e.val))
  {
    var nm := Element("name", TextNodes(e.key));
    var vt := ValueTree(e.val);
    assert [nm, vt] == [nm] + [vt];
    FirstChildFound("member", nm, [vt], "name");
    TextNodesLack(e.key, "value");
    SecondChildFound("member", nm, vt, "value");
  }

  lemma {:induction false} FoldMembers(n: Node, ms: seq<Entry<Value>>)
    requires forall i :: 0 <= i < |ms| ==> Size(MemberTree(ms[i])) < Size(n)
    requires forall i :: 0 <= i < |ms| ==> !HasStruct(ms[i].val)
    ensures MembersFold(n, MemberTrees(ms)) == NormalizeMembers(ms)
    decreases ms, 0
  {
    if ms != [] {
      var pre, e := ms[..|ms| - 1], ms[|ms| - 1];
      var ts := MemberTrees(ms);
      assert ts[..|ts| - 1] == MemberTrees(pre);
      FoldMembers(n, pre);
      MemberTreeParts(e);
      NoStructFlat(e.val);
      ValueTreeDecode(e.val);
    }
  }

  lemma {:induction false} StructDecode(ms: seq<Entry<Value>>)
    requires forall i :: 0 <= i < |ms| ==> !HasStruct(ms[i].val)
    ensures ParseVal(Tree(Struct(ms))) == JObj(NormalizeMembers(ms))
    decreases ms, 1
  {
    var s := Tree(Struct(ms));
    StructTree(ms);
    StructName();
    ParseStructStep(s);
    assert Descendants(s) == DescendantsAll(MemberTrees(ms));
    MembersFound(ms);
    FoldMembers(s, ms);
  }

  // ---------------------------------------------------------------------
  // Whole responses
  // ---------------------------------------------------------------------

  /** Searching through a wrapper that is not itself a match searches its
      one child. */
  lemma Through(name: string, c: Node, t: string)
    requires !IsElement(c, t)
    ensures FirstByTag(Element(name, [c]), t) == FirstByTag(c, t)
  {
    var ds := [c] + Descendants(c);
    assert Descendants(Element(name, [c])) == ds by {
      assert [c] == [c] + [];
      DescendantsCons(c, []);
      assert ds + [] == ds;
    }
    assert ds[0] == c && ds[1..] == Descendants(c);
  }

  /** The document of a successful response carrying `v`. */
  function ResponseDoc(v: Value): Node
  {
    Element("#document", [Element("methodResponse", [Element("params", [ParamTree(v)])])])
  }

  /** The document of a fault response with the given code and message. */
  function FaultDoc(code: int, msg: string): Node
  {
    Element("#document", [Element("methodResponse", [Element("fault", [ValueTree(FaultStruct(code, msg))])])])
  }

  function FaultStruct(code: int, msg: string): Value
  {
    Struct([Entry("faultCode", Int(code)), Entry("faultString", Str(msg))])
  }

  lemma ResponseLacksFault(v: Value)
    ensures FirstByTag(ResponseDoc(v), "fault") == None
  {
    var pt := ParamTree(v);
    var ps := Element("params", [pt]);
    var mr := Element("methodResponse", [ps]);
    ValueTreeLacks(v, "fault");
    WrapOne("param", ValueTree(v), "fault");
    WrapOne("params", pt, "fault");
    WrapOne("methodResponse", ps, "fault");
    assert LacksAll([mr], "fault") by {
      assert [mr][1..] == [];
    }
    LacksAllNamed([mr], "fault");
  }

  /** A response whose one parameter holds a flat value gives that value,
      normalised. */
  lemma ResponseRoundTrip(v: Value, numTruthy: string -> bool)
    requires Flat(v)
    ensures ResponseOf(ResponseDoc(v), numTruthy) == Ok(Normalize(v))
  {
    var pt := ParamTree(v);
    var ps := Element("params", [pt]);
    var mr := Element("methodResponse", [ps]);
    ResponseLacksFault(v);
    OnlyChild("methodResponse", ps, "params");
    Through("#document", mr, "params");
    OnlyChild("params", pt, "param");
    OnlyChild("param", ValueTree(v), "value");
    ParamResponse(ResponseDoc(v), ps, pt, numTruthy);
    ValueTreeDecode(v);
  }

  /** A struct of two members under different keys, neither holding a
      struct, decodes to both entries in order. */
  lemma TwoMemberDecode(k1: string, v1: Value, k2: string, v2: Value)
    requires k1 != k2 && !HasStruct(v1) && !HasStruct(v2)
    ensures ParseVal(ValueTree(Struct([Entry(k1, v1), Entry(k2, v2)])))
      == JObj([Entry(k1, Normalize(v1)), Entry(k2, Normalize(v2))])
  {
    var v := Struct([Entry(k1, v1), Entry(k2, v2)]);
    assert Flat(v);
    ValueTreeDecode(v);
    TwoMembers(k1, v1, k2, v2);
  }

  lemma FaultKeysDiffer()
    ensures "faultCode" != "faultString"
  {
    assert "faultCode"[5] != "faultString"[5];
  }

  /** A struct of an integer and a string member under different keys. */
  lemma IntStrDecode(k1: string, code: int, k2: string, msg: string)
    requires k1 != k2
    ensures ParseVal(ValueTree(Struct([Entry(k1, Int(code)), Entry(k2, Str(msg))])))
      == JObj([Entry(k1, JInt(code)), Entry(k2, JStr(Trim(msg)))])
  {
    assert !HasStruct(Int(code)) && !HasStruct(Str(msg));
    assert Normalize(Int(code)) == JInt(code) && Normalize(Str(msg)) == JStr(Trim(msg));
    TwoMemberDecode(k1, Int(code), k2, Str(msg));
  }

  /** The fault struct decodes to an object with its two entries. */
  lemma FaultStructDecode(code: int, msg: string)
    ensures ParseVal(ValueTree(FaultStruct(code, msg))) == JObj([Entry("faultCode", JInt(code)), Entry("faultString", JStr(Trim(msg)))])
  {
    FaultKeysDiffer();
    IntStrDecode("faultCode", code, "faultString", msg);
  }

  /** Two members under different keys come out in order. */
  lemma TwoMembers(k1: string, v1: Value, k2: string, v2: Value)
    requires k1 != k2
    ensures NormalizeMembers([Entry(k1, v1), Entry(k2, v2)]) == [Entry(k1, Normalize(v1)), Entry(k2, Normalize(v2))]
  {
    var ms := [Entry(k1, v1), Entry(k2, v2)];
    assert ms[..1] == [Entry(k1, v1)] && [Entry(k1, v1)][..0] == [];
    assert NormalizeMembers([Entry(k1, v1)]) == Set([], k1, Normalize(v1));
    assert NormalizeMembers(ms) == Set(NormalizeMembers([Entry(k1, v1)]), k2, Normalize(v2));
    SetTwo(k1, Normalize(v1), k2, Normalize(v2));
  }

  /** The search for the fault and for its value in a fault document. */
  lemma FaultPath(vt: Node)
    requires IsElement(vt, "value")
    ensures var f := Element("fault", [vt]);
      FirstByTag(Element("#document", [Element("methodResponse", [f])]), "fault") == Some(f)
      && FirstByTag(f, "value") == Some(vt)
  {
    var f := Element("fault", [vt]);
    var mr := Element("methodResponse", [f]);
    OnlyChild("methodResponse", f, "fault");
    Through("#document", mr, "fault");
    OnlyChild("fault", vt, "value");
  }

  /** Both entries of a two-entry object are found under their keys. */
  lemma LookupTwo(k1: string, x1: JsValue, k2: string, x2: JsValue)
    requires k1 != k2
    ensures Lookup([Entry(k1, x1), Entry(k2, x2)], k1) == Some(x1)
    ensures Lookup([Entry(k1, x1), Entry(k2, x2)], k2) == Some(x2)
  {
    var m := [Entry(k1, x1), Entry(k2, x2)];
    IndexOfIs(m, k1, 0);
    IndexOfIs(m, k2, 1);
  }

  /** A fault document reports the fields of the value it holds. */
  lemma FaultResponse(vt: Node, numTruthy: string -> bool)
    requires IsElement(vt, "value")
    ensures var obj := ParseVal(vt);
      ResponseOf(Element("#document", [Element("methodResponse", [Element("fault", [vt])])]), numTruthy)
      == Fault(FaultField(obj, "faultCode", JInt(-1), numTruthy), FaultField(obj, "faultString", JStr(DefaultMessage), numTruthy))
  {
    FaultPath(vt);
  }

  /** The fields of the decoded fault struct. */
  lemma FaultFields(code: int, t: string, numTruthy: string -> bool)
    ensures var obj := JObj([Entry("faultCode", JInt(code)), Entry("faultString", JStr(t))]);
      FaultField(obj, "faultCode", JInt(-1), numTruthy) == (if code != 0 then JInt(code) else JInt(-1))
      && FaultField(obj, "faultString", JStr(DefaultMessage), numTruthy) == (if t != "" then JStr(t) else JStr(DefaultMessage))
  {
    FaultKeysDiffer();
    LookupTwo("faultCode", JInt(code), "faultString", JStr(t));
  }

  /** A fault response reports its code and its trimmed message, except
      that a zero code reads as -1 and an empty message as the default
      one. */
  lemma FaultRoundTrip(code: int, msg: string, numTruthy: string -> bool)
    ensures ResponseOf(FaultDoc(code, msg), numTruthy)
      == Fault(if code != 0 then JInt(code) else JInt(-1),
               if Trim(msg) != "" then JStr(Trim(msg)) else JStr(DefaultMessage))
  {
    FaultResponse(ValueTree(FaultStruct(code, msg)), numTruthy);
    FaultStructDecode(code, msg);
    FaultFields(code, Trim(msg), numTruthy);
  }

  // ---------------------------------------------------------------------
  // Members of nested structs
  // ---------------------------------------------------------------------

  /** The struct with one member `k` whose value is a struct with one
      member `k2`. */
  function Nested(k: string, k2: string, v2: Value): Value
  {
    Struct([Entry(k, Struct([Entry(k2, v2)]))])
  }

  lemma OneChildDescendants(name: string, c: Node)
    ensures Descendants(Element(name, [c])) == [c] + Descendants(c)
  {
    assert [c] == [c] + [];
    DescendantsCons(c, []);
    assert [c] + Descendants(c) + [] == [c] + Descendants(c);
  }

  /** Below a value wrapper, the `member` search sees the wrapped struct's
      own members. */
  lemma InnerFound(k2: string, v2: Value)
    requires !HasStruct(v2)
    ensures var vt := ValueTree(Struct([Entry(k2, v2)]));
      Named([vt] + Descendants(vt), "member") == [MemberTree(Entry(k2, v2))]
  {
    var inner := [Entry(k2, v2)];
    var vt := ValueTree(Struct(inner));
    var st := Tree(Struct(inner));
    StructSubtreeMembers(inner);
    assert MemberTrees(inner) == [MemberTree(Entry(k2, v2))];
    OneChildDescendants("value", st);
    NamedAppend([vt], Descendants(vt), "member");
  }

  lemma {:induction false} StructSubtreeMembers(ms: seq<Entry<Value>>)
    requires forall i :: 0 <= i < |ms| ==> !HasStruct(ms[i].val)
    ensures var st := Tree(Struct(ms)); Named([st] + Descendants(st), "member") == MemberTrees(ms)
  {
    var st := Tree(Struct(ms));
    MembersFound(ms);
    assert Descendants(st) == DescendantsAll(MemberTrees(ms));
    NamedAppend([st], Descendants(st), "member");
    assert Named([st], "member") == [];
  }

  /** Below a member, the `member` search sees what lies in its value. */
  lemma MemberBelow(k: string, vt: Node)
    ensures Named(Descendants(Element("member", [Element("name", TextNodes(k)), vt])), "member")
      == Named([vt] + Descendants(vt), "member")
  {
    var nm := Element("name", TextNodes(k));
    TextNodesLack(k, "member");
    Wrap("name", TextNodes(k), "member");
    LacksNamed(nm, "member");
    assert Descendants(Element("member", [nm, vt])) == [nm] + Descendants(nm) + ([vt] + Descendants(vt)) by {
      assert [nm, vt] == [nm] + [vt];
      DescendantsCons(nm, [vt]);
      OneChildDescendants("member", vt);
    }
    NamedAppend([nm] + Descendants(nm), [vt] + Descendants(vt), "member");
    NamedAppend([nm], Descendants(nm), "member");
  }

  /** The `member` search of the outer struct finds the inner member too. */
  lemma NestedMembersFound(k: string, k2: string, v2: Value)
    requires !HasStruct(v2)
    ensures ElementsByTag(Tree(Nested(k, k2, v2)), "member")
      == [MemberTree(Entry(k, Struct([Entry(k2, v2)]))), MemberTree(Entry(k2, v2))]
  {
    var m := MemberTree(Entry(k, Struct([Entry(k2, v2)])));
    var mi := MemberTree(Entry(k2, v2));
    var vt := ValueTree(Struct([Entry(k2, v2)]));
    assert m == Element("member", [Element("name", TextNodes(k)), vt]);
    InnerFound(k2, v2);
    MemberBelow(k, vt);
    assert Named(Descendants(m), "member") == [mi];
    assert Tree(Nested(k, k2, v2)) == Element("struct", [m]) by {
      assert MemberTrees([Entry(k, Struct([Entry(k2, v2)]))]) == [m];
    }
    OneChildDescendants("struct", m);
    NamedAppend([m], Descendants(m), "member");
    assert Named([m], "member") == [m];
  }

  /** The object folded from two members. */
  lemma MembersFoldTwo(n: Node, a: Node, b: Node)
    requires Size(a) < Size(n) && Size(b) < Size(n)
    ensures MembersFold(n, [a, b]) == Set(Set([], MemberKey(a), MemberValue(a)), MemberKey(b), MemberValue(b))
  {
    var ms := [a, b];
    assert ms[..1] == [a] && [a][..0] == [];
    assert MembersFold(n, [a]) == Set([], MemberKey(a), MemberValue(a));
    assert MembersFold(n, ms) == Set(MembersFold(n, [a]), MemberKey(b), MemberValue(b));
  }

  /** A struct member holding a struct: its members are assigned to the
      outer object as well, after the member that holds them. */
  lemma NestedMembersLeak(k: string, k2: string, v2: Value)
    requires !HasStruct(v2) && k != k2
    ensures ParseVal(Tree(Nested(k, k2, v2)))
      == JObj([Entry(k, JObj([Entry(k2, Normalize(v2))])), Entry(k2, Normalize(v2))])
  {
    var m := MemberTree(Entry(k, Struct([Entry(k2, v2)])));
    var mi := MemberTree(Entry(k2, v2));
    var s := Tree(Nested(k, k2, v2));
    StructName();
    ParseStructStep(s);
    NestedMembersFound(k, k2, v2);
    assert StructEntries(s) == MembersFold(s, [m, mi]);
    MembersFoldTwo(s, m, mi);
    NestedParts(k, k2, v2);
    SetTwo(k, JObj([Entry(k2, Normalize(v2))]), k2, Normalize(v2));
  }

  /** Two assignments under different keys, into an empty object. */
  lemma SetTwo<V>(k: string, x: V, k2: string, y: V)
    requires k != k2
    ensures Set(Set([], k, x), k2, y) == [Entry(k, x), Entry(k2, y)]
  {
    SetNew([], k, x);
    assert [] + [Entry(k, x)] == [Entry(k, x)];
    assert Keys([Entry(k, x)]) == [k];
    SetNew([Entry(k, x)], k2, y);
  }

  lemma NestedParts(k: string, k2: string, v2: Value)
    requires !HasStruct(v2)
    ensures var m := MemberTree(Entry(k, Struct([Entry(k2, v2)])));
      MemberKey(m) == k && MemberValue(m) == JObj([Entry(k2, Normalize(v2))])
    ensures var mi := MemberTree(Entry(k2, v2));
      MemberKey(mi) == k2 && MemberValue(mi) == Normalize(v2)
  {
    var inner := [Entry(k2, v2)];
    MemberTreeParts(Entry(k, Struct(inner)));
    assert Flat(Struct(inner));
    ValueTreeDecode(Struct(inner));
    assert NormalizeMembers(inner) == [Entry(k2, Normalize(v2))] by {
      assert inner[..0] == [];
      SetNew([], k2, Normalize(v2));
    }
    MemberTreeParts(Entry(k2, v2));
    NoStructFlat(v2);
    ValueTreeDecode(v2);
  }
}
