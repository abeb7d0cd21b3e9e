/**
 * The XML-RPC request encoder: `xmlEncodeValue` and `xmlBuildCall`
 * (main.js:99-111). Each encoding is shown to be the markup of an element
 * tree (`Tree`, `CallTree`), which is the tree the decoder works on.
 */
module XmlRpcEncode {
  import opened Opt
  import opened Text
  import opened Dates
  import opened OrderedMap
  import opened Xml

  /** The JavaScript values the encoder distinguishes: `null`/`undefined`,
      booleans, integral numbers, the other numbers (kept as the text
      `String(v)` gives for them), `Date`s (as their getter values),
      strings, arrays and plain objects (their `Object.entries`). */
  datatype Value =
    | Nil
    | Bool(b: bool)
    | Int(i: int)
    | Double(repr: string)
    | DateTime(d: DateFields)
    | Str(s: string)
    | Arr(items: seq<Value>)
    | Struct(members: seq<Entry<Value>>)

  /** `<name>inner</name>`. */
  function Tag(name: string, inner: string): string
  {
    "<" + name + ">" + inner + "</" + name + ">"
  }

  /** `xmlEncodeValue(v)`. */
  function EncodeValue(v: Value): string
  {
    match v
    case Nil => "<nil/>"
    case Arr(xs) => Tag("array", Tag("data", EncodeItems(xs)))
    case DateTime(d) => Tag("dateTime.iso8601", Iso8601(d))
    case Bool(b) => Tag("boolean", if b then "1" else "0")
    case Int(i) => Tag("int", IntToString(i))
    case Double(r) => Tag("double", r)
    case Struct(ms) => Tag("struct", EncodeMembers(ms))
    case Str(s) => Tag("string", XmlEscape(s))
  }

  /** `v.map(x => <value>…</value>).join('')`. */
  function EncodeItems(xs: seq<Value>): string
  {
    if xs == [] then "" else Tag("value", EncodeValue(xs[0])) + EncodeItems(xs[1..])
  }

  /** One entry of `Object.entries(v)`, its name escaped. */
  function EncodeMember(e: Entry<Value>): string
  {
    Tag("member", Tag("name", XmlEscape(e.key)) + Tag("value", EncodeValue(e.val)))
  }

  /** `Object.entries(v).map(([k, val]) => <member>…</member>).join('')`. */
  function EncodeMembers(ms: seq<Entry<Value>>): string
  {
    if ms == [] then "" else EncodeMember(ms[0]) + EncodeMembers(ms[1..])
  }

  const XmlDecl := "<?xml version=\"1.0\"?>"

  /** `xmlBuildCall(method, params)`. */
  function BuildCall(methodName: string, params: seq<Value>): string
  {
    XmlDecl + Tag("methodCall", Tag("methodName", XmlEscape(methodName)) + Tag("params", EncodeParams(params)))
  }

  function EncodeParam(p: Value): string
  {
    Tag("param", Tag("value", EncodeValue(p)))
  }

  function EncodeParams(ps: seq<Value>): string
  {
    if ps == [] then "" else EncodeParam(ps[0]) + EncodeParams(ps[1..])
  }

  // ---------------------------------------------------------------------
  // The element trees
  // ---------------------------------------------------------------------

  /** The character data of an element holding `s`: a parser makes no text
      node for empty content. */
  function TextNodes(s: string): (r: seq<Node>)
    ensures TextAll(r) == s
  {
    if s == [] then [] else
      assert [Text(s)][1..] == [];
      [Text(s)]
  }

  /** The element an XML-RPC value is written as. */
  function Tree(v: Value): Node
    decreases v, 1
  {
    match v
    case Nil => Element("nil", [])
    case Arr(xs) => Element("array", [Element("data", ItemTrees(xs))])
    case DateTime(d) => Element("dateTime.iso8601", [Text(Iso8601(d))])
    case Bool(b) => Element("boolean", [Text(if b then "1" else "0")])
    case Int(i) => Element("int", [Text(IntToString(i))])
    case Double(r) => Element("double", TextNodes(r))
    case Struct(ms) => Element("struct", MemberTrees(ms))
    case Str(s) => Element("string", TextNodes(s))
  }

  function ValueTree(v: Value): Node
    decreases v, 2
  {
    Element("value", [Tree(v)])
  }

  function ItemTrees(xs: seq<Value>): (r: seq<Node>)
    ensures |r| == |xs|
    ensures forall i :: 0 <= i < |xs| ==> r[i] == ValueTree(xs[i])
    decreases xs, 0
  {
    if xs == [] then [] else [ValueTree(xs[0])] + ItemTrees(xs[1..])
  }

  function MemberTree(e: Entry<Value>): Node
    decreases e, 3
  {
    Element("member", [Element("name", TextNodes(e.key)), ValueTree(e.val)])
  }

  function MemberTrees(ms: seq<Entry<Value>>): (r: seq<Node>)
    ensures |r| == |ms|
    ensures forall i :: 0 <= i < |ms| ==> r[i] == MemberTree(ms[i])
    decreases ms, 0
  {
    if ms == [] then [] else [MemberTree(ms[0])] + MemberTrees(ms[1..])
  }

  function ParamTree(p: Value): Node
  {
    Element("param", [ValueTree(p)])
  }

  function ParamTrees(ps: seq<Value>): (r: seq<Node>)
    ensures |r| == |ps|
    ensures forall i :: 0 <= i < |ps| ==> r[i] == ParamTree(ps[i])
  {
    if ps == [] then [] else [ParamTree(ps[0])] + ParamTrees(ps[1..])
  }

  /** The tree of a method call: its name, then one `param` per argument. */
  function CallTree(methodName: string, params: seq<Value>): Node
  {
    Element("methodCall", [Element("methodName", TextNodes(methodName)), Element("params", ParamTrees(params))])
  }

  /** The markup the encoder writes for a tree: an empty `nil` element as an
      empty-element tag, every other element as a start tag, its content
      and an end tag, character data escaped. */
  function Markup(n: Node): string
  {
    match n
    case Text(d) => XmlEscape(d)
    case Element(name, cs) =>
      if name == "nil" && cs == [] then "<nil/>"
      else Tag(name, MarkupAll(cs))
  }

  function MarkupAll(cs: seq<Node>): string
  {
    if cs == [] then "" else Markup(cs[0]) + MarkupAll(cs[1..])
  }

  // ---------------------------------------------------------------------
  // Properties
  // ---------------------------------------------------------------------

  /** Text in which escaping changes nothing. */
  predicate Safe(s: string)
  {
    forall c | c in s :: !IsEscaped(c)
  }

  lemma {:induction false} EscapeEachSafe(s: string)
    requires Safe(s)
    ensures EscapeEach(s) == s
  {
    if s != [] {
      assert s[0] in s;
      assert forall c | c in s[1..] :: c in s;
      EscapeEachSafe(s[1..]);
      assert [s[0]] + s[1..] == s;
    }
  }

  lemma XmlEscapeSafe(s: string)
    requires Safe(s)
    ensures XmlEscape(s) == s
  {
    XmlEscapeIsEach(s);
    EscapeEachSafe(s);
  }

  lemma DigitsSafe(s: string)
    requires AllDigits(s)
    ensures Safe(s)
  {
    forall c | c in s ensures !IsEscaped(c) {
      var i :| 0 <= i < |s| && s[i] == c;
      assert IsDigit(s[i]);
    }
  }

  lemma IntSafe(i: int)
    ensures Safe(IntToString(i))
  {
    var r := IntToString(i);
    if i < 0 {
      DigitsSafe(r[1..]);
      assert r == [r[0]] + r[1..];
    } else {
      DigitsSafe(r);
    }
  }

  lemma SafeAppend(a: string, b: string)
    requires Safe(a) && Safe(b)
    ensures Safe(a + b)
  {
  }

  lemma DateDigitsSafe(d: DateFields)
    ensures Safe(DateDigits(d))
  {
    var y, mo, da := IntToString(d.year), Pad(d.month + 1), Pad(d.day);
    IntSafe(d.year);
    DigitsSafe(mo);
    DigitsSafe(da);
    SafeAppend(y, mo);
    SafeAppend(y + mo, da);
  }

  lemma TimeOfDaySafe(d: DateFields)
    ensures Safe(TimeOfDay(d))
  {
    var h, mi, se := Pad(d.hours), Pad(d.minutes), Pad(d.seconds);
    DigitsSafe(h);
    DigitsSafe(mi);
    DigitsSafe(se);
    SafeAppend("T", h);
    SafeAppend("T" + h, ":");
    SafeAppend("T" + h + ":", mi);
    SafeAppend("T" + h + ":" + mi, ":");
    SafeAppend("T" + h + ":" + mi + ":", se);
  }

  lemma Iso8601Safe(d: DateFields)
    ensures Safe(Iso8601(d))
  {
    DateDigitsSafe(d);
    TimeOfDaySafe(d);
    SafeAppend(DateDigits(d), TimeOfDay(d));
  }

  /** Every `Double` carries number text, which holds no character that
      needs escaping (the source writes it unescaped). */
  predicate NumbersSafe(v: Value)
  {
    match v
    case Double(r) => Safe(r)
    case Arr(xs) => forall i :: 0 <= i < |xs| ==> NumbersSafe(xs[i])
    case Struct(ms) => forall i :: 0 <= i < |ms| ==> NumbersSafe(ms[i].val)
    case _ => true
  }

  lemma MarkupText(s: string)
    ensures MarkupAll(TextNodes(s)) == XmlEscape(s)
  {
    if s != [] {
      assert [Text(s)][1..] == [];
    } else {
      assert XmlEscape(s) == s;
    }
  }

  lemma MarkupOne(n: Node)
    ensures MarkupAll([n]) == Markup(n)
  {
    assert [n][1..] == [];
  }

  lemma MarkupSafeText(t: string)
    requires Safe(t)
    ensures MarkupAll([Text(t)]) == t
  {
    XmlEscapeSafe(t);
    MarkupOne(Text(t));
  }

  lemma MarkupPair(a: Node, b: Node)
    ensures MarkupAll([a, b]) == Markup(a) + Markup(b)
  {
    assert [a, b][1..] == [b];
    MarkupOne(b);
  }

  /** The encoder writes exactly the markup of `Tree(v)`: what it sends is
      well nested, and its character data is the escaped text of the tree. */
  lemma {:induction false} EncodeIsMarkup(v: Value)
    requires NumbersSafe(v)
    ensures EncodeValue(v) == Markup(Tree(v))
    decreases v, 1
  {
    match v
    case Nil =>
    case Arr(xs) =>
      ItemsMarkup(xs);
      MarkupOne(Element("data", ItemTrees(xs)));
    case DateTime(d) =>
      Iso8601Safe(d);
      MarkupSafeText(Iso8601(d));
    case Bool(b) =>
      MarkupSafeText(if b then "1" else "0");
    case Int(i) =>
      IntSafe(i);
      MarkupSafeText(IntToString(i));
    case Double(r) =>
      XmlEscapeSafe(r);
      MarkupText(r);
    case Struct(ms) =>
      MembersMarkup(ms);
    case Str(s) =>
      MarkupText(s);
  }

  lemma ValueMarkup(v: Value)
    requires EncodeValue(v) == Markup(Tree(v))
    ensures Markup(ValueTree(v)) == Tag("value", EncodeValue(v))
  {
    MarkupOne(Tree(v));
  }

  lemma {:induction false} ItemsMarkup(xs: seq<Value>)
    requires forall i :: 0 <= i < |xs| ==> NumbersSafe(xs[i])
    ensures EncodeItems(xs) == MarkupAll(ItemTrees(xs))
    decreases xs, 0
  {
    if xs != [] {
      var ts := ItemTrees(xs);
      assert ts[1..] == ItemTrees(xs[1..]);
      EncodeIsMarkup(xs[0]);
      ValueMarkup(xs[0]);
      ItemsMarkup(xs[1..]);
    }
  }

  lemma MemberMarkup(e: Entry<Value>)
    requires EncodeValue(e.val) == Markup(Tree(e.val))
    ensures Markup(MemberTree(e)) == EncodeMember(e)
  {
    var nm := Element("name", TextNodes(e.key));
    MarkupText(e.key);
    ValueMarkup(e.val);
    MarkupPair(nm, ValueTree(e.val));
  }

  lemma {:induction false} MembersMarkup(ms: seq<Entry<Value>>)
    requires forall i :: 0 <= i < |ms| ==> NumbersSafe(ms[i].val)
    ensures EncodeMembers(ms) == MarkupAll(MemberTrees(ms))
    decreases ms, 0
  {
    if ms != [] {
      var ts := MemberTrees(ms);
      assert ts[1..] == MemberTrees(ms[1..]);
      EncodeIsMarkup(ms[0].val);
      MemberMarkup(ms[0]);
      MembersMarkup(ms[1..]);
    }
  }

  lemma {:induction false} ParamsMarkup(ps: seq<Value>)
    requires forall i :: 0 <= i < |ps| ==> NumbersSafe(ps[i])
    ensures EncodeParams(ps) == MarkupAll(ParamTrees(ps))
  {
    if ps != [] {
      var ts := ParamTrees(ps);
      assert ts[1..] == ParamTrees(ps[1..]);
      EncodeIsMarkup(ps[0]);
      ValueMarkup(ps[0]);
      MarkupOne(ValueTree(ps[0]));
      ParamsMarkup(ps[1..]);
    }
  }

  /** A call is the XML declaration followed by the markup of its tree: the
      escaped method name, then one `<param><value>` per argument, in the
      order of the arguments. */
  lemma BuildCallIsMarkup(methodName: string, params: seq<Value>)
    requires forall i :: 0 <= i < |params| ==> NumbersSafe(params[i])
    ensures BuildCall(methodName, params) == XmlDecl + Markup(CallTree(methodName, params))
  {
    var nm := Element("methodName", TextNodes(methodName));
    var pe := Element("params", ParamTrees(params));
    MarkupText(methodName);
    ParamsMarkup(params);
    MarkupPair(nm, pe);
  }

  /** Items are written in order: appending one appends its encoding. */
  lemma {:induction false} EncodeItemsAppend(xs: seq<Value>, x: Value)
    ensures EncodeItems(xs + [x]) == EncodeItems(xs) + Tag("value", EncodeValue(x))
  {
    if xs == [] {
      assert xs + [x] == [x];
      assert [x][1..] == [];
    } else {
      assert (xs + [x])[1..] == xs[1..] + [x];
      EncodeItemsAppend(xs[1..], x);
      Assoc(Tag("value", EncodeValue(xs[0])), EncodeItems(xs[1..]), Tag("value", EncodeValue(x)));
    }
  }

  /** Arguments are written in order, one `<param><value>` each. */
  lemma {:induction false} EncodeParamsAppend(ps: seq<Value>, p: Value)
    ensures EncodeParams(ps + [p]) == EncodeParams(ps) + Tag("param", Tag("value", EncodeValue(p)))
  {
    if ps == [] {
      assert ps + [p] == [p];
      assert [p][1..] == [];
    } else {
      assert (ps + [p])[1..] == ps[1..] + [p];
      EncodeParamsAppend(ps[1..], p);
      Assoc(EncodeParam(ps[0]), EncodeParams(ps[1..]), EncodeParam(p));
    }
  }

  /** Members are written in entry order, each name escaped. */
  lemma {:induction false} EncodeMembersAppend(ms: seq<Entry<Value>>, e: Entry<Value>)
    ensures EncodeMembers(ms + [e]) == EncodeMembers(ms)
      + Tag("member", Tag("name", XmlEscape(e.key)) + Tag("value", EncodeValue(e.val)))
  {
    if ms == [] {
      assert ms + [e] == [e];
      assert [e][1..] == [];
    } else {
      assert (ms + [e])[1..] == ms[1..] + [e];
      EncodeMembersAppend(ms[1..], e);
      Assoc(EncodeMember(ms[0]), EncodeMembers(ms[1..]), EncodeMember(e));
    }
  }

  /** A member name, once escaped, cannot close or open markup. */
  lemma MemberNameClean(k: string)
    ensures forall i :: 0 <= i < |XmlEscape(k)| ==> !IsMarkupChar(XmlEscape(k)[i])
    ensures Unescape(XmlEscape(k)) == k
  {
    XmlEscapeClean(k);
    UnescapeXmlEscape(k);
  }
}
