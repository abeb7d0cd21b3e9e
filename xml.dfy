/**
 * The part of XML the XML-RPC codec relies on: an already-parsed element
 * tree (the DOM a `DOMParser` builds; the parser itself is not modelled),
 * its `textContent`, the preorder search of `getElementsByTagName`, the
 * escaping of `xmlEscape` (main.js:98) and the entity decoding a parser
 * applies to character data (section 4.6 of the XML 1.0 recommendation).
 */
module Xml {
  import opened Opt

  /** An element with its child nodes, or a run of character data (entities
      already decoded). */
  datatype Node = Element(name: string, children: seq<Node>) | Text(data: string)

  function Size(n: Node): (r: nat)
    ensures r >= 1
  {
    match n
    case Text(_) => 1
    case Element(_, cs) => 1 + SizeAll(cs)
  }

  function SizeAll(cs: seq<Node>): nat
  {
    if cs == [] then 0 else Size(cs[0]) + SizeAll(cs[1..])
  }

  /** `textContent`: the character data of the node and all its descendants,
      in document order. */
  function TextContent(n: Node): string
  {
    match n
    case Text(d) => d
    case Element(_, cs) => TextAll(cs)
  }

  function TextAll(cs: seq<Node>): string
  {
    if cs == [] then "" else TextContent(cs[0]) + TextAll(cs[1..])
  }

  /** Every node below `n`, in preorder (document order), `n` itself excluded. */
  function Descendants(n: Node): (r: seq<Node>)
    ensures forall i :: 0 <= i < |r| ==> Size(r[i]) < Size(n)
  {
    match n
    case Text(_) => []
    case Element(_, cs) => DescendantsAll(cs)
  }

  function DescendantsAll(cs: seq<Node>): (r: seq<Node>)
    ensures forall i :: 0 <= i < |r| ==> Size(r[i]) <= SizeAll(cs)
  {
    if cs == [] then []
    else
      var r := [cs[0]] + Descendants(cs[0]) + DescendantsAll(cs[1..]);
      assert forall i :: 0 <= i < |r| ==>
        r[i] == cs[0] || r[i] in Descendants(cs[0]) || r[i] in DescendantsAll(cs[1..]);
      r
  }

  predicate IsElement(n: Node, tag: string)
  {
    n.Element? && n.name == tag
  }

  /** The elements named `tag` among `ns`, in order. */
  function Named(ns: seq<Node>, tag: string): (r: seq<Node>)
    ensures |r| <= |ns|
    ensures forall i :: 0 <= i < |r| ==> IsElement(r[i], tag) && r[i] in ns
  {
    if ns == [] then []
    else if IsElement(ns[0], tag) then [ns[0]] + Named(ns[1..], tag)
    else Named(ns[1..], tag)
  }

  /** `el.getElementsByTagName(tag)`: the descendant elements named `tag`,
      in preorder. */
  function ElementsByTag(n: Node, tag: string): (r: seq<Node>)
    ensures forall i :: 0 <= i < |r| ==> IsElement(r[i], tag) && Size(r[i]) < Size(n)
  {
    Named(Descendants(n), tag)
  }

  /** `el.getElementsByTagName(tag)[0]`. */
  function FirstByTag(n: Node, tag: string): (r: Option<Node>)
    ensures r.Some? ==> IsElement(r.value, tag) && Size(r.value) < Size(n)
  {
    var es := ElementsByTag(n, tag);
    if es == [] then None else Some(es[0])
  }

  /** `el.children`: the element children, without the character data. */
  function ElementChildren(n: Node): (r: seq<Node>)
    ensures forall i :: 0 <= i < |r| ==> r[i].Element? && Size(r[i]) < Size(n)
  {
    match n
    case Text(_) => []
    case Element(_, cs) => ElementsAmong(cs)
  }

  function ElementsAmong(cs: seq<Node>): (r: seq<Node>)
    ensures forall i :: 0 <= i < |r| ==> r[i].Element? && Size(r[i]) <= SizeAll(cs)
  {
    if cs == [] then []
    else
      var rest := ElementsAmong(cs[1..]);
      if cs[0].Element? then [cs[0]] + rest else rest
  }

  /** No element named `t` anywhere in the subtree of `n`, `n` included. */
  predicate Lacks(n: Node, t: string)
  {
    match n
    case Text(_) => true
    case Element(name, cs) => name != t && LacksAll(cs, t)
  }

  predicate LacksAll(cs: seq<Node>, t: string)
  {
    cs == [] || (Lacks(cs[0], t) && LacksAll(cs[1..], t))
  }

  lemma {:induction false} NamedAppend(a: seq<Node>, b: seq<Node>, t: string)
    ensures Named(a + b, t) == Named(a, t) + Named(b, t)
  {
    if a != [] {
      assert (a + b)[1..] == a[1..] + b;
      NamedAppend(a[1..], b, t);
    } else {
      assert a + b == b;
    }
  }

  lemma DescendantsCons(c: Node, rest: seq<Node>)
    ensures DescendantsAll([c] + rest) == [c] + Descendants(c) + DescendantsAll(rest)
  {
    assert ([c] + rest)[1..] == rest;
  }

  /** The search finds nothing in a subtree without such an element. */
  lemma {:induction false} LacksNamed(n: Node, t: string)
    requires Lacks(n, t)
    ensures Named(Descendants(n), t) == []
    decreases n, 1
  {
    if n.Element? {
      LacksAllNamed(n.children, t);
    }
  }

  lemma {:induction false} LacksAllNamed(cs: seq<Node>, t: string)
    requires LacksAll(cs, t)
    ensures Named(DescendantsAll(cs), t) == []
    decreases cs, 0
  {
    if cs != [] {
      LacksNamed(cs[0], t);
      LacksAllNamed(cs[1..], t);
      NamedAppend([cs[0]] + Descendants(cs[0]), DescendantsAll(cs[1..]), t);
      NamedAppend([cs[0]], Descendants(cs[0]), t);
    }
  }

  lemma LacksPair(a: Node, b: Node, t: string)
    requires Lacks(a, t) && Lacks(b, t)
    ensures LacksAll([a, b], t)
  {
    assert [a, b][1..] == [b];
    assert [b][1..] == [];
  }

  /** The search starts with the first child. */
  lemma FirstChildFound(name: string, c: Node, rest: seq<Node>, t: string)
    requires IsElement(c, t)
    ensures FirstByTag(Element(name, [c] + rest), t) == Some(c)
  {
    var n := Element(name, [c] + rest);
    var ds := Descendants(c) + DescendantsAll(rest);
    DescendantsCons(c, rest);
    assert Descendants(n) == [c] + ds;
    FirstNamed(c, ds, t);
    assert ElementsByTag(n, t) == [c] + Named(ds, t);
  }

  /** The search passes a first child that holds no match. */
  lemma SecondChildFound(name: string, a: Node, b: Node, t: string)
    requires Lacks(a, t) && IsElement(b, t)
    ensures FirstByTag(Element(name, [a, b]), t) == Some(b)
  {
    var ds := [a] + Descendants(a);
    var rest := DescendantsAll([b]);
    SecondChildDescendants(a, b);
    LacksNamed(a, t);
    NamedAppend([a], Descendants(a), t);
    assert Named(ds, t) == [];
    NamedAppend(ds, rest, t);
    FirstNamed(b, Descendants(b), t);
    assert Named(Descendants(Element(name, [a, b])), t) == Named(rest, t);
  }

  lemma SecondChildDescendants(a: Node, b: Node)
    ensures DescendantsAll([a, b]) == [a] + Descendants(a) + DescendantsAll([b])
    ensures DescendantsAll([b]) == [b] + Descendants(b)
  {
    assert [a, b] == [a] + [b];
    DescendantsCons(a, [b]);
    assert [b] == [b] + [];
    DescendantsCons(b, []);
  }

  /** An element named `t` at the head of a sequence is the first of them. */
  lemma FirstNamed(b: Node, ds: seq<Node>, t: string)
    requires IsElement(b, t)
    ensures Named([b] + ds, t) == [b] + Named(ds, t)
  {
    assert ([b] + ds)[1..] == ds;
  }

  /** The element children of a list that starts with a text node and an
      element. */
  lemma ElementsAfterText(d: string, e: Node, rest: seq<Node>)
    requires e.Element?
    ensures ElementsAmong([Text(d), e] + rest) == [e] + ElementsAmong(rest)
  {
    var cs := [Text(d), e] + rest;
    assert cs[1..] == [e] + rest;
    assert ([e] + rest)[1..] == rest;
  }

  // ---------------------------------------------------------------------
  // Escaping (main.js:98) and entity decoding
  // ---------------------------------------------------------------------

  /** `s.replace(/c/g, rep)`. */
  function ReplaceAll(s: string, c: char, rep: string): (r: string)
    ensures c !in s ==> r == s
  {
    if s == [] then []
    else (if s[0] == c then rep else [s[0]]) + ReplaceAll(s[1..], c, rep)
  }

  lemma {:induction false} ReplaceAllAppend(a: string, b: string, c: char, rep: string)
    ensures ReplaceAll(a + b, c, rep) == ReplaceAll(a, c, rep) + ReplaceAll(b, c, rep)
  {
    if a != [] {
      var ab := a + b;
      assert ab[0] == a[0] && ab[1..] == a[1..] + b;
      ReplaceAllAppend(a[1..], b, c, rep);
      var h := if a[0] == c then rep else [a[0]];
      assert ReplaceAll(ab, c, rep) == h + (ReplaceAll(a[1..], c, rep) + ReplaceAll(b, c, rep));
    } else {
      assert a + b == b;
    }
  }

  /** `xmlEscape(s)`: five global replacements, the ampersand first. */
  function XmlEscape(s: string): string
  {
    ReplaceAll(ReplaceAll(ReplaceAll(ReplaceAll(ReplaceAll(s, '&', "&amp;"), '<', "&lt;"), '>', "&gt;"), '"', "&quot;"), '\'', "&#39;")
  }

  /** The predefined entity of each escaped character. */
  function EscapeChar(c: char): string
  {
    if c == '&' then "&amp;"
    else if c == '<' then "&lt;"
    else if c == '>' then "&gt;"
    else if c == '"' then "&quot;"
    else if c == '\'' then "&#39;"
    else [c]
  }

  /** Escaping one character at a time. */
  function EscapeEach(s: string): string
  {
    if s == [] then [] else EscapeChar(s[0]) + EscapeEach(s[1..])
  }

  lemma XmlEscapeAppend(a: string, b: string)
    ensures XmlEscape(a + b) == XmlEscape(a) + XmlEscape(b)
  {
    var s1a, s1b := ReplaceAll(a, '&', "&amp;"), ReplaceAll(b, '&', "&amp;");
    ReplaceAllAppend(a, b, '&', "&amp;");
    var s2a, s2b := ReplaceAll(s1a, '<', "&lt;"), ReplaceAll(s1b, '<', "&lt;");
    ReplaceAllAppend(s1a, s1b, '<', "&lt;");
    var s3a, s3b := ReplaceAll(s2a, '>', "&gt;"), ReplaceAll(s2b, '>', "&gt;");
    ReplaceAllAppend(s2a, s2b, '>', "&gt;");
    var s4a, s4b := ReplaceAll(s3a, '"', "&quot;"), ReplaceAll(s3b, '"', "&quot;");
    ReplaceAllAppend(s3a, s3b, '"', "&quot;");
    ReplaceAllAppend(s4a, s4b, '\'', "&#39;");
  }

  lemma ReplaceOne(c: char, rep: string)
    ensures ReplaceAll([c], c, rep) == rep
  {
    assert [c][1..] == [];
  }

  lemma ReplaceOther(s: string, c: char, rep: string)
    requires forall i :: 0 <= i < |s| ==> s[i] != c
    ensures ReplaceAll(s, c, rep) == s
  {
  }

  /** The later passes leave the entity of an ampersand alone. */
  lemma EscapeAmp()
    ensures XmlEscape("&") == "&amp;"
  {
    var e := "&amp;";
    ReplaceOne('&', e);
    assert forall i :: 0 <= i < |e| ==> !IsMarkupChar(e[i]);
    ReplaceOther(e, '<', "&lt;");
    ReplaceOther(e, '>', "&gt;");
    ReplaceOther(e, '"', "&quot;");
    ReplaceOther(e, '\'', "&#39;");
  }

  /** One pass over a single character. */
  lemma ReplaceSingle(x: char, c: char, rep: string)
    ensures ReplaceAll([x], c, rep) == if x == c then rep else [x]
  {
    assert [x][1..] == [];
  }

  /** A character that one of the later passes replaces is replaced by
      that pass alone. */
  lemma EscapeMarkup(c: char)
    requires IsMarkupChar(c)
    ensures XmlEscape([c]) == EscapeChar(c)
  {
    var e := EscapeChar(c);
    assert forall i :: 0 <= i < |e| ==> e[i] != '<' && e[i] != '>' && e[i] != '"' && e[i] != '\'';
    ReplaceSingle(c, '&', "&amp;");
    ReplaceSingle(c, '<', "&lt;");
    var s2 := ReplaceAll([c], '<', "&lt;");
    if c == '<' {
      ReplaceOther(s2, '>', "&gt;");
      ReplaceOther(s2, '"', "&quot;");
      ReplaceOther(s2, '\'', "&#39;");
    } else {
      ReplaceSingle(c, '>', "&gt;");
      var s3 := ReplaceAll([c], '>', "&gt;");
      if c == '>' {
        ReplaceOther(s3, '"', "&quot;");
        ReplaceOther(s3, '\'', "&#39;");
      } else {
        ReplaceSingle(c, '"', "&quot;");
        var s4 := ReplaceAll([c], '"', "&quot;");
        if c == '"' {
          ReplaceOther(s4, '\'', "&#39;");
        } else {
          ReplaceSingle(c, '\'', "&#39;");
        }
      }
    }
  }

  lemma EscapePlain(c: char)
    requires c != '&' && !IsMarkupChar(c)
    ensures XmlEscape([c]) == [c]
  {
    ReplaceOther([c], '&', "&amp;");
    ReplaceOther([c], '<', "&lt;");
    ReplaceOther([c], '>', "&gt;");
    ReplaceOther([c], '"', "&quot;");
    ReplaceOther([c], '\'', "&#39;");
  }

  lemma XmlEscapeChar(c: char)
    ensures XmlEscape([c]) == EscapeChar(c)
  {
    if c == '&' {
      assert [c] == "&";
      EscapeAmp();
    } else if IsMarkupChar(c) {
      EscapeMarkup(c);
    } else {
      EscapePlain(c);
    }
  }

  /** Because the ampersand is replaced first, the five replacements escape
      every character exactly once: no entity is escaped again. */
  lemma {:induction false} XmlEscapeIsEach(s: string)
    ensures XmlEscape(s) == EscapeEach(s)
  {
    if s != [] {
      assert s == [s[0]] + s[1..];
      XmlEscapeAppend([s[0]], s[1..]);
      XmlEscapeChar(s[0]);
      XmlEscapeIsEach(s[1..]);
    }
  }

  predicate IsMarkupChar(c: char)
  {
    c == '<' || c == '>' || c == '"' || c == '\''
  }

  lemma {:induction false} EscapeEachClean(s: string)
    ensures forall i :: 0 <= i < |EscapeEach(s)| ==> !IsMarkupChar(EscapeEach(s)[i])
  {
    if s != [] {
      EscapeEachClean(s[1..]);
      var h, t := EscapeChar(s[0]), EscapeEach(s[1..]);
      assert EscapeEach(s) == h + t;
      forall i | 0 <= i < |h + t| ensures !IsMarkupChar((h + t)[i]) {
        if i >= |h| {
          assert (h + t)[i] == t[i - |h|];
        }
      }
    }
  }

  /** Escaped text holds no `<`, `>`, `"` or `'`. */
  lemma XmlEscapeClean(s: string)
    ensures forall i :: 0 <= i < |XmlEscape(s)| ==> !IsMarkupChar(XmlEscape(s)[i])
  {
    XmlEscapeIsEach(s);
    EscapeEachClean(s);
  }

  /** What a parser makes of escaped character data: each of the five
      predefined entities becomes its character again. */
  function Unescape(s: string): string
    decreases |s|
  {
    if s == [] then []
    else if |s| >= 5 && s[..5] == "&amp;" then "&" + Unescape(s[5..])
    else if |s| >= 4 && s[..4] == "&lt;" then "<" + Unescape(s[4..])
    else if |s| >= 4 && s[..4] == "&gt;" then ">" + Unescape(s[4..])
    else if |s| >= 6 && s[..6] == "&quot;" then "\"" + Unescape(s[6..])
    else if |s| >= 5 && s[..5] == "&#39;" then "'" + Unescape(s[5..])
    else [s[0]] + Unescape(s[1..])
  }

  predicate IsEscaped(c: char)
  {
    c == '&' || IsMarkupChar(c)
  }

  lemma UnescapeAmp(rest: string)
    ensures Unescape("&amp;" + rest) == "&" + Unescape(rest)
  {
    var s := "&amp;" + rest;
    assert s[..5] == "&amp;" && s[5..] == rest;
  }

  /** `&lt;` and `&gt;`, which differ only in their second letter. */
  lemma UnescapeAngle(x: char, c: char, rest: string)
    requires (x == 'l' && c == '<') || (x == 'g' && c == '>')
    ensures Unescape(['&', x, 't', ';'] + rest) == [c] + Unescape(rest)
  {
    var s := ['&', x, 't', ';'] + rest;
    assert s[..4] == ['&', x, 't', ';'] && s[4..] == rest;
    assert |s| >= 5 ==> s[..5][1] == x;
  }

  lemma UnescapeQuot(rest: string)
    ensures Unescape("&quot;" + rest) == "\"" + Unescape(rest)
  {
    var s := "&quot;" + rest;
    assert s[..6] == "&quot;" && s[6..] == rest;
    assert s[..5][1] == 'q' && s[..4][1] == 'q';
  }

  lemma UnescapeApos(rest: string)
    ensures Unescape("&#39;" + rest) == "'" + Unescape(rest)
  {
    var s := "&#39;" + rest;
    assert s[..5] == "&#39;" && s[5..] == rest;
    assert s[..5][1] == '#' && s[..4][1] == '#';
    assert |s| >= 6 ==> s[..6][1] == '#';
  }

  lemma UnescapeEntity(c: char, rest: string)
    requires IsEscaped(c)
    ensures Unescape(EscapeChar(c) + rest) == [c] + Unescape(rest)
  {
    if c == '&' {
      UnescapeAmp(rest);
    } else if c == '<' {
      UnescapeAngle('l', '<', rest);
    } else if c == '>' {
      UnescapeAngle('g', '>', rest);
    } else if c == '"' {
      UnescapeQuot(rest);
    } else {
      UnescapeApos(rest);
    }
  }

  lemma UnescapePlain(c: char, rest: string)
    requires !IsEscaped(c)
    ensures Unescape(EscapeChar(c) + rest) == [c] + Unescape(rest)
  {
    var s := [c] + rest;
    assert EscapeChar(c) + rest == s;
    assert s[0] == c && s[1..] == rest;
    assert |s| >= 4 ==> s[..4][0] == c;
    assert |s| >= 5 ==> s[..5][0] == c;
    assert |s| >= 6 ==> s[..6][0] == c;
  }

  lemma UnescapeStep(c: char, rest: string)
    ensures Unescape(EscapeChar(c) + rest) == [c] + Unescape(rest)
  {
    if IsEscaped(c) {
      UnescapeEntity(c, rest);
    } else {
      UnescapePlain(c, rest);
    }
  }

  lemma {:induction false} UnescapeEach(s: string)
    ensures Unescape(EscapeEach(s)) == s
  {
    if s != [] {
      UnescapeStep(s[0], EscapeEach(s[1..]));
      UnescapeEach(s[1..]);
      assert [s[0]] + s[1..] == s;
    }
  }

  /** Decoding the entities gives back the escaped text. */
  lemma UnescapeXmlEscape(s: string)
    ensures Unescape(XmlEscape(s)) == s
  {
    XmlEscapeIsEach(s);
    UnescapeEach(s);
  }
}
