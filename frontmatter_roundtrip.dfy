/**
 * What `parseFrontmatter` reads back from a document that `rebuildDoc`
 * wrote (main.js:27-95): the header comes back in the same order, with the
 * values the line patterns make of what the writer printed, and the body
 * comes back with one extra leading line break.
 */
module FrontmatterRoundTrip {
  import opened Opt
  import opened Text
  import opened OrderedMap
  import opened Frontmatter

  // ---------------------------------------------------------------------
  // The closing fence of a rebuilt document is the one rebuildDoc wrote
  // ---------------------------------------------------------------------

  /** A header line that cannot complete a `\n---` closing fence. */
  predicate NotFenceStart(l: string)
  {
    !(|l| >= 3 && l[0] == '-' && l[1] == '-' && l[2] == '-')
  }

  predicate PlainLine(l: string)
  {
    '\n' !in l && '\r' !in l && NotFenceStart(l)
  }

  /** A line break followed by a line that does not start with `---`, and
      then another line break, is no closing fence. */
  lemma NoCloseAtBreak(a: string, l: string, v: string)
    requires NotFenceStart(l) && v != [] && v[0] == '\n'
    ensures !CloseAt(a + "\n" + (l + v), |a|)
  {
    var s := a + "\n" + (l + v);
    assert s[|a|] == '\n';
    assert forall i :: 0 <= i < |l| ==> s[|a| + 1 + i] == l[i];
    assert s[|a| + 1 + |l|] == '\n';
  }

  /** A character that is no line break starts no closing fence. */
  lemma NoCloseAtChar(s: string, j: nat)
    requires j < |s| && s[j] != '\n' && s[j] != '\r'
    ensures !CloseAt(s, j)
  {
  }

  /** No closing fence starts inside a line without line breaks. */
  lemma NoCloseInLine(l: string, u: string)
    requires '\n' !in l && '\r' !in l
    ensures forall j: nat :: j < |l| ==> !CloseAt(l + u, j)
  {
    forall j: nat | j < |l| ensures !CloseAt(l + u, j) {
      assert (l + u)[j] == l[j] && l[j] in l;
      NoCloseAtChar(l + u, j);
    }
  }

  /** The line break after a plain line, followed by more plain lines and
      then a line break, is no closing fence. */
  lemma NoCloseBeforeLines(l: string, rest: seq<string>, u: string)
    requires |rest| >= 1 && NotFenceStart(rest[0])
    requires u != [] && u[0] == '\n'
    ensures !CloseAt(l + "\n" + (Join(rest, "\n") + u), |l|)
  {
    var v := if |rest| == 1 then u else "\n" + Join(rest[1..], "\n") + u;
    assert Join(rest, "\n") + u == rest[0] + v by {
      if |rest| > 1 {
        Assoc(rest[0] + "\n", Join(rest[1..], "\n"), u);
        Assoc(rest[0], "\n", Join(rest[1..], "\n") + u);
        Assoc("\n", Join(rest[1..], "\n"), u);
      }
    }
    NoCloseAtBreak(l, rest[0], v);
  }

  /** A line without breaks and the break after it put no closing fence
      before the part of `t` that holds none. */
  lemma NoCloseConsLine(l: string, t: string, n: nat)
    requires '\n' !in l && '\r' !in l && n <= |t|
    requires !CloseAt(l + "\n" + t, |l|)
    requires forall j: nat :: j < n ==> !CloseAt(t, j)
    ensures forall j: nat :: j < |l| + 1 + n ==> !CloseAt(l + "\n" + t, j)
  {
    var s := l + "\n" + t;
    Assoc(l, "\n", t);
    NoCloseInLine(l, "\n" + t);
    assert s[|l| + 1..] == t;
    CloseAtDrop(s, |l| + 1);
    forall j: nat | |l| < j < |l| + 1 + n ensures !CloseAt(s, j) {
      assert CloseAt(t, j - (|l| + 1)) == CloseAt(s, j);
    }
  }

  /** Plain lines joined with `\n` hold no closing fence, whatever follows
      them after a line break. */
  lemma {:induction false} NoCloseInLines(lines: seq<string>, u: string)
    requires forall i :: 0 <= i < |lines| ==> PlainLine(lines[i])
    requires u != [] && u[0] == '\n'
    ensures forall j: nat :: j < |Join(lines, "\n")| ==> !CloseAt(Join(lines, "\n") + u, j)
  {
    if |lines| == 1 {
      NoCloseInLine(lines[0], u);
    } else if |lines| > 1 {
      var l, rest := lines[0], lines[1..];
      var t := Join(rest, "\n") + u;
      NoCloseInLines(rest, u);
      Assoc(l + "\n", Join(rest, "\n"), u);
      assert Join(lines, "\n") + u == l + "\n" + t;
      NoCloseBeforeLines(l, rest, u);
      NoCloseConsLine(l, t, |Join(rest, "\n")|);
    }
  }

  /** The first closing fence is the one at `n`. */
  lemma CloseIndexIs(s: string, n: nat)
    requires CloseAt(s, n)
    requires forall j: nat :: j < n ==> !CloseAt(s, j)
    ensures CloseIndex(s) == Some(n)
  {
  }

  lemma RebuiltShape(y: string, b: string)
    ensures "---\n" + y + "\n---\n\n" + b == "---\n" + (y + ("\n---" + ("\n\n" + b)))
  {
  }

  /** The characters of a rebuilt document around its fences. */
  lemma RebuiltChars(y: string, b: string)
    ensures var text := "---\n" + y + "\n---\n\n" + b;
      && |text| == |y| + 10 + |b|
      && text[0] == '-' && text[1] == '-' && text[2] == '-' && text[3] == '\n'
      && text[4..] == y + ("\n---" + ("\n\n" + b))
      && text[4..4 + |y|] == y
      && text[4 + |y|] == '\n' && text[5 + |y|] == '-' && text[6 + |y|] == '-' && text[7 + |y|] == '-'
      && text[8 + |y|] == '\n' && text[9 + |y|] == '\n'
  {
    RebuiltShape(y, b);
  }

  /** The fence pattern matches a rebuilt document exactly at the fences
      rebuildDoc wrote, and takes one of the two line breaks after the
      closing one. */
  lemma FenceOfRebuilt(lines: seq<string>, b: string)
    requires forall i :: 0 <= i < |lines| ==> PlainLine(lines[i])
    ensures var y := Join(lines, "\n");
      FenceMatch("---\n" + y + "\n---\n\n" + b) == Some((y, |y| + 9))
  {
    var y := Join(lines, "\n");
    var u := "\n---" + ("\n\n" + b);
    var rest := y + u;
    var text := "---\n" + y + "\n---\n\n" + b;
    RebuiltChars(y, b);
    assert OpenLen(text) == 4;
    NoCloseInLines(lines, u);
    assert CloseAt(rest, |y|) by {
      assert rest == text[4..];
    }
    CloseIndexIs(rest, |y|);
    CloseAtIndex(text, |y|);
    FenceMatchAt(text, |y|);
    assert CloseLen(text, 4 + |y|) == 4;
    assert TailLen(text, 8 + |y|) == 1;
  }

  // ---------------------------------------------------------------------
  // What a printed value reads back as
  // ---------------------------------------------------------------------

  /** Escaping only adds backslashes in front of quotes. */
  lemma {:induction false} EscapeQuotesFrom(s: string)
    ensures forall i :: 0 <= i < |EscapeQuotes(s)| ==>
      EscapeQuotes(s)[i] == '\\' || EscapeQuotes(s)[i] in s
  {
    if s != [] {
      EscapeQuotesFrom(s[1..]);
      var h := if s[0] == '"' then "\\\"" else [s[0]];
      var r := EscapeQuotes(s);
      assert r == h + EscapeQuotes(s[1..]);
      forall i | 0 <= i < |r| ensures r[i] == '\\' || r[i] in s {
        if i >= |h| {
          assert r[i] == EscapeQuotes(s[1..])[i - |h|];
          assert s[1..] <= s || forall c :: c in s[1..] ==> c in s;
        }
      }
    }
  }

  /** Reading left to right, drops the backslash of every `\"` pair and
      keeps every other character. */
  function UnescapeQuotes(t: string): string
  {
    if t == [] then []
    else if |t| >= 2 && t[0] == '\\' && t[1] == '"' then "\"" + UnescapeQuotes(t[2..])
    else [t[0]] + UnescapeQuotes(t[1..])
  }

  /** An escaped text never starts with a bare quote. */
  lemma EscapeQuotesHead(s: string)
    ensures EscapeQuotes(s) == [] || EscapeQuotes(s)[0] != '"'
  {
  }

  lemma UnescapePair(e: string)
    ensures UnescapeQuotes(['\\', '"'] + e) == ['"'] + UnescapeQuotes(e)
  {
    var t := ['\\', '"'] + e;
    assert t[2..] == e;
  }

  lemma UnescapeOther(c: char, e: string)
    requires c != '\\' || e == [] || e[0] != '"'
    ensures UnescapeQuotes([c] + e) == [c] + UnescapeQuotes(e)
  {
    var t := [c] + e;
    assert t[1..] == e;
  }

  /** Dropping the backslash of each `\"` undoes the writer's escaping, for
      every string, backslashes included. */
  lemma {:induction false} UnescapeEscapeQuotes(s: string)
    ensures UnescapeQuotes(EscapeQuotes(s)) == s
  {
    if s != [] {
      var e := EscapeQuotes(s[1..]);
      UnescapeEscapeQuotes(s[1..]);
      if s[0] == '"' {
        assert EscapeQuotes(s) == ['\\', '"'] + e;
        UnescapePair(e);
      } else {
        assert EscapeQuotes(s) == [s[0]] + e;
        EscapeQuotesHead(s[1..]);
        UnescapeOther(s[0], e);
      }
      assert s == [s[0]] + s[1..];
    }
  }

  /** Every character of a printed value is a quote, a backslash or a
      character of the value. */
  lemma QuoteFrom(s: string)
    ensures forall i :: 0 <= i < |Quote(s)| ==> Quote(s)[i] == '"' || Quote(s)[i] == '\\' || Quote(s)[i] in s
  {
    EscapeQuotesFrom(s);
    if NeedsQuote(s) {
      var e := EscapeQuotes(s);
      var q := "\"" + e + "\"";
      forall i | 0 <= i < |q| ensures q[i] == '"' || q[i] == '\\' || q[i] in s {
        if 0 < i < |q| - 1 { assert q[i] == e[i - 1]; }
      }
    }
  }

  /** A list item without line terminators prints as a line part that
      starts with no white space: an item with white space is quoted. */
  lemma QuoteItem(s: string)
    requires s != [] && NoLineTerminator(s)
    ensures Quote(s) != [] && !IsSpace(Quote(s)[0]) && NoLineTerminator(Quote(s))
  {
    QuoteFrom(s);
    var q := Quote(s);
    forall i | 0 <= i < |q| ensures !IsLineTerminator(q[i]) {
      if q[i] != '"' && q[i] != '\\' {
        var j :| 0 <= j < |s| && s[j] == q[i];
      }
    }
    if !NeedsQuote(s) {
      assert !IsSpace(s[0]);
    }
  }

  /** A value without line breaks prints without line breaks. */
  lemma QuoteNoBreak(s: string)
    requires NoBreak(s)
    ensures NoBreak(Quote(s))
  {
    QuoteFrom(s);
    var q := Quote(s);
    forall i | 0 <= i < |q| ensures q[i] != '\n' && q[i] != '\r' {
      if q[i] != '"' && q[i] != '\\' {
        var j :| 0 <= j < |s| && s[j] == q[i];
      }
    }
  }

  /** The string values that read back as they were written. */
  predicate PlainString(s: string)
  {
    '"' !in s && NoLineTerminator(s) && !IsBoolWord(s)
  }

  /** A printed plain string has no line terminator, and no white space at
      its start. */
  lemma QuoteLine(s: string)
    requires PlainString(s)
    ensures NoLineTerminator(Quote(s))
    ensures Quote(s) == [] || !IsSpace(Quote(s)[0])
    ensures Quote(s) == [] <==> s == []
  {
    QuoteFrom(s);
    var q := Quote(s);
    forall i | 0 <= i < |q| ensures !IsLineTerminator(q[i]) {
      if q[i] != '"' && q[i] != '\\' {
        var j :| 0 <= j < |s| && s[j] == q[i];
      }
    }
    if !NeedsQuote(s) && s != [] {
      assert !IsSpace(s[0]);
    }
  }

  /** A quote-free string that needs quoting is printed between two quotes,
      unescaped. */
  lemma QuotedPlain(s: string)
    requires '"' !in s && NeedsQuote(s)
    ensures Quote(s) == "\"" + s + "\""
  {
  }

  /** The value of a `key: ` line that printed a plain string reads back
      as that string. */
  lemma ReadQuoted(s: string)
    requires PlainString(s)
    ensures ReadValue(Quote(s)) == Str(s)
  {
    var q := Quote(s);
    if NeedsQuote(s) {
      QuotedPlain(s);
      assert q[0] == '"' && q[|q| - 1] == '"';
      assert LowerAscii(q[0]) == '"';
      assert !IsBoolWord(q);
      assert q[1..|q| - 1] == s;
    } else if s != [] {
      assert !IsQuoteTrigger(s[0]);
      assert s[0] != '"' by { assert s[0] in s; }
    }
  }

  // ---------------------------------------------------------------------
  // What each printed line does to the parser's state
  // ---------------------------------------------------------------------

  /** A `key:` line, followed by white space and a value, stores the value
      as `ReadValue` reads it. */
  lemma StepKeyLine(st: State, k: string, w: string, q: string)
    requires IsKey(k) && AllSpace(w) && NoLineTerminator(q) && (q == [] || !IsSpace(q[0]))
    ensures StepLine(st, k + ":" + w + q) == State(Set(st.data, k, ReadValue(q)), if q == "" then Some(k) else None)
  {
    MatchKeyLineOf(k, w, q);
  }

  lemma ItemLineSplit(q: string)
    ensures "  - " + q == "  " + "- " + q
  {
  }

  /** A line that starts with white space is no `key: value` line. */
  lemma NoKeyLine(line: string)
    requires line != [] && IsSpace(line[0])
    ensures MatchKeyLine(line).None?
  {
    assert !IsKeyChar(line[0]);
  }

  /** A printed list item line is a `- item` line and nothing else. */
  lemma ItemLineMatch(q: string)
    requires q != [] && !IsSpace(q[0]) && NoLineTerminator(q)
    ensures MatchKeyLine("  - " + q).None? && MatchListItem("  - " + q) == Some(q)
  {
    ItemLineSplit(q);
    MatchListItemOf("  ", q);
    NoKeyLine("  - " + q);
  }

  /** A `  - item` line under the key `k` appends the item as printed. */
  lemma StepItemLine(st: State, k: string, item: string)
    requires st.curKey == Some(k) && item != [] && NoLineTerminator(item)
    ensures StepLine(st, ItemLine(item)) == State(Set(st.data, k, List(ListValue(Lookup(st.data, k)) + [Quote(item)])), Some(k))
  {
    QuoteItem(item);
    ItemLineMatch(Quote(item));
  }

  lemma RunOne(st: State, l: string)
    ensures Run(st, [l]) == StepLine(st, l)
  {
    assert [l][..0] == [];
  }

  // ---------------------------------------------------------------------
  // Mappings the writer prints in a form the parser can read
  // ---------------------------------------------------------------------

  predicate WritableKey(k: string)
  {
    IsKey(k) && NotFenceStart(k)
  }

  predicate WritableValue(v: FmValue)
  {
    match v
    case Str(s) => PlainString(s)
    case Bool(_) => true
    case Null => true
    case List(items) => forall i :: 0 <= i < |items| ==> items[i] != [] && NoLineTerminator(items[i])
  }

  predicate Writable(m: Mapping)
  {
    && UniqueKeys(m)
    && forall i :: 0 <= i < |m| ==> WritableKey(m[i].key) && WritableValue(m[i].val)
  }

  /** A string that holds neither `\n` nor `\r`. */
  predicate NoBreak(s: string)
  {
    '\n' !in s && '\r' !in s
  }

  /** The values that print on lines without line breaks. */
  predicate PrintableValue(v: FmValue)
  {
    match v
    case Str(s) => NoBreak(s)
    case List(items) => forall i :: 0 <= i < |items| ==> NoBreak(items[i])
    case _ => true
  }

  /** The mappings whose every printed line stays one header line. */
  predicate Printable(m: Mapping)
  {
    forall i :: 0 <= i < |m| ==> WritableKey(m[i].key) && PrintableValue(m[i].val)
  }

  lemma WritablePrintable(m: Mapping)
    requires Writable(m)
    ensures Printable(m)
  {
    forall i | 0 <= i < |m| ensures PrintableValue(m[i].val) {
      match m[i].val {
        case Str(s) => NoBreakOf(s);
        case List(items) =>
          forall j | 0 <= j < |items| ensures NoBreak(items[j]) {
            NoBreakOf(items[j]);
          }
        case _ =>
      }
    }
  }

  function QuoteAll(items: seq<string>): (r: seq<string>)
    ensures |r| == |items|
    ensures forall i :: 0 <= i < |items| ==> r[i] == Quote(items[i])
  {
    if items == [] then [] else QuoteAll(items[..|items| - 1]) + [Quote(items[|items| - 1])]
  }

  /** What the parser makes of a value the writer printed: null and the
      empty list both print as a bare `key:` and come back as the empty
      string; list items come back as printed, quotes and backslashes
      included. */
  function ReadBack(v: FmValue): FmValue
  {
    match v
    case Null => Str("")
    case List(items) => if items == [] then Str("") else List(QuoteAll(items))
    case _ => v
  }

  function ReadBackAll(m: Mapping): (r: Mapping)
    ensures |r| == |m|
    ensures forall i :: 0 <= i < |m| ==> r[i] == Entry(m[i].key, ReadBack(m[i].val))
  {
    if m == [] then [] else ReadBackAll(m[..|m| - 1]) + [Entry(m[|m| - 1].key, ReadBack(m[|m| - 1].val))]
  }

  /** One more `  - item` line under the key appended last grows its list. */
  lemma ItemGrow(m: Mapping, k: string, pre: seq<string>, it: string)
    requires k !in Keys(m) && it != [] && NoLineTerminator(it)
    ensures StepLine(State(m + [Entry(k, ReadBack(List(pre)))], Some(k)), ItemLine(it))
         == State(m + [Entry(k, ReadBack(List(pre + [it])))], Some(k))
  {
    var before := ReadBack(List(pre));
    var after := List(QuoteAll(pre + [it]));
    var mid := State(m + [Entry(k, before)], Some(k));
    StepItemLine(mid, k, it);
    LookupLast(m, k, before);
    assert ListValue(Some(before)) == QuoteAll(pre);
    assert QuoteAll(pre) + [Quote(it)] == QuoteAll(pre + [it]) by {
      assert (pre + [it])[..|pre|] == pre;
    }
    assert ReadBack(List(pre + [it])) == after;
    SetLast(m, k, before, after);
    assert StepLine(mid, ItemLine(it)) == State(m + [Entry(k, after)], Some(k));
  }

  /** The block list lines of a key rebuild its list one item at a time. */
  lemma {:induction false} ItemsRun(m: Mapping, k: string, items: seq<string>)
    requires k !in Keys(m)
    requires forall i :: 0 <= i < |items| ==> items[i] != [] && NoLineTerminator(items[i])
    ensures Run(State(m + [Entry(k, Str(""))], Some(k)), ItemLines(items))
         == State(m + [Entry(k, ReadBack(List(items)))], Some(k))
  {
    if items != [] {
      var pre, it := items[..|items| - 1], items[|items| - 1];
      ItemsRun(m, k, pre);
      var lines := ItemLines(items);
      assert lines[..|lines| - 1] == ItemLines(pre);
      ButLast(items);
      ItemGrow(m, k, pre, it);
    }
  }

  lemma KeyLineSplit(k: string, q: string)
    ensures k + ": " + q == k + ":" + " " + q
  {
  }

  /** A `key: value` line the writer printed for a string or a boolean
      appends the value to a mapping that lacks the key. */
  lemma ScalarLineRun(st: State, k: string, q: string, v: FmValue)
    requires IsKey(k) && k !in Keys(st.data)
    requires NoLineTerminator(q) && (q == [] || !IsSpace(q[0])) && ReadValue(q) == v
    ensures Run(st, [k + ": " + q]).data == st.data + [Entry(k, v)]
  {
    KeyLineSplit(k, q);
    StepKeyLine(st, k, " ", q);
    RunOne(st, k + ": " + q);
    SetNew(st.data, k, v);
  }

  /** A bare `key:` line appends the empty string and makes the key the
      one later `- item` lines extend. */
  lemma BareKeyRun(st: State, k: string)
    requires IsKey(k) && k !in Keys(st.data)
    ensures Run(st, [k + ":"]) == State(st.data + [Entry(k, Str(""))], Some(k))
  {
    BareKeyStep(st, k);
    RunOne(st, k + ":");
    SetNew(st.data, k, Str(""));
  }

  lemma BareKeyStep(st: State, k: string)
    requires IsKey(k)
    ensures StepLine(st, k + ":") == State(Set(st.data, k, Str("")), Some(k))
  {
    var line := k + ":";
    MatchKeyLineOf(k, "", "");
    assert line + "" == line && line + "" + "" == line;
    assert MatchKeyLine(line) == Some((k, ""));
    assert ReadValue("") == Str("");
  }

  /** The lines printed for one entry append it, as read back, to a
      mapping that lacks its key, whatever the state before. */
  lemma EntryRun(st: State, e: Entry<FmValue>)
    requires WritableKey(e.key) && WritableValue(e.val) && e.key !in Keys(st.data)
    ensures Run(st, EntryLines(e)).data == st.data + [Entry(e.key, ReadBack(e.val))]
  {
    var k := e.key;
    match e.val {
      case Str(s) =>
        QuoteLine(s);
        ReadQuoted(s);
        ScalarLineRun(st, k, Quote(s), Str(s));
      case Bool(b) =>
        var word := if b then "true" else "false";
        assert ReadValue(word) == Bool(b) by {
          assert IsBoolWord(word);
          assert EqualsIgnoreCase(word, "true") == b;
        }
        ScalarLineRun(st, k, word, Bool(b));
      case Null =>
        BareKeyRun(st, k);
      case List(items) =>
        BareKeyRun(st, k);
        RunAppend(st, [k + ":"], ItemLines(items));
        ItemsRun(st.data, k, items);
    }
  }

  // ---------------------------------------------------------------------
  // The whole header, and the whole document
  // ---------------------------------------------------------------------

  /** A line that starts with `key:` holds no line break past the key and
      does not start a closing fence. */
  lemma KeyLinePlain(k: string, rest: string)
    requires WritableKey(k) && '\n' !in rest && '\r' !in rest
    ensures PlainLine(k + ":" + rest)
  {
    var l := k + ":" + rest;
    forall i | 0 <= i < |l| ensures l[i] != '\n' && l[i] != '\r' {
      if i < |k| {
        assert l[i] == k[i] && IsKeyChar(k[i]);
      } else if i > |k| {
        assert l[i] == rest[i - |k| - 1] && rest[i - |k| - 1] in rest;
      }
    }
    if |l| >= 3 {
      if |k| >= 3 {
        assert l[0] == k[0] && l[1] == k[1] && l[2] == k[2];
      } else {
        assert l[|k|] == ':';
      }
    }
  }

  lemma NoBreakOf(s: string)
    requires NoLineTerminator(s)
    ensures '\n' !in s && '\r' !in s
  {
  }

  /** A printed item line starts with white space and holds no line break. */
  lemma ItemLinePlain(item: string)
    requires NoBreak(item)
    ensures PlainLine(ItemLine(item))
  {
    QuoteNoBreak(item);
    var l := ItemLine(item);
    assert l[0] == ' ';
    forall i | 0 <= i < |l| ensures l[i] != '\n' && l[i] != '\r' {
      if i >= 4 {
        assert l[i] == Quote(item)[i - 4] && Quote(item)[i - 4] in Quote(item);
      }
    }
  }

  lemma ItemLinesPlain(items: seq<string>)
    requires forall i :: 0 <= i < |items| ==> NoBreak(items[i])
    ensures forall i :: 0 <= i < |ItemLines(items)| ==> PlainLine(ItemLines(items)[i])
  {
    forall i | 0 <= i < |items| ensures PlainLine(ItemLines(items)[i]) {
      ItemLinePlain(items[i]);
    }
  }

  lemma ScalarLinePlain(k: string, q: string)
    requires WritableKey(k) && '\n' !in q && '\r' !in q
    ensures PlainLine(k + ": " + q)
  {
    KeyLineSplit(k, q);
    Assoc(k + ":", " ", q);
    KeyLinePlain(k, " " + q);
  }

  /** Every line printed for a printable entry is plain. */
  lemma EntryLinesPlain(e: Entry<FmValue>)
    requires WritableKey(e.key) && PrintableValue(e.val)
    ensures |EntryLines(e)| >= 1
    ensures forall i :: 0 <= i < |EntryLines(e)| ==> PlainLine(EntryLines(e)[i])
  {
    var k := e.key;
    match e.val {
      case Str(s) =>
        QuoteNoBreak(s);
        ScalarLinePlain(k, Quote(s));
      case Bool(b) =>
        ScalarLinePlain(k, if b then "true" else "false");
      case Null =>
        KeyLinePlain(k, "");
        assert k + ":" + "" == k + ":";
      case List(items) =>
        KeyLinePlain(k, "");
        assert k + ":" + "" == k + ":";
        ItemLinesPlain(items);
    }
  }

  lemma WritablePrefix(m: Mapping)
    requires m != [] && Writable(m)
    ensures Writable(m[..|m| - 1])
    ensures m[|m| - 1].key !in Keys(m[..|m| - 1])
  {
  }

  /** Every line the writer prints for a printable mapping is plain, and a
      non-empty mapping prints at least one line. */
  lemma {:induction false} YamlLinesPlain(m: Mapping)
    requires Printable(m)
    ensures YamlLines(m) == [] <==> m == []
    ensures forall i :: 0 <= i < |YamlLines(m)| ==> PlainLine(YamlLines(m)[i])
  {
    if m != [] {
      var pre, e := m[..|m| - 1], m[|m| - 1];
      assert Printable(pre);
      YamlLinesPlain(pre);
      EntryLinesPlain(e);
      var a, b := YamlLines(pre), EntryLines(e);
      assert YamlLines(m) == a + b;
      forall i | 0 <= i < |a + b| ensures PlainLine((a + b)[i]) {
        if i < |a| {
          assert (a + b)[i] == a[i];
        } else {
          assert (a + b)[i] == b[i - |a|];
        }
      }
    }
  }

  lemma KeysOfReadBackAll(m: Mapping)
    ensures Keys(ReadBackAll(m)) == Keys(m)
  {
  }

  /** The parser, run over the lines the writer printed, rebuilds the
      mapping entry by entry, as read back. */
  lemma {:induction false} YamlRun(m: Mapping)
    requires Writable(m)
    ensures Run(Start, YamlLines(m)).data == ReadBackAll(m)
  {
    if m != [] {
      var pre, e := m[..|m| - 1], m[|m| - 1];
      WritablePrefix(m);
      YamlRun(pre);
      RunAppend(Start, YamlLines(pre), EntryLines(e));
      KeysOfReadBackAll(pre);
      EntryRun(Run(Start, YamlLines(pre)), e);
    }
  }

  /** The header of a document rebuilt from the empty mapping is one
      empty line, which changes nothing. */
  lemma EmptyHeaderRun()
    ensures Run(Start, SplitLines("")).data == []
  {
    assert SplitLines("") == [""];
    RunOne(Start, "");
  }

  /** The header of a rebuilt document splits into the lines the writer
      printed, and they run to the mapping as read back. */
  lemma HeaderRun(m: Mapping)
    requires Writable(m)
    ensures Run(Start, SplitLines(YamlText(m))).data == ReadBackAll(m)
  {
    WritablePrintable(m);
    YamlLinesPlain(m);
    if m == [] {
      EmptyHeaderRun();
    } else {
      SplitLinesJoin(YamlLines(m));
      YamlRun(m);
    }
  }

  lemma RebuiltBody(y: string, b: string)
    ensures ("---\n" + y + "\n---\n\n" + b)[|y| + 9..] == "\n" + b
  {
  }

  /** `parseFrontmatter(rebuildDoc(fm, body))` finds the front matter
      again and gives the body back after one extra line break, whenever
      every key and value prints on one line. */
  lemma RebuildBody(m: Mapping, b: string)
    requires Printable(m)
    ensures var r := FrontmatterOf(RebuildDoc(m, b));
      r.had && r.body == "\n" + b
  {
    YamlLinesPlain(m);
    FenceOfRebuilt(YamlLines(m), b);
    RebuiltBody(YamlText(m), b);
  }

  /** `parseFrontmatter(rebuildDoc(fm, body))`: the header comes back as
      read back, and the body comes back after one extra line break. */
  lemma RebuildRoundTrip(m: Mapping, b: string)
    requires Writable(m)
    ensures FrontmatterOf(RebuildDoc(m, b)) == Parsed(ReadBackAll(m), "\n" + b, true)
  {
    WritablePrintable(m);
    YamlLinesPlain(m);
    FenceOfRebuilt(YamlLines(m), b);
    RebuiltBody(YamlText(m), b);
    HeaderRun(m);
  }

  // ---------------------------------------------------------------------
  // Mappings that come back exactly
  // ---------------------------------------------------------------------

  /** No null, no empty list, and list items that print unquoted. */
  predicate TameValue(v: FmValue)
  {
    match v
    case Str(s) => PlainString(s)
    case Bool(_) => true
    case Null => false
    case List(items) => items != [] && forall i :: 0 <= i < |items| ==> items[i] != [] && !NeedsQuote(items[i])
  }

  predicate Tame(m: Mapping)
  {
    && UniqueKeys(m)
    && forall i :: 0 <= i < |m| ==> WritableKey(m[i].key) && TameValue(m[i].val)
  }

  lemma {:induction false} QuoteAllPlain(items: seq<string>)
    requires forall i :: 0 <= i < |items| ==> !NeedsQuote(items[i])
    ensures QuoteAll(items) == items
  {
    if items != [] {
      QuoteAllPlain(items[..|items| - 1]);
      ButLast(items);
    }
  }

  lemma TameReadBack(v: FmValue)
    requires TameValue(v)
    ensures WritableValue(v) && ReadBack(v) == v
  {
    if v.List? {
      QuoteAllPlain(v.items);
      forall i | 0 <= i < |v.items| ensures NoLineTerminator(v.items[i]) {
        forall j | 0 <= j < |v.items[i]| ensures !IsLineTerminator(v.items[i][j]) {
          assert !IsSpace(v.items[i][j]);
        }
      }
    }
  }

  /** A tame mapping survives a rebuild and a parse unchanged; only the
      body gains its leading line break. */
  lemma TameRoundTrip(m: Mapping, b: string)
    requires Tame(m)
    ensures FrontmatterOf(RebuildDoc(m, b)) == Parsed(m, "\n" + b, true)
  {
    forall i | 0 <= i < |m| ensures WritableValue(m[i].val) && ReadBack(m[i].val) == m[i].val {
      TameReadBack(m[i].val);
    }
    RebuildRoundTrip(m, b);
    assert ReadBackAll(m) == m;
  }
}
