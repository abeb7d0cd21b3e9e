/**
 * The front-matter header of a Markdown document (main.js:27-95): a small,
 * ad-hoc subset of YAML between two `---` fences at the very start of the
 * text. `parseFrontmatter` reads it into an insertion-ordered mapping and
 * the rest of the text, `writeYaml` renders a mapping back, `rebuildDoc`
 * puts fences and body around it.
 */
module Frontmatter {
  import opened Opt
  import opened Text
  import opened OrderedMap

  /** A header value: a string, a boolean, a list of strings, or null
      (which only a caller can put in; the parser never produces it). */
  datatype FmValue = Str(s: string) | Bool(b: bool) | List(items: seq<string>) | Null

  type Mapping = seq<Entry<FmValue>>

  /** `{ data, body, had }` as `parseFrontmatter` returns it. */
  datatype Parsed = Parsed(data: Mapping, body: string, had: bool)

  // ---------------------------------------------------------------------
  // The fence: /^---\r?\n([\s\S]*?)\r?\n---\r?\n?/ (main.js:28)
  // ---------------------------------------------------------------------

  /** Length of the opening `---\r?\n`, or 0 when the text does not start with one. */
  function OpenLen(text: string): (n: nat)
    ensures n == 0 || (n == 4 && |text| >= 4) || (n == 5 && |text| >= 5)
  {
    if |text| >= 4 && text[0] == '-' && text[1] == '-' && text[2] == '-' && text[3] == '\n' then 4
    else if |text| >= 5 && text[0] == '-' && text[1] == '-' && text[2] == '-' && text[3] == '\r' && text[4] == '\n' then 5
    else 0
  }

  /** The opening fence is `---\n` or `---\r\n` at the start of the text. */
  lemma OpenFence(text: string)
    ensures OpenLen(text) == 4 ==> text[..4] == "---\n"
    ensures OpenLen(text) == 5 ==> text[..5] == "---\r\n"
    ensures OpenLen(text) == 0 ==> !(|text| >= 4 && text[..4] == "---\n") && !(|text| >= 5 && text[..5] == "---\r\n")
  {
    if |text| >= 4 && text[..4] == "---\n" {
      assert text[3] == text[..4][3];
    }
    if |text| >= 5 && text[..5] == "---\r\n" {
      assert text[3] == text[..5][3] && text[4] == text[..5][4];
    }
  }

  /** A closing `\r?\n---` starts at offset `j`. */
  predicate CloseAt(s: string, j: nat)
  {
    || (j + 4 <= |s| && s[j] == '\n' && s[j + 1] == '-' && s[j + 2] == '-' && s[j + 3] == '-')
    || (j + 5 <= |s| && s[j] == '\r' && s[j + 1] == '\n' && s[j + 2] == '-' && s[j + 3] == '-' && s[j + 4] == '-')
  }

  lemma CloseAtShift(s: string)
    requires s != []
    ensures forall j :: 1 <= j ==> CloseAt(s, j) == CloseAt(s[1..], j - 1)
  {
  }

  /** Where the lazy `([\s\S]*?)` stops: the first offset at which a closing
      fence starts. */
  function CloseIndex(s: string): (r: Option<nat>)
    ensures r.Some? ==> CloseAt(s, r.value) && forall j :: 0 <= j < r.value ==> !CloseAt(s, j)
    ensures r.None? ==> forall j :: 0 <= j <= |s| ==> !CloseAt(s, j)
  {
    if CloseAt(s, 0) then Some(0)
    else if s == [] then None
    else
      CloseAtShift(s);
      match CloseIndex(s[1..])
      case None => None
      case Some(j) => Some(j + 1)
  }

  /** Dropping a prefix shifts where closing fences start. */
  lemma CloseAtDrop(s: string, o: nat)
    requires o <= |s|
    ensures forall j: nat :: CloseAt(s[o..], j) == CloseAt(s, o + j)
  {
    forall j: nat ensures CloseAt(s[o..], j) == CloseAt(s, o + j) {
    }
  }

  /** Length of the closing `\r?\n---` that starts at offset `j`. */
  function CloseLen(s: string, j: nat): (n: nat)
    requires CloseAt(s, j)
    ensures (n == 4 || n == 5) && j + n <= |s|
  {
    if s[j] == '\n' then 4 else 5
  }

  /** The closing fence at `j` is `\n---` or `\r\n---`. */
  lemma CloseFence(s: string, j: nat)
    requires CloseAt(s, j)
    ensures s[j..j + CloseLen(s, j)] == "\n---" || s[j..j + CloseLen(s, j)] == "\r\n---"
  {
    if s[j] == '\n' {
      assert s[j..j + 4] == "\n---";
    } else {
      assert s[j..j + 5] == "\r\n---";
    }
  }

  /** Length of the trailing `\r?\n?` at offset `c`: both are greedy. */
  function TailLen(s: string, c: nat): (n: nat)
    requires c <= |s|
    ensures n <= 2 && c + n <= |s|
    ensures n == 0 ==> c == |s| || (s[c] != '\r' && s[c] != '\n')
  {
    var e1 := if c < |s| && s[c] == '\r' then c + 1 else c;
    if e1 < |s| && s[e1] == '\n' then e1 + 1 - c else e1 - c
  }

  /** The trailing `\r?\n?` is empty, `\r`, `\n` or `\r\n`, and takes a
      line feed after a carriage return. */
  lemma TailFence(s: string, c: nat)
    requires c <= |s|
    ensures var n := TailLen(s, c);
      && (s[c..c + n] == "" || s[c..c + n] == "\r" || s[c..c + n] == "\n" || s[c..c + n] == "\r\n")
      && (s[c..c + n] == "\r" ==> c + 1 == |s| || s[c + 1] != '\n')
  {
  }

  /** The match of the fence pattern: the captured header text and the
      length of the whole match, after which the body starts. */
  function FenceMatch(text: string): (r: Option<(string, nat)>)
    ensures r.None? <==> OpenLen(text) == 0 || CloseIndex(text[OpenLen(text)..]).None?
    ensures r.Some? ==> OpenLen(text) + |r.value.0| < r.value.1 <= |text|
  {
    var o := OpenLen(text);
    if o == 0 then None
    else match CloseIndex(text[o..])
      case None => None
      case Some(j) =>
        CloseAtDrop(text, o);
        var c: nat := o + j + CloseLen(text, o + j);
        var end: nat := c + TailLen(text, c);
        Some((text[o..o + j], end))
  }

  /** The first closing fence after the opening one, as an offset into the text. */
  lemma CloseAtIndex(text: string, j: nat)
    requires OpenLen(text) > 0 && CloseIndex(text[OpenLen(text)..]) == Some(j)
    ensures CloseAt(text, OpenLen(text) + j)
  {
    CloseAtDrop(text, OpenLen(text));
  }

  /** The match once the opening fence and the first closing fence are known. */
  lemma FenceMatchAt(text: string, j: nat)
    requires OpenLen(text) > 0 && CloseIndex(text[OpenLen(text)..]) == Some(j)
    requires CloseAt(text, OpenLen(text) + j)
    ensures var o := OpenLen(text);
      var c := o + j + CloseLen(text, o + j);
      FenceMatch(text) == Some((text[o..o + j], c + TailLen(text, c)))
  {
  }

  /** The header is the text between the opening fence and the FIRST
      closing fence after it; the match then takes the closing fence and
      the `\r?\n?` after it. */
  lemma FenceMatchParts(text: string)
    requires FenceMatch(text).Some?
    ensures
      var o, h := OpenLen(text), FenceMatch(text).value.0;
      && o > 0 && o + |h| <= |text| && text[o..o + |h|] == h
      && CloseAt(text, o + |h|)
      && (forall j :: o <= j < o + |h| ==> !CloseAt(text, j))
      && var c := o + |h| + CloseLen(text, o + |h|);
         FenceMatch(text).value.1 == c + TailLen(text, c)
  {
    var o := OpenLen(text);
    var j := CloseIndex(text[o..]).value;
    CloseAtIndex(text, j);
    FenceMatchAt(text, j);
    CloseAtDrop(text, o);
    forall i | o <= i < o + j ensures !CloseAt(text, i) {
      assert !CloseAt(text[o..], i - o);
    }
  }

  // ---------------------------------------------------------------------
  // Header lines: yaml.split(/\r?\n/) (main.js:32)
  // ---------------------------------------------------------------------

  function DropCR(s: string): string
  {
    if s != [] && s[|s| - 1] == '\r' then s[..|s| - 1] else s
  }

  /** Every piece but the last was followed by `\n`; a `\r` just before that
      `\n` belongs to the separator. */
  function DropCRs(pieces: seq<string>): (r: seq<string>)
    ensures |r| == |pieces|
    ensures |pieces| > 0 ==> r[|r| - 1] == pieces[|pieces| - 1]
    ensures forall i :: 0 <= i < |pieces| - 1 ==> r[i] == DropCR(pieces[i])
  {
    if |pieces| <= 1 then pieces else [DropCR(pieces[0])] + DropCRs(pieces[1..])
  }

  /** `yaml.split(/\r?\n/)`. */
  function SplitLines(s: string): (r: seq<string>)
    ensures |r| >= 1
    ensures forall i :: 0 <= i < |r| ==> '\n' !in r[i]
  {
    var pieces := Split(s, '\n');
    var r := DropCRs(pieces);
    assert forall i :: 0 <= i < |r| - 1 ==> r[i] == DropCR(pieces[i]);
    r
  }

  /** Pieces that do not end in `\r` lose nothing. */
  lemma {:induction false} DropCRsKeep(pieces: seq<string>)
    requires forall i :: 0 <= i < |pieces| ==> '\r' !in pieces[i]
    ensures DropCRs(pieces) == pieces
  {
    if |pieces| > 1 {
      if pieces[0] != [] {
        assert pieces[0][|pieces[0]| - 1] in pieces[0];
      }
      assert DropCR(pieces[0]) == pieces[0];
      DropCRsKeep(pieces[1..]);
      assert [pieces[0]] + pieces[1..] == pieces;
    }
  }

  /** Splitting the lines joined with `\n` gives them back, as long as none
      holds a `\n` or a `\r`. */
  lemma SplitLinesJoin(lines: seq<string>)
    requires |lines| >= 1
    requires forall i :: 0 <= i < |lines| ==> '\n' !in lines[i] && '\r' !in lines[i]
    ensures SplitLines(Join(lines, "\n")) == lines
  {
    SplitJoin(lines, '\n');
    DropCRsKeep(lines);
  }

  // ---------------------------------------------------------------------
  // The two line patterns (main.js:37 and main.js:55)
  // ---------------------------------------------------------------------

  predicate IsKeyChar(c: char)
  {
    ('A' <= c <= 'Z') || ('a' <= c <= 'z') || ('0' <= c <= '9') || c == '_' || c == '-'
  }

  predicate IsKey(k: string)
  {
    k != [] && forall i :: 0 <= i < |k| ==> IsKeyChar(k[i])
  }

  /** Length of the longest prefix of key characters. */
  function KeyPrefixLen(s: string): (n: nat)
    ensures n <= |s|
    ensures forall i :: 0 <= i < n ==> IsKeyChar(s[i])
    ensures n < |s| ==> !IsKeyChar(s[n])
  {
    if s != [] && IsKeyChar(s[0]) then 1 + KeyPrefixLen(s[1..]) else 0
  }

  /** `line.match(/^([A-Za-z0-9_\-]+):\s*(.*)$/)`: the key and the value. The
      key is the maximal run of key characters and must be followed by `:`;
      the greedy `\s*` takes all white space after the colon; `.*$` only
      matches when no line terminator is left. */
  function MatchKeyLine(line: string): (r: Option<(string, string)>)
    ensures r.Some? ==>
      var (k, v) := r.value;
      && IsKey(k) && |k| < |line| && line[..|k|] == k && line[|k|] == ':'
      && v == TrimStart(line[|k| + 1..]) && NoLineTerminator(v)
  {
    var n := KeyPrefixLen(line);
    if n == 0 || n == |line| || line[n] != ':' then None
    else
      var k, v := line[..n], TrimStart(line[n + 1..]);
      KeyOfPrefix(line, n);
      if NoLineTerminator(v) then Some((k, v)) else None
  }

  lemma KeyOfPrefix(line: string, n: nat)
    requires 0 < n <= |line| && forall i :: 0 <= i < n ==> IsKeyChar(line[i])
    ensures IsKey(line[..n])
  {
    var k := line[..n];
    forall i | 0 <= i < n ensures IsKeyChar(k[i]) {
      assert k[i] == line[i];
    }
  }

  lemma KeyPrefixOfKeyLine(k: string, rest: string)
    requires IsKey(k)
    ensures KeyPrefixLen(k + ":" + rest) == |k|
  {
    var line := k + ":" + rest;
    var n := KeyPrefixLen(line);
    assert line[|k|] == ':' && !IsKeyChar(':');
    forall i | 0 <= i < |k| ensures IsKeyChar(line[i]) {
      assert line[i] == k[i];
    }
  }

  /** Every line `key:` followed by white space and a value without line
      terminators matches, with exactly that key and value. */
  lemma MatchKeyLineOf(k: string, w: string, v: string)
    requires IsKey(k) && AllSpace(w) && NoLineTerminator(v)
    requires v == [] || !IsSpace(v[0])
    ensures MatchKeyLine(k + ":" + w + v) == Some((k, v))
  {
    var line := k + ":" + w + v;
    assert line == k + ":" + (w + v);
    KeyPrefixOfKeyLine(k, w + v);
    assert line[..|k|] == k && line[|k|] == ':' && line[|k| + 1..] == w + v;
    TrimStartSpacePrefix(w, v);
  }

  /** `line.match(/^\s*-\s*(.+)$/)`: the item after a dash. `.+` needs at
      least one character, so when nothing but white space follows the dash
      the second `\s*` gives its last character back to `.+`. */
  function MatchListItem(line: string): Option<string>
  {
    DashItemOf(TrimStart(line))
  }

  /** The item after the dash that starts `t`, which has no leading white space. */
  function DashItemOf(t: string): Option<string>
  {
    if t == [] || t[0] != '-' then None
    else
      var after := t[1..];
      var item := TrimStart(after);
      if item != [] then (if NoLineTerminator(item) then Some(item) else None)
      else if after != [] && !IsLineTerminator(after[|after| - 1]) then Some([after[|after| - 1]])
      else None
  }

  /** The match only looks at the line past its leading white space. */
  lemma MatchListItemTrimStart(a: string, b: string)
    requires TrimStart(a) == TrimStart(b)
    ensures MatchListItem(a) == MatchListItem(b)
  {
  }

  lemma DashItem(item: string)
    requires item != [] && !IsSpace(item[0]) && NoLineTerminator(item)
    ensures MatchListItem("- " + item) == Some(item)
  {
    var t := "- " + item;
    assert t[0] == '-' && !IsSpace('-');
    assert TrimStart(t) == t;
    assert t[1..] == " " + item;
    TrimStartSpacePrefix(" ", item);
    assert TrimStart(item) == item;
  }

  /** An indented `- item` line gives its item, white space inside the item
      included, when the item has no line terminator and does not start
      with white space. */
  lemma MatchListItemOf(w: string, item: string)
    requires AllSpace(w) && item != [] && !IsSpace(item[0]) && NoLineTerminator(item)
    ensures MatchListItem(w + "- " + item) == Some(item)
  {
    Assoc(w, "- ", item);
    TrimStartSpacePrefix(w, "- " + item);
    MatchListItemTrimStart(w + "- " + item, "- " + item);
    DashItem(item);
  }

  // ---------------------------------------------------------------------
  // Value classification (main.js:41-53)
  // ---------------------------------------------------------------------

  function LowerAscii(c: char): char
  {
    if 'A' <= c <= 'Z' then (c as int + 32) as char else c
  }

  /** `/^word$/i.test(v)` for a lower-case ASCII `word`. Case folding under
      the `i` flag never maps a non-ASCII character to an ASCII one. */
  predicate EqualsIgnoreCase(v: string, word: string)
  {
    |v| == |word| && forall i :: 0 <= i < |v| ==> LowerAscii(v[i]) == word[i]
  }

  /** `/^(true|false)$/i.test(v)`. */
  predicate IsBoolWord(v: string)
  {
    EqualsIgnoreCase(v, "true") || EqualsIgnoreCase(v, "false")
  }

  /** `/^\[.*\]$/.test(v)`, for a `v` that has no line terminator. */
  predicate IsBracketed(v: string)
  {
    |v| >= 2 && v[0] == '[' && v[|v| - 1] == ']'
  }

  /** `inner ? inner.split(',').map(s => s.trim()).filter(Boolean) : []`
      with `inner` the trimmed text between the brackets. */
  function BracketItems(v: string): (r: seq<string>)
    requires IsBracketed(v)
    ensures forall i :: 0 <= i < |r| ==> r[i] != [] && ',' !in r[i] && Trimmed(r[i])
    ensures Trim(v[1..|v| - 1]) == [] ==> r == []
  {
    var inner := Trim(v[1..|v| - 1]);
    if inner == [] then []
    else
      var pieces := Split(inner, ',');
      TrimmedPiecesKeepOut(pieces, ',');
      TrimmedPieces(pieces)
  }

  /** A value wrapped in a matching pair of `"` or `'` loses that pair and
      nothing else: no escape is undone. A lone `"` becomes empty, as
      `slice(1, -1)` of a one-character string is. */
  function Unquote(v: string): (r: string)
    ensures |v| >= 2 && (v[0] == '"' || v[0] == '\'') && v[|v| - 1] == v[0] ==> r == v[1..|v| - 1]
    ensures v == [] || (v[0] != '"' && v[0] != '\'') || v[|v| - 1] != v[0] ==> r == v
  {
    if |v| >= 1 && ((v[0] == '"' && v[|v| - 1] == '"') || (v[0] == '\'' && v[|v| - 1] == '\'')) then
      (if |v| >= 2 then v[1..|v| - 1] else "")
    else v
  }

  // ---------------------------------------------------------------------
  // The line loop (main.js:35-62)
  // ---------------------------------------------------------------------

  /** The loop state: the mapping built so far and `curKey`, the key whose
      block list `- item` lines extend. */
  datatype State = State(data: Mapping, curKey: Option<string>)

  const Start: State := State([], None)

  /** The list a `- item` line extends: the key's value if it is a list,
      otherwise a fresh empty one. */
  function ListValue(v: Option<FmValue>): seq<string>
  {
    if v.Some? && v.value.List? then v.value.items else []
  }

  /** How the value of a `key: value` line is read (main.js:41-53): a
      boolean word, a bracketed list, or a string with one pair of quotes
      taken off. An empty value reads as the empty string. */
  function ReadValue(v: string): FmValue
  {
    if v == "" then Str("")
    else if IsBoolWord(v) then Bool(EqualsIgnoreCase(v, "true"))
    else if IsBracketed(v) then List(BracketItems(v))
    else Str(Unquote(v))
  }

  /** What one header line does to the state: a `key: value` line stores
      under its key and leaves `curKey` set only for an empty value; a
      `- item` line under an active key appends the item to that key's
      list; any other line ends the block list if it is not indented. */
  function StepLine(st: State, line: string): State
  {
    match MatchKeyLine(line)
    case Some((k, v)) => State(Set(st.data, k, ReadValue(v)), if v == "" then Some(k) else None)
    case None =>
      var item := MatchListItem(line);
      if item.Some? && st.curKey.Some? then
        var k := st.curKey.value;
        State(Set(st.data, k, List(ListValue(Lookup(st.data, k)) + [item.value])), st.curKey)
      else if line != [] && !IsSpace(line[0]) then State(st.data, None)
      else st
  }

  /** The state after the given lines, in order. */
  function Run(st: State, lines: seq<string>): State
  {
    if lines == [] then st else StepLine(Run(st, lines[..|lines| - 1]), lines[|lines| - 1])
  }

  lemma {:induction false} RunAppend(st: State, a: seq<string>, b: seq<string>)
    ensures Run(st, a + b) == Run(Run(st, a), b)
  {
    if b != [] {
      assert (a + b)[..|a + b| - 1] == a + b[..|b| - 1];
      RunAppend(st, a, b[..|b| - 1]);
    } else {
      assert a + b == a;
    }
  }

  /** What `parseFrontmatter(text)` returns. */
  function FrontmatterOf(text: string): (r: Parsed)
    ensures !r.had ==> r == Parsed([], text, false)
    ensures r.had <==> FenceMatch(text).Some?
    ensures r.had ==> |r.body| < |text| && text[|text| - |r.body|..] == r.body
  {
    match FenceMatch(text)
    case None => Parsed([], text, false)
    case Some((h, e)) => Parsed(Run(Start, SplitLines(h)).data, text[e..], true)
  }

  /** One pass of the loop body of `parseFrontmatter` (main.js:36-61). */
  method ApplyLine(data0: Mapping, curKey0: Option<string>, line: string) returns (data: Mapping, curKey: Option<string>)
    ensures State(data, curKey) == StepLine(State(data0, curKey0), line)
  {
    data, curKey := data0, curKey0;
    ghost var before := State(data, curKey);
    var m2 := MatchKeyLine(line);
    if m2.Some? {
      var k := m2.value.0;
      var v := m2.value.1;
      assert StepLine(before, line) == State(Set(before.data, k, ReadValue(v)), if v == "" then Some(k) else None);
      if v == "" {
        data := Set(data, k, Str(""));
        curKey := Some(k);
      } else if IsBoolWord(v) {
        data := Set(data, k, Bool(EqualsIgnoreCase(v, "true")));
        curKey := None;
      } else if IsBracketed(v) {
        data := Set(data, k, List(BracketItems(v)));
        curKey := None;
      } else {
        data := Set(data, k, Str(Unquote(v)));
        curKey := None;
      }
    } else {
      var mList := MatchListItem(line);
      if mList.Some? && curKey.Some? {
        var cur := Lookup(data, curKey.value);
        var items := if cur.Some? && cur.value.List? then cur.value.items else [];
        assert items == ListValue(cur);
        data := Set(data, curKey.value, List(items + [mList.value]));
      } else if line != [] && !IsSpace(line[0]) {
        curKey := None;
      }
    }
  }

  /** The `for (const line of lines)` loop of `parseFrontmatter`. */
  method RunLines(lines: seq<string>) returns (data: Mapping)
    ensures data == Run(Start, lines).data
  {
    data := [];
    var curKey: Option<string> := None;
    var i := 0;
    while i < |lines|
      invariant 0 <= i <= |lines|
      invariant State(data, curKey) == Run(Start, lines[..i])
    {
      assert lines[..i + 1][..i] == lines[..i];
      data, curKey := ApplyLine(data, curKey, lines[i]);
      i := i + 1;
    }
    assert lines[..|lines|] == lines;
  }

  /** `parseFrontmatter(text)`: find the fences, then run the header lines
      through the `curKey` state machine. */
  method ParseFrontmatter(text: string) returns (p: Parsed)
    ensures p == FrontmatterOf(text)
  {
    var m := FenceMatch(text);
    if m.None? {
      return Parsed([], text, false);
    }
    var data := RunLines(SplitLines(m.value.0));
    return Parsed(data, text[m.value.1..], true);
  }

  // ---------------------------------------------------------------------
  // The writer (main.js:66-95)
  // ---------------------------------------------------------------------

  /** The characters of the class on main.js:66. */
  predicate IsQuoteTrigger(c: char)
  {
    || c == ':' || c == '#' || c == '-' || c == '?' || c == '&' || c == '*' || c == '!'
    || c == '[' || c == ']' || c == '{' || c == '}' || c == ',' || c == '>' || c == '|'
    || c == '\'' || c == '%' || c == '@' || c == '`'
  }

  /** `needsQuote(s)`: some character is one of those, or white space. */
  predicate NeedsQuote(s: string)
  {
    exists i :: 0 <= i < |s| && (IsQuoteTrigger(s[i]) || IsSpace(s[i]))
  }

  /** `s.replace(/"/g, '\\"')`: a backslash before every `"`. */
  function EscapeQuotes(s: string): (r: string)
    ensures |r| == |s| + multiset(s)['"']
    ensures '"' !in s ==> r == s
  {
    if s == [] then []
    else
      assert s == [s[0]] + s[1..];
      (if s[0] == '"' then "\\\"" else [s[0]]) + EscapeQuotes(s[1..])
  }

  /** A string or list item as `writeYaml` prints it. */
  function Quote(s: string): string
  {
    if NeedsQuote(s) then "\"" + EscapeQuotes(s) + "\"" else s
  }

  /** `  - item`, one line of a block list. */
  function ItemLine(item: string): string
  {
    "  - " + Quote(item)
  }

  function ItemLines(items: seq<string>): (r: seq<string>)
    ensures |r| == |items|
    ensures forall i :: 0 <= i < |items| ==> r[i] == ItemLine(items[i])
  {
    if items == [] then [] else ItemLines(items[..|items| - 1]) + [ItemLine(items[|items| - 1])]
  }

  lemma ItemLinesSnoc(head: seq<string>, items: seq<string>, j: nat)
    requires j < |items|
    ensures head + ItemLines(items[..j]) + [ItemLine(items[j])] == head + ItemLines(items[..j + 1])
  {
    assert items[..j + 1][..j] == items[..j];
  }

  /** What `pushKV(k, v)` pushes. */
  function EntryLines(e: Entry<FmValue>): seq<string>
  {
    match e.val
    case List(items) => [e.key + ":"] + ItemLines(items)
    case Bool(b) => [e.key + ": " + (if b then "true" else "false")]
    case Null => [e.key + ":"]
    case Str(v) => [e.key + ": " + Quote(v)]
  }

  /** The `out` array after all keys, in mapping order. */
  function YamlLines(data: Mapping): seq<string>
  {
    if data == [] then [] else YamlLines(data[..|data| - 1]) + EntryLines(data[|data| - 1])
  }

  /** What `writeYaml(data)` returns: the lines joined by `\n`, with no
      newline after the last. */
  function YamlText(data: Mapping): string
  {
    Join(YamlLines(data), "\n")
  }

  /** `pushKV(k, v)`: push the lines of one key onto `out`. */
  method PushKV(out0: seq<string>, k: string, v: FmValue) returns (out: seq<string>)
    ensures out == out0 + EntryLines(Entry(k, v))
  {
    out := out0;
    match v {
      case List(items) =>
        out := PushItems(out + [k + ":"], items);
        assert out0 + [k + ":"] + ItemLines(items) == out0 + ([k + ":"] + ItemLines(items));
      case Bool(b) =>
        out := out + [k + ": " + (if b then "true" else "false")];
      case Null =>
        out := out + [k + ":"];
      case Str(s) =>
        var val := s;
        if NeedsQuote(val) {
          val := "\"" + EscapeQuotes(val) + "\"";
        }
        assert val == Quote(s);
        out := out + [k + ": " + val];
    }
  }

  /** The `for (const it of v)` loop of `pushKV`: one `  - item` line per item. */
  method PushItems(out0: seq<string>, items: seq<string>) returns (out: seq<string>)
    ensures out == out0 + ItemLines(items)
  {
    out := out0;
    var j := 0;
    while j < |items|
      invariant 0 <= j <= |items|
      invariant out == out0 + ItemLines(items[..j])
    {
      var val := items[j];
      if NeedsQuote(val) {
        val := "\"" + EscapeQuotes(val) + "\"";
      }
      assert val == Quote(items[j]);
      var line := "  - " + val;
      assert line == ItemLine(items[j]);
      ItemLinesSnoc(out0, items, j);
      out := out + [line];
      j := j + 1;
    }
    assert items[..j] == items;
  }

  /** `writeYaml(data)`: push the lines of every key onto `out`, then join. */
  method WriteYaml(data: Mapping) returns (y: string)
    ensures y == YamlText(data)
  {
    var out: seq<string> := [];
    var i := 0;
    while i < |data|
      invariant 0 <= i <= |data|
      invariant out == YamlLines(data[..i])
    {
      assert data[..i + 1][..i] == data[..i];
      out := PushKV(out, data[i].key, data[i].val);
      i := i + 1;
    }
    assert data[..i] == data;
    y := Join(out, "\n");
  }

  /** `rebuildDoc(fm, body)`. */
  function RebuildDoc(fm: Mapping, body: string): string
  {
    "---\n" + YamlText(fm) + "\n---\n\n" + body
  }
}
