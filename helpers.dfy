/**
 * Two small helpers of the publisher: reading a comma-separated list typed
 * into a form field, and routing the XML-RPC endpoint through an optional
 * proxy address.
 */
module Helpers {
  import opened Opt
  import opened Text

  // ---------------------------------------------------------------------
  // parseListInput
  // ---------------------------------------------------------------------

  /** `parseListInput(s)`: split at commas, trim each piece, drop the empty
      ones. An absent input (`None`) reads as the empty string. */
  function ParseListInput(s: Option<string>): (r: seq<string>)
    ensures forall i :: 0 <= i < |r| ==> r[i] != [] && ',' !in r[i] && Trimmed(r[i])
  {
    var text := if s.Some? then s.value else "";
    var pieces := Split(text, ',');
    TrimmedPiecesKeepOut(pieces, ',');
    TrimmedPieces(pieces)
  }

  /** Nothing typed gives no items. */
  lemma EmptyListInput()
    ensures ParseListInput(None) == []
    ensures ParseListInput(Some("")) == []
  {
    assert Split("", ',') == [""];
    assert Trim("") == "";
  }

  /** The items are the pieces between the commas, trimmed, the empty ones
      dropped. */
  lemma ListOfPieces(ps: seq<string>)
    requires |ps| >= 1
    requires forall i :: 0 <= i < |ps| ==> ',' !in ps[i]
    ensures ParseListInput(Some(Join(ps, ","))) == TrimmedPieces(ps)
  {
    SplitJoin(ps, ',');
  }

  /** Pieces that are already clean pass through unchanged. */
  lemma {:induction false} TrimmedPiecesOfClean(xs: seq<string>)
    requires forall i :: 0 <= i < |xs| ==> xs[i] != [] && Trimmed(xs[i])
    ensures TrimmedPieces(xs) == xs
  {
    if xs != [] {
      var rest := xs[1..];
      assert xs == [xs[0]] + rest;
      assert forall i :: 0 <= i < |rest| ==> rest[i] == xs[i + 1];
      TrimmedPiecesOfClean(rest);
      TrimOfTrimmed(xs[0]);
      assert TrimmedPieces(xs) == [xs[0]] + TrimmedPieces(rest);
    }
  }

  /** Reading back a list written out with commas gives the list, for items
      that are non-empty, trimmed and free of commas. */
  lemma ListRoundTrip(xs: seq<string>)
    requires forall i :: 0 <= i < |xs| ==> xs[i] != [] && ',' !in xs[i] && Trimmed(xs[i])
    ensures ParseListInput(Some(Join(xs, ","))) == xs
  {
    if xs == [] {
      EmptyListInput();
    } else {
      ListOfPieces(xs);
      TrimmedPiecesOfClean(xs);
    }
  }

  // ---------------------------------------------------------------------
  // Substring search and replacement
  // ---------------------------------------------------------------------

  /** `pat` occurs in `s` starting at `j`. */
  predicate OccursAt(s: string, pat: string, j: nat)
  {
    j + |pat| <= |s| && s[j..j + |pat|] == pat
  }

  /** The first occurrence of `pat` in `s` at or after `k`. */
  function FindFrom(s: string, pat: string, k: nat): (r: Option<nat>)
    requires k <= |s|
    ensures r.Some? ==> k <= r.value && OccursAt(s, pat, r.value)
    ensures r.Some? ==> forall j :: k <= j < r.value ==> !OccursAt(s, pat, j)
    ensures r.None? ==> forall j :: k <= j ==> !OccursAt(s, pat, j)
    decreases |s| - k
  {
    if k + |pat| > |s| then None
    else if s[k..k + |pat|] == pat then Some(k)
    else FindFrom(s, pat, k + 1)
  }

  /** `s.indexOf(pat)`, as an option. */
  function FindFirst(s: string, pat: string): (r: Option<nat>)
    ensures r.Some? ==> OccursAt(s, pat, r.value) && forall j: nat :: j < r.value ==> !OccursAt(s, pat, j)
    ensures r.None? <==> forall j: nat :: !OccursAt(s, pat, j)
  {
    FindFrom(s, pat, 0)
  }

  /** `s.includes(pat)`. */
  predicate Includes(s: string, pat: string)
  {
    FindFirst(s, pat).Some?
  }

  /** `s.replace(pat, rep)` with a string pattern: the first occurrence
      only. */
  function ReplaceFirst(s: string, pat: string, rep: string): (r: string)
  {
    match FindFirst(s, pat)
    case None => s
    case Some(i) => s[..i] + rep + s[i + |pat|..]
  }

  /** Without an occurrence nothing changes; with one, the text before the
      first occurrence and the text after it are kept around `rep`. */
  lemma ReplaceFirstParts(s: string, pat: string, rep: string)
    ensures !Includes(s, pat) ==> ReplaceFirst(s, pat, rep) == s
    ensures Includes(s, pat) ==>
      var i := FindFirst(s, pat).value;
      var r := ReplaceFirst(s, pat, rep);
      s == s[..i] + pat + s[i + |pat|..]
      && r[..i] == s[..i] && r[i..i + |rep|] == rep && r[i + |rep|..] == s[i + |pat|..]
  {
    if Includes(s, pat) {
      var i := FindFirst(s, pat).value;
      assert s == s[..i] + s[i..i + |pat|] + s[i + |pat|..];
    }
  }

  // ---------------------------------------------------------------------
  // buildProxiedUrl
  // ---------------------------------------------------------------------

  const TargetPlaceholder := "{target}"

  /** `buildProxiedUrl(endpoint, proxyUrl)`. `encode` stands for
      `encodeURIComponent`, `None` meaning that it throws, which the source
      catches by falling back to the endpoint. */
  function BuildProxiedUrl(endpoint: string, proxy: string, encode: string -> Option<string>): (r: string)
    ensures proxy == "" || encode(endpoint).None? ==> r == endpoint
    ensures proxy != "" && encode(endpoint).Some? && !Includes(proxy, TargetPlaceholder) ==>
      |proxy| <= |r| && r[..|proxy|] == proxy
      && |encode(endpoint).value| <= |r| && r[|r| - |encode(endpoint).value|..] == encode(endpoint).value
  {
    if proxy == "" then endpoint
    else
      match encode(endpoint)
      case None => endpoint
      case Some(e) =>
        if Includes(proxy, TargetPlaceholder) then ReplaceFirst(proxy, TargetPlaceholder, e)
        else if '?' in proxy then proxy + "&target=" + e
        else if proxy[|proxy| - 1] == '/' then proxy + e
        else proxy + "?target=" + e
  }

  /** A proxy address with a `{target}` placeholder gets the encoded
      endpoint in place of its first placeholder, and the endpoint can be
      read back from that position. */
  lemma ProxyTemplate(endpoint: string, proxy: string, encode: string -> Option<string>)
    requires encode(endpoint).Some? && Includes(proxy, TargetPlaceholder)
    ensures var e := encode(endpoint).value;
      var i := FindFirst(proxy, TargetPlaceholder).value;
      var r := BuildProxiedUrl(endpoint, proxy, encode);
      r == proxy[..i] + e + proxy[i + |TargetPlaceholder|..]
      && r[i..i + |e|] == e
  {
    var e := encode(endpoint).value;
    var i := FindFirst(proxy, TargetPlaceholder).value;
    ReplaceFirstParts(proxy, TargetPlaceholder, e);
  }

  /** Without a placeholder, an address with a query string gets the
      endpoint as one more `target` parameter. */
  lemma ProxyQuery(endpoint: string, proxy: string, encode: string -> Option<string>)
    requires encode(endpoint).Some? && !Includes(proxy, TargetPlaceholder) && '?' in proxy
    ensures BuildProxiedUrl(endpoint, proxy, encode) == proxy + "&target=" + encode(endpoint).value
  {
  }

  /** Without a placeholder or a query string, an address ending in `/`
      gets the encoded endpoint appended as a path segment. */
  lemma ProxySlash(endpoint: string, proxy: string, encode: string -> Option<string>)
    requires encode(endpoint).Some? && !Includes(proxy, TargetPlaceholder) && '?' !in proxy
    requires proxy != "" && proxy[|proxy| - 1] == '/'
    ensures BuildProxiedUrl(endpoint, proxy, encode) == proxy + encode(endpoint).value
  {
  }

  /** Any other address gets a new query string holding the endpoint. */
  lemma ProxyPlain(endpoint: string, proxy: string, encode: string -> Option<string>)
    requires encode(endpoint).Some? && !Includes(proxy, TargetPlaceholder) && '?' !in proxy
    requires proxy != "" && proxy[|proxy| - 1] != '/'
    ensures BuildProxiedUrl(endpoint, proxy, encode) == proxy + "?target=" + encode(endpoint).value
  {
  }
}
