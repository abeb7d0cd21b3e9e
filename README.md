# Typecho publisher for flymd, modelled in Dafny

The plugin publishes the Markdown document open in the flymd editor to a
Typecho blog over XML-RPC (`metaWeblog.newPost` / `metaWeblog.editPost`).
This project models the parts of `main.js` that compute, not the ones that
talk to the editor, the browser or the network:

- **Front matter** (`frontmatter.dfy`, `frontmatter_roundtrip.dfy`).
  - `parseFrontmatter` reads the `---` header at the start of a document into an insertion-ordered mapping plus the body, line by line. It is modelled as a state machine `StepLine`/`Run` and as the method `ParseFrontmatter` with its loop.
  - `writeYaml` and `rebuildDoc` write a mapping back out. `WriteYaml` and `PushKV` are the loops; `YamlText` is their specification.
  - The round-trip lemmas say exactly what survives a rebuild followed by a parse.
- **Publish update** (`publish.dfy`). After a successful call, the handler copies the old front matter and assigns the managed keys in order: `title`, `tags`, `categories`, `draft`, `dateCreated`, the new `cid` of a new post, and `slug`. Then it rebuilds the document around the unchanged body.
- **XML-RPC encoder** (`xml.dfy`, `xmlrpc_encode.dfy`). It covers `xmlEscape`, `xmlEncodeValue` and `xmlBuildCall`, plus `pad` and `iso8601` (`dates.dfy`). Each encoding is proved to be the markup of an element tree. Escaping is undone by entity decoding.
- **XML-RPC decoder** (`xmlrpc_decode.dfy`). It covers `parseVal` and `xmlParseResponse` over the element tree a `DOMParser` builds:
  - `getElementsByTagName(t)[0]` is the first match of a preorder descendant search;
  - `textContent` is the concatenation of descendant text;
  - the result is `Ok(value)` (with `JNull` for `null`) or `Fault(code, message)` for the thrown fault.
  - `ParseVal` is the specification. `DecodeValue`, `DecodeStruct`, `DecodeArray` and `ParseResponse` are the source's loops, proved equal to it.
- **Decoder against encoder** (`xmlrpc_roundtrip.dfy`). This is what the decoder makes of the element tree of what the encoder writes. A parser's end-of-line handling is not part of it (see "Left out"). It is not an inverse:
  - `nil` comes back as `""`;
  - scalar text comes back trimmed;
  - a date comes back as its text;
  - a struct collects the members of every struct nested inside it.
- **Helpers** (`helpers.dfy`). `parseListInput` for the tag and category fields, and `buildProxiedUrl`.

Shared pieces:

- `text.dfy`: the ECMAScript white space of `\s` and `trim`, `split` on one character, `join`, `String(n)` and `parseInt`.
- `ordered_map.dfy`: `obj[k] = v` on an insertion-ordered object.
- `option.dfy`: the `Option` type.

## Model

| member | source | states |
|---|---|---|
| `Dates.Pad` | main.js:14 | the result is at least two decimal digits, reads back as `n`, and is exactly two digits for `n <= 99` |
| `Dates.Iso8601RoundTrip` | main.js:15-24 | for a four-digit year and getter values in range, the timestamp is 17 characters and parses back to every field it was made from |
| `Dates.Iso8601Parts` | main.js:15-24 | where the date digits, the `T`, the colons and each padded field sit in the timestamp |
| `Dates.PadStartIsPad` | main.js:14 | `String(n).padStart(2,'0')` of `toLocalDTStr` and `pad(n)` agree on every natural number |
| `Dates.LocalDateTimeParts` | main.js:296 | the `datetime-local` text is 16 characters, with dashes, `T` and colon in place and each padded field at its offset |
| `Dates.LocalDateTimeMatchesIso8601` | main.js:296 | the `datetime-local` text carries the same year, month, day, hours and minutes as the `iso8601` text, minus the seconds |
| `Text.ParseIntOfIntToString` | main.js:122 | `parseInt` reads back the decimal text of every integer |
| `Text.SplitJoin` | main.js:194 | splitting at a separator the pieces do not contain gives the pieces back |
| `Frontmatter.OpenFence` | main.js:28 | the opening fence is `---\n` or `---\r\n` at offset 0, or neither text is there |
| `Frontmatter.CloseFence` | main.js:28 | a closing fence is `\n---` or `\r\n---` |
| `Frontmatter.TailFence` | main.js:28 | the optional `\r?\n?` after the closing fence is taken greedily: a lone `\r` is never followed by `\n` |
| `Frontmatter.FenceMatch` | main.js:28 | a match exists iff there is an opening fence and a closing `\r?\n---` after it; the header lies between the two |
| `Frontmatter.FenceMatchParts` | main.js:28-31 | the header is the text before the first closing fence (lazy match), and the body is the rest after the optional line break |
| `Frontmatter.SplitLines` | main.js:32 | there is at least one line, and no line contains `\n` |
| `Frontmatter.SplitLinesJoin` | main.js:32 | splitting lines joined with `\n` gives back the lines, when they hold no line terminators |
| `Frontmatter.KeyPrefixLen` | main.js:37 | the longest prefix of key characters `[A-Za-z0-9_-]` |
| `Frontmatter.MatchKeyLineOf` | main.js:37 | `key:` plus white space plus a value that does not start with white space matches with that key and value |
| `Frontmatter.MatchListItemOf` | main.js:55 | indentation, `- ` and a non-empty item with no line terminator and no leading white space match as that item, inner white space included |
| `Frontmatter.BracketItems` | main.js:43-45 | the items of `[a, b]` are non-empty, trimmed and comma-free; an empty inside gives no items |
| `Frontmatter.Unquote` | main.js:48-50 | a value wrapped in matching quotes loses them; any other value is kept |
| `Frontmatter.RunAppend` | main.js:35-62 | running the line loop over `a + b` is running it over `a` and then over `b` |
| `Frontmatter.FrontmatterOf` | main.js:27-64 | without a fence, the result is no data, the whole text as body and `had == false`; with one, the body is a proper suffix of the text |
| `Frontmatter.ApplyLine` | main.js:36-61 | one loop pass moves the (data, current key) state exactly as `StepLine` specifies |
| `Frontmatter.RunLines` | main.js:33-62 | the loop over all header lines ends in the state `Run` specifies |
| `Frontmatter.ParseFrontmatter` | main.js:27-64 | the method returns exactly `FrontmatterOf(text)` |
| `Frontmatter.EscapeQuotes` | main.js:83 | the result is longer than the text by exactly its number of `"`, and quote-free text is unchanged |
| `FrontmatterRoundTrip.UnescapeEscapeQuotes` | main.js:83 | dropping the backslash of each `\"` pair, left to right, gives back every string, backslashes included |
| `Frontmatter.ItemLines` | main.js:72-76 | one `  - item` line per list item, in order |
| `Frontmatter.PushKV` | main.js:69-86 | appends exactly the lines `YamlText` gives for one entry |
| `Frontmatter.PushItems` | main.js:72-76 | appends one `  - item` line per list item, quoted where needed, in order |
| `Frontmatter.WriteYaml` | main.js:67-90 | returns `YamlText(data)`, the entry lines in key order joined with `\n` |
| `FrontmatterRoundTrip.RebuildBody` | main.js:27-95 | for every mapping whose keys print as keys and whose values hold no line break, the rebuilt document's front matter is found again and the body comes back after one added line break |
| `FrontmatterRoundTrip.RebuildRoundTrip` | main.js:27-95 | parsing a rebuilt document gives back every key in order, each value as the parser reads back what the writer printed, and the body after one added line break |
| `FrontmatterRoundTrip.TameRoundTrip` | main.js:27-95 | a mapping with unique keys, no null, no empty list and plainly printed items comes back unchanged |
| `FrontmatterRoundTrip.TameReadBack` | main.js:66-86 | a tame value is writable and reads back as itself |
| `OrderedMap.Set` | main.js:129-134 | after `obj[k] = v`, `k` holds `v` and every other key keeps its value |
| `OrderedMap.SetKeys` | main.js:129-134 | assigning an existing key keeps the key order; a new key is added last |
| `OrderedMap.SetOthers` | main.js:129-134 | the result is no shorter, and every entry under another key stays at its index unchanged |
| `OrderedMap.SetUnique` | main.js:129-134 | assignment keeps keys unique |
| `OrderedMap.SetAllLookup` | main.js:129-134 | after a run of assignments, a key holds the value of its last assignment, or its earlier value if it was never assigned |
| `OrderedMap.SetAllUnique` | main.js:129-134 | a run of assignments keeps keys unique |
| `Publish.AssignLookup` | main.js:364-375 | after the assignments, a key holds its last assigned value, or its old value when it was not assigned |
| `Publish.UpdatedDate` | main.js:369 | `dateCreated` holds the `iso8601` text of the creation time |
| `Publish.UpdatedSlug` | main.js:373-375 | `slug` holds the typed slug, or the new post id for a new post with an empty slug |
| `Publish.UpdatedCid` | main.js:370-372 | `cid` keeps its old value for an existing post and holds the new id for a new one |
| `Publish.UpdatedOthers` | main.js:364 | every key the update does not manage keeps its old value |
| `Publish.UpdatedPositions` | main.js:364-375 | every old key keeps its position, and an entry the update does not manage stays exactly as it was |
| `Publish.UpdatedKeys` | main.js:364-375 | the keys afterwards are the old keys followed by the managed keys that were missing |
| `Publish.UpdatedUnique` | main.js:364-375 | keys stay unique |
| `Publish.UpdatedPrintable` | main.js:364-375 | when the typed fields and the old front matter hold no line break, every updated key and value still prints on one line |
| `Publish.PublishedBody` | main.js:364-376 | the published text has front matter, and re-reading it gives the old body after one added line break; quotes, white space and `true`/`false` in titles, tags and old values are all allowed |
| `Publish.PublishedTextReadBack` | main.js:364-376 | when the updated front matter is writable, re-reading the published text also gives the updated front matter as read back |
| `Xml.XmlEscapeAppend` | main.js:98 | escaping distributes over concatenation |
| `Xml.XmlEscapeClean` | main.js:98 | escaped text contains none of `<`, `>`, `"`, `'` |
| `Xml.UnescapeXmlEscape` | main.js:98 | decoding the five predefined entities gives back the escaped text |
| `XmlRpcEncode.EncodeIsMarkup` | main.js:99-108 | the encoding of every value is the markup of its element tree: well nested, with escaped character data |
| `XmlRpcEncode.BuildCallIsMarkup` | main.js:109-111 | a call is the XML declaration plus the markup of its tree: the escaped method name and one `param` per argument, in order |
| `XmlRpcEncode.EncodeItemsAppend` | main.js:101 | array items are written in order, one `<value>` each |
| `XmlRpcEncode.EncodeMembersAppend` | main.js:106 | struct members are written in entry order, each name escaped |
| `XmlRpcEncode.EncodeParamsAppend` | main.js:110 | arguments are written in order, one `<param><value>` each |
| `XmlRpcEncode.MemberNameClean` | main.js:106 | an escaped member name cannot open or close markup, and it decodes back to the name |
| `XmlRpcDecode.DecodeValue` | main.js:115-147 | the decoder with its loops returns exactly `ParseVal(n)` |
| `XmlRpcDecode.DecodeOpt` | main.js:115-116 | a missing node gives `null`, a present one `ParseVal` |
| `XmlRpcDecode.DecodeStruct` | main.js:126-136 | the struct loop builds exactly `StructEntries(n)`, assigning each `member` descendant in document order |
| `XmlRpcDecode.DecodeArray` | main.js:137-145 | the array loop builds exactly `ArrayItems(n)`; with no `data` element the result is empty |
| `XmlRpcDecode.ParseResponse` | main.js:112-163 | the method returns exactly `ResponseOf(doc)` |
| `XmlRpcDecode.FaultField` | main.js:151-152 | a fault field is the default, or a truthy value the object really holds under that key |
| `XmlRpcDecode.ValueFirstElement` | main.js:118 | text before the first element child of a `value` is ignored |
| `XmlRpcDecode.UntypedValueRaw` | main.js:118-124 | untyped `<value>` text is not trimmed, while `<string>` text is |
| `XmlRpcDecode.BooleanIsOne` | main.js:121 | a `boolean` element always gives a boolean, true iff its trimmed text is `1` |
| `XmlRpcDecode.BooleanWordIsFalse` | main.js:121 | `<boolean>true</boolean>` decodes to false |
| `XmlRpcDecode.MembersFoldLookup` | main.js:129-134 | a key of the decoded struct holds the value of the last member with that name; a key no member has is absent |
| `XmlRpcDecode.MembersFoldUnique` | main.js:127-134 | a decoded struct has unique keys |
| `XmlRpcDecode.ItemsFoldIsMap` | main.js:140-143 | the array holds the decoded `value` children, in order, and nothing else |
| `XmlRpcDecode.FaultWithoutStruct` | main.js:148-156 | a fault whose value is not a struct reports code -1 and the default message |
| `XmlRpcRoundTrip.TreeDecode` | main.js:115-147 | decoding the tree of a value with no struct nested in a struct member gives its normalised form |
| `XmlRpcRoundTrip.IntDecode` | main.js:122 | an encoded integer decodes to itself |
| `XmlRpcRoundTrip.BoolDecode` | main.js:121 | an encoded boolean decodes to itself |
| `XmlRpcRoundTrip.DateDecode` | main.js:119-124 | an encoded date decodes to its `iso8601` text |
| `XmlRpcRoundTrip.NilDecode` | main.js:146 | an encoded `null` decodes to the empty string |
| `XmlRpcRoundTrip.ArrayDecode` | main.js:137-145 | an encoded array decodes item by item |
| `XmlRpcRoundTrip.StructDecode` | main.js:126-136 | an encoded struct without nested structs decodes to its entries assigned in order |
| `XmlRpcRoundTrip.ResponseRoundTrip` | main.js:157-162 | a response whose one parameter holds a flat value gives `Ok` of that value, normalised |
| `XmlRpcRoundTrip.FaultRoundTrip` | main.js:148-156 | a fault struct reports its code and trimmed message, with `-1` for code 0 and the default message for an empty one |
| `XmlRpcRoundTrip.NestedMembersLeak` | main.js:126-136 | a struct member holding a struct also gets that struct's member assigned to the outer object, after it |
| `Helpers.ParseListInput` | main.js:194 | every item is non-empty, trimmed and free of commas |
| `Helpers.EmptyListInput` | main.js:194 | no input, and empty input, give no items |
| `Helpers.ListOfPieces` | main.js:194 | the items are the comma-separated pieces, trimmed, with the empty ones dropped |
| `Helpers.ListRoundTrip` | main.js:194 | clean items joined with commas read back as themselves |
| `Helpers.FindFirst` | main.js:168 | the index of the first occurrence of the pattern; absent iff it occurs nowhere |
| `Helpers.ReplaceFirstParts` | main.js:168 | the first occurrence is replaced, and the text before and after it is kept |
| `Helpers.BuildProxiedUrl` | main.js:165-173 | no proxy, or an encoder that throws, gives the endpoint; without a placeholder, the result starts with the proxy and ends with the encoded endpoint |
| `Helpers.ProxyTemplate` | main.js:168 | the first `{target}` is replaced by the encoded endpoint |

## Left out

- The XML text parser (`DOMParser`). The decoder works on the element tree it yields, with entities already decoded. Malformed XML and `parsererror` documents are not modelled.
- The parser's end-of-line handling and the characters XML 1.0 forbids. A parser turns `\r\n` and a lone `\r` in character data into `\n` (section 2.11 of XML 1.0), while `xmlEscape` leaves `\r` as it is. So in the program a string holding `\r` comes back with `\n` in its place. The round-trip lemmas start from the element tree `Tree(v)` and keep the `\r`. A string holding a control character other than tab, line feed and carriage return encodes to text that is not well-formed XML (section 2.2 of XML 1.0), so a parser yields no tree for it at all.
- `xmlRpcPost`, `fetch`, and HTTP status handling. Also settings storage (`ctx.storage`, `localStorage`), all dialog and overlay UI, and editor access. These are I/O.
- The `Date` constructor and the clock. Dates are the values of the local-time getters, and the publish time offset is not modelled.
- `Number(s)` and the rendering of non-integral numbers. `<double>` content is kept as its text, and whether that number is truthy is a parameter (`numTruthy`) of the response decoder.
- JavaScript number semantics for integers: huge integers printed in exponent form, and `-0`. `Int` is an unbounded integer printed in plain decimal.
- `Number.isInteger` is not evaluated. An integral number is `Int`, any other number is `Double`.
- The ordering of integer-like keys in JavaScript objects, which come first in `Object.keys`. So are the `__proto__` key and inherited properties. Mappings keep plain insertion order.
- `encodeURIComponent`, which is a function parameter of `BuildProxiedUrl`. `None` stands for the exception it throws on lone surrogates. `$` patterns in the replacement string of `String.prototype.replace` are not interpreted; `encodeURIComponent` escapes `$`, so they cannot occur.
- `String(result)` of the `newPost` answer, and the error message built from a fault (`new Error`, `err.code`). The model returns the code and message as a `Fault` value.
- `Publish.UpdatedFrontmatter`: the title, slug, tags and categories are taken as already trimmed and split. The form reading that produces them is UI.
- `Publish.PresetCid`: a numeric `cid` is not modelled, because the parser only produces strings, booleans and lists.
- `Publish.PublishedBody`: stated for old front matter whose keys do not start with `---` and whose values hold no line break, and for typed fields without line breaks. A line break in a value splits the header into more lines. A key starting with `---` on any header line but the first ends the header early.
- `Publish.PublishedTextReadBack`: stated only for writable updates, as `FrontmatterRoundTrip.RebuildRoundTrip` is. It excludes a title, slug or old string value that holds `"` or a line terminator, or that reads `true` or `false` in any letter case. It also excludes an empty tag or category. Tags with white space are included; they come back with the quotes the writer put around them. `Publish.PublishedBody` covers the body for all of these.
- `FrontmatterRoundTrip.RebuildRoundTrip`: stated for writable mappings only. These exclusions remain:
  - a string value that holds `"`: when the writer quotes it, the parser strips the outer quotes but keeps the backslashes the writer added, and an unquoted value wrapped in `"` loses its own quotes;
  - a string value that reads `true` or `false` in any letter case: it comes back as a boolean;
  - an empty list item: it prints as `  - ` and comes back as `" "`;
  - a value or list item with a line terminator, and a key that is not a key the parser reads or that starts with `---`.
  List items with white space, `"` or other quoting characters are included. They come back with the quotes the writer added, as `ReadBack` states.
- `XmlRpcRoundTrip.TreeDecode`: stated only for values with no struct inside a struct member. Nested structs leak their members into the outer object, as `NestedMembersLeak` shows.
- `Xml.Unescape` stands for a parser's entity decoding of the five predefined entities. Character references other than `&#39;` are not modelled.
