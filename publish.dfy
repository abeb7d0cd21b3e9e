/**
 * The metadata update of the publish handler (main.js:364-376): once the
 * post was sent, a copy of the old front matter gets the title, tags,
 * categories, draft flag and creation time of the post, the new post id
 * when the post was new, and the slug, and the document is rebuilt around
 * the unchanged body.
 */
module Publish {
  import opened Opt
  import opened OrderedMap
  import opened Dates
  import opened Text
  import opened Frontmatter
  import opened FrontmatterRoundTrip

  /** What the publish form and the server answer hand to the update. */
  datatype PublishInputs = PublishInputs(
    title: string,           // the trimmed title field, already defaulted
    slug: string,            // the trimmed slug field
    tags: seq<string>,       // parseListInput of the tags field
    categories: seq<string>, // parseListInput of the categories field
    draft: bool,
    created: DateFields,     // the local-time getters of `dt`
    hasCid: bool,            // the old front matter carried a post id
    newCid: string)          // String(result) of metaWeblog.newPost

  /** The slug written back: an empty slug of a new post becomes its id. */
  function FinalSlug(p: PublishInputs): string
  {
    if !p.hasCid && p.slug == "" then p.newCid else p.slug
  }

  /** The assignments of main.js:365-375, in their order; `date` is the
      text `iso8601(dt)` gives. */
  function Assignments(p: PublishInputs, date: string): seq<(string, FmValue)>
  {
    var title, tags, cats := ("title", Str(p.title)), ("tags", List(p.tags)), ("categories", List(p.categories));
    var draft, created := ("draft", Bool(p.draft)), ("dateCreated", Str(date));
    var slug := ("slug", Str(FinalSlug(p)));
    if p.hasCid then [title, tags, cats, draft, created, slug]
    else [title, tags, cats, draft, created, ("cid", Str(p.newCid)), slug]
  }

  /** `Object.assign({}, fm)` followed by `updated[k] = v` for each
      assignment in turn. */
  function Assign(m: Mapping, asg: seq<(string, FmValue)>): Mapping
    decreases |asg|
  {
    if asg == [] then m else Assign(Set(m, asg[0].0, asg[0].1), asg[1..])
  }

  /** `updated` after main.js:364-375. */
  function UpdatedFrontmatter(fm: Mapping, p: PublishInputs): Mapping
  {
    Assign(fm, Assignments(p, Iso8601(p.created)))
  }

  /** `preset.cid` (main.js:315): `String(fm.cid)` when `fm.cid` is truthy,
      otherwise the empty string. An array is always truthy and prints as
      its items joined by commas. */
  function PresetCid(fm: Mapping): string
  {
    var cid: Option<FmValue> := Lookup(fm, "cid");
    if cid.None? then ""
    else match cid.value
      case Str(s) => s
      case Bool(b) => if b then "true" else ""
      case Null => ""
      case List(items) => Join(items, ",")
  }

  /** The editor text after publishing `raw`: the front matter is read,
      updated, and written back around the body it was read with; the post
      counts as existing when its front matter carries a post id. */
  function PublishedText(raw: string, p: PublishInputs): string
  {
    var parsed := FrontmatterOf(raw);
    RebuildDoc(UpdatedFrontmatter(parsed.data, p.(hasCid := PresetCid(parsed.data) != "")), parsed.body)
  }

  function AssignedKeys(asg: seq<(string, FmValue)>): (ks: seq<string>)
    ensures |ks| == |asg| && forall i :: 0 <= i < |asg| ==> ks[i] == asg[i].0
  {
    if asg == [] then [] else [asg[0].0] + AssignedKeys(asg[1..])
  }

  /** The value the last assignment to `k` gives. */
  function LastAssigned(asg: seq<(string, FmValue)>, k: string): FmValue
    requires k in AssignedKeys(asg)
  {
    if k in AssignedKeys(asg[1..]) then LastAssigned(asg[1..], k) else asg[0].1
  }

  /** Key order of a JavaScript object after assigning `ks` in turn: a key
      already present stays where it is, a new one goes to the end. */
  function AddKeys(keys: seq<string>, ks: seq<string>): seq<string>
    decreases |ks|
  {
    if ks == [] then keys
    else
      var keys' := if ks[0] in keys then keys else keys + [ks[0]];
      AddKeys(keys', ks[1..])
  }

  /** After the assignments a key holds the value of its last assignment,
      and a key never assigned holds what it held before. */
  lemma {:induction false} AssignLookup(m: Mapping, asg: seq<(string, FmValue)>, k: string)
    ensures Lookup(Assign(m, asg), k) == if k in AssignedKeys(asg) then Some(LastAssigned(asg, k)) else Lookup(m, k)
    decreases |asg|
  {
    if asg != [] {
      AssignLookup(Set(m, asg[0].0, asg[0].1), asg[1..], k);
      assert AssignedKeys(asg) == [asg[0].0] + AssignedKeys(asg[1..]);
    }
  }

  /** The assignments keep every entry at its position, and leave the
      entries under keys they do not assign as they were. */
  lemma {:induction false} AssignPositions(m: Mapping, asg: seq<(string, FmValue)>)
    ensures var r := Assign(m, asg);
      && |r| >= |m|
      && (forall i :: 0 <= i < |m| ==> r[i].key == m[i].key)
      && (forall i :: 0 <= i < |m| && m[i].key !in AssignedKeys(asg) ==> r[i] == m[i])
    decreases |asg|
  {
    if asg != [] {
      var m' := Set(m, asg[0].0, asg[0].1);
      SetKeeps(m, asg[0].0, asg[0].1);
      SetOthers(m, asg[0].0, asg[0].1);
      AssignPositions(m', asg[1..]);
      assert AssignedKeys(asg) == [asg[0].0] + AssignedKeys(asg[1..]);
    }
  }

  /** `obj[k] = v` keeps every entry's key at its position. */
  lemma SetKeeps<V>(m: seq<Entry<V>>, k: string, v: V)
    ensures var r := Set(m, k, v);
      && |r| >= |m|
      && (forall i :: 0 <= i < |m| ==> r[i].key == m[i].key)
  {
    match IndexOf(m, k)
    case None =>
    case Some(i) =>
  }

  /** New keys are appended in the order they are first assigned. */
  lemma {:induction false} AssignKeys(m: Mapping, asg: seq<(string, FmValue)>)
    ensures Keys(Assign(m, asg)) == AddKeys(Keys(m), AssignedKeys(asg))
    decreases |asg|
  {
    if asg != [] {
      SetKeys(m, asg[0].0, asg[0].1);
      AssignKeys(Set(m, asg[0].0, asg[0].1), asg[1..]);
      assert AssignedKeys(asg)[1..] == AssignedKeys(asg[1..]);
    }
  }

  /** The assignments keep the keys distinct. */
  lemma {:induction false} AssignUnique(m: Mapping, asg: seq<(string, FmValue)>)
    requires UniqueKeys(m)
    ensures UniqueKeys(Assign(m, asg))
    decreases |asg|
  {
    if asg != [] {
      SetUnique(m, asg[0].0, asg[0].1);
      AssignUnique(Set(m, asg[0].0, asg[0].1), asg[1..]);
    }
  }

  /** The keys the update writes, in the order it writes them. */
  function ManagedKeys(hasCid: bool): seq<string>
  {
    if hasCid then ["title", "tags", "categories", "draft", "dateCreated", "slug"]
    else ["title", "tags", "categories", "draft", "dateCreated", "cid", "slug"]
  }

  lemma AssignedManaged(p: PublishInputs, date: string)
    ensures AssignedKeys(Assignments(p, date)) == ManagedKeys(p.hasCid)
  {
    var asg := Assignments(p, date);
    var ks := AssignedKeys(asg);
    var ms := ManagedKeys(p.hasCid);
    assert |ks| == |ms|;
    forall i | 0 <= i < |ks| ensures ks[i] == ms[i] {
      assert ks[i] == asg[i].0;
    }
  }

  /** The last assignment to `k` is the one at `i`. */
  lemma {:induction false} LastAssignedAt(asg: seq<(string, FmValue)>, k: string, i: nat)
    requires i < |asg| && asg[i].0 == k
    requires forall j :: i < j < |asg| ==> asg[j].0 != k
    ensures k in AssignedKeys(asg) && LastAssigned(asg, k) == asg[i].1
  {
    assert AssignedKeys(asg)[i] == k;
    if i > 0 {
      assert AssignedKeys(asg[1..])[i - 1] == k;
      LastAssignedAt(asg[1..], k, i - 1);
    } else {
      assert k !in AssignedKeys(asg[1..]);
    }
  }

  /** A key holds the value of its last assignment. */
  lemma AssignedAt(fm: Mapping, asg: seq<(string, FmValue)>, k: string, i: nat)
    requires i < |asg| && asg[i].0 == k
    requires forall j :: i < j < |asg| ==> asg[j].0 != k
    ensures Lookup(Assign(fm, asg), k) == Some(asg[i].1)
  {
    LastAssignedAt(asg, k, i);
    AssignLookup(fm, asg, k);
  }

  /** When no key is assigned twice, every key holds what was assigned to it. */
  lemma AssignDistinct(fm: Mapping, asg: seq<(string, FmValue)>)
    requires forall i, j :: 0 <= i < j < |asg| ==> asg[i].0 != asg[j].0
    ensures forall i :: 0 <= i < |asg| ==> Lookup(Assign(fm, asg), asg[i].0) == Some(asg[i].1)
  {
    forall i | 0 <= i < |asg| ensures Lookup(Assign(fm, asg), asg[i].0) == Some(asg[i].1) {
      AssignedAt(fm, asg, asg[i].0, i);
    }
  }

  /** The update assigns no key twice. */
  lemma AssignmentsDistinct(p: PublishInputs, date: string)
    ensures var asg := Assignments(p, date);
      forall i, j :: 0 <= i < j < |asg| ==> asg[i].0 != asg[j].0
  {
  }

  /** Every key the update assigns ends up with the value assigned to it:
      the title, tags, categories, draft flag, creation time and slug, and
      the post id when the post was new. */
  lemma UpdatedValues(fm: Mapping, p: PublishInputs)
    ensures var asg := Assignments(p, Iso8601(p.created));
      forall i :: 0 <= i < |asg| ==> Lookup(UpdatedFrontmatter(fm, p), asg[i].0) == Some(asg[i].1)
  {
    AssignmentsDistinct(p, Iso8601(p.created));
    AssignDistinct(fm, Assignments(p, Iso8601(p.created)));
  }

  lemma AssignedDate(fm: Mapping, p: PublishInputs, date: string)
    ensures Lookup(Assign(fm, Assignments(p, date)), "dateCreated") == Some(Str(date))
  {
    AssignedAt(fm, Assignments(p, date), "dateCreated", 4);
  }

  lemma AssignedSlug(fm: Mapping, p: PublishInputs, date: string)
    ensures Lookup(Assign(fm, Assignments(p, date)), "slug") == Some(Str(FinalSlug(p)))
  {
    var asg := Assignments(p, date);
    AssignedAt(fm, asg, "slug", |asg| - 1);
  }

  lemma AssignedCidKept(fm: Mapping, p: PublishInputs, date: string)
    requires p.hasCid
    ensures Lookup(Assign(fm, Assignments(p, date)), "cid") == Lookup(fm, "cid")
  {
    AssignedManaged(p, date);
    AssignLookup(fm, Assignments(p, date), "cid");
  }

  lemma AssignedCidNew(fm: Mapping, p: PublishInputs, date: string)
    requires !p.hasCid
    ensures Lookup(Assign(fm, Assignments(p, date)), "cid") == Some(Str(p.newCid))
  {
    AssignedAt(fm, Assignments(p, date), "cid", 5);
  }

  /** The creation time is written as the `dateTime.iso8601` text. */
  lemma UpdatedDate(fm: Mapping, p: PublishInputs)
    ensures Lookup(UpdatedFrontmatter(fm, p), "dateCreated") == Some(Str(Iso8601(p.created)))
  {
    AssignedDate(fm, p, Iso8601(p.created));
  }

  /** The slug is the one given, or the new post id when a new post was
      published without one. */
  lemma UpdatedSlug(fm: Mapping, p: PublishInputs)
    ensures Lookup(UpdatedFrontmatter(fm, p), "slug")
         == Some(Str(if !p.hasCid && p.slug == "" then p.newCid else p.slug))
  {
    AssignedSlug(fm, p, Iso8601(p.created));
  }

  /** The post id is replaced for a new post and kept for an edited one. */
  lemma UpdatedCid(fm: Mapping, p: PublishInputs)
    ensures Lookup(UpdatedFrontmatter(fm, p), "cid")
         == if p.hasCid then Lookup(fm, "cid") else Some(Str(p.newCid))
  {
    if p.hasCid {
      AssignedCidKept(fm, p, Iso8601(p.created));
    } else {
      AssignedCidNew(fm, p, Iso8601(p.created));
    }
  }

  /** Every other key keeps its value. */
  lemma UpdatedOthers(fm: Mapping, p: PublishInputs, k: string)
    requires k !in ManagedKeys(p.hasCid)
    ensures Lookup(UpdatedFrontmatter(fm, p), k) == Lookup(fm, k)
  {
    AssignedManaged(p, Iso8601(p.created));
    AssignLookup(fm, Assignments(p, Iso8601(p.created)), k);
  }

  /** Every entry of the old front matter stays at its position; the ones
      the update does not manage stay exactly as they were. */
  lemma UpdatedPositions(fm: Mapping, p: PublishInputs)
    ensures var r := UpdatedFrontmatter(fm, p);
      && |r| >= |fm|
      && (forall i :: 0 <= i < |fm| ==> r[i].key == fm[i].key)
      && (forall i :: 0 <= i < |fm| && fm[i].key !in ManagedKeys(p.hasCid) ==> r[i] == fm[i])
  {
    AssignedManaged(p, Iso8601(p.created));
    AssignPositions(fm, Assignments(p, Iso8601(p.created)));
  }

  /** New keys are appended in the order the update assigns them. */
  lemma UpdatedKeys(fm: Mapping, p: PublishInputs)
    ensures Keys(UpdatedFrontmatter(fm, p)) == AddKeys(Keys(fm), ManagedKeys(p.hasCid))
  {
    AssignedManaged(p, Iso8601(p.created));
    AssignKeys(fm, Assignments(p, Iso8601(p.created)));
  }

  /** The update keeps the keys of the front matter distinct. */
  lemma UpdatedUnique(fm: Mapping, p: PublishInputs)
    requires UniqueKeys(fm)
    ensures UniqueKeys(UpdatedFrontmatter(fm, p))
  {
    AssignUnique(fm, Assignments(p, Iso8601(p.created)));
  }

  /** The typed fields and the new post id hold no line break. */
  predicate InputsPrintable(p: PublishInputs)
  {
    && NoBreak(p.title) && NoBreak(p.slug) && NoBreak(p.newCid)
    && (forall i :: 0 <= i < |p.tags| ==> NoBreak(p.tags[i]))
    && (forall i :: 0 <= i < |p.categories| ==> NoBreak(p.categories[i]))
  }

  lemma DigitsNoBreak(s: string)
    requires AllDigits(s)
    ensures NoBreak(s)
  {
    forall c | c in s ensures c != '\n' && c != '\r' {
      var i :| 0 <= i < |s| && s[i] == c;
      assert IsDigit(s[i]);
    }
  }

  lemma NoBreakAppend(a: string, b: string)
    requires NoBreak(a) && NoBreak(b)
    ensures NoBreak(a + b)
  {
  }

  lemma YearNoBreak(y: int)
    ensures NoBreak(IntToString(y))
  {
    var r := IntToString(y);
    if y < 0 {
      DigitsNoBreak(r[1..]);
      assert r == [r[0]] + r[1..];
    } else {
      DigitsNoBreak(r);
    }
  }

  /** The `iso8601` text is digits, a sign, `T` and colons. */
  lemma DateNoBreak(d: DateFields)
    ensures NoBreak(Iso8601(d))
  {
    var y, mo, da := IntToString(d.year), Pad(d.month + 1), Pad(d.day);
    var h, mi, se := Pad(d.hours), Pad(d.minutes), Pad(d.seconds);
    YearNoBreak(d.year);
    DigitsNoBreak(mo);
    DigitsNoBreak(da);
    DigitsNoBreak(h);
    DigitsNoBreak(mi);
    DigitsNoBreak(se);
    NoBreakAppend(y, mo);
    NoBreakAppend(y + mo, da);
    NoBreakAppend("T", h);
    NoBreakAppend("T" + h, ":");
    NoBreakAppend("T" + h + ":", mi);
    NoBreakAppend("T" + h + ":" + mi, ":");
    NoBreakAppend("T" + h + ":" + mi + ":", se);
    NoBreakAppend(DateDigits(d), TimeOfDay(d));
  }

  /** `obj[k] = v` keeps a mapping printable. */
  lemma SetPrintable(m: Mapping, k: string, v: FmValue)
    requires Printable(m) && WritableKey(k) && PrintableValue(v)
    ensures Printable(Set(m, k, v))
  {
    match IndexOf(m, k)
    case None =>
      assert Set(m, k, v) == m + [Entry(k, v)];
    case Some(i) =>
      assert Set(m, k, v) == m[i := Entry(k, v)];
  }

  /** An assignment whose key and value print on one line. */
  predicate PrintableAssignment(a: (string, FmValue))
  {
    WritableKey(a.0) && PrintableValue(a.1)
  }

  lemma {:induction false} AssignPrintable(m: Mapping, asg: seq<(string, FmValue)>)
    requires Printable(m)
    requires forall i :: 0 <= i < |asg| ==> PrintableAssignment(asg[i])
    ensures Printable(Assign(m, asg))
    decreases |asg|
  {
    if asg != [] {
      SetPrintable(m, asg[0].0, asg[0].1);
      AssignPrintable(Set(m, asg[0].0, asg[0].1), asg[1..]);
    }
  }

  /** The update keeps the front matter printable when the typed fields
      hold no line break. */
  lemma ManagedKeysWritable()
    ensures WritableKey("title") && WritableKey("tags") && WritableKey("categories") && WritableKey("draft")
    ensures WritableKey("dateCreated") && WritableKey("cid") && WritableKey("slug")
  {
  }

  /** Every assignment of the update prints on one line when the typed
      fields and the date do. */
  lemma AssignmentsPrintable(p: PublishInputs, date: string)
    requires InputsPrintable(p) && NoBreak(date)
    ensures forall i :: 0 <= i < |Assignments(p, date)| ==> PrintableAssignment(Assignments(p, date)[i])
  {
    ManagedKeysWritable();
    var title, tags, cats := ("title", Str(p.title)), ("tags", List(p.tags)), ("categories", List(p.categories));
    var draft, created := ("draft", Bool(p.draft)), ("dateCreated", Str(date));
    var slug := ("slug", Str(FinalSlug(p)));
    assert PrintableAssignment(title) && PrintableAssignment(tags) && PrintableAssignment(cats);
    assert PrintableAssignment(draft) && PrintableAssignment(created) && PrintableAssignment(slug);
    assert PrintableAssignment(("cid", Str(p.newCid)));
  }

  /** The update keeps the front matter printable when the typed fields
      hold no line break. */
  lemma UpdatedPrintable(fm: Mapping, p: PublishInputs)
    requires Printable(fm) && InputsPrintable(p)
    ensures Printable(UpdatedFrontmatter(fm, p))
  {
    DateNoBreak(p.created);
    AssignmentsPrintable(p, Iso8601(p.created));
    AssignPrintable(fm, Assignments(p, Iso8601(p.created)));
  }

  /** The body of the document passes through a publish untouched: the
      published text has front matter, and reading it gives back the old
      body after the one extra line break every rebuilt document carries.
      Titles with quotes, tags with spaces and any value that prints
      quoted are all allowed; only keys and values that would break the
      header into more lines are not. */
  lemma PublishedBody(raw: string, p: PublishInputs)
    requires Printable(FrontmatterOf(raw).data) && InputsPrintable(p)
    ensures var r := FrontmatterOf(PublishedText(raw, p));
      r.had && r.body == "\n" + FrontmatterOf(raw).body
  {
    var parsed := FrontmatterOf(raw);
    var p' := p.(hasCid := PresetCid(parsed.data) != "");
    assert InputsPrintable(p');
    UpdatedPrintable(parsed.data, p');
    RebuildBody(UpdatedFrontmatter(parsed.data, p'), parsed.body);
  }

  /** When the updated front matter is writable, reading the published
      text also gives back the updated front matter, as read back. */
  lemma PublishedTextReadBack(raw: string, p: PublishInputs)
    requires var fm := FrontmatterOf(raw).data;
      Writable(UpdatedFrontmatter(fm, p.(hasCid := PresetCid(fm) != "")))
    ensures var parsed := FrontmatterOf(raw);
      var updated := UpdatedFrontmatter(parsed.data, p.(hasCid := PresetCid(parsed.data) != ""));
      FrontmatterOf(PublishedText(raw, p)) == Parsed(ReadBackAll(updated), "\n" + parsed.body, true)
  {
    var parsed := FrontmatterOf(raw);
    RebuildRoundTrip(UpdatedFrontmatter(parsed.data, p.(hasCid := PresetCid(parsed.data) != "")), parsed.body);
  }
}
