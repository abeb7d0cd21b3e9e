/**
 * An insertion-ordered mapping from strings to values, updated the way a
 * JavaScript object is by `obj[k] = v`: the value of a key that is already
 * present is replaced where it stands, a new key is appended at the end.
 */
module OrderedMap {
  import opened Opt

  datatype Entry<V> = Entry(key: string, val: V)

  function Keys<V>(m: seq<Entry<V>>): (ks: seq<string>)
    ensures |ks| == |m|
    ensures forall i :: 0 <= i < |m| ==> ks[i] == m[i].key
  {
    if m == [] then [] else [m[0].key] + Keys(m[1..])
  }

  predicate UniqueKeys<V>(m: seq<Entry<V>>)
  {
    forall i, j :: 0 <= i < j < |m| ==> m[i].key != m[j].key
  }

  /** The position of key `k`, if it is present. */
  function IndexOf<V>(m: seq<Entry<V>>, k: string): (r: Option<nat>)
    ensures r.None? ==> forall j :: 0 <= j < |m| ==> m[j].key != k
    ensures r.Some? ==> r.value < |m| && m[r.value].key == k && forall j :: 0 <= j < r.value ==> m[j].key != k
  {
    if m == [] then None
    else if m[0].key == k then Some(0)
    else match IndexOf(m[1..], k)
      case None => None
      case Some(i) => Some(i + 1)
  }

  lemma IndexOfIs<V>(m: seq<Entry<V>>, k: string, i: int)
    requires 0 <= i < |m| && m[i].key == k
    requires forall j :: 0 <= j < i ==> m[j].key != k
    ensures IndexOf(m, k) == Some(i)
  {
  }

  lemma IndexOfNone<V>(m: seq<Entry<V>>, k: string)
    requires forall j :: 0 <= j < |m| ==> m[j].key != k
    ensures IndexOf(m, k) == None
  {
  }

  /** `obj[k]`: the value stored under `k`, if any. */
  function Lookup<V>(m: seq<Entry<V>>, k: string): (r: Option<V>)
  {
    match IndexOf(m, k)
    case None => None
    case Some(i) => Some(m[i].val)
  }

  lemma IndexOfAfterAppend<V>(m: seq<Entry<V>>, e: Entry<V>)
    ensures forall k' :: k' != e.key ==> IndexOf(m + [e], k') == IndexOf(m, k')
  {
    forall k' | k' != e.key ensures IndexOf(m + [e], k') == IndexOf(m, k') {
      match IndexOf(m, k')
      case None => IndexOfNone(m + [e], k');
      case Some(j) => IndexOfIs(m + [e], k', j);
    }
  }

  lemma IndexOfAfterUpdate<V>(m: seq<Entry<V>>, i: nat, e: Entry<V>)
    requires i < |m| && m[i].key == e.key
    ensures forall k' :: k' != e.key ==> IndexOf(m[i := e], k') == IndexOf(m, k')
  {
    forall k' | k' != e.key ensures IndexOf(m[i := e], k') == IndexOf(m, k') {
      match IndexOf(m, k')
      case None => IndexOfNone(m[i := e], k');
      case Some(j) => IndexOfIs(m[i := e], k', j);
    }
  }

  /** `obj[k] = v`. */
  function Set<V>(m: seq<Entry<V>>, k: string, v: V): (r: seq<Entry<V>>)
    ensures Lookup(r, k) == Some(v)
    ensures forall k' :: k' != k ==> Lookup(r, k') == Lookup(m, k')
  {
    match IndexOf(m, k)
    case None =>
      var r := m + [Entry(k, v)];
      IndexOfIs(r, k, |m|);
      IndexOfAfterAppend(m, Entry(k, v));
      r
    case Some(i) =>
      var r := m[i := Entry(k, v)];
      IndexOfIs(r, k, i);
      IndexOfAfterUpdate(m, i, Entry(k, v));
      r
  }

  lemma KeysAppend<V>(m: seq<Entry<V>>, e: Entry<V>)
    ensures Keys(m + [e]) == Keys(m) + [e.key]
  {
    var ks := Keys(m) + [e.key];
    assert forall j :: 0 <= j < |m| + 1 ==> Keys(m + [e])[j] == ks[j];
  }

  lemma KeysUpdate<V>(m: seq<Entry<V>>, i: nat, e: Entry<V>)
    requires i < |m| && m[i].key == e.key
    ensures Keys(m[i := e]) == Keys(m)
  {
    assert forall j :: 0 <= j < |m| ==> Keys(m[i := e])[j] == Keys(m)[j];
  }

  lemma NotInKeys<V>(m: seq<Entry<V>>, k: string)
    requires IndexOf(m, k).None?
    ensures k !in Keys(m)
  {
    forall j | 0 <= j < |m| ensures Keys(m)[j] != k { }
  }

  /** `obj[k] = v` appends `k` when it is new and otherwise keeps the keys
      as they were. */
  lemma SetKeys<V>(m: seq<Entry<V>>, k: string, v: V)
    ensures Keys(Set(m, k, v)) == if k in Keys(m) then Keys(m) else Keys(m) + [k]
  {
    match IndexOf(m, k)
    case None =>
      NotInKeys(m, k);
      KeysAppend(m, Entry(k, v));
    case Some(i) =>
      assert Keys(m)[i] == k;
      KeysUpdate(m, i, Entry(k, v));
  }

  /** `obj[k] = v` leaves the entries under other keys where they were. */
  lemma SetOthers<V>(m: seq<Entry<V>>, k: string, v: V)
    ensures var r := Set(m, k, v);
      |r| >= |m| && forall i :: 0 <= i < |m| && m[i].key != k ==> r[i] == m[i]
  {
    match IndexOf(m, k)
    case None =>
    case Some(i) =>
  }

  /** `obj[k] = v` keeps distinct keys distinct. */
  lemma SetUnique<V>(m: seq<Entry<V>>, k: string, v: V)
    requires UniqueKeys(m)
    ensures UniqueKeys(Set(m, k, v))
  {
    match IndexOf(m, k)
    case None =>
    case Some(i) =>
  }

  /** Assigning a key that is not yet present appends it. */
  lemma SetNew<V>(m: seq<Entry<V>>, k: string, v: V)
    requires k !in Keys(m)
    ensures Set(m, k, v) == m + [Entry(k, v)]
  {
    IndexOfNone(m, k);
  }

  /** Assigning the key that was appended last replaces it in place. */
  lemma SetLast<V>(m: seq<Entry<V>>, k: string, v: V, v': V)
    requires k !in Keys(m)
    ensures Set(m + [Entry(k, v)], k, v') == m + [Entry(k, v')]
  {
    IndexOfIs(m + [Entry(k, v)], k, |m|);
    assert (m + [Entry(k, v)])[|m| := Entry(k, v')] == m + [Entry(k, v')];
  }

  /** What was appended last under a fresh key is what `Lookup` finds. */
  lemma LookupLast<V>(m: seq<Entry<V>>, k: string, v: V)
    requires k !in Keys(m)
    ensures Lookup(m + [Entry(k, v)], k) == Some(v)
  {
    IndexOfIs(m + [Entry(k, v)], k, |m|);
  }

  /** The position of the last occurrence of `k` among `ks`. */
  function LastIndex(ks: seq<string>, k: string): (r: Option<nat>)
    ensures r.Some? ==> r.value < |ks| && ks[r.value] == k
    ensures r.Some? ==> forall j :: r.value < j < |ks| ==> ks[j] != k
    ensures r.None? ==> forall j :: 0 <= j < |ks| ==> ks[j] != k
  {
    if ks == [] then None
    else if ks[|ks| - 1] == k then Some(|ks| - 1)
    else LastIndex(ks[..|ks| - 1], k)
  }

  /** `obj[k] = v` for every entry of `es` in turn. */
  function SetAll<V>(m: seq<Entry<V>>, es: seq<Entry<V>>): seq<Entry<V>>
  {
    if es == [] then m else Set(SetAll(m, es[..|es| - 1]), es[|es| - 1].key, es[|es| - 1].val)
  }

  /** After assigning the entries `es`, a key holds the value of its last
      entry, and a key no entry has holds what it held before. */
  lemma {:induction false} SetAllLookup<V>(m: seq<Entry<V>>, es: seq<Entry<V>>, k: string)
    ensures var last := LastIndex(Keys(es), k);
      Lookup(SetAll(m, es), k) == if last.Some? then Some(es[last.value].val) else Lookup(m, k)
  {
    if es != [] {
      var pre, e := es[..|es| - 1], es[|es| - 1];
      var ks := Keys(es);
      assert ks[..|ks| - 1] == Keys(pre);
      assert ks[|ks| - 1] == e.key;
      if e.key != k {
        SetAllLookup(m, pre, k);
      }
    }
  }

  /** Assigning entries keeps distinct keys distinct. */
  lemma {:induction false} SetAllUnique<V>(m: seq<Entry<V>>, es: seq<Entry<V>>)
    requires UniqueKeys(m)
    ensures UniqueKeys(SetAll(m, es))
  {
    if es != [] {
      var pre, e := es[..|es| - 1], es[|es| - 1];
      SetAllUnique(m, pre);
      SetUnique(SetAll(m, pre), e.key, e.val);
    }
  }
}
