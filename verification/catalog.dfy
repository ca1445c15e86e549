/** The translations mapping: a Ruby Hash from message id to the list of
    locations where the id occurs. A Hash remembers insertion order, so it
    is modelled as an association list with unique keys. */
module Catalog {
  import opened Wrappers

  /** One occurrence of a message id: the `Match` struct (file, line). */
  datatype Location = Location(file: string, line: nat)

  /** One scanned call site: the message id found at a location. */
  datatype Occurrence = Occurrence(id: string, at: Location)

  type Entry = (string, seq<Location>)

  type Catalog = seq<Entry>

  predicate Distinct<T(==)>(s: seq<T>) {
    forall i, j :: 0 <= i < j < |s| ==> s[i] != s[j]
  }

  lemma AppendAssoc<T>(a: seq<T>, b: seq<T>, c: seq<T>)
    ensures (a + b) + c == a + (b + c)
  {
  }

  /** The ids of `c`, in order. */
  function Keys(c: Catalog): seq<string> {
    seq(|c|, i requires 0 <= i < |c| => c[i].0)
  }

  /** A Hash never holds a key twice. */
  predicate UniqueKeys(c: Catalog) {
    Distinct(Keys(c))
  }

  lemma KeysCons(e: Entry, c: Catalog)
    ensures Keys([e] + c) == [e.0] + Keys(c)
  {
    assert ([e] + c)[1..] == c;
  }

  lemma UniqueCons(e: Entry, c: Catalog)
    ensures UniqueKeys([e] + c) <==> e.0 !in Keys(c) && UniqueKeys(c)
  {
    KeysCons(e, c);
    var ks := Keys([e] + c);
    assert forall j :: 0 <= j < |c| ==> ks[j + 1] == Keys(c)[j];
    if UniqueKeys([e] + c) {
      forall j | 0 <= j < |c| ensures Keys(c)[j] != e.0 {
        assert ks[0] != ks[j + 1];
      }
    }
  }

  /** `Hash#[]`: the locations recorded for `k`, if `k` is a key. */
  function Lookup(c: Catalog, k: string): (r: Option<seq<Location>>)
    ensures r.None? <==> k !in Keys(c)
    ensures r.Some? ==> (k, r.value) in c
  {
    if |c| == 0 then None
    else
      assert c == [c[0]] + c[1..];
      KeysCons(c[0], c[1..]);
      if c[0].0 == k then Some(c[0].1) else Lookup(c[1..], k)
  }

  lemma LookupCons(e: Entry, c: Catalog)
    ensures forall k :: Lookup([e] + c, k) == if e.0 == k then Some(e.1) else Lookup(c, k)
  {
    assert ([e] + c)[1..] == c;
  }

  /** In a Hash, the value found for the key of an entry is that entry's. */
  lemma {:induction false} LookupAt(c: Catalog, i: nat)
    requires UniqueKeys(c) && i < |c|
    ensures Lookup(c, c[i].0) == Some(c[i].1)
  {
    assert c == [c[0]] + c[1..];
    UniqueCons(c[0], c[1..]);
    if i > 0 {
      assert c[i] == c[1..][i - 1];
      LookupAt(c[1..], i - 1);
      assert c[i].0 in Keys(c[1..]);
    }
  }

  /** The locations of `k`, or none when `k` is not a key. */
  function LocationsOf(c: Catalog, k: string): seq<Location> {
    Lookup(c, k).GetOr([])
  }

  /** `Hash#[]=`: an existing key gets the new value in its old position; a
      new key is added at the end. */
  function Put(c: Catalog, k: string, v: seq<Location>): (r: Catalog)
    ensures Lookup(r, k) == Some(v)
    ensures forall k' :: k' != k ==> Lookup(r, k') == Lookup(c, k')
    ensures Keys(r) == if k in Keys(c) then Keys(c) else Keys(c) + [k]
  {
    if |c| == 0 then [(k, v)]
    else if c[0].0 == k then
      PutHere(c, k, v);
      [(k, v)] + c[1..]
    else
      var rest := Put(c[1..], k, v);
      PutThere(c, k, v, rest);
      [c[0]] + rest
  }

  /** The step of `Put` when the first entry holds the key. */
  lemma PutHere(c: Catalog, k: string, v: seq<Location>)
    requires |c| > 0 && c[0].0 == k
    ensures var r := [(k, v)] + c[1..];
      && Lookup(r, k) == Some(v)
      && (forall k' :: k' != k ==> Lookup(r, k') == Lookup(c, k'))
      && k in Keys(c) && Keys(r) == Keys(c)
  {
    assert c == [c[0]] + c[1..];
    KeysCons(c[0], c[1..]);
    LookupCons(c[0], c[1..]);
    KeysCons((k, v), c[1..]);
    LookupCons((k, v), c[1..]);
  }

  /** The step of `Put` when the key lies further on. */
  lemma PutThere(c: Catalog, k: string, v: seq<Location>, rest: Catalog)
    requires |c| > 0 && c[0].0 != k
    requires Lookup(rest, k) == Some(v)
    requires forall k' :: k' != k ==> Lookup(rest, k') == Lookup(c[1..], k')
    requires Keys(rest) == if k in Keys(c[1..]) then Keys(c[1..]) else Keys(c[1..]) + [k]
    ensures var r := [c[0]] + rest;
      && Lookup(r, k) == Some(v)
      && (forall k' :: k' != k ==> Lookup(r, k') == Lookup(c, k'))
      && Keys(r) == if k in Keys(c) then Keys(c) else Keys(c) + [k]
  {
    var e := c[0];
    assert c == [e] + c[1..];
    KeysCons(e, c[1..]);
    LookupCons(e, c[1..]);
    KeysCons(e, rest);
    LookupCons(e, rest);
  }

  /** Assignment keeps a Hash free of repeated keys. */
  lemma PutKeepsUnique(c: Catalog, k: string, v: seq<Location>)
    requires UniqueKeys(c)
    ensures UniqueKeys(Put(c, k, v))
  {
    DistinctExtended(Keys(c), k);
  }

  lemma DistinctExtended(s: seq<string>, x: string)
    ensures Distinct(s) ==> Distinct(if x in s then s else s + [x])
  {
  }

  /** A key that is not yet in the Hash is added as its last entry. */
  lemma {:induction false} PutNew(c: Catalog, k: string, v: seq<Location>)
    requires k !in Keys(c)
    ensures Put(c, k, v) == c + [(k, v)]
  {
    if |c| > 0 {
      assert c == [c[0]] + c[1..];
      KeysCons(c[0], c[1..]);
      PutNew(c[1..], k, v);
    }
  }

  /** Every entry after an assignment is an old entry or the assigned one. */
  lemma {:induction false} PutEntries(c: Catalog, k: string, v: seq<Location>)
    ensures forall e :: e in Put(c, k, v) ==> e in c || e == (k, v)
  {
    if |c| > 0 {
      assert c == [c[0]] + c[1..];
      PutEntries(c[1..], k, v);
    }
  }

  /** Every entry after a deletion was an entry before it. */
  lemma {:induction false} DeleteEntries(c: Catalog, k: string)
    ensures forall e :: e in Delete(c, k) ==> e in c
  {
    if |c| > 0 {
      assert c == [c[0]] + c[1..];
      DeleteEntries(c[1..], k);
    }
  }

  /** Locations whose file names hold no newline. */
  predicate NewlineFreeLocations(ls: seq<Location>) {
    forall i :: 0 <= i < |ls| ==> '\n' !in ls[i].file
  }

  /** Locations whose file names are non-empty and hold no newline. */
  predicate SingleLineLocations(ls: seq<Location>) {
    NewlineFreeLocations(ls) && forall i :: 0 <= i < |ls| ==> |ls[i].file| > 0
  }

  /** A mapping no id or file name of which holds a newline. */
  predicate NewlineFree(c: Catalog) {
    forall e :: e in c ==> '\n' !in e.0 && NewlineFreeLocations(e.1)
  }

  /** A mapping every id and file name of which fits on one line of the
      template, file names non-empty: what the template's own syntax can
      carry. */
  predicate SingleLine(c: Catalog) {
    forall e :: e in c ==> '\n' !in e.0 && SingleLineLocations(e.1)
  }

  /** `Hash#delete`: drops the entry of `k` and keeps the others in order. */
  function Delete(c: Catalog, k: string): (r: Catalog)
    ensures k !in Keys(r)
    ensures forall x :: x in Keys(r) <==> x in Keys(c) && x != k
    ensures forall k' :: k' != k ==> Lookup(r, k') == Lookup(c, k')
    ensures k !in Keys(c) ==> r == c
    ensures UniqueKeys(c) ==> UniqueKeys(r)
  {
    if |c| == 0 then []
    else
      var e := c[0];
      assert c == [e] + c[1..];
      KeysCons(e, c[1..]);
      UniqueCons(e, c[1..]);
      LookupCons(e, c[1..]);
      if e.0 == k then Delete(c[1..], k)
      else
        var rest := Delete(c[1..], k);
        KeysCons(e, rest);
        UniqueCons(e, rest);
        LookupCons(e, rest);
        [e] + rest
  }

  /** On a Hash, deleting a key removes exactly its one entry. */
  lemma {:induction false} DeleteRemovesEntry(c: Catalog, i: nat)
    requires UniqueKeys(c) && i < |c|
    ensures Delete(c, c[i].0) == c[..i] + c[i + 1..]
  {
    var k := c[i].0;
    assert c == [c[0]] + c[1..];
    UniqueCons(c[0], c[1..]);
    if i > 0 {
      assert c[1..][i - 1].0 == k;
      assert Keys(c[1..])[i - 1] == k;
      DeleteRemovesEntry(c[1..], i - 1);
      assert c[..i] + c[i + 1..] == [c[0]] + (c[1..][..i - 1] + c[1..][i..]);
    }
  }

  /** The ids of `ids` that are not in `known`, each once, in order of first
      appearance. */
  function NewKeys(known: seq<string>, ids: seq<string>): (r: seq<string>)
    ensures forall x :: x in r <==> x in ids && x !in known
    ensures Distinct(r)
    decreases |ids|
  {
    if |ids| == 0 then []
    else if ids[0] in known then NewKeys(known, ids[1..])
    else
      assert ids == [ids[0]] + ids[1..];
      var rest := NewKeys(known + [ids[0]], ids[1..]);
      assert ids[0] !in rest;
      [ids[0]] + rest
  }

  lemma NewKeysCons(known: seq<string>, x: string, rest: seq<string>)
    ensures NewKeys(known, [x] + rest)
            == if x in known then NewKeys(known, rest) else [x] + NewKeys(known + [x], rest)
  {
    assert ([x] + rest)[0] == x;
    assert ([x] + rest)[1..] == rest;
  }

  /** Adding one id at the end of the scanned ids adds it to the new keys
      exactly when it is neither known nor seen before. */
  lemma {:induction false} NewKeysSnoc(known: seq<string>, ids: seq<string>, x: string)
    ensures NewKeys(known, ids + [x]) == NewKeys(known, ids) + (if x in known || x in ids then [] else [x])
    decreases |ids|
  {
    if |ids| == 0 {
      assert ids + [x] == [x] + [];
      NewKeysCons(known, x, []);
    } else {
      var y, rest := ids[0], ids[1..];
      assert ids == [y] + rest;
      assert ids + [x] == [y] + (rest + [x]);
      NewKeysCons(known, y, rest + [x]);
      NewKeysCons(known, y, rest);
      if y in known {
        NewKeysSnoc(known, rest, x);
      } else {
        NewKeysSnoc(known + [y], rest, x);
        AppendAssoc([y], NewKeys(known + [y], rest), if x in known + [y] || x in rest then [] else [x]);
      }
    }
  }
}
