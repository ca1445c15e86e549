/** Folding the scanned occurrences into the mapping read from the template. */
module Merger {
  import opened Wrappers
  import opened Catalog

  /** One scanned occurrence: an id not yet in the mapping gets an empty
      list, and then the location is appended to the id's list, whether the
      id came from the template or not. */
  function Record(c: Catalog, o: Occurrence): (r: Catalog)
    ensures Keys(r) == if o.id in Keys(c) then Keys(c) else Keys(c) + [o.id]
    ensures Lookup(r, o.id) == Some(LocationsOf(c, o.id) + [o.at])
    ensures forall k :: k != o.id ==> Lookup(r, k) == Lookup(c, k)
  {
    var c1 := if o.id in Keys(c) then c else Put(c, o.id, []);
    Put(c1, o.id, Lookup(c1, o.id).value + [o.at])
  }

  /** The scan loop: every occurrence recorded in the order the search
      printed it. */
  function Merge(c: Catalog, scan: seq<Occurrence>): Catalog
    decreases |scan|
  {
    if |scan| == 0 then c else Merge(Record(c, scan[0]), scan[1..])
  }

  /** The ids of the scanned occurrences, in scan order. */
  function Ids(scan: seq<Occurrence>): seq<string> {
    if |scan| == 0 then [] else [scan[0].id] + Ids(scan[1..])
  }

  /** The locations at which the scan found `k`, in scan order. */
  function ScanLocations(scan: seq<Occurrence>, k: string): seq<Location> {
    if |scan| == 0 then []
    else (if scan[0].id == k then [scan[0].at] else []) + ScanLocations(scan[1..], k)
  }

  lemma RecordKeepsUnique(c: Catalog, o: Occurrence)
    requires UniqueKeys(c)
    ensures UniqueKeys(Record(c, o))
  {
    var c1 := if o.id in Keys(c) then c else Put(c, o.id, []);
    if o.id !in Keys(c) {
      PutKeepsUnique(c, o.id, []);
    }
    PutKeepsUnique(c1, o.id, Lookup(c1, o.id).value + [o.at]);
  }

  lemma RecordLocations(c: Catalog, o: Occurrence, k: string)
    ensures LocationsOf(Record(c, o), k) == LocationsOf(c, k) + (if k == o.id then [o.at] else [])
  {
  }

  /** The merged mapping lists the template's ids first, then the ids only
      the scan found, in order of first appearance. */
  lemma {:induction false} MergeKeys(c: Catalog, scan: seq<Occurrence>)
    requires UniqueKeys(c)
    ensures UniqueKeys(Merge(c, scan))
    ensures Keys(Merge(c, scan)) == Keys(c) + NewKeys(Keys(c), Ids(scan))
    decreases |scan|
  {
    if |scan| == 0 {
      assert Keys(c) + [] == Keys(c);
    } else {
      var o := scan[0];
      var c' := Record(c, o);
      var later := Ids(scan[1..]);
      assert Ids(scan) == [o.id] + later;
      assert Merge(c, scan) == Merge(c', scan[1..]);
      RecordKeepsUnique(c, o);
      MergeKeys(c', scan[1..]);
      NewKeysCons(Keys(c), o.id, later);
      if o.id !in Keys(c) {
        AppendAssoc(Keys(c), [o.id], NewKeys(Keys(c) + [o.id], later));
      }
    }
  }

  /** Every id's merged list is its template locations followed by its scan
      locations, in scan order. */
  lemma {:induction false} MergeLocations(c: Catalog, scan: seq<Occurrence>, k: string)
    ensures LocationsOf(Merge(c, scan), k) == LocationsOf(c, k) + ScanLocations(scan, k)
    decreases |scan|
  {
    if |scan| == 0 {
      assert LocationsOf(c, k) + [] == LocationsOf(c, k);
    } else {
      var o := scan[0];
      var c' := Record(c, o);
      var found: seq<Location> := if k == o.id then [o.at] else [];
      var later := ScanLocations(scan[1..], k);
      assert ScanLocations(scan, k) == found + later;
      assert Merge(c, scan) == Merge(c', scan[1..]);
      MergeLocations(c', scan[1..], k);
      RecordLocations(c, o, k);
      AppendAssoc(LocationsOf(c, k), found, later);
    }
  }

  /** Both facts together, stated with `Hash#[]`. */
  lemma MergeLayout(c: Catalog, scan: seq<Occurrence>)
    requires UniqueKeys(c)
    ensures UniqueKeys(Merge(c, scan))
    ensures Keys(Merge(c, scan)) == Keys(c) + NewKeys(Keys(c), Ids(scan))
    ensures forall k :: k in Keys(Merge(c, scan)) ==>
              Lookup(Merge(c, scan), k) == Some(LocationsOf(c, k) + ScanLocations(scan, k))
  {
    MergeKeys(c, scan);
    forall k | k in Keys(Merge(c, scan))
      ensures Lookup(Merge(c, scan), k) == Some(LocationsOf(c, k) + ScanLocations(scan, k))
    {
      MergeLocations(c, scan, k);
    }
  }

  /** Position by position: entry `i` of the template keeps its place and
      gains its scan locations; every later entry is an id new to the
      template holding only its scan locations. */
  lemma MergeOrder(c: Catalog, scan: seq<Occurrence>)
    requires UniqueKeys(c)
    ensures var r := Merge(c, scan);
      && |r| == |c| + |NewKeys(Keys(c), Ids(scan))|
      && (forall i :: 0 <= i < |c| ==> r[i] == (c[i].0, c[i].1 + ScanLocations(scan, c[i].0)))
      && (forall i :: |c| <= i < |r| ==> r[i].0 !in Keys(c) && r[i].1 == ScanLocations(scan, r[i].0))
  {
    var r := Merge(c, scan);
    MergeKeys(c, scan);
    assert |r| == |Keys(r)|;
    forall i | 0 <= i < |c| ensures r[i] == (c[i].0, c[i].1 + ScanLocations(scan, c[i].0)) {
      MergeKeepsEntry(c, scan, i);
    }
    forall i | |c| <= i < |r| ensures r[i].0 !in Keys(c) && r[i].1 == ScanLocations(scan, r[i].0) {
      MergeAddsEntry(c, scan, i);
    }
  }

  lemma MergeKeepsEntry(c: Catalog, scan: seq<Occurrence>, i: nat)
    requires UniqueKeys(c) && i < |c|
    ensures i < |Merge(c, scan)| && Merge(c, scan)[i] == (c[i].0, c[i].1 + ScanLocations(scan, c[i].0))
  {
    var r := Merge(c, scan);
    var k := c[i].0;
    MergeKeys(c, scan);
    assert |r| == |Keys(r)|;
    assert r[i].0 == Keys(r)[i] == Keys(c)[i] == k;
    LookupAt(r, i);
    LookupAt(c, i);
    MergeLocations(c, scan, k);
  }

  lemma MergeAddsEntry(c: Catalog, scan: seq<Occurrence>, i: nat)
    requires UniqueKeys(c) && |c| <= i < |Merge(c, scan)|
    ensures Merge(c, scan)[i].0 !in Keys(c) && Merge(c, scan)[i].1 == ScanLocations(scan, Merge(c, scan)[i].0)
  {
    var r := Merge(c, scan);
    var k := r[i].0;
    MergeKeys(c, scan);
    var added := NewKeys(Keys(c), Ids(scan));
    assert k == Keys(r)[i] == added[i - |c|];
    assert k in added;
    LookupAt(r, i);
    MergeLocations(c, scan, k);
    assert LocationsOf(c, k) == [];
  }

  /** Merging the same scan into the already merged mapping appends its
      locations a second time: a re-run of the tool on its own output with
      an unchanged source tree doubles the scanned locations. */
  lemma MergeTwiceRepeats(c: Catalog, scan: seq<Occurrence>)
    requires UniqueKeys(c)
    ensures forall k :: k in Keys(Merge(c, scan)) ==>
              Lookup(Merge(Merge(c, scan), scan), k)
              == Some(LocationsOf(c, k) + ScanLocations(scan, k) + ScanLocations(scan, k))
    ensures |scan| > 0 ==> Merge(Merge(c, scan), scan) != Merge(c, scan)
  {
    var once := Merge(c, scan);
    MergeLayout(c, scan);
    MergeLayout(once, scan);
    forall k | k in Keys(once)
      ensures Lookup(Merge(once, scan), k)
              == Some(LocationsOf(c, k) + ScanLocations(scan, k) + ScanLocations(scan, k))
    {
      assert k in Keys(Merge(once, scan));
      assert LocationsOf(once, k) == LocationsOf(c, k) + ScanLocations(scan, k);
    }
    if |scan| > 0 {
      var x := scan[0].id;
      assert x in Ids(scan);
      assert x in Keys(once);
      assert |ScanLocations(scan, x)| > 0;
      assert Lookup(Merge(once, scan), x) != Lookup(once, x);
    }
  }

  /** Occurrences whose id and file name fit on one line of the template,
      file names non-empty. */
  predicate SingleLineScan(scan: seq<Occurrence>) {
    forall o :: o in scan ==> '\n' !in o.id && SingleLineLocations([o.at])
  }

  lemma RecordSingleLine(c: Catalog, o: Occurrence)
    requires SingleLine(c) && '\n' !in o.id && SingleLineLocations([o.at])
    ensures SingleLine(Record(c, o))
  {
    var c1 := if o.id in Keys(c) then c else Put(c, o.id, []);
    if o.id !in Keys(c) {
      PutEntries(c, o.id, []);
    }
    var before := Lookup(c1, o.id).value;
    assert (o.id, before) in c1;
    var v := before + [o.at];
    AppendSingleLine(before, o.at);
    PutEntries(c1, o.id, v);
  }

  lemma AppendSingleLine(ls: seq<Location>, at: Location)
    requires SingleLineLocations(ls) && SingleLineLocations([at])
    ensures SingleLineLocations(ls + [at])
  {
    var v := ls + [at];
    assert forall i :: 0 <= i < |ls| ==> v[i] == ls[i];
    assert v[|ls|] == [at][0];
  }

  /** Merging a scan whose ids and file names fit on one line keeps the
      mapping writable. */
  lemma {:induction false} MergeSingleLine(c: Catalog, scan: seq<Occurrence>)
    requires SingleLine(c) && SingleLineScan(scan)
    ensures SingleLine(Merge(c, scan))
    decreases |scan|
  {
    if |scan| > 0 {
      assert scan[0] in scan;
      assert forall o :: o in scan[1..] ==> o in scan;
      RecordSingleLine(c, scan[0]);
      MergeSingleLine(Record(c, scan[0]), scan[1..]);
    }
  }

  /** Every scanned occurrence contributes its id and a location. */
  lemma {:induction false} ScanMembers(scan: seq<Occurrence>, o: Occurrence)
    requires o in scan
    ensures o.id in Ids(scan) && o.at in ScanLocations(scan, o.id)
  {
    if scan[0] != o {
      ScanMembers(scan[1..], o);
    }
  }
}
