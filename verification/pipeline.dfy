/** The whole run: read the template, fold in the search results, drop the
    empty id and write the template again. */
module Pipeline {
  import opened Wrappers
  import opened TextLines
  import opened Catalog
  import opened TemplateParser
  import opened Scanner
  import opened Merger
  import opened Writer
  import opened RoundTrip

  /** The mapping the run writes: the template's mapping with the scan
      folded in and the header's empty id deleted. */
  function Updated(c: Catalog, scan: seq<Occurrence>): Catalog {
    Delete(Merge(c, scan), "")
  }

  /** The text written over the template, given the template's text and the
      search output; `None` when a line of the search output does not have
      the required shape. */
  function Regenerate(template: string, output: string): Option<string> {
    var scan :- Scan(output);
    Some(Render(Updated(Parse(template), scan)))
  }

  /** The written mapping: no empty id; exactly the non-empty ids of the
      template and of the scan; each with its template locations followed by
      its scan locations. */
  lemma UpdatedLayout(c: Catalog, scan: seq<Occurrence>)
    requires UniqueKeys(c)
    ensures UniqueKeys(Updated(c, scan))
    ensures "" !in Keys(Updated(c, scan))
    ensures forall k :: k in Keys(Updated(c, scan)) <==> k != "" && (k in Keys(c) || k in Ids(scan))
    ensures forall k :: k in Keys(Updated(c, scan)) ==>
              Lookup(Updated(c, scan), k) == Some(LocationsOf(c, k) + ScanLocations(scan, k))
  {
    MergeLayout(c, scan);
    var ids := Ids(scan);
    assert forall k :: k in NewKeys(Keys(c), ids) <==> k in ids && k !in Keys(c);
  }

  lemma UpdatedSingleLine(c: Catalog, scan: seq<Occurrence>)
    requires UniqueKeys(c) && SingleLine(c) && SingleLineScan(scan)
    ensures UniqueKeys(Updated(c, scan)) && SingleLine(Updated(c, scan)) && "" !in Keys(Updated(c, scan))
  {
    MergeKeys(c, scan);
    MergeSingleLine(c, scan);
    DeleteEntries(Merge(c, scan), "");
  }

  /** Reading back the written template gives the header's empty id followed
      by the written mapping, provided every file name the search printed is
      non-empty. */
  lemma RegenerateReadsBack(template: string, output: string)
    requires Scan(output).Some?
    requires forall o :: o in Scan(output).value ==> |o.at.file| > 0
    ensures Parse(Regenerate(template, output).value)
            == [("", [])] + Updated(Parse(template), Scan(output).value)
  {
    var scan := Scan(output).value;
    var u := Updated(Parse(template), scan);
    assert Regenerate(template, output) == Some(Render(u));
    ParseSingleLine(template);
    ScanIsSingleLine(output);
    UpdatedSingleLine(Parse(template), scan);
    RenderParse(u);
  }

  /** The written text holds exactly one `msgid ""` line, the header's:
      the empty id of the header, read back from the template, is deleted
      before writing. */
  lemma RegenerateEmptyIdOnce(template: string, output: string)
    requires Scan(output).Some?
    ensures var u := Updated(Parse(template), Scan(output).value);
      && Regenerate(template, output) == Some(Render(u))
      && forall i :: 0 <= i < |RenderLines(u)| ==> (RenderLines(u)[i] == MsgidText("") <==> i == CommentLines)
  {
    var scan := Scan(output).value;
    ParseSingleLine(template);
    UpdatedLayout(Parse(template), scan);
    OnlyHeaderMsgid(Updated(Parse(template), scan));
  }

  lemma ScanIsSingleLine(output: string)
    requires Scan(output).Some?
    requires forall o :: o in Scan(output).value ==> |o.at.file| > 0
    ensures SingleLineScan(Scan(output).value)
  {
    ScanSingleLine(output);
    forall o | o in Scan(output).value ensures SingleLineLocations([o.at]) {
      assert [o.at][0] == o.at;
    }
  }

  lemma ScanNothing()
    ensures Scan("") == Some([])
  {
    assert SplitLines("") == [];
    assert ScanAll([]).Some? && |ScanAll([]).value| == 0;
  }

  /** With nothing found by the search, a run drops the empty id and
      rewrites the template's mapping in its own order. */
  lemma RegenerateNothing(template: string)
    ensures Regenerate(template, "") == Some(Render(Delete(Parse(template), "")))
  {
    ScanNothing();
    assert Merge(Parse(template), []) == Parse(template);
  }

  /** With nothing found by the search, the first run normalises the
      template and a second run on its output writes the same text again. */
  lemma RegenerateFixedPoint(template: string)
    ensures Regenerate(template, "").Some?
    ensures Regenerate(Regenerate(template, "").value, "") == Regenerate(template, "")
  {
    var d := Delete(Parse(template), "");
    RegenerateNothing(template);
    ParseSingleLine(template);
    UpdatedSingleLine(Parse(template), []);
    assert Updated(Parse(template), []) == d;
    RenderParse(d);
    RegenerateNothing(Render(d));
  }

  /** With any occurrence of a non-empty id found by the search, a second
      run on the first run's output writes a different text: the scanned
      locations are appended again to the ones the first run wrote. */
  lemma RegenerateTwiceDiffers(template: string, output: string)
    requires Scan(output).Some?
    requires forall o :: o in Scan(output).value ==> |o.at.file| > 0
    requires exists o :: o in Scan(output).value && o.id != ""
    ensures Regenerate(Regenerate(template, output).value, output) != Regenerate(template, output)
  {
    var scan := Scan(output).value;
    var o :| o in scan && o.id != "";
    var u1 := Updated(Parse(template), scan);
    var first := Regenerate(template, output).value;
    RegenerateReadsBack(template, output);
    RegenerateReadsBack(first, output);
    var second := Regenerate(first, output).value;
    var p1, p2 := Parse(first), Parse(second);
    assert p1 == [("", [])] + u1;
    assert p2 == [("", [])] + Updated(p1, scan);
    ParseSingleLine(template);
    SecondUpdateDiffers(Parse(template), scan, o);
    assert p2[1..] != p1[1..];
    assert second != first;
  }

  /** Updating the read-back of an updated mapping with the same scan does
      not give the updated mapping again. */
  lemma SecondUpdateDiffers(c: Catalog, scan: seq<Occurrence>, o: Occurrence)
    requires UniqueKeys(c) && o in scan && o.id != ""
    ensures Updated([("", [])] + Updated(c, scan), scan) != Updated(c, scan)
  {
    MergeKeys(c, scan);
    UpdateAgainGrows(Updated(c, scan), scan, o);
  }

  /** Folding the same scan into a written mapping read back changes it. */
  lemma UpdateAgainGrows(u: Catalog, scan: seq<Occurrence>, o: Occurrence)
    requires UniqueKeys(u) && "" !in Keys(u)
    requires o in scan && o.id != ""
    ensures Updated([("", [])] + u, scan) != u
  {
    var c := [("", [])] + u;
    UniqueCons(("", []), u);
    UpdatedLayout(c, scan);
    ScanMembers(scan, o);
    LookupCons(("", []), u);
    var k := o.id;
    assert LocationsOf(c, k) == LocationsOf(u, k);
    assert Lookup(Updated(c, scan), k) != Lookup(u, k);
  }
}
