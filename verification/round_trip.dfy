/** The writer and the parser agree: reading back a written template gives
    the header's empty id followed by the written mapping. */
module RoundTrip {
  import opened Numerals
  import opened TextLines
  import opened Catalog
  import opened TemplateParser
  import opened Writer

  /** A line starting with `#` is neither a `msgstr` nor a `msgid` line. */
  lemma HashLine(line: string)
    requires '\n' !in line && |line| > 0 && line[0] == '#'
    ensures !IsMsgstr(line) && MatchMsgid(line).None?
  {
    if |line| >= 6 {
      assert line[..6][0] == '#';
    }
    if |line| >= 5 {
      assert line[..5][0] == '#';
    }
  }

  /** A line starting with `#` whose second character is not `:` is
      ignored by the parser. */
  lemma HashLineIsOther(line: string)
    requires '\n' !in line && |line| >= 2 && line[0] == '#' && line[1] != ':'
    ensures Classify(line) == Other
  {
    HashLine(line);
    if |line| >= 3 {
      assert line[..3][1] == line[1];
    }
  }

  /** A `##` comment line is ignored by the parser. */
  lemma CommentIsOther(line: string)
    requires '\n' !in line && |line| >= 2 && line[0] == '#' && line[1] == '#'
    ensures Classify(line) == Other
  {
    HashLineIsOther(line);
  }

  /** The format marker the writer puts before each entry falls through
      every case of the parser. */
  lemma FormatMarkerIsOther()
    ensures '\n' !in FormatMarker && Classify(FormatMarker) == Other
  {
    HashLineIsOther(FormatMarker);
  }

  lemma EmptyMsgstrIsTranslation()
    ensures '\n' !in EmptyMsgstr && Classify(EmptyMsgstr) == Translation
  {
    assert EmptyMsgstr[..6] == "msgstr";
    assert EmptyMsgstr[6..] == " " + "\"\"";
    LeadingSpacesOf(" ", "\"\"");
  }

  lemma MsgidTextIsIdLine(id: string)
    requires '\n' !in id
    ensures '\n' !in MsgidText(id) && Classify(MsgidText(id)) == IdLine(id)
  {
    var line := MsgidText(id);
    assert line == "msgid" + " " + "\"" + id + "\"";
    assert line[..6][4] == 'd';
    MatchMsgidOf(" ", id);
  }

  lemma LocationTextIsLocationLine(at: Location)
    requires |at.file| > 0 && '\n' !in at.file
    ensures '\n' !in LocationText(at) && Classify(LocationText(at)) == LocationLine(at)
  {
    var line := LocationText(at);
    var num := NatToString(at.line);
    assert line == "#: " + at.file + ":" + num;
    assert '\n' !in num by {
      assert forall i :: 0 <= i < |num| ==> IsDigit(num[i]);
    }
    HashLine(line);
    MatchLocationOf(at.file, num);
  }

  lemma ClassifyAllAppend(a: seq<string>, b: seq<string>)
    requires forall i :: 0 <= i < |a| ==> '\n' !in a[i]
    requires forall i :: 0 <= i < |b| ==> '\n' !in b[i]
    ensures ClassifyAll(a + b) == ClassifyAll(a) + ClassifyAll(b)
  {
  }

  /** The kinds of the header lines: nine comments, the empty id, its
      empty translation and a blank line. */
  function HeaderKinds(): seq<LineKind> {
    seq(CommentLines, i => Other) + [IdLine(""), Translation, Other]
  }

  /** Every comment line of the header starts with `##`. */
  lemma CommentsStartWithHashes()
    ensures forall i :: 0 <= i < CommentLines ==> |Header[i]| >= 2 && Header[i][0] == '#' && Header[i][1] == '#'
  {
  }

  lemma CommentsAreOther()
    ensures forall i :: 0 <= i < CommentLines ==> '\n' !in Header[i] && Classify(Header[i]) == Other
  {
    HeaderWritable();
    CommentsStartWithHashes();
    forall i | 0 <= i < CommentLines ensures '\n' !in Header[i] && Classify(Header[i]) == Other {
      CommentIsOther(Header[i]);
    }
  }

  /** The parser reads the header as nine ignored comments, the empty id,
      its translation line and a blank line. */
  lemma HeaderReadsBack()
    ensures forall i :: 0 <= i < |Header| ==> '\n' !in Header[i]
    ensures ClassifyAll(Header) == HeaderKinds()
  {
    HeaderWritable();
    var kinds := HeaderKinds();
    forall i | 0 <= i < |Header| ensures Classify(Header[i]) == kinds[i] {
      if i < CommentLines {
        CommentsAreOther();
      } else if i == CommentLines {
        assert Header[CommentLines] == MsgidText("");
        MsgidTextIsIdLine("");
      } else if i == CommentLines + 1 {
        EmptyMsgstrIsTranslation();
      }
    }
  }

  function LocationKinds(ls: seq<Location>): seq<LineKind> {
    seq(|ls|, i requires 0 <= i < |ls| => LocationLine(ls[i]))
  }

  /** The kinds of one written entry: the marker, one location line per
      location, the id line, the translation line and the blank line. */
  function EntryKinds(e: Entry): seq<LineKind> {
    [Other] + LocationKinds(e.1) + [IdLine(e.0)] + [Translation, Other]
  }

  /** Each line of a written entry is read back as the kind it was written
      for. */
  lemma EntryReadsBack(e: Entry)
    requires '\n' !in e.0 && SingleLineLocations(e.1)
    ensures forall i :: 0 <= i < |EntryLines(e)| ==> '\n' !in EntryLines(e)[i]
    ensures ClassifyAll(EntryLines(e)) == EntryKinds(e)
  {
    var lines := EntryLines(e);
    var kinds := EntryKinds(e);
    forall i | 0 <= i < |lines| ensures '\n' !in lines[i] && Classify(lines[i]) == kinds[i] {
      EntryLineReadsBack(e, i);
    }
  }

  lemma EntryLineReadsBack(e: Entry, i: nat)
    requires '\n' !in e.0 && SingleLineLocations(e.1) && i < |EntryLines(e)|
    ensures '\n' !in EntryLines(e)[i] && Classify(EntryLines(e)[i]) == EntryKinds(e)[i]
  {
    var n := |e.1|;
    var lines := EntryLines(e);
    var kinds := EntryKinds(e);
    if i == 0 {
      assert lines[i] == FormatMarker && kinds[i] == Other;
      FormatMarkerIsOther();
    } else if i <= n {
      assert lines[i] == LocationText(e.1[i - 1]) && kinds[i] == LocationLine(e.1[i - 1]);
      LocationTextIsLocationLine(e.1[i - 1]);
    } else if i == n + 1 {
      assert lines[i] == MsgidText(e.0) && kinds[i] == IdLine(e.0);
      MsgidTextIsIdLine(e.0);
    } else if i == n + 2 {
      assert lines[i] == EmptyMsgstr && kinds[i] == Translation;
      EmptyMsgstrIsTranslation();
    } else {
      assert lines[i] == "" && kinds[i] == Other;
    }
  }

  /** Lines the parser ignores leave its state alone. */
  lemma {:induction false} RunIgnored(st: ParseState, ks: seq<LineKind>)
    requires forall i :: 0 <= i < |ks| ==> ks[i].Other? || ks[i].Translation?
    ensures Run(st, ks) == st
  {
    if |ks| > 0 {
      RunIgnored(st, ks[..|ks| - 1]);
    }
  }

  /** Location lines append their locations to the pending list, in order. */
  lemma {:induction false} RunLocationKinds(st: ParseState, ls: seq<Location>)
    ensures Run(st, LocationKinds(ls)) == st.(pending := st.pending + ls)
  {
    if |ls| == 0 {
      assert st.pending + ls == st.pending;
    } else {
      var n := |ls| - 1;
      assert LocationKinds(ls)[..n] == LocationKinds(ls[..n]);
      RunLocationKinds(st, ls[..n]);
      assert ls == ls[..n] + [ls[n]];
      AppendAssoc(st.pending, ls[..n], [ls[n]]);
    }
  }

  /** Reading one written entry for a new id adds exactly that entry. */
  lemma RunEntry(cat: Catalog, e: Entry)
    requires e.0 !in Keys(cat)
    ensures Run(ParseState([], cat), EntryKinds(e)) == ParseState([], cat + [e])
  {
    var b := [Other] + LocationKinds(e.1) + [IdLine(e.0)];
    RunEntryId(cat, e);
    RunIgnoredTail(ParseState([], cat), b, EntryKinds(e), ParseState([], cat + [e]));
  }

  /** The `msgid` line of a written entry commits its pending locations. */
  lemma RunEntryId(cat: Catalog, e: Entry)
    requires e.0 !in Keys(cat)
    ensures Run(ParseState([], cat), [Other] + LocationKinds(e.1) + [IdLine(e.0)]) == ParseState([], cat + [e])
  {
    var st := ParseState([], cat);
    RunEntryLocations(cat, e.1);
    RunSnoc(st, [Other] + LocationKinds(e.1), IdLine(e.0));
    PutNew(cat, e.0, e.1);
  }

  /** The `msgstr` line and the blank line after an entry change nothing. */
  lemma RunIgnoredTail(st: ParseState, b: seq<LineKind>, ks: seq<LineKind>, after: ParseState)
    requires Run(st, b) == after && ks == b + [Translation, Other]
    ensures Run(st, ks) == after
  {
    RunAppend(st, b, [Translation, Other]);
    RunIgnored(after, [Translation, Other]);
  }

  /** The marker and the location lines of an entry leave its locations
      pending. */
  lemma RunEntryLocations(cat: Catalog, ls: seq<Location>)
    ensures Run(ParseState([], cat), [Other] + LocationKinds(ls)) == ParseState(ls, cat)
  {
    var st := ParseState([], cat);
    RunAppend(st, [Other], LocationKinds(ls));
    RunIgnored(st, [Other]);
    RunLocationKinds(st, ls);
    assert [] + ls == ls;
  }

  /** Reading the written entries of a mapping after `cat` appends them. */
  lemma {:induction false} RunEntries(cat: Catalog, c: Catalog)
    requires UniqueKeys(cat + c) && SingleLine(c)
    ensures forall i :: 0 <= i < |EntriesLines(c)| ==> '\n' !in EntriesLines(c)[i]
    ensures Run(ParseState([], cat), ClassifyAll(EntriesLines(c))) == ParseState([], cat + c)
    decreases |c|
  {
    EntriesWritable(c);
    if |c| == 0 {
      assert cat + c == cat;
    } else {
      var e := c[0];
      assert e in c;
      assert forall x :: x in c[1..] ==> x in c;
      assert cat + c == (cat + [e]) + c[1..];
      assert e.0 !in Keys(cat) by {
        var ks := Keys(cat + c);
        assert ks[|cat|] == e.0;
        assert forall j :: 0 <= j < |cat| ==> Keys(cat)[j] == ks[j];
      }
      RunEntry(cat, e);
      RunEntries(cat + [e], c[1..]);
      EntryReadsBack(e);
      ClassifyAllAppend(EntryLines(e), EntriesLines(c[1..]));
      RunAppend(ParseState([], cat), ClassifyAll(EntryLines(e)), ClassifyAll(EntriesLines(c[1..])));
    }
  }

  /** The parser's state after the header: the empty id with no location. */
  lemma RunHeader()
    ensures Run(Start, HeaderKinds()) == ParseState([], [("", [])])
  {
    var comments := seq(CommentLines, i => Other);
    var withId := comments + [IdLine("")];
    RunIgnored(Start, comments);
    assert Run(Start, withId) == Step(Run(Start, comments), IdLine("")) by {
      assert withId[..|withId| - 1] == comments;
    }
    RunAppend(Start, withId, [Translation, Other]);
    RunIgnored(ParseState([], [("", [])]), [Translation, Other]);
    assert HeaderKinds() == withId + [Translation, Other];
  }

  /** The only `msgid ""` line of the written text is the header's: the
      mapping written holds no empty id. */
  lemma OnlyHeaderMsgid(c: Catalog)
    requires "" !in Keys(c)
    ensures forall i :: 0 <= i < |RenderLines(c)| ==> (RenderLines(c)[i] == MsgidText("") <==> i == CommentLines)
  {
    var lines := RenderLines(c);
    forall i | 0 <= i < |lines| ensures lines[i] == MsgidText("") <==> i == CommentLines {
      if i < |Header| {
        assert lines[i] == Header[i];
        HeaderMsgidLine(i);
      } else {
        assert lines[i] == EntriesLines(c)[i - |Header|];
        if lines[i] == MsgidText("") {
          EntriesMsgidLine(c, i - |Header|);
        }
      }
    }
  }

  /** Within the header, the `msgid ""` line is the one after the comments. */
  lemma HeaderMsgidLine(i: nat)
    requires i < |Header|
    ensures Header[i] == MsgidText("") <==> i == CommentLines
  {
    if i == CommentLines {
      assert Header[CommentLines] == MsgidText("");
    } else {
      HeaderReadsBack();
      MsgidTextIsIdLine("");
      assert HeaderKinds()[i] != IdLine("");
    }
  }

  /** A `msgid ""` line among the written entries comes from an entry for
      the empty id. */
  lemma {:induction false} EntriesMsgidLine(c: Catalog, j: nat)
    requires j < |EntriesLines(c)| && EntriesLines(c)[j] == MsgidText("")
    ensures "" in Keys(c)
  {
    var block := EntryLines(c[0]);
    assert EntriesLines(c) == block + EntriesLines(c[1..]);
    if j < |block| {
      EntryMsgidLine(c[0], j);
      assert Keys(c)[0] == "";
    } else {
      var rest := c[1..];
      assert EntriesLines(rest)[j - |block|] == MsgidText("");
      EntriesMsgidLine(rest, j - |block|);
      var k :| 0 <= k < |rest| && Keys(rest)[k] == "";
      assert Keys(c)[k + 1] == "";
    }
  }

  /** A `msgid ""` line of a written entry belongs to the empty id: the
      marker and the `#:` lines start with `#`, and the `msgstr` and blank
      lines have other lengths. */
  lemma EntryMsgidLine(e: Entry, j: nat)
    requires j < |EntryLines(e)| && EntryLines(e)[j] == MsgidText("")
    ensures e.0 == ""
  {
    var n := |e.1|;
    var lines := EntryLines(e);
    assert lines[0] == FormatMarker && FormatMarker[0] == '#';
    assert forall m :: 1 <= m <= n ==> lines[m] == LocationText(e.1[m - 1]) && lines[m][0] == '#';
    assert lines[n + 1] == MsgidText(e.0);
    assert lines[n + 2] == EmptyMsgstr && |EmptyMsgstr| == 9;
    assert lines[n + 3] == "";
    assert |MsgidText("")| == 8 && MsgidText("")[0] == 'm';
    assert j == n + 1;
  }

  /** Reading back a written mapping gives the header's empty id first and
      then the mapping itself, entry by entry in order; deleting the empty
      id gives back exactly the mapping. */
  lemma RenderParse(c: Catalog)
    requires UniqueKeys(c) && "" !in Keys(c) && SingleLine(c)
    ensures Parse(Render(c)) == [("", [])] + c
    ensures Delete(Parse(Render(c)), "") == c
  {
    RenderLinesWritable(c);
    ReadJoin(RenderLines(c));
    HeaderReadsBack();
    UniqueCons(("", []), c);
    RunEntries([("", [])], c);
    ClassifyAllAppend(Header, EntriesLines(c));
    RunAppend(Start, HeaderKinds(), ClassifyAll(EntriesLines(c)));
    RunHeader();
    DeleteRemovesEntry([("", [])] + c, 0);
  }
}
