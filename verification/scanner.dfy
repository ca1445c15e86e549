/** Reading the search results: each printed line is `file:line:match`, and
    the id is the quoted second argument of the `dgettext("haytni", …)` call
    in the match. */
module Scanner {
  import opened Wrappers
  import opened Numerals
  import opened TextLines
  import opened Catalog

  /** `line.split(':', 3)`: the text before the first colon, the text
      between the first two colons, and everything after the second colon,
      further colons and the line's own newline included. A line with fewer
      than two colons has no third field. */
  function SplitRaw(line: string): (r: Option<(string, string, string)>)
    ensures r.Some? ==> ':' !in r.value.0 && ':' !in r.value.1
    ensures r.Some? ==> line == r.value.0 + ":" + r.value.1 + ":" + r.value.2
    ensures r.None? ==> forall i, j :: 0 <= i < j < |line| && line[i] == ':' ==> line[j] != ':'
  {
    var p := FirstIndex(line, ':');
    if p < 0 then None
    else
      var rest := line[p + 1..];
      var q := FirstIndex(rest, ':');
      if q < 0 then
        AtMostOneColon(line, p);
        None
      else
        SplitAt(line, p, q);
        Some((line[..p], rest[..q], rest[q + 1..]))
  }

  lemma AtMostOneColon(line: string, p: nat)
    requires p < |line| && ':' !in line[..p] && ':' !in line[p + 1..]
    ensures forall i, j :: 0 <= i < j < |line| && line[i] == ':' ==> line[j] != ':'
  {
    assert forall i :: 0 <= i < p ==> line[i] == line[..p][i];
    assert forall j :: p < j < |line| ==> line[j] == line[p + 1..][j - p - 1];
  }

  lemma SplitAt(line: string, p: nat, q: nat)
    requires p < |line| && line[p] == ':' && q < |line| - p - 1 && line[p + 1..][q] == ':'
    ensures line == line[..p] + ":" + line[p + 1..][..q] + ":" + line[p + 1..][q + 1..]
  {
    var rest := line[p + 1..];
    assert rest == rest[..q] + ":" + rest[q + 1..];
    assert line == line[..p] + ":" + rest;
  }

  /** The split is the one intended whenever the file name holds no colon. */
  lemma SplitRawOf(file: string, num: string, text: string)
    requires ':' !in file && ':' !in num
    ensures SplitRaw(file + ":" + num + ":" + text) == Some((file, num, text))
  {
    var line := file + ":" + num + ":" + text;
    assert line[|file|] == ':';
    assert line[..|file|] == file;
    var rest := line[|file| + 1..];
    assert rest == num + ":" + text;
    assert rest[|num|] == ':';
    assert rest[..|num|] == num;
    assert rest[|num| + 1..] == text;
  }

  /** The optional module qualifier in front of the call. */
  const Qualifier := "Haytni.Gettext."

  /** The call up to its second argument. */
  const CallHead := "dgettext(\"haytni\","

  /** The call as it appears in the search output, up to the closing quote
      of the id. */
  function CallText(qualified: bool, ws: string, id: string): string {
    (if qualified then Qualifier else "") + CallHead + ws + "\"" + id + "\""
  }

  /** The text following an optional qualifier at the start of `text`. */
  function AfterQualifier(text: string): (r: string)
    ensures Qualifier <= text ==> text == Qualifier + r
    ensures !(Qualifier <= text) ==> r == text
  {
    if |Qualifier| <= |text| && text[..|Qualifier|] == Qualifier then
      assert text == Qualifier + text[|Qualifier|..];
      text[|Qualifier|..]
    else text
  }

  /** The second argument of the call, from just after the comma: spaces,
      a quote, the id up to the next quote, and whatever follows. */
  function QuotedArgument(u: string): (r: Option<(string, string, string)>)
    ensures r.Some? ==> AllSpace(r.value.0) && '"' !in r.value.1
    ensures r.Some? ==> u == r.value.0 + "\"" + r.value.1 + "\"" + r.value.2
  {
    var w := LeadingSpaces(u);
    if w < |u| && u[w] == '"' then
      var q := FirstIndex(u[w + 1..], '"');
      if q < 0 then None
      else
        QuotedSplit(u, w, q);
        Some((u[..w], u[w + 1..][..q], u[w + 1..][q + 1..]))
    else None
  }

  lemma QuotedSplit(u: string, w: nat, q: nat)
    requires w < |u| && u[w] == '"' && q < |u| - w - 1 && u[w + 1..][q] == '"'
    ensures u == u[..w] + "\"" + u[w + 1..][..q] + "\"" + u[w + 1..][q + 1..]
  {
    var body := u[w + 1..];
    assert body == body[..q] + "\"" + body[q + 1..];
    assert u == u[..w] + "\"" + body;
  }

  lemma QuotedArgumentOf(ws: string, id: string, tail: string)
    requires AllSpace(ws) && '"' !in id
    ensures QuotedArgument(ws + "\"" + id + "\"" + tail) == Some((ws, id, tail))
  {
    var u := ws + "\"" + id + "\"" + tail;
    assert u == ws + ("\"" + id + "\"" + tail);
    LeadingSpacesOf(ws, "\"" + id + "\"" + tail);
    var body := u[|ws| + 1..];
    assert body == id + "\"" + tail;
    assert body[|id|] == '"';
    assert FirstIndex(body, '"') == |id|;
    assert body[..|id|] == id;
    assert body[|id| + 1..] == tail;
  }

  /** The named capture `msgid` of the pattern at gettext.rb:36, for a match
      that starts the text: the characters between the quote that follows
      `dgettext("haytni",` and its spaces, and the next quote. */
  function ExtractMsgid(text: string): (r: Option<string>)
    ensures r.Some? ==> '"' !in r.value
  {
    var t := AfterQualifier(text);
    if |CallHead| <= |t| && t[..|CallHead|] == CallHead then
      var arg :- QuotedArgument(t[|CallHead|..]);
      Some(arg.1)
    else None
  }

  /** An id is only read from a call: the text, once the qualifier is
      dropped, is the call head followed by a quoted argument whose id it
      is. */
  lemma ExtractShape(text: string)
    ensures ExtractMsgid(text).Some? ==>
              exists u :: AfterQualifier(text) == CallHead + u && QuotedArgument(u).Some?
                          && QuotedArgument(u).value.1 == ExtractMsgid(text).value
  {
    if ExtractMsgid(text).Some? {
      var t := AfterQualifier(text);
      var u := t[|CallHead|..];
      assert t == CallHead + u;
    }
  }

  /** Every call the search prints is read back to its id, with or without
      the qualifier, whatever the spaces before the id and the text after
      it. */
  lemma ExtractOf(qualified: bool, ws: string, id: string, tail: string)
    requires AllSpace(ws) && '"' !in id
    ensures ExtractMsgid(CallText(qualified, ws, id) + tail) == Some(id)
  {
    var u := ws + "\"" + id + "\"" + tail;
    var t := CallHead + u;
    var text := (if qualified then Qualifier else "") + t;
    assert CallText(qualified, ws, id) + tail == text;
    QualifierDropped(qualified, u);
    assert t[..|CallHead|] == CallHead && t[|CallHead|..] == u;
    QuotedArgumentOf(ws, id, tail);
  }

  /** The qualifier, when present, is dropped, and nothing else is. */
  lemma QualifierDropped(qualified: bool, u: string)
    ensures AfterQualifier((if qualified then Qualifier else "") + (CallHead + u)) == CallHead + u
  {
    var t := CallHead + u;
    var text := (if qualified then Qualifier else "") + t;
    if qualified {
      assert text[..|Qualifier|] == Qualifier;
      assert text[|Qualifier|..] == t;
    } else {
      assert text[0] == 'd';
    }
  }

  /** One line of the search output read as an occurrence: the file name,
      the line number and the id. Lines that do not have that shape give
      `None`. */
  function ScanLine(raw: string): (r: Option<Occurrence>)
    ensures r.Some? ==> ':' !in r.value.at.file && '"' !in r.value.id
  {
    var fields :- SplitRaw(raw);
    var (file, num, text) := fields;
    if |num| == 0 || !AllDigits(num) then None
    else
      var id :- ExtractMsgid(text);
      Some(Occurrence(id, Location(file, ParseNat(num))))
  }

  /** An occurrence is only read from a line of the shape `file:num:text`
      with a non-empty decimal `num` and a call in `text`. */
  lemma ScanLineShape(raw: string)
    ensures ScanLine(raw).Some? ==> exists num, text ::
              |num| > 0 && AllDigits(num) && ParseNat(num) == ScanLine(raw).value.at.line
              && raw == ScanLine(raw).value.at.file + ":" + num + ":" + text
              && ExtractMsgid(text) == Some(ScanLine(raw).value.id)
  {
    if ScanLine(raw).Some? {
      var (file, num, text) := SplitRaw(raw).value;
      assert raw == file + ":" + num + ":" + text;
    }
  }

  /** Every line the search prints for a call in a file whose name holds no
      colon is read back to the file, the line number and the id. */
  lemma ScanLineOf(file: string, line: nat, qualified: bool, ws: string, id: string, tail: string)
    requires ':' !in file && AllSpace(ws) && '"' !in id
    ensures ScanLine(file + ":" + NatToString(line) + ":" + CallText(qualified, ws, id) + tail)
            == Some(Occurrence(id, Location(file, line)))
  {
    var num := NatToString(line);
    var text := CallText(qualified, ws, id) + tail;
    assert ':' !in num by {
      assert forall i :: 0 <= i < |num| ==> IsDigit(num[i]);
    }
    SplitRawOf(file, num, text);
    assert file + ":" + num + ":" + CallText(qualified, ws, id) + tail == file + ":" + num + ":" + text;
    ExtractOf(qualified, ws, id, tail);
  }

  /** A line as `gets` hands it out holds a newline at most at its end; the
      file name and the id read from it then hold none. */
  lemma ScanLineSingleLine(raw: string)
    requires GetsLine(raw)
    ensures ScanLine(raw).Some? ==> '\n' !in ScanLine(raw).value.id && '\n' !in ScanLine(raw).value.at.file
  {
    if ScanLine(raw).Some? {
      var (file, num, text) := SplitRaw(raw).value;
      assert ScanLine(raw).value.at.file == file;
      assert ScanLine(raw).value.id == ExtractMsgid(text).value;
      SplitRawSingleLine(raw, file, num, text);
      ExtractSingleLine(text);
    }
  }

  lemma SplitRawSingleLine(raw: string, file: string, num: string, text: string)
    requires GetsLine(raw) && raw == file + ":" + num + ":" + text
    ensures '\n' !in file && GetsLine(text)
  {
    assert raw == file + (":" + num + ":" + text);
    GetsLinePrefix(file, ":" + num + ":" + text);
    assert raw == (file + ":" + num + ":") + text;
    GetsLineSuffix(file + ":" + num + ":", text);
  }

  lemma ExtractSingleLine(text: string)
    requires GetsLine(text)
    ensures ExtractMsgid(text).Some? ==> '\n' !in ExtractMsgid(text).value
  {
    if ExtractMsgid(text).Some? {
      var t := AfterQualifier(text);
      if t != text {
        GetsLineSuffix(Qualifier, t);
      }
      var u := t[|CallHead|..];
      assert t == CallHead + u;
      GetsLineSuffix(CallHead, u);
      QuotedArgumentSingleLine(u);
    }
  }

  lemma QuotedArgumentSingleLine(u: string)
    requires GetsLine(u) && QuotedArgument(u).Some?
    ensures '\n' !in QuotedArgument(u).value.1
  {
    var (ws, id, tail) := QuotedArgument(u).value;
    assert u == (ws + "\"") + (id + ("\"" + tail));
    GetsLineSuffix(ws + "\"", id + ("\"" + tail));
    GetsLinePrefix(id, "\"" + tail);
  }

  /** All lines of the search output: `None` as soon as one line has not
      the required shape. */
  function ScanAll(raws: seq<string>): Option<seq<Occurrence>> {
    if forall i :: 0 <= i < |raws| ==> ScanLine(raws[i]).Some? then
      Some(seq(|raws|, i requires 0 <= i < |raws| => ScanLine(raws[i]).value))
    else None
  }

  /** The occurrences in the output of the search, one per printed line. */
  function Scan(output: string): Option<seq<Occurrence>> {
    ScanAll(SplitLines(output))
  }

  /** Every occurrence read from the search output has an id and a file
      name that fit on one line. */
  lemma ScanSingleLine(output: string)
    requires Scan(output).Some?
    ensures forall o :: o in Scan(output).value ==> '\n' !in o.id && '\n' !in o.at.file
  {
    var raws := SplitLines(output);
    var os := Scan(output).value;
    forall o | o in os ensures '\n' !in o.id && '\n' !in o.at.file {
      var i :| 0 <= i < |os| && os[i] == o;
      ScanLineSingleLine(raws[i]);
    }
  }

  /** A call the search found, as it prints it: where, whether the module
      qualifier was written, the spaces before the id, the id, and the rest
      of the match after the id's closing quote. */
  datatype Hit = Hit(at: Location, qualified: bool, ws: string, id: string, tail: string)

  /** The line the search prints for a hit, without its newline. */
  function HitLine(h: Hit): string {
    h.at.file + ":" + NatToString(h.at.line) + ":" + CallText(h.qualified, h.ws, h.id) + h.tail
  }

  function HitLines(hs: seq<Hit>): seq<string> {
    seq(|hs|, i requires 0 <= i < |hs| => HitLine(hs[i]))
  }

  /** What the run takes from each hit: the id and the location. */
  function HitOccurrences(hs: seq<Hit>): seq<Occurrence> {
    seq(|hs|, i requires 0 <= i < |hs| => Occurrence(hs[i].id, hs[i].at))
  }

  /** A hit the search can print on one line and the scan can split: a file
      name without colon or newline, spaces and id without newline, an id
      without quote. */
  predicate PrintableHit(h: Hit) {
    ':' !in h.at.file && '\n' !in h.at.file && AllSpace(h.ws) && '\n' !in h.ws
    && '"' !in h.id && '\n' !in h.id && '\n' !in h.tail
  }

  /** The whole search output, one newline-terminated line per hit, is read
      back to the hits' occurrences, in the order printed. */
  lemma ScanOutput(hs: seq<Hit>)
    requires forall i :: 0 <= i < |hs| ==> PrintableHit(hs[i])
    ensures Scan(JoinLines(HitLines(hs))) == Some(HitOccurrences(hs))
  {
    var lines := HitLines(hs);
    forall i | 0 <= i < |lines| ensures '\n' !in lines[i] {
      HitLineSingle(hs[i]);
    }
    SplitJoin(lines);
    var raws := SplitLines(JoinLines(lines));
    var occs := HitOccurrences(hs);
    forall i | 0 <= i < |raws| ensures ScanLine(raws[i]) == Some(occs[i]) {
      HitRead(hs[i], raws[i]);
    }
    ScanAllOf(raws, occs);
  }

  /** Lines each read back to an occurrence are read back together. */
  lemma ScanAllOf(raws: seq<string>, occs: seq<Occurrence>)
    requires |raws| == |occs|
    requires forall i :: 0 <= i < |raws| ==> ScanLine(raws[i]) == Some(occs[i])
    ensures ScanAll(raws) == Some(occs)
  {
    var r := ScanAll(raws);
    assert r.Some?;
    assert |r.value| == |occs|;
    assert forall i :: 0 <= i < |occs| ==> r.value[i] == occs[i];
    assert r.value == occs;
  }

  /** One printed line, newline included, is read back to its hit's
      occurrence. */
  lemma HitRead(h: Hit, raw: string)
    requires PrintableHit(h) && raw == HitLine(h) + "\n"
    ensures ScanLine(raw) == Some(Occurrence(h.id, h.at))
  {
    ScanLineOf(h.at.file, h.at.line, h.qualified, h.ws, h.id, h.tail + "\n");
    assert raw == h.at.file + ":" + NatToString(h.at.line) + ":" + CallText(h.qualified, h.ws, h.id) + (h.tail + "\n");
  }

  lemma HitLineSingle(h: Hit)
    requires PrintableHit(h)
    ensures '\n' !in HitLine(h)
  {
    var num := NatToString(h.at.line);
    assert '\n' !in num by {
      assert forall i :: 0 <= i < |num| ==> IsDigit(num[i]);
    }
    assert '\n' !in Qualifier && '\n' !in CallHead;
    var call := CallText(h.qualified, h.ws, h.id);
    assert '\n' !in call;
  }
}
