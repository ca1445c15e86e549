/** Reading the existing PO template back into the translations mapping: a
    state machine over the template's chomped lines that collects `#:`
    locations into a pending list and commits them to the id of the next
    `msgid` line. */
module TemplateParser {
  import opened Wrappers
  import opened Numerals
  import opened TextLines
  import opened Catalog

  /** The case a template line falls into. The first `when` of the loop
      compares the chomped line with a string that ends in a newline; no
      chomped line does (see `MarkerCaseNeverTaken`), so that case has no
      kind of its own and the marker line `#, elixir-format` is `Other`. */
  datatype LineKind =
    | Translation                // `msgstr "…"`: ignored
    | IdLine(id: string)         // `msgid "<id>"`: commits the pending locations
    | LocationLine(at: Location) // `#: <file>:<line>`: one more pending location
    | Other                      // anything else: ignored

  /** The literal of the first `when`. */
  const MarkerCase := "#, elixir-format\n"

  /** The literal case never applies: a line handed out by `gets` and then
      chomped holds no newline at all. */
  lemma MarkerCaseNeverTaken(text: string)
    ensures MarkerCase !in ReadLines(text)
  {
    assert MarkerCase[16] == '\n';
  }

  /** `/^msgstr\s+"/` on a line without newline. */
  predicate IsMsgstr(line: string)
    requires '\n' !in line
  {
    |line| >= 6 && line[..6] == "msgstr" &&
    var w := LeadingSpaces(line[6..]);
    w >= 1 && 6 + w < |line| && line[6 + w] == '"'
  }

  /** A line is a `msgstr` line only when it is `msgstr`, one or more
      spaces, a quote and anything after. */
  lemma IsMsgstrShape(line: string)
    requires '\n' !in line
    ensures IsMsgstr(line) ==> exists ws, tail :: |ws| >= 1 && AllSpace(ws) && line == "msgstr" + ws + "\"" + tail
  {
    if IsMsgstr(line) {
      var rest := line[6..];
      var w := LeadingSpaces(rest);
      assert line == "msgstr" + rest[..w] + "\"" + rest[w + 1..] by {
        assert rest == rest[..w] + "\"" + rest[w + 1..];
        assert line == line[..6] + rest;
      }
    }
  }

  /** Every such line is a `msgstr` line, whatever follows the quote. */
  lemma IsMsgstrOf(ws: string, tail: string)
    requires |ws| >= 1 && AllSpace(ws) && '\n' !in ws && '\n' !in tail
    ensures '\n' !in "msgstr" + ws + "\"" + tail && IsMsgstr("msgstr" + ws + "\"" + tail)
  {
    var line := "msgstr" + ws + "\"" + tail;
    assert line[..6] == "msgstr";
    assert line[6..] == ws + ("\"" + tail);
    LeadingSpacesOf(ws, "\"" + tail);
  }

  /** `/^msgid\s+"(.*)"$/` on a line without newline, with its capture: the
      text between the quote after the spaces and the quote that ends the
      line. */
  function MatchMsgid(line: string): (r: Option<string>)
    requires '\n' !in line
    ensures r.Some? ==> exists ws :: |ws| >= 1 && AllSpace(ws) && line == "msgid" + ws + "\"" + r.value + "\""
  {
    if |line| >= 5 && line[..5] == "msgid" then
      var rest := line[5..];
      var w := LeadingSpaces(rest);
      if w >= 1 && w + 2 <= |rest| && rest[w] == '"' && rest[|rest| - 1] == '"' then
        var id := rest[w + 1..|rest| - 1];
        assert line == "msgid" + rest[..w] + "\"" + id + "\"";
        Some(id)
      else None
    else None
  }

  /** Every `msgid` line is recognised, and its id read back verbatim,
      quotes included. */
  lemma MatchMsgidOf(ws: string, id: string)
    requires |ws| >= 1 && AllSpace(ws) && '\n' !in ws && '\n' !in id
    ensures MatchMsgid("msgid" + ws + "\"" + id + "\"") == Some(id)
  {
    var line := "msgid" + ws + "\"" + id + "\"";
    assert line[..5] == "msgid";
    var rest := line[5..];
    assert rest == ws + ("\"" + id + "\"");
    LeadingSpacesOf(ws, "\"" + id + "\"");
    assert rest[|ws| + 1..|rest| - 1] == id;
  }

  /** `/^#: (.+):(\d+)$/` on a line without newline. The greedy `(.+)` runs
      up to the last colon, after which only digits may follow. */
  function MatchLocation(line: string): (r: Option<Location>)
    requires '\n' !in line
    ensures r.Some? ==> |r.value.file| > 0 && '\n' !in r.value.file
  {
    if |line| >= 3 && line[..3] == "#: " then
      var rest := line[3..];
      var p := LastIndex(rest, ':');
      if p >= 1 && p + 1 < |rest| && AllDigits(rest[p + 1..]) then
        Some(Location(rest[..p], ParseNat(rest[p + 1..])))
      else None
    else None
  }

  /** A location is only read from a line `#: <file>:<digits>`, the digits
      giving its line number. */
  lemma MatchLocationShape(line: string)
    requires '\n' !in line
    ensures MatchLocation(line).Some? ==>
              exists digits :: |digits| > 0 && AllDigits(digits) && ParseNat(digits) == MatchLocation(line).value.line
                               && line == "#: " + MatchLocation(line).value.file + ":" + digits
  {
    if MatchLocation(line).Some? {
      var rest := line[3..];
      var p := LastIndex(rest, ':');
      assert |line| >= 3 && line[..3] == "#: " && 1 <= p < |rest| - 1;
      var digits := rest[p + 1..];
      assert |digits| > 0 && AllDigits(digits);
      assert MatchLocation(line).value == Location(rest[..p], ParseNat(digits));
      LocationSplit(line, p);
    }
  }

  lemma LocationSplit(line: string, p: nat)
    requires |line| >= 3 && line[..3] == "#: " && p < |line| - 3 && line[3..][p] == ':'
    ensures line == "#: " + line[3..][..p] + ":" + line[3..][p + 1..]
  {
    var rest := line[3..];
    assert rest == rest[..p] + ":" + rest[p + 1..];
    assert line == line[..3] + rest;
  }

  /** Every location line as the writer prints it is recognised: the file
      name may itself hold colons and the line number is read back. */
  lemma MatchLocationOf(file: string, digits: string)
    requires |file| > 0 && '\n' !in file && |digits| > 0 && AllDigits(digits)
    ensures MatchLocation("#: " + file + ":" + digits) == Some(Location(file, ParseNat(digits)))
  {
    var rest := file + ":" + digits;
    var line := "#: " + rest;
    assert "#: " + file + ":" + digits == line;
    assert line[..3] == "#: " && line[3..] == rest;
    FileThenNumber(file, digits);
  }

  /** After the `#: `, the last colon is the one the writer put before the
      line number. */
  lemma FileThenNumber(file: string, digits: string)
    requires AllDigits(digits)
    ensures var rest := file + ":" + digits;
      && LastIndex(rest, ':') == |file| && rest[..|file|] == file && rest[|file| + 1..] == digits
  {
    var rest := file + ":" + digits;
    assert ':' !in digits by {
      assert forall i :: 0 <= i < |digits| ==> IsDigit(digits[i]);
    }
    assert rest == file + [':'] + digits;
    LastIndexAfter(file, ':', digits);
  }

  /** The `case` of the template loop, for one chomped line. */
  function Classify(line: string): (k: LineKind)
    requires '\n' !in line
    ensures k.IdLine? ==> '\n' !in k.id
    ensures k.LocationLine? ==> |k.at.file| > 0 && '\n' !in k.at.file
  {
    if IsMsgstr(line) then Translation
    else
      match MatchMsgid(line)
      case Some(id) => IdLine(id)
      case None =>
        match MatchLocation(line)
        case Some(at) => LocationLine(at)
        case None => Other
  }

  function ClassifyAll(lines: seq<string>): seq<LineKind>
    requires forall i :: 0 <= i < |lines| ==> '\n' !in lines[i]
  {
    seq(|lines|, i requires 0 <= i < |lines| => Classify(lines[i]))
  }

  /** The loop's variables: `pending` and `translations`. */
  datatype ParseState = ParseState(pending: seq<Location>, translations: Catalog)

  const Start := ParseState([], [])

  /** One turn of the loop. A `msgid` line assigns the pending list to its
      id, in place if the id is already known and at the end otherwise, and
      starts a new empty pending list; a location line extends the pending
      list; every other line changes nothing. */
  function Step(st: ParseState, k: LineKind): (r: ParseState)
    ensures k.IdLine? ==> r.pending == [] && Lookup(r.translations, k.id) == Some(st.pending)
    ensures k.IdLine? ==> forall id :: id != k.id ==> Lookup(r.translations, id) == Lookup(st.translations, id)
    ensures k.IdLine? ==> Keys(r.translations) == if k.id in Keys(st.translations) then Keys(st.translations)
                                                  else Keys(st.translations) + [k.id]
    ensures k.LocationLine? ==> r.translations == st.translations && r.pending == st.pending + [k.at]
    ensures k.Translation? || k.Other? ==> r == st
  {
    match k
    case IdLine(id) => ParseState([], Put(st.translations, id, st.pending))
    case LocationLine(at) => st.(pending := st.pending + [at])
    case _ => st
  }

  /** The state after the loop has read `ks`, one line after another. */
  function Run(st: ParseState, ks: seq<LineKind>): ParseState {
    if |ks| == 0 then st else Step(Run(st, ks[..|ks| - 1]), ks[|ks| - 1])
  }

  /** The mapping read from a template's text. */
  function Parse(text: string): Catalog {
    Run(Start, ClassifyAll(ReadLines(text))).translations
  }

  lemma RunSnoc(st: ParseState, ks: seq<LineKind>, k: LineKind)
    ensures Run(st, ks + [k]) == Step(Run(st, ks), k)
  {
    assert (ks + [k])[..|ks|] == ks;
  }

  lemma {:induction false} RunAppend(st: ParseState, a: seq<LineKind>, b: seq<LineKind>)
    ensures Run(st, a + b) == Run(Run(st, a), b)
  {
    if |b| == 0 {
      assert a + b == a;
    } else {
      assert (a + b)[..|a + b| - 1] == a + b[..|b| - 1];
      RunAppend(st, a, b[..|b| - 1]);
    }
  }

  /** A line the loop ignores can be dropped without changing anything:
      an unrecognised line between two `#:` lines does not change the
      locations committed to the next id. */
  lemma IgnoredLineInvisible(st: ParseState, a: seq<LineKind>, k: LineKind, b: seq<LineKind>)
    requires k.Translation? || k.Other?
    ensures Run(st, a + [k] + b) == Run(st, a + b)
  {
    RunAppend(st, a + [k], b);
    RunAppend(st, a, b);
    assert (a + [k])[..|a|] == a;
  }

  /** The locations of the location lines among `ks`, in order. */
  function LocationsIn(ks: seq<LineKind>): seq<Location> {
    if |ks| == 0 then []
    else LocationsIn(ks[..|ks| - 1]) + (if ks[|ks| - 1].LocationLine? then [ks[|ks| - 1].at] else [])
  }

  /** The ids of the `msgid` lines among `ks`, in order. */
  function IdsIn(ks: seq<LineKind>): seq<string> {
    if |ks| == 0 then []
    else IdsIn(ks[..|ks| - 1]) + (if ks[|ks| - 1].IdLine? then [ks[|ks| - 1].id] else [])
  }

  /** Index of the last `msgid` line before position `j`, or -1. */
  function LastIdBefore(ks: seq<LineKind>, j: nat): (r: int)
    requires j <= |ks|
    ensures -1 <= r < j
    ensures r >= 0 ==> ks[r].IdLine?
    ensures forall i :: r < i < j ==> !ks[i].IdLine?
  {
    if j == 0 then -1 else if ks[j - 1].IdLine? then j - 1 else LastIdBefore(ks, j - 1)
  }

  /** Index of the last `msgid` line for `id`, or -1. */
  function LastLineOf(ks: seq<LineKind>, id: string): (r: int)
    ensures -1 <= r < |ks|
    ensures r >= 0 ==> ks[r] == IdLine(id)
    ensures forall i :: r < i < |ks| ==> ks[i] != IdLine(id)
  {
    if |ks| == 0 then -1
    else if ks[|ks| - 1] == IdLine(id) then |ks| - 1
    else LastLineOf(ks[..|ks| - 1], id)
  }

  /** The locations of the `#:` lines between the previous `msgid` line and
      position `j`. */
  function PendingAt(ks: seq<LineKind>, j: nat): seq<Location>
    requires j <= |ks|
  {
    LocationsIn(ks[LastIdBefore(ks, j) + 1..j])
  }

  lemma {:induction false} LastIdBeforePrefix(ks: seq<LineKind>, k: LineKind, j: nat)
    requires j <= |ks|
    ensures LastIdBefore(ks + [k], j) == LastIdBefore(ks, j)
  {
    if j > 0 {
      assert (ks + [k])[j - 1] == ks[j - 1];
      LastIdBeforePrefix(ks, k, j - 1);
    }
  }

  lemma PendingAtPrefix(ks: seq<LineKind>, k: LineKind, j: nat)
    requires j <= |ks|
    ensures PendingAt(ks + [k], j) == PendingAt(ks, j)
  {
    LastIdBeforePrefix(ks, k, j);
    var a := LastIdBefore(ks, j) + 1;
    assert (ks + [k])[a..j] == ks[a..j];
  }

  /** After reading `ks` the pending list holds the locations of the `#:`
      lines since the last `msgid` line. */
  lemma {:induction false} RunPending(ks: seq<LineKind>)
    ensures Run(Start, ks).pending == PendingAt(ks, |ks|)
  {
    if |ks| > 0 {
      var n := |ks| - 1;
      var prev := ks[..n];
      var k := ks[n];
      assert ks == prev + [k];
      RunPending(prev);
      assert Run(Start, ks) == Step(Run(Start, prev), k);
      if k.IdLine? {
        assert ks[n + 1..|ks|] == [];
      } else {
        PendingStep(prev, k);
      }
    }
  }

  /** A line other than a `msgid` line adds its location, if any, to the
      locations since the last `msgid` line. */
  lemma PendingStep(prev: seq<LineKind>, k: LineKind)
    requires !k.IdLine?
    ensures PendingAt(prev + [k], |prev| + 1) == PendingAt(prev, |prev|) + (if k.LocationLine? then [k.at] else [])
  {
    var ks := prev + [k];
    var n := |prev|;
    var a := LastIdBefore(prev, n) + 1;
    assert LastIdBefore(ks, n + 1) + 1 == a by {
      assert ks[n] == k;
      LastIdBeforePrefix(prev, k, n);
    }
    var seg := ks[a..n + 1];
    assert seg == prev[a..n] + [k];
    assert seg[..|seg| - 1] == prev[a..n];
  }

  /** After reading `ks` the ids are those of the `msgid` lines, each once,
      in order of first appearance. */
  lemma {:induction false} RunKeys(ks: seq<LineKind>)
    ensures Keys(Run(Start, ks).translations) == NewKeys([], IdsIn(ks))
  {
    if |ks| > 0 {
      var n := |ks| - 1;
      var prev := ks[..n];
      var k := ks[n];
      RunKeys(prev);
      if k.IdLine? {
        NewKeysSnoc([], IdsIn(prev), k.id);
      } else {
        assert IdsIn(ks) == IdsIn(prev);
      }
    }
  }

  /** After reading `ks` each id holds the locations that preceded its LAST
      `msgid` line, back to the `msgid` line before that one. */
  lemma {:induction false} RunLocations(ks: seq<LineKind>, id: string)
    ensures Lookup(Run(Start, ks).translations, id)
            == (var j := LastLineOf(ks, id); if j < 0 then None else Some(PendingAt(ks, j)))
  {
    if |ks| > 0 {
      var n := |ks| - 1;
      var prev := ks[..n];
      var k := ks[n];
      assert ks == prev + [k];
      RunLocations(prev, id);
      var j := LastLineOf(prev, id);
      if k == IdLine(id) {
        RunPending(prev);
        PendingAtPrefix(prev, k, n);
      } else if j >= 0 {
        PendingAtPrefix(prev, k, j);
      }
    }
  }

  /** What the loop computes, stated without the loop. */
  lemma RunSpec(ks: seq<LineKind>)
    ensures Run(Start, ks).pending == PendingAt(ks, |ks|)
    ensures Keys(Run(Start, ks).translations) == NewKeys([], IdsIn(ks))
    ensures forall id :: Lookup(Run(Start, ks).translations, id)
              == (var j := LastLineOf(ks, id); if j < 0 then None else Some(PendingAt(ks, j)))
  {
    RunPending(ks);
    RunKeys(ks);
    forall id
      ensures Lookup(Run(Start, ks).translations, id)
              == (var j := LastLineOf(ks, id); if j < 0 then None else Some(PendingAt(ks, j)))
    {
      RunLocations(ks, id);
    }
  }

  /** Ids without newline and non-empty file names without newline, as
      every classified chomped line yields. */
  predicate SingleLineKinds(ks: seq<LineKind>) {
    forall i :: 0 <= i < |ks| ==>
      (ks[i].IdLine? ==> '\n' !in ks[i].id) &&
      (ks[i].LocationLine? ==> |ks[i].at.file| > 0 && '\n' !in ks[i].at.file)
  }

  lemma {:induction false} RunSingleLine(ks: seq<LineKind>)
    requires SingleLineKinds(ks)
    ensures UniqueKeys(Run(Start, ks).translations)
    ensures SingleLine(Run(Start, ks).translations)
    ensures SingleLineLocations(Run(Start, ks).pending)
  {
    RunKeys(ks);
    if |ks| > 0 {
      var n := |ks| - 1;
      var prev := ks[..n];
      var k := ks[n];
      RunSingleLine(prev);
      var st := Run(Start, prev);
      if k.IdLine? {
        PutEntries(st.translations, k.id, st.pending);
      }
    }
  }

  /** The mapping read from any template is a Hash whose ids and file names
      fit on one line, file names non-empty. */
  lemma ParseSingleLine(text: string)
    ensures UniqueKeys(Parse(text)) && SingleLine(Parse(text))
  {
    RunSingleLine(ClassifyAll(ReadLines(text)));
  }
}
