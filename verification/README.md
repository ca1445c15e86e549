# Haytni gettext template regeneration, modelled in Dafny

`gettext.rb` keeps the PO template `haytni.pot` in step with the source tree.
It does three things. It reads the existing template into an insertion-ordered
Hash from message id to a list of `Match(file, line)` locations. It folds in
every `dgettext("haytni", "…")` call that a recursive `grep` finds. It drops the
header's empty id and writes the template again.

This project models those pure parts as functions over strings and sequences.
It proves how each part behaves, and that the parts fit together.

- `wrappers.dfy` (module `Wrappers`): `Option`.
- `numerals.dfy` (module `Numerals`): `%d` and `to_i` on ASCII digits.
- `text_lines.dfy` (module `TextLines`):
  - what successive `gets` calls return;
  - `String#chomp`;
  - writing lines that each end in a newline;
  - the lines written read back unchanged.
- `catalog.dfy` (module `Catalog`): the Hash. It is an association list with
  unique keys. Its operations are `[]`, `[]=` (`Put`) and `delete`.
- `template_parser.dfy` (module `TemplateParser`): the `case` over chomped
  lines, and the loop over the template as a state machine. `ParseState`
  holds `pending` and `translations`.
- `scanner.dfy` (module `Scanner`):
  - `line.split(':', 3)` on a search output line;
  - a recogniser for the `dgettext("haytni",<spaces>"<id>"` call that yields
    the id.
- `merger.dfy` (module `Merger`): the fold of lines 37-38, as written.
- `writer.dfy` (module `Writer`): the heredoc header and the block written
  for each entry.
- `round_trip.dfy` (module `RoundTrip`): the parser reads the writer's
  output back as the mapping that was written.
- `pipeline.dfy` (module `Pipeline`): the whole run, from the template text
  and the search output to the new template text.

Regular expressions are modelled on the lines they actually see:
- A template line has been chomped after `gets`, so it holds no newline.
  There, `^` and `$` mean the start and end of the string.
- `/^#: (.+):(\d+)$/` splits at the LAST colon. The greedy `(.+)` backtracks
  only as far as the final all-digit suffix.
- Search output lines are not chomped. The third field of the split keeps the
  line's newline.

Behaviour of the code that a reader might not anticipate:
- **The fold always appends.** Lines 37-38 append the location whether or
  not the id came from the template. An id that is already in the template
  gets its scanned locations after its template locations.
- **A run is not idempotent.** When the search finds any non-empty id, and
  prints only non-empty file names as `grep -H` does, a second run on the
  first run's output appends the same locations again
  (`RegenerateTwiceDiffers`). Only with empty search output is the first
  run's text a fixed point (`RegenerateFixedPoint`).
- **A missing template is an error.** `File.open(POT_FILE, 'r')` raises if
  the template does not exist; it is not read as an empty template.
- **The first `when` never matches.** It compares the chomped line with
  `"#, elixir-format\n"`. A chomped line holds no newline, so the marker
  line falls through to no branch. The effect is the same: the line is
  ignored.

## Model

| member | source | states |
|---|---|---|
| TextLines.SplitLines | gettext.rb:18 | The pieces `gets` returns concatenate back to the whole text. None is empty. Each holds a newline at most as its last character, and every piece but the last ends in one. |
| TextLines.Chomp | gettext.rb:19 | `chomp` removes a suffix that is one of `""`, `"\n"`, `"\r"` or `"\r\n"`, and a trailing `"\r\n"` is removed whole. It leaves the line unchanged exactly when the line is empty or ends in neither `\n` nor `\r`. |
| TextLines.ReadLines | gettext.rb:18-19 | No line the template loop sees holds a newline. |
| TextLines.ReadJoin | gettext.rb:18-19 | Writing newline-free lines that do not end in `\r`, each followed by `"\n"`, and reading them back with `gets` and `chomp` gives the same lines. |
| TextLines.LeadingSpaces | gettext.rb:22 | The run of `\s` characters at the start of a string: all spaces, and the next character (if any) is not one. |
| Numerals.NatToString | gettext.rb:61 | `%d` writes a non-empty run of digits. It has no leading zero unless the value is 0, and `to_i` reads it back as the same number. |
| Numerals.NatToStringOfParse | gettext.rb:28 | A numeral without a leading zero is exactly what `%d` writes for the value `to_i` reads from it. |
| Catalog.Lookup | gettext.rb:37 | `Hash#[]` and `has_key?`: a key is missing exactly when it is not among the keys, and the value found belongs to an entry of the Hash. |
| Catalog.Put | gettext.rb:25 | `Hash#[]=`: the key then maps to the new value and every other key keeps its value. An existing key keeps its position; a new key is added at the end. |
| Catalog.PutKeepsUnique | gettext.rb:25 | Assignment never creates a second entry for a key. |
| Catalog.PutNew | gettext.rb:37 | Assigning a key that is not yet present appends exactly one entry. |
| Catalog.Delete | gettext.rb:42 | `Hash#delete`: afterwards the key is absent, the other keys are exactly those there before and keep their values, and nothing changes if the key was absent. |
| Catalog.DeleteRemovesEntry | gettext.rb:42 | Deleting a key of a Hash removes exactly its one entry and keeps the others in order. |
| Catalog.NewKeysSnoc | gettext.rb:37 | One more scanned id adds a new key exactly when it is neither in the template nor seen earlier in the scan. |
| TemplateParser.MarkerCaseNeverTaken | gettext.rb:19-21 | The literal `"#, elixir-format\n"` is never among the chomped template lines. |
| TemplateParser.IsMsgstr | gettext.rb:22 | `/^msgstr\s+"/` on a chomped line; IsMsgstrShape and IsMsgstrOf state both directions. |
| TemplateParser.IsMsgstrShape | gettext.rb:22 | A line is taken as a `msgstr` line only when it is `msgstr`, one or more spaces, a quote and any text. |
| TemplateParser.IsMsgstrOf | gettext.rb:22 | Every newline-free line `msgstr`, spaces, quote, text is taken as a `msgstr` line. |
| TemplateParser.MatchMsgid | gettext.rb:24 | A line recognised as a `msgid` line has the form `msgid`, one or more spaces, a quote, the captured id and a final quote. |
| TemplateParser.MatchMsgidOf | gettext.rb:24 | Every newline-free `msgid` line is recognised, and its capture is the text between the first quote after the spaces and the last quote, inner quotes included. |
| TemplateParser.MatchLocation | gettext.rb:27-28 | A recognised location has a non-empty, newline-free file name; MatchLocationShape and MatchLocationOf state which lines are recognised. |
| TemplateParser.MatchLocationShape | gettext.rb:27-28 | A location is read only from a line `#: <file>:<digits>`. The file name is non-empty and the line number is the value of the digits. |
| TemplateParser.MatchLocationOf | gettext.rb:27-28 | Every line `#: <file>:<digits>` with a non-empty file name is recognised, even when the file name holds colons. The file is split off at the last colon. |
| TemplateParser.Classify | gettext.rb:19-29 | Classifying a chomped line yields ids and non-empty file names that hold no newline. |
| TemplateParser.Step | gettext.rb:22-28 | A `msgid` line assigns the pending list to its id and empties the list. It keeps a known id's position and appends a new id, and other ids keep their lists. A `#:` line appends one location. `msgstr` lines and other lines change nothing. |
| TemplateParser.IgnoredLineInvisible | gettext.rb:19-23 | Removing an ignored line from anywhere in the template does not change the outcome. |
| TemplateParser.Run | gettext.rb:18-30 | The template loop over classified lines; RunSpec states its result without the loop, through RunPending, RunKeys and RunLocations. |
| TemplateParser.RunPending | gettext.rb:17-28 | After any prefix of the template, the pending list holds the locations of the `#:` lines since the last `msgid` line, in order. |
| TemplateParser.RunKeys | gettext.rb:24-25 | The parsed ids are those of the `msgid` lines, each once, in order of first appearance. |
| TemplateParser.RunLocations | gettext.rb:24-28 | Each id maps to the `#:` locations between its LAST `msgid` line and the `msgid` line before that. An id with no `msgid` line is absent. |
| TemplateParser.RunSpec | gettext.rb:16-31 | The loop's result, stated without the loop: the pending list, the keys in order, and each id's locations. |
| TemplateParser.Parse | gettext.rb:16-31 | The template read as a Hash; RunKeys, RunLocations and RunSpec state its keys and lists without the loop, and RenderParse that it inverts the writer. |
| TemplateParser.ParseSingleLine | gettext.rb:16-31 | Any template parses to a Hash whose ids hold no newline and whose file names are non-empty and hold no newline. |
| Scanner.SplitRaw | gettext.rb:35 | `split(':', 3)`: the first two fields hold no colon and the three fields joined by colons give back the line. With fewer than two colons, there is no third field. |
| Scanner.SplitRawOf | gettext.rb:35 | A line `file:num:text` whose file and number hold no colon splits into exactly those fields, with further colons kept in `text`. |
| Scanner.AfterQualifier | gettext.rb:36 | The optional `Haytni.Gettext.` qualifier is dropped, and only it. |
| Scanner.QuotedArgument | gettext.rb:36 | The second argument is spaces, a quote, an id without quotes, a quote and the remaining text, and these rebuild the input. |
| Scanner.QuotedArgumentOf | gettext.rb:36 | Every such argument is recognised, with its spaces, its id and the text that follows. |
| Scanner.ExtractMsgid | gettext.rb:36 | An extracted id holds no quote; ExtractShape and ExtractOf state from which texts an id is extracted. |
| Scanner.ExtractShape | gettext.rb:36 | An id is extracted only from text that, after the qualifier, is `dgettext("haytni",` followed by a quoted argument whose id it is. |
| Scanner.ExtractOf | gettext.rb:36 | Every call, qualified or not, with any spaces before the id and any text after it, yields its id. |
| Scanner.ScanLine | gettext.rb:35-38 | A scanned file name holds no colon and a scanned id no quote; ScanLineShape and ScanLineOf state which lines scan. |
| Scanner.ScanLineShape | gettext.rb:35-38 | An occurrence is read only from a line `file:num:text`. `num` is non-empty and all digits, and its value is the occurrence's line. `text` yields the occurrence's id. |
| Scanner.ScanLineOf | gettext.rb:35-38 | A search line for a call in a file whose name holds no colon is read back to that file, line number and id. |
| Scanner.ScanOutput | gettext.rb:33-38 | The whole search output, one newline-terminated `file:line:call` line per hit, is read back to exactly the hits' ids and locations, in the order printed, for file names without colon or newline. |
| Scanner.Scan | gettext.rb:34-39 | The loop over the search output, one occurrence per line; ScanOutput states that a printed output reads back to its hits, and ScanSingleLine that the results fit on one line. |
| Scanner.ScanSingleLine | gettext.rb:34-36 | Ids and file names read from the search output hold no newline. |
| Merger.Record | gettext.rb:37-38 | One occurrence: a known id keeps its position and a new id is appended. The id's list gets the location at its end, and every other id is unchanged. |
| Merger.Merge | gettext.rb:34-39 | The fold over the scan; MergeKeys, MergeLocations and MergeOrder state its keys, lists and entry order. |
| Merger.RecordKeepsUnique | gettext.rb:37-38 | The fold step never creates a second entry for an id. |
| Merger.MergeKeys | gettext.rb:34-39 | After the fold the keys are the template's keys in their order, then the scan's new ids in order of first appearance. |
| Merger.MergeLocations | gettext.rb:34-39 | Each id's list is its template locations followed by its scanned locations in scan order. |
| Merger.MergeOrder | gettext.rb:34-39 | Entry by entry, a template entry keeps its index and its list is extended by its scanned locations. The entries after the template's are new ids holding only their scanned locations. |
| Merger.MergeTwiceRepeats | gettext.rb:37-38 | Folding the same scan twice lists every scanned location twice. Any non-empty scan changes an already merged mapping. |
| Merger.MergeSingleLine | gettext.rb:37-38 | Folding in single-line occurrences keeps every id and file name on one line. |
| Writer.EntryLines | gettext.rb:58-66 | The block written for one entry; EntryReadsBack states that each of its lines reads back as the kind it was written for. |
| Writer.Render | gettext.rb:43-67 | The whole written text; RenderParse states that parsing it gives the header id and the mapping back. |
| Writer.RenderLinesWritable | gettext.rb:43-67 | For a mapping whose ids and file names hold no newline, every written line holds no newline and does not end in `\r`. |
| RoundTrip.HeaderReadsBack | gettext.rb:44-57 | The parser reads the header as nine ignored comment lines, the empty id, its `msgstr` line and a blank line. |
| RoundTrip.LocationTextIsLocationLine | gettext.rb:61 | A `#: file:line` line as `printf` writes it, for a non-empty newline-free file name, is read back by the line-27 pattern as exactly that location. |
| RoundTrip.EntryReadsBack | gettext.rb:58-66 | Each line of a written entry is read as the kind it was written for: ignored marker, one location line per location, the id line, the `msgstr` line, then a blank line. |
| RoundTrip.RunEntry | gettext.rb:24-28 | Reading one written entry for a new id commits exactly that entry at the end and leaves nothing pending. |
| RoundTrip.RunEntries | gettext.rb:58-67 | Reading the written entries commits them all, in order. |
| RoundTrip.RunHeader | gettext.rb:44-57 | Reading the header leaves only the empty id with no locations. |
| RoundTrip.RenderParse | gettext.rb:43-67 | Parsing the text written for a Hash with single-line ids, non-empty single-line file names and no empty id gives the header's empty id followed by the Hash. Deleting `""` gives back exactly the Hash. |
| RoundTrip.OnlyHeaderMsgid | gettext.rb:54-65 | For any Hash without the empty id, among the lines the writer writes (before they are joined with newlines) the only one equal to `msgid ""` is the header's, whatever its file names. |
| Pipeline.Regenerate | gettext.rb:16-68 | The whole run: parse, fold, delete `""`, render. UpdatedLayout states the mapping it writes, RegenerateReadsBack that the written text reads back as that mapping, RegenerateEmptyIdOnce its single header id, and RegenerateFixedPoint and RegenerateTwiceDiffers what a second run does. |
| Pipeline.Updated | gettext.rb:37-42 | The mapping the run writes; UpdatedLayout states its keys and lists. |
| Pipeline.UpdatedLayout | gettext.rb:37-42 | The written mapping has unique keys and no empty id. Its ids are exactly the non-empty ids of the template and of the scan. Each id's list is its template locations followed by its scanned locations. |
| Pipeline.RegenerateReadsBack | gettext.rb:16-68 | Reading back the new template gives the header's empty id followed by the written mapping. |
| Pipeline.RegenerateEmptyIdOnce | gettext.rb:42-54 | For every template and every well-formed search output, among the lines the run writes exactly one is `msgid ""`, the header's. |
| Pipeline.RegenerateNothing | gettext.rb:16-68 | With empty search output, a run writes the template's own mapping, without its empty id, in its own order. |
| Pipeline.RegenerateFixedPoint | gettext.rb:16-68 | With empty search output, a second run on the first run's output writes the same text. |
| Pipeline.RegenerateTwiceDiffers | gettext.rb:37-38 | With any non-empty id in the search output and every printed file name non-empty, a second run on the first run's output writes a different text. |

## Left out

- Reading and writing the template file (gettext.rb:16, 43) is I/O. The
  template is a `string` parameter and the written text a `string` result.
  A missing template makes `File.open` raise, which is not modelled.
- The `grep` subprocess and its command line (gettext.rb:33) are external
  process plumbing. Its output is a `string` parameter, cut into lines as
  `gets` would cut it.
- The `POT_FILE` path (gettext.rb:13) is not modelled.
- `GREP_REGEXP` (gettext.rb:14) is left out because it only selects which
  lines `grep` prints. The model accepts any output.
- Scanner.ExtractMsgid: only the prefix of the line-36 pattern is checked:
  the qualifier, `dgettext("haytni",`, spaces, the quoted id. The
  keyword-argument tail `(, name: value)*` and the closing parenthesis are
  not. The pattern is anchored at the start of the third field, where
  `grep -o` puts the match. A pattern that matches further in is not
  modelled.
- Scanner.ScanLine: when the line-36 pattern does not match, `msgid`
  becomes `nil`. The source then records the location under a `nil` key,
  which it writes as an empty id. Here the run yields `None` instead. The
  same holds for a line with fewer than two colons: its third field is
  `nil`, so the pattern does not match.
- Scanner.ScanLine: `String#to_i` reads a number from a field that is not
  all digits. Such a field yields `None`; `grep -n` only prints digits there.
- Scanner.SplitRaw: a file name that holds a colon is split at its first
  colon, as in the source. `ScanLineOf` requires a colon-free file name.
- Pipeline.RegenerateReadsBack: this requires every file name the search
  prints is non-empty. The template's `#: (.+):` line cannot carry an empty
  file name back. `grep -H` always prints a non-empty path.
- Pipeline.RegenerateTwiceDiffers: this requires the same non-empty file
  names, for the same reason. With an empty file name the first run writes
  `#: :5`, the second run does not read it back, and the two texts can be
  equal.
- RoundTrip.RenderParse: this requires ids and file names without newlines.
  Ids are written without escaping, so an id containing a newline would not
  read back. No id read by the parser or the scanner contains one
  (`ParseSingleLine`, `ScanSingleLine`).
- RoundTrip.OnlyHeaderMsgid and Pipeline.RegenerateEmptyIdOnce: these speak of
  the lines the writer writes, not of the lines of the joined text. An id or
  file name holding a newline would put further lines into the text, since
  nothing is escaped. In a run every id and file name is newline-free
  (`ParseSingleLine`, `ScanSingleLine`), but the lemmas do not restate the
  property over the text read back.
- Ruby's `\s`, `\d` and `.` are modelled on ASCII and on Dafny `char`.
  Encodings and invalid byte sequences are not modelled.
