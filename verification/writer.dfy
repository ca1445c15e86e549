/** Writing the mapping out as a PO template: a fixed header, then one block
    of lines per id in mapping order. */
module Writer {
  import opened Numerals
  import opened TextLines
  import opened Catalog

  /** The header the heredoc writes, one element per line: a comment block
      and the empty `msgid ""` / `msgstr ""` header entry. */
  const Header: seq<string> := [
    Comment1, Comment2, Comment3, Comment4, Comment5, Comment6, Comment7, Comment8, Comment9,
    "msgid \"\"",
    "msgstr \"\"",
    ""
  ]

  // The comment lines of the header. The longer ones are written as two
  // literals joined, which keeps the proofs about their characters small.
  const Comment1 := "## This file is a PO Template file."
  const Comment2 := "##"
  const Comment3 := "## `msgid`s here are often " + "extracted from source code."
  const Comment4 := "## Add new translations manually " + "only if they're dynamic"
  const Comment5 := "## translations that can't " + "be statically extracted."
  const Comment6 := "##"
  const Comment7 := "## Run `mix gettext.extract` " + "to bring this file up to"
  const Comment8 := "## date. Leave `msgstr`s empty " + "as changing them here as no"
  const Comment9 := "## effect: edit them in PO " + "(`.po`) files instead."

  /** The number of comment lines at the start of `Header`. */
  const CommentLines := 9

  const FormatMarker := "#, elixir-format"

  const EmptyMsgstr := "msgstr \"\""

  /** `printf("#: %s:%d\n", location.file, location.line)`, without the newline. */
  function LocationText(at: Location): string {
    "#: " + at.file + ":" + NatToString(at.line)
  }

  /** The `msgid` line, id written verbatim with no escaping. */
  function MsgidText(id: string): string {
    "msgid \"" + id + "\""
  }

  function LocationTexts(ls: seq<Location>): seq<string> {
    seq(|ls|, i requires 0 <= i < |ls| => LocationText(ls[i]))
  }

  /** The lines written for one entry: the format marker, one `#:` line per
      location in list order, the `msgid` line, an empty `msgstr` and a
      blank line. */
  function EntryLines(e: Entry): seq<string> {
    [FormatMarker] + LocationTexts(e.1) + [MsgidText(e.0), EmptyMsgstr, ""]
  }

  function EntriesLines(c: Catalog): seq<string> {
    if |c| == 0 then [] else EntryLines(c[0]) + EntriesLines(c[1..])
  }

  function RenderLines(c: Catalog): seq<string> {
    Header + EntriesLines(c)
  }

  /** The whole text written to the template file. */
  function Render(c: Catalog): string {
    JoinLines(RenderLines(c))
  }

  /** Every written line reads back as itself when no id or file name holds
      a newline; empty file names included. */
  lemma RenderLinesWritable(c: Catalog)
    requires NewlineFree(c)
    ensures forall i :: 0 <= i < |RenderLines(c)| ==> Writable(RenderLines(c)[i])
  {
    HeaderWritable();
    EntriesWritable(c);
  }

  lemma EntryWritable(e: Entry)
    requires '\n' !in e.0 && NewlineFreeLocations(e.1)
    ensures forall i :: 0 <= i < |EntryLines(e)| ==> Writable(EntryLines(e)[i])
  {
    forall i | 0 <= i < |e.1| ensures Writable(LocationText(e.1[i])) {
      var t := NatToString(e.1[i].line);
      assert IsDigit(t[|t| - 1]);
    }
    var m := MsgidText(e.0);
    assert m[|m| - 1] == '"';
  }

  lemma {:induction false} EntriesWritable(c: Catalog)
    requires NewlineFree(c)
    ensures forall i :: 0 <= i < |EntriesLines(c)| ==> Writable(EntriesLines(c)[i])
  {
    if |c| > 0 {
      assert c[0] in c;
      assert forall e :: e in c[1..] ==> e in c;
      EntriesWritable(c[1..]);
      EntryWritable(c[0]);
    }
  }

  lemma HeaderWritable()
    ensures forall i :: 0 <= i < |Header| ==> Writable(Header[i])
  {
    Comment1Writable();
    Comment2Writable();
    Comment3Writable();
    Comment4Writable();
    Comment5Writable();
    Comment6Writable();
    Comment7Writable();
    Comment8Writable();
    Comment9Writable();
    assert Writable(Header[CommentLines]) && Writable(Header[CommentLines + 1]) && Writable(Header[CommentLines + 2]);
  }

  // One lemma per comment line keeps each proof about a literal small.

  lemma Comment1Writable()
    ensures Writable(Comment1)
  {
  }

  lemma Comment2Writable()
    ensures Writable(Comment2)
  {
  }

  lemma Comment3Writable()
    ensures Writable(Comment3)
  {
  }

  lemma Comment4Writable()
    ensures Writable(Comment4)
  {
  }

  lemma Comment5Writable()
    ensures Writable(Comment5)
  {
  }

  lemma Comment6Writable()
    ensures Writable(Comment6)
  {
  }

  lemma Comment7Writable()
    ensures Writable(Comment7)
  {
  }

  lemma Comment8Writable()
    ensures Writable(Comment8)
  {
  }

  lemma Comment9Writable()
    ensures Writable(Comment9)
  {
  }
}
