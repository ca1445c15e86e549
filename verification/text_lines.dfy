/** Line-oriented text: what `IO#gets` hands out one call after another,
    `String#chomp`, and writing a sequence of newline-terminated lines. */
module TextLines {

  /** Index of the first `c` in `s`, or -1. */
  function FirstIndex(s: string, c: char): (r: int)
    ensures -1 <= r < |s|
    ensures r >= 0 ==> s[r] == c && c !in s[..r]
    ensures r < 0 ==> c !in s
  {
    if |s| == 0 then -1
    else if s[0] == c then 0
    else
      var r := FirstIndex(s[1..], c);
      assert s == [s[0]] + s[1..];
      if r < 0 then -1 else r + 1
  }

  /** Index of the last `c` in `s`, or -1. */
  function LastIndex(s: string, c: char): (r: int)
    ensures -1 <= r < |s|
    ensures r >= 0 ==> s[r] == c && c !in s[r + 1..]
    ensures r < 0 ==> c !in s
  {
    if |s| == 0 then -1
    else if s[|s| - 1] == c then |s| - 1
    else
      var r := LastIndex(s[..|s| - 1], c);
      assert s == s[..|s| - 1] + [s[|s| - 1]];
      r
  }

  /** Ruby's `\s`: space, tab, line feed, vertical tab, form feed, carriage return. */
  predicate IsSpace(ch: char) {
    ch == ' ' || ch == '\t' || ch == '\n' || ch == '\U{000B}' || ch == '\U{000C}' || ch == '\r'
  }

  predicate AllSpace(s: string) {
    forall i :: 0 <= i < |s| ==> IsSpace(s[i])
  }

  /** Length of the run of `\s` characters that starts `s`. */
  function LeadingSpaces(s: string): (n: nat)
    ensures n <= |s|
    ensures AllSpace(s[..n])
    ensures n < |s| ==> !IsSpace(s[n])
  {
    if |s| == 0 || !IsSpace(s[0]) then 0
    else
      var n := LeadingSpaces(s[1..]);
      assert s[..n + 1] == [s[0]] + s[1..][..n];
      n + 1
  }

  /** Space followed by a non-space character: the run is exactly the space. */
  lemma LeadingSpacesOf(ws: string, rest: string)
    requires AllSpace(ws) && |rest| > 0 && !IsSpace(rest[0])
    ensures LeadingSpaces(ws + rest) == |ws|
  {
    assert (ws + rest)[|ws|] == rest[0];
  }

  /** Concatenation of a sequence of strings. */
  function Concat(ls: seq<string>): string {
    if |ls| == 0 then [] else ls[0] + Concat(ls[1..])
  }

  /** A line as `gets` hands it out: a newline at most as its last
      character. */
  predicate GetsLine(s: string) {
    forall i :: 0 <= i < |s| - 1 ==> s[i] != '\n'
  }

  /** The successive results of `gets` on `text`: each piece runs up to and
      including the next newline, the last one may lack it, and there is no
      empty piece. */
  function SplitLines(text: string): (ls: seq<string>)
    ensures Concat(ls) == text
    ensures forall i :: 0 <= i < |ls| ==> |ls[i]| > 0 && GetsLine(ls[i])
    ensures forall i :: 0 <= i < |ls| - 1 ==> ls[i][|ls[i]| - 1] == '\n'
    decreases |text|
  {
    if |text| == 0 then []
    else
      var i := FirstIndex(text, '\n');
      if i < 0 then
        assert [text][1..] == [];
        [text]
      else
        var head := text[..i + 1];
        var rest := SplitLines(text[i + 1..]);
        LineThenLines(text, i, rest);
        [head] + rest
  }

  /** The step of `SplitLines`: the first line, up to its newline, in front
      of the lines of the rest of the text. */
  lemma LineThenLines(text: string, i: nat, rest: seq<string>)
    requires i < |text| && text[i] == '\n' && '\n' !in text[..i]
    requires Concat(rest) == text[i + 1..]
    requires forall j :: 0 <= j < |rest| ==> |rest[j]| > 0 && GetsLine(rest[j])
    requires forall j :: 0 <= j < |rest| - 1 ==> rest[j][|rest[j]| - 1] == '\n'
    ensures var ls := [text[..i + 1]] + rest;
      && Concat(ls) == text
      && (forall j :: 0 <= j < |ls| ==> |ls[j]| > 0 && GetsLine(ls[j]))
      && (forall j :: 0 <= j < |ls| - 1 ==> ls[j][|ls[j]| - 1] == '\n')
  {
    var head := text[..i + 1];
    var ls := [head] + rest;
    assert ls[1..] == rest;
    assert text == head + text[i + 1..];
    assert GetsLine(head) by {
      assert forall j :: 0 <= j < i ==> head[j] == text[..i][j];
    }
    assert forall j :: 1 <= j < |ls| ==> ls[j] == rest[j - 1];
  }

  /** `String#chomp` with the default separator: drops one trailing
      "\r\n", "\n" or "\r". */
  function Chomp(s: string): (r: string)
    ensures r <= s
    ensures s[|r|..] in ["", "\n", "\r", "\r\n"]
    ensures r == s <==> |s| == 0 || (s[|s| - 1] != '\n' && s[|s| - 1] != '\r')
    ensures |s| >= 2 && s[|s| - 2..] == "\r\n" ==> r == s[..|s| - 2]
  {
    if |s| >= 2 && s[|s| - 2..] == "\r\n" then s[..|s| - 2]
    else if |s| >= 1 && (s[|s| - 1] == '\n' || s[|s| - 1] == '\r') then
      assert s[|s| - 1..] == [s[|s| - 1]];
      s[..|s| - 1]
    else
      assert s[|s|..] == "";
      s
  }

  /** The lines the template loop sees: every `gets` result, chomped. */
  function ReadLines(text: string): (ls: seq<string>)
    ensures forall i :: 0 <= i < |ls| ==> '\n' !in ls[i]
  {
    ChompAll(SplitLines(text))
  }

  function ChompAll(ls: seq<string>): (r: seq<string>)
    requires forall i :: 0 <= i < |ls| ==> GetsLine(ls[i])
    ensures |r| == |ls|
    ensures forall i :: 0 <= i < |r| ==> r[i] == Chomp(ls[i]) && '\n' !in r[i]
  {
    ChompedLines(ls);
    seq(|ls|, i requires 0 <= i < |ls| => Chomp(ls[i]))
  }

  lemma ChompedLines(ls: seq<string>)
    requires forall i :: 0 <= i < |ls| ==> GetsLine(ls[i])
    ensures forall i :: 0 <= i < |ls| ==> '\n' !in Chomp(ls[i])
  {
    forall i | 0 <= i < |ls| ensures '\n' !in Chomp(ls[i]) {
      ChompedLine(ls[i]);
    }
  }

  /** A line as `gets` hands it out holds no newline once chomped. */
  lemma ChompedLine(s: string)
    requires GetsLine(s)
    ensures '\n' !in Chomp(s)
  {
    var c := Chomp(s);
    assert |c| == |s| || |c| < |s|;
    forall j | 0 <= j < |c| ensures c[j] != '\n' {
      assert c[j] == s[j];
      if |c| == |s| {
        assert c == s;
        if j == |s| - 1 {
          assert s[|s| - 1] != '\n';
        }
      }
    }
  }

  /** Writing each line followed by a newline, as the template writer does. */
  function JoinLines(ls: seq<string>): string {
    if |ls| == 0 then [] else ls[0] + "\n" + JoinLines(ls[1..])
  }

  /** A line that is written with a newline after it reads back unchanged:
      it holds no newline and does not end in a carriage return. */
  predicate Writable(l: string) {
    '\n' !in l && (|l| == 0 || l[|l| - 1] != '\r')
  }

  /** Reading back written lines gives the lines themselves. */
  lemma {:induction false} ReadJoin(ls: seq<string>)
    requires forall i :: 0 <= i < |ls| ==> Writable(ls[i])
    ensures ReadLines(JoinLines(ls)) == ls
  {
    SplitJoin(ls);
    var r := ReadLines(JoinLines(ls));
    forall i | 0 <= i < |ls| ensures r[i] == ls[i] {
      ChompNewline(ls[i]);
    }
  }

  /** The newline written after a line is exactly what `chomp` removes. */
  lemma ChompNewline(l: string)
    requires Writable(l)
    ensures Chomp(l + "\n") == l
  {
    var head := l + "\n";
    assert head[|head| - 1] == '\n';
    if |head| >= 2 {
      assert head[|head| - 2] != '\r';
      assert head[|head| - 2..] != "\r\n";
    }
    assert head[..|head| - 1] == l;
  }

  /** The lines `gets` hands out for written lines are those lines, each
      with its newline. */
  lemma {:induction false} SplitJoin(ls: seq<string>)
    requires forall i :: 0 <= i < |ls| ==> '\n' !in ls[i]
    ensures |SplitLines(JoinLines(ls))| == |ls|
    ensures forall i :: 0 <= i < |ls| ==> SplitLines(JoinLines(ls))[i] == ls[i] + "\n"
  {
    if |ls| > 0 {
      var head := ls[0] + "\n";
      var text := JoinLines(ls);
      assert text == head + JoinLines(ls[1..]);
      assert FirstIndex(text, '\n') == |ls[0]| by {
        assert text[..|ls[0]|] == ls[0];
        assert text[|ls[0]|] == '\n';
      }
      assert text[..|ls[0]| + 1] == head;
      assert text[|ls[0]| + 1..] == JoinLines(ls[1..]);
      SplitJoin(ls[1..]);
    }
  }

  lemma GetsLineSuffix(a: string, t: string)
    requires GetsLine(a + t)
    ensures GetsLine(t)
  {
    forall i | 0 <= i < |t| - 1 ensures t[i] != '\n' {
      assert (a + t)[|a| + i] == t[i];
    }
  }

  /** Whatever comes before the last character of such a line holds no
      newline. */
  lemma GetsLinePrefix(x: string, b: string)
    requires GetsLine(x + b) && |b| > 0
    ensures '\n' !in x
  {
    forall i | 0 <= i < |x| ensures x[i] != '\n' {
      assert (x + b)[i] == x[i];
    }
  }

  /** The last `c` of `a + [c] + b` is the one after `a` when `b` holds none. */
  lemma {:induction false} LastIndexAfter(a: string, c: char, b: string)
    requires c !in b
    ensures LastIndex(a + [c] + b, c) == |a|
    decreases |b|
  {
    var s := a + [c] + b;
    if |b| == 0 {
      assert s[|s| - 1] == c;
    } else {
      assert s[|s| - 1] == b[|b| - 1];
      assert s[..|s| - 1] == a + [c] + b[..|b| - 1];
      LastIndexAfter(a, c, b[..|b| - 1]);
    }
  }
}
