/** Text as a sequence of lines: Python's `readlines` on a file opened in
    text mode, `rstrip("\n")`, and writing lines each followed by a newline. */
module TextLines {

  /** No character that ends a line when a text-mode file is read: neither
      a newline nor a carriage return. */
  predicate NoNewline(s: string) {
    forall i :: 0 <= i < |s| ==> s[i] != '\n' && s[i] != '\r'
  }

  predicate NoReturn(s: string) {
    forall i :: 0 <= i < |s| ==> s[i] != '\r'
  }

  /** `s.rstrip("\n")`: drop every trailing newline, and nothing else. */
  function RStripNewlines(s: string): (t: string)
    ensures |t| <= |s|
    ensures t == [] || t[|t| - 1] != '\n'
  {
    if s != [] && s[|s| - 1] == '\n' then RStripNewlines(s[..|s| - 1]) else s
  }

  /** `rstrip("\n")` keeps a prefix of the line and removes only newlines. */
  lemma {:induction false} RStripShape(s: string)
    ensures RStripNewlines(s) == s[..|RStripNewlines(s)|]
    ensures forall i :: |RStripNewlines(s)| <= i < |s| ==> s[i] == '\n'
    decreases |s|
  {
    if s != [] && s[|s| - 1] == '\n' {
      var u := s[..|s| - 1];
      RStripShape(u);
      var t := RStripNewlines(s);
      assert t == u[..|t|];
      assert u[..|t|] == s[..|t|];
    }
  }

  /** The lines written one after another, each followed by a newline. */
  function Terminated(lines: seq<string>): (text: string)
    ensures |text| >= |lines|
  {
    if lines == [] then "" else lines[0] + "\n" + Terminated(lines[1..])
  }

  /** Each line with its newline, as `readlines` returns them. */
  function WithNewlines(lines: seq<string>): (raw: seq<string>)
    ensures |raw| == |lines|
    ensures forall i :: 0 <= i < |raw| ==> raw[i] == lines[i] + "\n"
  {
    seq(|lines|, i requires 0 <= i < |lines| => lines[i] + "\n")
  }

  /** The index of the first `c` in `s`, or |s| when there is none. */
  function IndexOf(s: string, c: char): (p: nat)
    ensures p <= |s|
    ensures p < |s| ==> s[p] == c
    ensures forall i :: 0 <= i < p ==> s[i] != c
  {
    if s == [] then 0
    else if s[0] == c then 0
    else 1 + IndexOf(s[1..], c)
  }

  /** The first `c` is at `p` when `p` holds one and no earlier index does. */
  lemma {:induction false} IndexOfAt(s: string, c: char, p: nat)
    requires p < |s| && s[p] == c
    requires forall i :: 0 <= i < p ==> s[i] != c
    ensures IndexOf(s, c) == p
  {
  }

  /** Universal newlines, as a file opened with `open(filename, 'r')` reads:
      every "\r\n" and every lone "\r" becomes "\n". */
  function Universal(text: string): (t: string)
    ensures |t| <= |text|
    ensures NoReturn(t)
    decreases |text|
  {
    if text == [] then []
    else if text[0] == '\r' then
      "\n" + Universal(if |text| > 1 && text[1] == '\n' then text[2..] else text[1..])
    else [text[0]] + Universal(text[1..])
  }

  /** The text cut after every newline; the last line has no newline when
      the text does not end with one. */
  function SplitAfterNewlines(text: string): (lines: seq<string>)
    ensures forall i :: 0 <= i < |lines| ==> lines[i] != []
    decreases |text|
  {
    if text == [] then []
    else if IndexOf(text, '\n') == |text| then [text]
    else [text[..IndexOf(text, '\n') + 1]] + SplitAfterNewlines(text[IndexOf(text, '\n') + 1..])
  }

  /** `readlines` in text mode: line ends translated to "\n", then the text
      cut after every newline. */
  function ReadLines(text: string): (lines: seq<string>)
    ensures forall i :: 0 <= i < |lines| ==> lines[i] != []
  {
    SplitAfterNewlines(Universal(text))
  }

  // ---------------------------------------------------------------------

  /** Writing two groups of lines writes the first group, then the second. */
  lemma {:induction false} TerminatedAppend(a: seq<string>, b: seq<string>)
    ensures Terminated(a + b) == Terminated(a) + Terminated(b)
    decreases |a|
  {
    if a != [] {
      assert (a + b)[1..] == a[1..] + b;
      TerminatedAppend(a[1..], b);
    } else {
      assert a + b == b;
    }
  }

  /** The last line written appears at the end of the text. */
  lemma {:induction false} TerminatedSnoc(a: seq<string>, line: string)
    ensures Terminated(a + [line]) == Terminated(a) + line + "\n"
  {
    TerminatedAppend(a, [line]);
    assert [line][1..] == [];
  }

  /** Writing one more line of a sequence appends that line and a newline. */
  lemma {:induction false} TerminatedPrefix(lines: seq<string>, n: nat)
    requires n < |lines|
    ensures Terminated(lines[..n + 1]) == Terminated(lines[..n]) + lines[n] + "\n"
  {
    assert lines[..n + 1] == lines[..n] + [lines[n]];
    TerminatedSnoc(lines[..n], lines[n]);
  }

  /** The first line of a text that starts with a newline-free line and a newline. */
  lemma {:induction false} FirstNewlineAfter(line: string, rest: string)
    requires NoNewline(line)
    ensures IndexOf(line + "\n" + rest, '\n') == |line|
    decreases |line|
  {
    if line != [] {
      assert (line + "\n" + rest)[1..] == line[1..] + "\n" + rest;
      FirstNewlineAfter(line[1..], rest);
    }
  }

  /** Reading back what was written line by line gives each line with its
      newline, when no line holds a line-ending character. */
  lemma {:induction false} ReadTerminated(lines: seq<string>)
    requires forall i :: 0 <= i < |lines| ==> NoNewline(lines[i])
    ensures ReadLines(Terminated(lines)) == WithNewlines(lines)
  {
    TerminatedNoReturn(lines);
    UniversalPlain(Terminated(lines));
    SplitTerminated(lines);
  }

  /** Text without carriage returns is read as it is. */
  lemma {:induction false} UniversalPlain(text: string)
    requires NoReturn(text)
    ensures Universal(text) == text
    decreases |text|
  {
    if text != [] {
      UniversalPlain(text[1..]);
      assert text == [text[0]] + text[1..];
    }
  }

  /** Lines without line-ending characters, written with newlines, hold no
      carriage return. */
  lemma {:induction false} TerminatedNoReturn(lines: seq<string>)
    requires forall i :: 0 <= i < |lines| ==> NoNewline(lines[i])
    ensures NoReturn(Terminated(lines))
    decreases |lines|
  {
    if lines != [] {
      TerminatedNoReturn(lines[1..]);
      var t := Terminated(lines);
      var rest := Terminated(lines[1..]);
      assert t == lines[0] + "\n" + rest;
      forall i | 0 <= i < |t| ensures t[i] != '\r' {
        if i < |lines[0]| {
          assert t[i] == lines[0][i];
        } else if i > |lines[0]| {
          assert t[i] == rest[i - |lines[0]| - 1];
        }
      }
    }
  }

  /** Cutting what was written line by line gives each line with its newline. */
  lemma {:induction false} SplitTerminated(lines: seq<string>)
    requires forall i :: 0 <= i < |lines| ==> NoNewline(lines[i])
    ensures SplitAfterNewlines(Terminated(lines)) == WithNewlines(lines)
    decreases |lines|
  {
    if lines != [] {
      var text := Terminated(lines);
      var rest := Terminated(lines[1..]);
      assert text == lines[0] + "\n" + rest;
      FirstNewlineAfter(lines[0], rest);
      var p := |lines[0]|;
      assert text[..p + 1] == lines[0] + "\n";
      assert text[p + 1..] == rest;
      SplitTerminated(lines[1..]);
      assert WithNewlines(lines) == [lines[0] + "\n"] + WithNewlines(lines[1..]);
    }
  }

  /** `rstrip("\n")` removes exactly the newline `readlines` kept. */
  lemma {:induction false} RStripNewline(line: string)
    requires NoNewline(line)
    ensures RStripNewlines(line + "\n") == line
  {
    var s := line + "\n";
    assert s[..|s| - 1] == line;
    assert line == [] || line[|line| - 1] != '\n';
  }

  /** `rstrip("\n")` a second time changes nothing. */
  lemma {:induction false} RStripTwice(s: string)
    ensures RStripNewlines(RStripNewlines(s)) == RStripNewlines(s)
  {
  }

  /** Writing the lines of two groups, then reading them back with their
      newlines, treats the groups one after the other. */
  lemma {:induction false} WithNewlinesAppend(a: seq<string>, b: seq<string>)
    ensures WithNewlines(a + b) == WithNewlines(a) + WithNewlines(b)
  {
  }

  /** Two groups of newline-free lines together are newline-free. */
  lemma {:induction false} NoNewlineAppend(a: seq<string>, b: seq<string>)
    requires forall i :: 0 <= i < |a| ==> NoNewline(a[i])
    requires forall i :: 0 <= i < |b| ==> NoNewline(b[i])
    ensures forall i :: 0 <= i < |a + b| ==> NoNewline((a + b)[i])
  {
    forall i | 0 <= i < |a + b| ensures NoNewline((a + b)[i]) {
      if i < |a| {
        assert (a + b)[i] == a[i];
      } else {
        assert (a + b)[i] == b[i - |a|];
      }
    }
  }
}
