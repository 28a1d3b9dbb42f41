/** One section of a VESTA file: a header keyword, the values written after it
    on the header line ("inline" data), and the lines that follow it. The
    TITLE section keeps its lines as raw text; every other section keeps
    them as rows of scalars. */
module Sections {
  import opened TextLines
  import opened Tokenizer

  const Title := "TITLE"

  /** A line of a section: raw text in TITLE, a row of scalars elsewhere. */
  datatype Entry = Text(line: string) | Cells(row: Row)

  datatype Section = Section(header: string, inline: Row, data: seq<Entry>)

  /** The shape every section has: the header is one token, TITLE has no
      inline data and only text lines, the other sections only rows. */
  predicate WellFormed(s: Section) {
    && IsToken(s.header)
    && (s.header == Title ==> s.inline == [] && forall i :: 0 <= i < |s.data| ==> s.data[i].Text?)
    && (s.header != Title ==> forall i :: 0 <= i < |s.data| ==> s.data[i].Cells?)
  }

  // ---------------------------------------------------------------------
  // Reading a section
  // ---------------------------------------------------------------------

  /** `line.lstrip().split(maxsplit=1)`: the header keyword and the rest of the line. */
  function HeaderTokens(line: string): (tokens: seq<string>)
    ensures |tokens| <= 2
  {
    SplitFirst(LStrip(line))
  }

  /** The section a header line opens (`VestaSection.__init__`). The line must
      hold a token: the source indexes the first one unconditionally. */
  function NewSection(headerLine: string): Section
    requires HeaderTokens(RStripNewlines(headerLine)) != []
  {
    FromTokens(HeaderTokens(RStripNewlines(headerLine)))
  }

  function FromTokens(tokens: seq<string>): Section
    requires tokens != []
  {
    if tokens[0] == Title then
      Section(tokens[0], [], if |tokens| > 1 && tokens[1] != "" then [Text(tokens[1])] else [])
    else
      Section(tokens[0], if |tokens| > 1 && tokens[1] != "" then ParseLine(tokens[1]) else [], [])
  }

  /** `add_line`: a continuation line becomes the last entry of the section. */
  function AddEntry(s: Section, line: string): (r: Section)
    ensures r.header == s.header && r.inline == s.inline
    ensures |r.data| == |s.data| + 1 && r.data[..|s.data|] == s.data
    ensures r.data[|s.data|] == (if s.header == Title then Text(line) else Cells(ParseLine(line)))
    ensures WellFormed(s) ==> WellFormed(r)
  {
    s.(data := s.data + [if s.header == Title then Text(line) else Cells(ParseLine(line))])
  }

  /** `add_line` applied to each line in turn. */
  function AddEntries(s: Section, lines: seq<string>): (r: Section)
    ensures r.header == s.header && r.inline == s.inline
    ensures |r.data| == |s.data| + |lines|
    decreases |lines|
  {
    if lines == [] then s else AddEntries(AddEntry(s, lines[0]), lines[1..])
  }

  // ---------------------------------------------------------------------
  // Writing a section
  // ---------------------------------------------------------------------

  /** The header line `to_text` writes: the keyword alone for TITLE or when
      there is no inline data, else the keyword, a space and the inline values. */
  function HeaderLine(s: Section): string {
    if s.header == Title || s.inline == [] then s.header
    else s.header + " " + ShowRow(s.inline)
  }

  function EntryText(e: Entry): string {
    match e
    case Text(line) => line
    case Cells(row) => ShowRow(row)
  }

  function EntryLines(data: seq<Entry>): (lines: seq<string>)
    ensures |lines| == |data|
    ensures forall i :: 0 <= i < |data| ==> lines[i] == EntryText(data[i])
  {
    seq(|data|, i requires 0 <= i < |data| => EntryText(data[i]))
  }

  /** The lines `to_text` writes, without their newlines. */
  function SectionLines(s: Section): (lines: seq<string>)
    ensures |lines| == 1 + |s.data|
  {
    [HeaderLine(s)] + EntryLines(s.data)
  }

  /** `to_text`: the section's lines, each followed by a newline. */
  function SectionText(s: Section): string {
    Terminated(SectionLines(s))
  }

  /** A section whose written text reads back as itself: the rows and the
      inline values print as themselves and no text line holds a newline. */
  predicate Rereadable(s: Section) {
    && WellFormed(s)
    && PrintableRow(s.inline)
    && forall i :: 0 <= i < |s.data| ==> EntryRereadable(s.data[i])
  }

  predicate EntryRereadable(e: Entry) {
    match e
    case Text(line) => NoNewline(line)
    case Cells(row) => PrintableRow(row)
  }

  // ---------------------------------------------------------------------
  // The section object
  // ---------------------------------------------------------------------

  class VestaSection {
    /** The header line as read, without its newline. */
    var rawHeader: string
    var header: string
    var isTitle: bool
    var inline: Row
    var data: seq<Entry>

    function Value(): Section
      reads this
    {
      Section(header, inline, data)
    }

    ghost predicate Valid()
      reads this
    {
      isTitle == (header == Title) && WellFormed(Value())
    }

    constructor (headerLine: string)
      requires HeaderTokens(RStripNewlines(headerLine)) != []
      ensures Valid()
      ensures Value() == NewSection(headerLine)
    {
      var s := NewSection(headerLine);
      NewSectionWellFormed(headerLine);
      rawHeader := RStripNewlines(headerLine);
      header := s.header;
      isTitle := s.header == Title;
      inline := s.inline;
      data := s.data;
    }

    method AddLine(line: string)
      requires Valid()
      modifies this
      ensures Valid()
      ensures Value() == AddEntry(old(Value()), line)
      ensures header == old(header) && rawHeader == old(rawHeader)
    {
      if isTitle {
        data := data + [Text(line)];
      } else {
        data := data + [Cells(ParseLine(line))];
      }
    }

    method ToText() returns (text: string)
      requires Valid()
      ensures text == SectionText(Value())
    {
      ghost var lines := SectionLines(Value());
      if isTitle {
        text := header + "\n";
      } else if inline != [] {
        text := header + " " + ShowRow(inline) + "\n";
      } else {
        text := header + "\n";
      }
      SectionLineAt(Value(), 0);
      TerminatedPrefix(lines, 0);
      var i := 0;
      while i < |data|
        invariant 0 <= i <= |data|
        invariant text == Terminated(lines[..i + 1])
      {
        SectionLineAt(Value(), i + 1);
        TerminatedPrefix(lines, i + 1);
        text := text + EntryText(data[i]) + "\n";
        i := i + 1;
      }
      assert lines[..i + 1] == lines;
    }
  }

  // ---------------------------------------------------------------------
  // Properties
  // ---------------------------------------------------------------------

  /** The header keyword is the first whitespace-separated token of the
      line, and the line has one exactly when it is not blank. */
  lemma {:induction false} HeaderTokensFirst(line: string)
    ensures HeaderTokens(line) == [] <==> Split(line) == []
    ensures HeaderTokens(line) != [] ==> HeaderTokens(line)[0] == Split(line)[0]
    ensures |HeaderTokens(line)| == 2 ==> Split(HeaderTokens(line)[1]) == Split(line)[1..]
    ensures |HeaderTokens(line)| == 1 ==> |Split(line)| == 1
    ensures |HeaderTokens(line)| == 2 ==> |Split(line)| >= 2
  {
    SplitFirstTokens(LStrip(line));
    SplitNoLeadingSpace(line);
    if |HeaderTokens(line)| == 2 {
      SplitEmptyIffBlank(HeaderTokens(line)[1]);
    }
  }

  /** `__init__` builds a well-formed section. */
  lemma {:induction false} NewSectionWellFormed(headerLine: string)
    requires HeaderTokens(RStripNewlines(headerLine)) != []
    ensures WellFormed(NewSection(headerLine))
  {
    var line := RStripNewlines(headerLine);
    HeaderIsToken(line);
    FromTokensWellFormed(HeaderTokens(line));
  }

  lemma {:induction false} HeaderIsToken(line: string)
    requires HeaderTokens(line) != []
    ensures IsToken(HeaderTokens(line)[0])
  {
    HeaderTokensFirst(line);
  }

  lemma {:induction false} FromTokensWellFormed(tokens: seq<string>)
    requires tokens != [] && IsToken(tokens[0])
    ensures WellFormed(FromTokens(tokens))
  {
  }

  /** What `__init__` builds: the header is the first token; a non-TITLE
      section holds the remaining tokens, parsed, as inline data and no lines;
      TITLE holds no inline data and, when the header line goes on, the rest
      of it as its single first line. */
  lemma {:induction false} NewSectionFields(headerLine: string)
    requires Split(RStripNewlines(headerLine)) != []
    ensures HeaderTokens(RStripNewlines(headerLine)) != []
    ensures NewSection(headerLine).header == Split(RStripNewlines(headerLine))[0]
    ensures NewSection(headerLine).header != Title ==>
      && NewSection(headerLine).inline == ParseLine(RStripNewlines(headerLine))[1..]
      && NewSection(headerLine).data == []
    ensures NewSection(headerLine).header == Title ==>
      && NewSection(headerLine).inline == []
      && |NewSection(headerLine).data| == (if |Split(RStripNewlines(headerLine))| > 1 then 1 else 0)
      && forall i :: 0 <= i < |NewSection(headerLine).data| ==>
           NewSection(headerLine).data[i].Text? && Split(NewSection(headerLine).data[i].line) == Split(RStripNewlines(headerLine))[1..]
    ensures NewSection(headerLine).header == Title && |NewSection(headerLine).data| == 1 ==>
      && NewSection(headerLine).data[0].Text?
      && NewSection(headerLine).data[0].line != []
      && !IsSpace(NewSection(headerLine).data[0].line[0])
      && exists p :: RStripNewlines(headerLine) == p + NewSection(headerLine).data[0].line && Split(p) == [Title]
  {
    var line := RStripNewlines(headerLine);
    HeaderTokensFirst(line);
    FromTokensFields(HeaderTokens(line), Split(line));
    ParseTokensTail(Split(line));
    if |HeaderTokens(line)| == 2 {
      HeaderTokensSuffix(line);
    }
  }

  /** The rest of a header line after its keyword is the raw end of the
      line: nothing but the keyword and whitespace comes before it. */
  lemma {:induction false} HeaderTokensSuffix(line: string)
    requires |HeaderTokens(line)| == 2
    ensures exists p :: line == p + HeaderTokens(line)[1] && Split(p) == [HeaderTokens(line)[0]]
  {
    var t := LStrip(line);
    LStripSuffix(line);
    var lead := line[..|line| - |t|];
    assert line == lead + t;
    SplitFirstSuffix(t);
    var q :| t == q + HeaderTokens(line)[1] && Split(q) == [HeaderTokens(line)[0]];
    Regroup(lead, q, HeaderTokens(line)[1]);
    SplitAfterSpaces(lead, q);
  }

  /** FromTokens in terms of the whitespace tokens `ws` of the whole line. */
  lemma {:induction false} FromTokensFields(tokens: seq<string>, ws: seq<string>)
    requires 1 <= |tokens| <= 2 && ws != [] && tokens[0] == ws[0]
    requires |tokens| == 2 ==> tokens[1] != [] && Split(tokens[1]) == ws[1..] && |ws| >= 2
    requires |tokens| == 1 ==> |ws| == 1
    ensures FromTokens(tokens).header == ws[0]
    ensures FromTokens(tokens).header != Title ==>
      FromTokens(tokens).inline == ParseTokens(ws[1..]) && FromTokens(tokens).data == []
    ensures FromTokens(tokens).header == Title ==>
      && FromTokens(tokens).inline == []
      && |FromTokens(tokens).data| == (if |ws| > 1 then 1 else 0)
      && forall i :: 0 <= i < |FromTokens(tokens).data| ==>
           FromTokens(tokens).data[i].Text? && Split(FromTokens(tokens).data[i].line) == ws[1..]
  {
    if |tokens| == 1 {
      assert ws[1..] == [];
    }
  }

  /** The written text of an entry of the right kind, added back, is that entry. */
  lemma {:induction false} AddEntryOfText(s: Section, e: Entry)
    requires s.header == Title ==> e.Text?
    requires s.header != Title ==> e.Cells? && PrintableRow(e.row)
    ensures AddEntry(s, EntryText(e)) == s.(data := s.data + [e])
  {
    if s.header != Title {
      ParseShowRow(e.row);
    }
  }

  /** Adding the written lines of entries of the right kind to a section
      appends exactly those entries. */
  lemma {:induction false} AddEntriesOfLines(s: Section, data: seq<Entry>)
    requires s.header == Title ==> forall i :: 0 <= i < |data| ==> data[i].Text?
    requires s.header != Title ==> forall i :: 0 <= i < |data| ==> data[i].Cells? && PrintableRow(data[i].row)
    ensures AddEntries(s, EntryLines(data)) == s.(data := s.data + data)
    decreases |data|
  {
    if data != [] {
      var lines := EntryLines(data);
      var s1 := s.(data := s.data + [data[0]]);
      calc {
        AddEntries(s, lines);
        AddEntries(AddEntry(s, lines[0]), lines[1..]);
        { AddEntryOfText(s, data[0]); }
        AddEntries(s1, lines[1..]);
        { assert lines[1..] == EntryLines(data[1..]); }
        AddEntries(s1, EntryLines(data[1..]));
        { AddEntriesOfLines(s1, data[1..]); }
        s1.(data := s1.data + data[1..]);
        { HeadThenTail(s.data, data); }
        s.(data := s.data + data);
      }
    }
  }

  lemma {:induction false} HeadThenTail<T>(a: seq<T>, b: seq<T>)
    requires b != []
    ensures a + [b[0]] + b[1..] == a + b
  {
    assert [b[0]] + b[1..] == b;
  }

  /** A header line holding the keyword alone opens a section with no inline data. */
  lemma {:induction false} KeywordRereads(h: string)
    requires IsToken(h)
    ensures NoNewline(h)
    ensures HeaderTokens(RStripNewlines(h)) == [h]
  {
    SplitFirstOfToken(h);
    LStripNoSpace(h);
    assert h[|h| - 1] != '\n';
  }

  /** A header line holding the keyword and printed inline values reads back
      as that keyword and those values. */
  lemma {:induction false} KeywordAndRowRereads(h: string, inline: Row)
    requires IsToken(h) && inline != [] && PrintableRow(inline)
    ensures NoNewline(h + " " + ShowRow(inline))
    ensures HeaderTokens(RStripNewlines(h + " " + ShowRow(inline))) == [h, ShowRow(inline)]
  {
    KeywordAndRowNoNewline(h, inline);
    KeywordAndRowTokens(h, inline);
  }

  lemma {:induction false} KeywordAndRowTokens(h: string, inline: Row)
    requires IsToken(h) && inline != [] && PrintableRow(inline)
    requires NoNewline(h + " " + ShowRow(inline))
    ensures HeaderTokens(RStripNewlines(h + " " + ShowRow(inline))) == [h, ShowRow(inline)]
  {
    var text := ShowRow(inline);
    var line := h + " " + text;
    ShowRowChars(inline);
    SplitFirstOfPair(h, text);
    assert line[0] == h[0];
    LStripNoSpace(line);
    assert line[|line| - 1] != '\n';
  }

  lemma {:induction false} KeywordAndRowNoNewline(h: string, inline: Row)
    requires IsToken(h) && inline != [] && PrintableRow(inline)
    ensures NoNewline(h + " " + ShowRow(inline))
  {
    var text := ShowRow(inline);
    var line := h + " " + text;
    ShowRowChars(inline);
    forall i | 0 <= i < |line| ensures line[i] != '\n' {
      if i > |h| {
        assert line[i] == text[i - |h| - 1];
      }
    }
  }

  /** The header line `to_text` writes opens the same header and inline data. */
  lemma {:induction false} HeaderLineRereads(s: Section)
    requires Rereadable(s)
    ensures NoNewline(HeaderLine(s))
    ensures HeaderTokens(RStripNewlines(HeaderLine(s))) != []
    ensures NewSection(HeaderLine(s)) == Section(s.header, s.inline, [])
  {
    if s.header == Title || s.inline == [] {
      KeywordSection(s.header);
    } else {
      KeywordAndRowSection(s.header, s.inline);
    }
  }

  lemma {:induction false} KeywordSection(h: string)
    requires IsToken(h)
    ensures NoNewline(h)
    ensures HeaderTokens(RStripNewlines(h)) != []
    ensures NewSection(h) == Section(h, [], [])
  {
    KeywordRereads(h);
  }

  lemma {:induction false} KeywordAndRowSection(h: string, inline: Row)
    requires IsToken(h) && h != Title && inline != [] && PrintableRow(inline)
    ensures NoNewline(h + " " + ShowRow(inline))
    ensures HeaderTokens(RStripNewlines(h + " " + ShowRow(inline))) != []
    ensures NewSection(h + " " + ShowRow(inline)) == Section(h, inline, [])
  {
    KeywordAndRowRereads(h, inline);
    ShowRowChars(inline);
    FromTokensPair(h, ShowRow(inline));
    ParseShowRow(inline);
  }

  lemma {:induction false} FromTokensPair(h: string, t: string)
    requires h != Title && t != ""
    ensures FromTokens([h, t]) == Section(h, ParseLine(t), [])
  {
  }

  /** Reading back the lines `to_text` writes, the header line through
      `__init__` and the others through `add_line`, gives the section back. */
  lemma {:induction false} SectionRoundTrip(s: Section)
    requires Rereadable(s)
    ensures HeaderTokens(RStripNewlines(SectionLines(s)[0])) != []
    ensures AddEntries(NewSection(SectionLines(s)[0]), SectionLines(s)[1..]) == s
  {
    HeaderLineRereads(s);
    assert SectionLines(s)[1..] == EntryLines(s.data);
    var start := NewSection(HeaderLine(s));
    AddEntriesOfLines(start, s.data);
    assert [] + s.data == s.data;
  }

  lemma {:induction false} OnlySpacesNoNewline(t: string)
    requires forall i :: 0 <= i < |t| ==> t[i] == ' ' || !IsSpace(t[i])
    ensures NoNewline(t)
  {
  }

  lemma {:induction false} EntryNoNewline(e: Entry)
    requires EntryRereadable(e)
    ensures NoNewline(EntryText(e))
  {
    if e.Cells? {
      ShowRowChars(e.row);
      OnlySpacesNoNewline(ShowRow(e.row));
    }
  }

  lemma {:induction false} HeaderLineNoNewline(s: Section)
    requires Rereadable(s)
    ensures NoNewline(HeaderLine(s))
  {
    if s.header == Title || s.inline == [] {
      KeywordRereads(s.header);
    } else {
      KeywordAndRowNoNewline(s.header, s.inline);
    }
  }

  /** Every line `to_text` writes is free of newlines. */
  lemma {:induction false} SectionLinesNoNewline(s: Section)
    requires Rereadable(s)
    ensures forall i :: 0 <= i < |SectionLines(s)| ==> NoNewline(SectionLines(s)[i])
  {
    var lines := SectionLines(s);
    HeaderLineNoNewline(s);
    forall i | 0 <= i < |lines| ensures NoNewline(lines[i]) {
      SectionLineAt(s, i);
      if i > 0 {
        EntryNoNewline(s.data[i - 1]);
      }
    }
  }

  /** The header line comes first, then the text of each entry in order. */
  lemma {:induction false} SectionLineAt(s: Section, i: nat)
    requires i <= |s.data|
    ensures SectionLines(s)[i] == if i == 0 then HeaderLine(s) else EntryText(s.data[i - 1])
  {
  }

  /** The text `to_text` writes holds 1 + |data| lines, each ended by a newline. */
  lemma {:induction false} SectionTextLines(s: Section)
    requires Rereadable(s)
    ensures ReadLines(SectionText(s)) == WithNewlines(SectionLines(s))
    ensures |ReadLines(SectionText(s))| == 1 + |s.data|
  {
    SectionLinesNoNewline(s);
    ReadTerminated(SectionLines(s));
  }
}
