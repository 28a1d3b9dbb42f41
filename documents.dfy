/** The content of a VESTA file as `VestaFile` holds it: its sections by
    header and the headers in the order they were read; how `load` builds it
    from lines, and the text `save` writes. */
module Documents {
  import opened Wrappers
  import opened TextLines
  import opened Tokenizer
  import opened Sections

  /** The section that collects continuation lines read before any header. */
  const Global := "GLOBAL"

  datatype Document = Document(sections: map<string, Section>, order: seq<string>)

  const Empty := Document(map[], [])

  /** Every header in `order` names a section. */
  predicate Ordered(d: Document) {
    forall i :: 0 <= i < |d.order| ==> d.order[i] in d.sections
  }

  /** The shape reading keeps: `order` and the keys of `sections` name the
      same headers, and every section is well-formed and filed under its own
      header. */
  predicate Consistent(d: Document) {
    && Ordered(d)
    && (forall h :: h in d.sections ==> h in d.order)
    && (forall h :: h in d.sections ==> d.sections[h].header == h && WellFormed(d.sections[h]))
  }

  // ---------------------------------------------------------------------
  // Reading (`load`)
  // ---------------------------------------------------------------------

  /** `load`'s loop state: the document so far and the section that
      continuation lines go to. */
  datatype Reader = Reader(doc: Document, current: Option<string>)

  predicate ReaderOk(st: Reader) {
    Ordered(st.doc) && (st.current.Some? ==> st.current.value in st.doc.sections)
  }

  /** `tokens and tokens[0].isupper()`: the line opens a section. */
  predicate IsHeaderLine(line: string) {
    HeaderTokens(line) != [] && IsUpper(HeaderTokens(line)[0])
  }

  /** A section is filed under its header (replacing any earlier one), its
      header is appended to `order`, and it becomes the current section. */
  function Open(st: Reader, s: Section): (r: Reader)
    requires ReaderOk(st)
    ensures ReaderOk(r) && r.current == Some(s.header)
    ensures r.doc.sections == st.doc.sections[s.header := s]
    ensures r.doc.order == st.doc.order + [s.header]
  {
    Reader(Document(st.doc.sections[s.header := s], st.doc.order + [s.header]), Some(s.header))
  }

  /** Before a continuation line: a GLOBAL section is opened when no section is. */
  function Started(st: Reader): (r: Reader)
    requires ReaderOk(st)
    ensures ReaderOk(r) && r.current.Some?
  {
    if st.current.Some? then st
    else
      GlobalSection();
      Open(st, NewSection(Global))
  }

  /** A continuation line goes to the current section through `add_line`. */
  function Continue(st: Reader, line: string): (r: Reader)
    requires ReaderOk(st) && st.current.Some?
    ensures ReaderOk(r) && r.current == st.current && r.doc.order == st.doc.order
  {
    Reader(st.doc.(sections := st.doc.sections[st.current.value := AddEntry(st.doc.sections[st.current.value], line)]),
           st.current)
  }

  /** One turn of `load`'s loop: a line empty once its newline is removed is
      skipped, a header line opens a section, any other line continues the
      current one. */
  function Step(st: Reader, raw: string): (r: Reader)
    requires ReaderOk(st)
    ensures ReaderOk(r)
  {
    if RStripNewlines(raw) == "" then st
    else if IsHeaderLine(RStripNewlines(raw)) then
      RStripTwice(raw);
      Open(st, NewSection(RStripNewlines(raw)))
    else Continue(Started(st), RStripNewlines(raw))
  }

  /** `load`'s loop over the first lines, then one more. */
  function Run(st: Reader, lines: seq<string>): (r: Reader)
    requires ReaderOk(st)
    ensures ReaderOk(r)
    decreases |lines|
  {
    if lines == [] then st else Step(Run(st, lines[..|lines| - 1]), lines[|lines| - 1])
  }

  /** `load`: the document after reading `lines` into `d`, starting with no
      current section. */
  function Load(d: Document, lines: seq<string>): (r: Document)
    requires Ordered(d)
    ensures Ordered(r)
  {
    Run(Reader(d, None), lines).doc
  }

  /** `VestaSection("GLOBAL")` is a section with no inline data and no lines. */
  lemma {:induction false} GlobalSection()
    ensures HeaderTokens(RStripNewlines(Global)) != []
    ensures NewSection(Global) == Section(Global, [], [])
    ensures WellFormed(NewSection(Global))
  {
    GlobalIsToken();
    KeywordSection(Global);
  }

  lemma {:induction false} GlobalIsToken()
    ensures IsToken(Global)
  {
    assert forall i :: 0 <= i < |Global| ==> Global[i] in "GLOBAL";
  }

  // ---------------------------------------------------------------------
  // Writing (`save`)
  // ---------------------------------------------------------------------

  /** `save`: the text of every section, in `order`. */
  function DocText(sections: map<string, Section>, order: seq<string>): string
    requires forall i :: 0 <= i < |order| ==> order[i] in sections
    decreases |order|
  {
    if order == [] then ""
    else DocText(sections, order[..|order| - 1]) + SectionText(sections[order[|order| - 1]])
  }

  /** The lines `save` writes, without their newlines. */
  function DocLines(sections: map<string, Section>, order: seq<string>): (lines: seq<string>)
    requires forall i :: 0 <= i < |order| ==> order[i] in sections
    decreases |order|
  {
    if order == [] then []
    else DocLines(sections, order[..|order| - 1]) + SectionLines(sections[order[|order| - 1]])
  }

  /** A line that stays in its section when read back: not skipped as
      empty, not taken for a header. */
  predicate StaysInSection(e: Entry) {
    match e
    case Text(line) => line != "" && !IsHeaderLine(line)
    case Cells(row) => row != [] && !(row[0].Str? && IsUpper(row[0].s))
  }

  /** A section that reads back from its text under the header `h`. */
  predicate SectionSaveable(h: string, s: Section) {
    && s.header == h
    && IsUpper(h)
    && Rereadable(s)
    && forall i :: 0 <= i < |s.data| ==> StaysInSection(s.data[i])
  }

  /** A document `save` writes and `load` reads back as itself. */
  predicate Saveable(d: Document) {
    && Ordered(d)
    && (forall h :: h in d.sections ==> h in d.order)
    && (forall h :: h in d.sections ==> SectionSaveable(h, d.sections[h]))
  }

  // ---------------------------------------------------------------------
  // What `load` does to `order`
  // ---------------------------------------------------------------------

  /** Some line is not empty once its newline is removed. */
  predicate Begun(lines: seq<string>) {
    exists i :: 0 <= i < |lines| && RStripNewlines(lines[i]) != ""
  }

  /** The headers one line adds to `order`: its first token if it is a header
      line, GLOBAL if it is the first continuation line and no section is
      open, else nothing. */
  function LineOpens(open: bool, line: string): seq<string> {
    if line == "" then []
    else if IsHeaderLine(line) then [HeaderTokens(line)[0]]
    else if open then []
    else [Global]
  }

  /** Whether a section is open after reading `lines`, given whether one was
      open before. */
  function OpenAfter(open: bool, lines: seq<string>): bool
    decreases |lines|
  {
    if lines == [] then open
    else OpenAfter(open, lines[..|lines| - 1]) || RStripNewlines(lines[|lines| - 1]) != ""
  }

  /** The headers reading `lines` adds to `order`. */
  function Opened(open: bool, lines: seq<string>): seq<string>
    decreases |lines|
  {
    if lines == [] then []
    else Opened(open, lines[..|lines| - 1])
         + LineOpens(OpenAfter(open, lines[..|lines| - 1]), RStripNewlines(lines[|lines| - 1]))
  }

  /** `order` gains exactly one entry per header line, plus GLOBAL where a
      continuation line comes before any section. */
  lemma {:induction false} RunOrder(st: Reader, lines: seq<string>)
    requires ReaderOk(st)
    ensures Run(st, lines).doc.order == st.doc.order + Opened(st.current.Some?, lines)
    decreases |lines|
  {
    if lines != [] {
      var init, raw := lines[..|lines| - 1], lines[|lines| - 1];
      PrefixSnoc(lines, |lines| - 1);
      RunOrder(st, init);
      RunOpenAfter(st, init);
      OrderStep(st, init, raw);
    }
  }

  lemma {:induction false} OrderStep(st: Reader, init: seq<string>, raw: string)
    requires ReaderOk(st)
    requires Run(st, init).doc.order == st.doc.order + Opened(st.current.Some?, init)
    requires Run(st, init).current.Some? == OpenAfter(st.current.Some?, init)
    ensures Run(st, init + [raw]).doc.order == st.doc.order + Opened(st.current.Some?, init + [raw])
  {
    var open := st.current.Some?;
    var added := LineOpens(OpenAfter(open, init), RStripNewlines(raw));
    RunSnoc(st, init, raw);
    StepOrder(Run(st, init), raw);
    OpenedSnoc(open, init, raw);
    AppendAssoc(st.doc.order, Opened(open, init), added);
  }

  lemma {:induction false} AppendAssoc<T>(a: seq<T>, b: seq<T>, c: seq<T>)
    ensures a + b + c == a + (b + c)
  {
  }

  lemma {:induction false} OpenedSnoc(open: bool, init: seq<string>, raw: string)
    ensures Opened(open, init + [raw]) == Opened(open, init) + LineOpens(OpenAfter(open, init), RStripNewlines(raw))
  {
    assert (init + [raw])[..|init|] == init;
  }

  lemma {:induction false} RunOpenAfter(st: Reader, lines: seq<string>)
    requires ReaderOk(st)
    ensures Run(st, lines).current.Some? == OpenAfter(st.current.Some?, lines)
    decreases |lines|
  {
    if lines != [] {
      var init, raw := lines[..|lines| - 1], lines[|lines| - 1];
      RunOpenAfter(st, init);
      StepOpen(Run(st, init), raw);
    }
  }

  /** A section is open after reading exactly when one was before, or a
      non-empty line was read. */
  lemma {:induction false} RunOpen(st: Reader, lines: seq<string>)
    requires ReaderOk(st)
    ensures Run(st, lines).current.Some? <==> st.current.Some? || Begun(lines)
  {
    RunOpenAfter(st, lines);
    OpenAfterBegun(st.current.Some?, lines);
  }

  lemma {:induction false} OpenAfterBegun(open: bool, lines: seq<string>)
    ensures OpenAfter(open, lines) <==> open || Begun(lines)
    decreases |lines|
  {
    if lines != [] {
      var init, raw := lines[..|lines| - 1], lines[|lines| - 1];
      OpenAfterBegun(open, init);
      assert lines == init + [raw];
      BegunSnoc(init, raw);
    }
  }

  lemma {:induction false} BegunSnoc(init: seq<string>, raw: string)
    ensures Begun(init + [raw]) <==> Begun(init) || RStripNewlines(raw) != ""
    ensures (init + [raw])[..|init|] == init
  {
    var lines := init + [raw];
    if Begun(init) {
      var i :| 0 <= i < |init| && RStripNewlines(init[i]) != "";
      assert lines[i] == init[i];
    }
    if Begun(lines) {
      var i :| 0 <= i < |lines| && RStripNewlines(lines[i]) != "";
      if i < |init| {
        assert lines[i] == init[i];
      }
    }
    assert lines[|init|] == raw;
  }

  lemma {:induction false} StepOpen(st: Reader, raw: string)
    requires ReaderOk(st)
    ensures Step(st, raw).current.Some? <==> st.current.Some? || RStripNewlines(raw) != ""
  {
  }

  lemma {:induction false} StepOrder(st: Reader, raw: string)
    requires ReaderOk(st)
    ensures Step(st, raw).doc.order == st.doc.order + LineOpens(st.current.Some?, RStripNewlines(raw))
  {
    var line := RStripNewlines(raw);
    if line != "" && IsHeaderLine(line) {
      RStripTwice(raw);
      NewSectionHeader(line);
    } else if line != "" && st.current.None? {
      GlobalSection();
    }
  }

  /** The section a header line opens is filed under the line's first token. */
  lemma {:induction false} NewSectionHeader(line: string)
    requires HeaderTokens(RStripNewlines(line)) != []
    ensures NewSection(line).header == HeaderTokens(RStripNewlines(line))[0]
  {
  }

  /** Reading keeps a consistent document consistent. */
  lemma {:induction false} RunConsistent(st: Reader, lines: seq<string>)
    requires ReaderOk(st) && Consistent(st.doc)
    ensures Consistent(Run(st, lines).doc)
    decreases |lines|
  {
    if lines != [] {
      RunConsistent(st, lines[..|lines| - 1]);
      StepConsistent(Run(st, lines[..|lines| - 1]), lines[|lines| - 1]);
    }
  }

  lemma {:induction false} StepConsistent(st: Reader, raw: string)
    requires ReaderOk(st) && Consistent(st.doc)
    ensures Consistent(Step(st, raw).doc)
  {
    var line := RStripNewlines(raw);
    if line != "" {
      if IsHeaderLine(line) {
        HeaderStepConsistent(st, raw);
      } else {
        ContinueStepConsistent(st, raw);
      }
    }
  }

  lemma {:induction false} HeaderStepConsistent(st: Reader, raw: string)
    requires ReaderOk(st) && Consistent(st.doc)
    requires RStripNewlines(raw) != "" && IsHeaderLine(RStripNewlines(raw))
    ensures Consistent(Step(st, raw).doc)
  {
    var line := RStripNewlines(raw);
    RStripTwice(raw);
    NewSectionWellFormed(line);
    OpenConsistent(st, NewSection(line));
  }

  lemma {:induction false} ContinueStepConsistent(st: Reader, raw: string)
    requires ReaderOk(st) && Consistent(st.doc)
    requires RStripNewlines(raw) != "" && !IsHeaderLine(RStripNewlines(raw))
    ensures Consistent(Step(st, raw).doc)
  {
    if st.current.None? {
      GlobalSection();
      OpenConsistent(st, NewSection(Global));
    }
    ContinueConsistent(Started(st), RStripNewlines(raw));
  }

  lemma {:induction false} OpenConsistent(st: Reader, s: Section)
    requires ReaderOk(st) && Consistent(st.doc) && WellFormed(s)
    ensures Consistent(Open(st, s).doc)
  {
    var d := Open(st, s).doc;
    forall h | h in d.sections ensures h in d.order {
      if h != s.header {
        assert h in st.doc.order;
        assert h in st.doc.order + [s.header];
      } else {
        assert d.order[|d.order| - 1] == h;
      }
    }
  }

  lemma {:induction false} ContinueConsistent(st: Reader, line: string)
    requires ReaderOk(st) && st.current.Some? && Consistent(st.doc)
    ensures Consistent(Continue(st, line).doc)
  {
  }

  /** Reading into an empty document gives a consistent one. */
  lemma {:induction false} LoadConsistent(lines: seq<string>)
    ensures Consistent(Load(Empty, lines))
  {
    RunConsistent(Reader(Empty, None), lines);
  }

  // ---------------------------------------------------------------------
  // Saving, then loading, gives the document back
  // ---------------------------------------------------------------------

  /** Reading two groups of lines reads the first group, then the second. */
  lemma {:induction false} RunAppend(st: Reader, a: seq<string>, b: seq<string>)
    requires ReaderOk(st)
    ensures Run(st, a + b) == Run(Run(st, a), b)
    decreases |b|
  {
    if b == [] {
      assert a + b == a;
    } else {
      var init, raw := b[..|b| - 1], b[|b| - 1];
      assert (a + b)[..|a + b| - 1] == a + init;
      RunAppend(st, a, init);
    }
  }

  /** Reading one more line is one more step. */
  lemma {:induction false} RunSnoc(st: Reader, lines: seq<string>, raw: string)
    requires ReaderOk(st)
    ensures Run(st, lines + [raw]) == Step(Run(st, lines), raw)
  {
    assert (lines + [raw])[..|lines|] == lines;
  }

  /** The written line of a row never looks like a header to the reader. */
  lemma {:induction false} CellsNotHeader(row: Row)
    requires PrintableRow(row) && row != []
    requires !(row[0].Str? && IsUpper(row[0].s))
    ensures !IsHeaderLine(ShowRow(row))
  {
    var text := ShowRow(row);
    HeaderTokensFirst(text);
    ShowRowTokens(row);
    if HeaderTokens(text) != [] {
      assert HeaderTokens(text)[0] == Show(row[0]);
      if !row[0].Str? {
        NumberNotUpper(row[0]);
      }
    }
  }

  /** The written line of an entry that stays in its section is read back as a
      continuation line holding the same text. */
  lemma {:induction false} EntryContinues(e: Entry)
    requires EntryRereadable(e) && StaysInSection(e)
    ensures RStripNewlines(EntryText(e) + "\n") == EntryText(e)
    ensures EntryText(e) != "" && !IsHeaderLine(EntryText(e))
  {
    EntryNoNewline(e);
    RStripNewline(EntryText(e));
    if e.Cells? {
      ShowRowChars(e.row);
      CellsNotHeader(e.row);
    }
  }

  /** A continuation line added to a section just opened is that section with
      the line added. */
  lemma {:induction false} ContinueOpen(st: Reader, s: Section, line: string)
    requires ReaderOk(st)
    ensures Continue(Open(st, s), line) == Open(st, AddEntry(s, line))
  {
    var m := st.doc.sections;
    assert m[s.header := s][s.header := AddEntry(s, line)] == m[s.header := AddEntry(s, line)];
  }

  /** The header line of a saveable section opens it with no lines yet. */
  /** A header line files a new section under its header, replacing any
      section filed there before, and makes it the current one. */
  lemma {:induction false} HeaderStepFiles(st: Reader, raw: string)
    requires ReaderOk(st) && IsHeaderLine(RStripNewlines(raw))
    ensures Step(st, raw).doc.sections == st.doc.sections[NewSection(raw).header := NewSection(raw)]
    ensures Step(st, raw).doc.order == st.doc.order + [NewSection(raw).header]
    ensures Step(st, raw).current == Some(NewSection(raw).header)
  {
    RStripTwice(raw);
  }

  lemma {:induction false} HeaderStep(st: Reader, s: Section)
    requires ReaderOk(st) && SectionSaveable(s.header, s)
    ensures Step(st, HeaderLine(s) + "\n") == Open(st, s.(data := []))
  {
    var line := HeaderLine(s);
    HeaderLineRereads(s);
    RStripNewline(line);
    HeaderLineIsHeader(s);
  }

  lemma {:induction false} HeaderLineIsHeader(s: Section)
    requires SectionSaveable(s.header, s)
    ensures IsHeaderLine(HeaderLine(s))
  {
    var line := HeaderLine(s);
    HeaderLineRereads(s);
    RStripNewline(line);
    NewSectionHeader(line);
  }

  /** A line that is not empty once its newline is removed and is not a
      header line continues the current section. */
  lemma {:induction false} ContinueStep(st: Reader, raw: string, line: string)
    requires ReaderOk(st) && st.current.Some?
    requires RStripNewlines(raw) == line && line != "" && !IsHeaderLine(line)
    ensures Step(st, raw) == Continue(st, line)
  {
  }

  /** A line that is empty once its newline is removed is skipped. */
  lemma {:induction false} BlankStep(st: Reader, raw: string)
    requires ReaderOk(st) && RStripNewlines(raw) == ""
    ensures Step(st, raw) == st
  {
  }

  /** A continuation line read while no section is open first files a new,
      empty GLOBAL section, which becomes current and receives the line. */
  lemma {:induction false} GlobalStep(st: Reader, raw: string)
    requires ReaderOk(st) && st.current.None?
    requires RStripNewlines(raw) != "" && !IsHeaderLine(RStripNewlines(raw))
    ensures Step(st, raw).doc.sections
         == st.doc.sections[Global := AddEntry(Section(Global, [], []), RStripNewlines(raw))]
    ensures Step(st, raw).doc.order == st.doc.order + [Global]
    ensures Step(st, raw).current == Some(Global)
  {
    StartedGlobal(st);
    assert Step(st, raw) == Continue(Started(st), RStripNewlines(raw));
  }

  /** With no section open, a continuation line first opens GLOBAL. */
  lemma {:induction false} StartedGlobal(st: Reader)
    requires ReaderOk(st) && st.current.None?
    ensures Started(st) == Open(st, Section(Global, [], []))
  {
    GlobalSection();
  }

  /** One written entry line of a saveable section adds that entry. */
  lemma {:induction false} EntryStep(st: Reader, s: Section, k: nat)
    requires ReaderOk(st) && SectionSaveable(s.header, s) && k < |s.data|
    ensures Step(Open(st, s.(data := s.data[..k])), EntryText(s.data[k]) + "\n")
         == Open(st, s.(data := s.data[..k + 1]))
  {
    var e := s.data[k];
    PrefixSnoc(s.data, k);
    var part := s.(data := s.data[..k]);
    var line := EntryText(e);
    EntryContinues(e);
    ContinueStep(Open(st, part), line + "\n", line);
    ContinueOpen(st, part, line);
    AddEntryOfText(part, e);
  }

  lemma {:induction false} PrefixSnoc<T>(xs: seq<T>, k: nat)
    requires k < |xs|
    ensures xs[..k] + [xs[k]] == xs[..k + 1]
    ensures xs[..k + 1][..k] == xs[..k] && xs[..k + 1][k] == xs[k]
  {
  }

  /** The written line of the k-th entry of a section. */
  lemma {:induction false} WrittenEntryLine(s: Section, k: nat)
    requires k < |s.data|
    ensures WithNewlines(SectionLines(s))[k + 1] == EntryText(s.data[k]) + "\n"
  {
    assert SectionLines(s)[k + 1] == EntryLines(s.data)[k];
  }

  /** Reading the header line of a saveable section opens it with no lines. */
  lemma {:induction false} SectionFirstRun(st: Reader, s: Section)
    requires ReaderOk(st) && SectionSaveable(s.header, s)
    ensures Run(st, WithNewlines(SectionLines(s))[..1]) == Open(st, s.(data := s.data[..0]))
  {
    var lines := WithNewlines(SectionLines(s));
    assert lines[..1] == [] + [HeaderLine(s) + "\n"];
    RunSnoc(st, [], HeaderLine(s) + "\n");
    HeaderStep(st, s);
    assert s.data[..0] == [];
  }

  /** Reading the first k+1 written lines of a saveable section opens it with
      its first k lines. */
  lemma {:induction false} SectionPrefixRun(st: Reader, s: Section, k: nat)
    requires ReaderOk(st) && SectionSaveable(s.header, s) && k <= |s.data|
    ensures Run(st, WithNewlines(SectionLines(s))[..k + 1]) == Open(st, s.(data := s.data[..k]))
    decreases k
  {
    if k == 0 {
      SectionFirstRun(st, s);
    } else {
      var lines := WithNewlines(SectionLines(s));
      PrefixSnoc(lines, k);
      SectionPrefixRun(st, s, k - 1);
      RunSnoc(st, lines[..k], lines[k]);
      WrittenEntryLine(s, k - 1);
      EntryStep(st, s, k - 1);
    }
  }

  /** Reading the written lines of a saveable section opens exactly that section. */
  lemma {:induction false} SectionRun(st: Reader, s: Section)
    requires ReaderOk(st) && SectionSaveable(s.header, s)
    ensures Run(st, WithNewlines(SectionLines(s))) == Open(st, s)
  {
    var lines := WithNewlines(SectionLines(s));
    SectionPrefixRun(st, s, |s.data|);
    assert lines[..|s.data| + 1] == lines;
    assert s.data[..|s.data|] == s.data;
  }

  /** The sections of `m` whose headers appear in `o`. */
  function Restrict(m: map<string, Section>, o: seq<string>): (r: map<string, Section>)
    ensures forall h :: h in r <==> h in m && h in o
    ensures forall h :: h in r ==> r[h] == m[h]
  {
    map h | h in m && h in o :: m[h]
  }

  /** Every header in `order` names a saveable section. */
  predicate SavedInOrder(d: Document) {
    && Ordered(d)
    && forall i :: 0 <= i < |d.order| ==> SectionSaveable(d.order[i], d.sections[d.order[i]])
  }

  /** The reader after the written lines of the first k sections in `order`. */
  function SavedPrefix(d: Document, k: nat): Reader
    requires k <= |d.order|
  {
    Reader(Document(Restrict(d.sections, d.order[..k]), d.order[..k]),
           if k == 0 then None else Some(d.order[k - 1]))
  }

  /** Reading the lines `save` writes for the first k sections gives back
      those sections, in order. */
  lemma {:induction false} DocPrefixRun(d: Document, k: nat)
    requires SavedInOrder(d) && k <= |d.order|
    ensures Run(Reader(Empty, None), WithNewlines(DocLines(d.sections, d.order[..k]))) == SavedPrefix(d, k)
    decreases k
  {
    if k == 0 {
      SavedNothing(d);
    } else {
      DocPrefixRun(d, k - 1);
      DocPrefixStep(d, k);
    }
  }

  /** Reading the written lines of the k-th section after those of the first
      k-1 adds that section. */
  lemma {:induction false} DocPrefixStep(d: Document, k: nat)
    requires Ordered(d) && 0 < k <= |d.order|
    requires SectionSaveable(d.order[k - 1], d.sections[d.order[k - 1]])
    requires Run(Reader(Empty, None), WithNewlines(DocLines(d.sections, d.order[..k - 1]))) == SavedPrefix(d, k - 1)
    ensures Run(Reader(Empty, None), WithNewlines(DocLines(d.sections, d.order[..k]))) == SavedPrefix(d, k)
  {
    OrderedPrefix(d, k - 1);
    DocLinesRunStep(d, k);
    OpenSavedPrefix(d, k);
  }

  lemma {:induction false} DocLinesRunStep(d: Document, k: nat)
    requires Ordered(d) && 0 < k <= |d.order|
    requires SectionSaveable(d.order[k - 1], d.sections[d.order[k - 1]])
    requires ReaderOk(SavedPrefix(d, k - 1))
    requires Run(Reader(Empty, None), WithNewlines(DocLines(d.sections, d.order[..k - 1]))) == SavedPrefix(d, k - 1)
    ensures Run(Reader(Empty, None), WithNewlines(DocLines(d.sections, d.order[..k])))
         == Open(SavedPrefix(d, k - 1), d.sections[d.order[k - 1]])
  {
    PrefixSnoc(d.order, k - 1);
    PrefixIn(d, k);
    RunDocLinesSnoc(d.sections, d.order[..k]);
  }

  /** Reading the lines written for one more section opens that section. */
  lemma {:induction false} RunDocLinesSnoc(m: map<string, Section>, o: seq<string>)
    requires o != [] && forall i :: 0 <= i < |o| ==> o[i] in m
    requires SectionSaveable(m[o[|o| - 1]].header, m[o[|o| - 1]])
    ensures Run(Reader(Empty, None), WithNewlines(DocLines(m, o)))
         == Open(Run(Reader(Empty, None), WithNewlines(DocLines(m, o[..|o| - 1]))), m[o[|o| - 1]])
  {
    DocLinesSnoc(m, o);
    RunThenSection(Reader(Empty, None), WithNewlines(DocLines(m, o[..|o| - 1])), m[o[|o| - 1]]);
  }

  lemma {:induction false} PrefixIn(d: Document, k: nat)
    requires Ordered(d) && k <= |d.order|
    ensures forall i :: 0 <= i < |d.order[..k]| ==> d.order[..k][i] in d.sections
  {
    forall i | 0 <= i < |d.order[..k]| ensures d.order[..k][i] in d.sections {
      assert d.order[..k][i] == d.order[i];
    }
  }

  /** Before any line is read, nothing is saved. */
  lemma {:induction false} SavedNothing(d: Document)
    ensures ReaderOk(SavedPrefix(d, 0))
    ensures Run(Reader(Empty, None), WithNewlines(DocLines(d.sections, d.order[..0]))) == SavedPrefix(d, 0)
  {
    assert d.order[..0] == [];
    assert Restrict(d.sections, []) == map[];
  }

  /** The lines written for one more section follow the lines written so far. */
  lemma {:induction false} DocLinesSnoc(m: map<string, Section>, o: seq<string>)
    requires o != [] && forall i :: 0 <= i < |o| ==> o[i] in m
    ensures WithNewlines(DocLines(m, o))
         == WithNewlines(DocLines(m, o[..|o| - 1])) + WithNewlines(SectionLines(m[o[|o| - 1]]))
  {
    WithNewlinesAppend(DocLines(m, o[..|o| - 1]), SectionLines(m[o[|o| - 1]]));
  }

  /** Reading some lines, then the written lines of a saveable section, opens
      that section after what the first lines gave. */
  lemma {:induction false} RunThenSection(st: Reader, a: seq<string>, s: Section)
    requires ReaderOk(st) && SectionSaveable(s.header, s)
    ensures Run(st, a + WithNewlines(SectionLines(s))) == Open(Run(st, a), s)
  {
    RunAppend(st, a, WithNewlines(SectionLines(s)));
    SectionRun(Run(st, a), s);
  }

  /** Opening the k-th section after the first k-1 gives the first k. */
  lemma {:induction false} OpenSavedPrefix(d: Document, k: nat)
    requires Ordered(d) && 0 < k <= |d.order|
    requires d.sections[d.order[k - 1]].header == d.order[k - 1]
    requires ReaderOk(SavedPrefix(d, k - 1))
    ensures Open(SavedPrefix(d, k - 1), d.sections[d.order[k - 1]]) == SavedPrefix(d, k)
  {
    var m, h := d.sections, d.order[k - 1];
    PrefixSnoc(d.order, k - 1);
    RestrictSnoc(m, d.order[..k - 1], h);
  }

  lemma {:induction false} RestrictSnoc(m: map<string, Section>, o: seq<string>, h: string)
    requires h in m
    ensures Restrict(m, o + [h]) == Restrict(m, o)[h := m[h]]
  {
    var a := Restrict(m, o + [h]);
    var b := Restrict(m, o)[h := m[h]];
    forall x ensures x in a <==> x in b {
      assert x in o + [h] <==> x in o || x == h;
    }
  }

  lemma {:induction false} OrderedPrefix(d: Document, k: nat)
    requires Ordered(d) && k <= |d.order|
    ensures ReaderOk(SavedPrefix(d, k))
  {
    var o := d.order[..k];
    forall i | 0 <= i < |o| ensures o[i] in Restrict(d.sections, o) {
      assert o[i] == d.order[i];
    }
  }

  /** The text `save` writes is its lines, each followed by a newline. */
  lemma {:induction false} DocTextLines(m: map<string, Section>, order: seq<string>)
    requires forall i :: 0 <= i < |order| ==> order[i] in m
    ensures DocText(m, order) == Terminated(DocLines(m, order))
    decreases |order|
  {
    if order != [] {
      var prev := order[..|order| - 1];
      DocTextLines(m, prev);
      TerminatedAppend(DocLines(m, prev), SectionLines(m[order[|order| - 1]]));
    }
  }

  /** No line `save` writes for rereadable sections holds a newline. */
  lemma {:induction false} DocLinesNoNewline(m: map<string, Section>, o: seq<string>)
    requires forall i :: 0 <= i < |o| ==> o[i] in m && Rereadable(m[o[i]])
    ensures forall i :: 0 <= i < |DocLines(m, o)| ==> NoNewline(DocLines(m, o)[i])
    decreases |o|
  {
    if o != [] {
      var prev := o[..|o| - 1];
      DocLinesNoNewline(m, prev);
      SectionLinesNoNewline(m[o[|o| - 1]]);
      NoNewlineAppend(DocLines(m, prev), SectionLines(m[o[|o| - 1]]));
    }
  }

  lemma {:induction false} SavedRereadable(d: Document)
    requires SavedInOrder(d)
    ensures forall i :: 0 <= i < |d.order| ==> d.order[i] in d.sections && Rereadable(d.sections[d.order[i]])
  {
  }

  /** `load` reads back what `save` writes: a saveable document, written to
      text and read into an empty file, is the same document, with the same
      sections under the same headers in the same order. */
  lemma {:induction false} SaveLoad(d: Document)
    requires Saveable(d)
    ensures Load(Empty, ReadLines(DocText(d.sections, d.order))) == d
  {
    var n := |d.order|;
    assert d.order[..n] == d.order;
    assert SavedInOrder(d);
    SavedRereadable(d);
    DocLinesNoNewline(d.sections, d.order);
    DocTextLines(d.sections, d.order);
    ReadTerminated(DocLines(d.sections, d.order));
    DocPrefixRun(d, n);
    RestrictAll(d.sections, d.order);
  }

  /** Keeping the headers of `o` keeps every section when `o` names them all. */
  lemma {:induction false} RestrictAll(m: map<string, Section>, o: seq<string>)
    requires forall h :: h in m ==> h in o
    ensures Restrict(m, o) == m
  {
  }
}
