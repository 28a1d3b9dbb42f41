/** `VestaFile`: the section objects of a file by header, the headers in the
    order they were read, and the operations that read lines into them,
    look a section up, write the file's text and recolour the atoms. Its
    content at any moment is the `Document` held in the ghost field `doc`;
    every operation is specified by what it does to that document. */
module VestaFiles {
  import opened Wrappers
  import opened TextLines
  import opened Tokenizer
  import opened Sections
  import opened Documents
  import opened AtomColors

  class VestaFile {
    var sections: map<string, VestaSection>
    var order: seq<string>
    /** The content of the file: every section object's value under its header. */
    ghost var doc: Document
    /** Every section object the file has filed (and perhaps replaced since). */
    ghost var Repr: set<VestaSection>

    /** Every filed object is in `Repr`, is filed under its own header (so no
        object is filed twice), knows whether it is the TITLE section and
        holds the value `doc` gives that header; `order` is `doc`'s order,
        and `doc` is consistent: `order` lists exactly the filed headers and
        every section is well-formed. */
    ghost predicate Valid()
      reads this, Repr
    {
      && (forall h :: h in sections ==> sections[h] in Repr)
      && sections.Keys == doc.sections.Keys
      && (forall h :: h in sections ==>
            && sections[h].header == h
            && sections[h].isTitle == (h == Title)
            && sections[h].Value() == doc.sections[h])
      && order == doc.order
      && Consistent(doc)
    }

    /** `VestaFile()`: no sections. */
    constructor ()
      ensures Valid() && doc == Empty
    {
      sections := map[];
      order := [];
      doc := Empty;
      Repr := {};
    }

    /** `load`, without the file: read `lines` (each with its newline, as
        `readlines` returns them) into the sections, after those already held. */
    method Load(lines: seq<string>)
      requires Valid()
      modifies this, Repr
      ensures Valid() && fresh(Repr - old(Repr))
      ensures doc == Documents.Load(old(doc), lines)
    {
      ghost var start := Reader(doc, None);
      var current: Option<string> := None;
      var i := 0;
      while i < |lines|
        invariant 0 <= i <= |lines|
        invariant Valid() && fresh(Repr - old(Repr))
        invariant current.Some? ==> current.value in sections
        invariant Reader(doc, current) == Run(start, lines[..i])
      {
        current := Feed(lines[i], current);
        PrefixSnoc(lines, i);
        RunSnoc(start, lines[..i], lines[i]);
        i := i + 1;
      }
      assert lines[..i] == lines;
    }

    /** One turn of `load`'s loop. */
    method Feed(raw: string, current: Option<string>) returns (next: Option<string>)
      requires Valid() && (current.Some? ==> current.value in sections)
      modifies this, Repr
      ensures Valid() && (next.Some? ==> next.value in sections)
      ensures fresh(Repr - old(Repr))
      ensures Reader(doc, next) == Step(Reader(old(doc), current), raw)
    {
      ghost var st := Reader(doc, current);
      next := current;
      var line := RStripNewlines(raw);
      if line == "" {
        return;
      }
      var tokens := HeaderTokens(line);
      if tokens != [] && IsUpper(tokens[0]) {
        RStripTwice(raw);
        var name := OpenSection(line);
        next := Some(name);
        assert Reader(doc, next) == Open(st, NewSection(line));
      } else {
        if next == None {
          GlobalSection();
          var name := OpenSection(Global);
          next := Some(name);
          assert Reader(doc, next) == Started(st);
        }
        ghost var mid := Reader(doc, next);
        Extend(next.value, line);
        assert Reader(doc, next) == Continue(mid, line);
      }
    }

    /** `VestaSection(line)` on a header line, filed as the current section. */
    method OpenSection(line: string) returns (name: string)
      requires Valid() && HeaderTokens(RStripNewlines(line)) != []
      modifies this
      ensures Valid() && name in sections && name == NewSection(line).header
      ensures fresh(sections[name]) && sections[name].Value() == NewSection(line)
      ensures sections == old(sections)[name := sections[name]]
      ensures order == old(order) + [name]
      ensures doc == Open(Reader(old(doc), None), NewSection(line)).doc
      ensures fresh(Repr - old(Repr))
    {
      var section := new VestaSection(line);
      File(section);
      name := section.header;
    }

    /** A new section object is filed under its header (replacing any object
        filed there before) and its header is appended to `order`. */
    method File(section: VestaSection)
      requires Valid() && section.Valid() && section !in Repr
      modifies this
      ensures Valid() && sections == old(sections)[section.header := section]
      ensures order == old(order) + [section.header]
      ensures doc == Open(Reader(old(doc), None), section.Value()).doc
      ensures Repr == old(Repr) + {section}
    {
      OpenConsistent(Reader(doc, None), section.Value());
      doc := Open(Reader(doc, None), section.Value()).doc;
      sections := sections[section.header := section];
      order := order + [section.header];
      Repr := Repr + {section};
      forall h | h in sections
        ensures sections[h].header == h && sections[h].isTitle == (h == Title)
        ensures sections[h].Value() == doc.sections[h]
      {
      }
    }

    /** `add_line` on the section filed under `name`. */
    method Extend(name: string, line: string)
      requires Valid() && name in sections
      modifies this, sections[name]
      ensures Valid()
      ensures sections == old(sections) && order == old(order) && Repr == old(Repr)
      ensures doc == Continue(Reader(old(doc), Some(name)), line).doc
    {
      var section := sections[name];
      forall h | h in sections && h != name ensures sections[h] != section {
      }
      ContinueConsistent(Reader(doc, Some(name)), line);
      doc := Continue(Reader(doc, Some(name)), line).doc;
      section.AddLine(line);
      forall h | h in sections
        ensures sections[h].header == h && sections[h].isTitle == (h == Title)
        ensures sections[h].Value() == doc.sections[h]
      {
        if h != name {
          assert sections[h] != section;
        }
      }
    }

    /** `get_section`: the section object filed under `name`, or None. */
    function GetSection(name: string): (r: Option<VestaSection>)
      requires Valid()
      reads this, Repr
      ensures r.None? <==> name !in doc.sections
      ensures r.Some? ==> r.value in Repr && r.value.header == name
      ensures r.Some? ==> r.value.Valid() && r.value.Value() == doc.sections[name]
    {
      if name in sections then Some(sections[name]) else None
    }

    /** `set_atom_color`: write the colour r, g, b into columns 3-5 and 6-8
        of every row of the SITET section, as written: a row of exactly 8
        values passes the guard, gets columns 3-7 written, and the write to
        column 8 raises, ending the call (`ok` is false). A file without a
        SITET section is left as it is. */
    method SetAtomColor(r: int, g: int, b: int) returns (ok: bool)
      requires Valid()
      modifies this, Repr
      ensures Valid()
      ensures sections == old(sections) && order == old(order) && Repr == old(Repr)
      ensures DocOutcome(doc, ok) == RecolorSitesAsWritten(old(doc), r, g, b)
    {
      ok := true;
      var found := GetSection(Sites);
      if found.None? {
        return;
      }
      var section := found.value;
      ghost var d0 := doc;
      var data;
      data, ok := PaintRows(section.data, r, g, b);
      AsWrittenConsistent(d0, r, g, b);
      ghost var e := RecolorSitesAsWritten(d0, r, g, b).doc;
      assert e.sections[Sites] == section.Value().(data := data);
      section.data := data;
      doc := e;
      forall h | h in sections
        ensures sections[h].header == h && sections[h].isTitle == (h == Title)
        ensures sections[h].Value() == doc.sections[h]
      {
        if h != Sites {
          assert sections[h] != section;
          assert sections[h].Value() == old(sections[h].Value());
          assert doc.sections[h] == d0.sections[h];
        }
      }
    }

    /** `save`, without the file: the text of every section in `order`. */
    method Save() returns (text: string)
      requires Valid()
      ensures text == DocText(doc.sections, doc.order)
    {
      text := "";
      var i := 0;
      while i < |order|
        invariant 0 <= i <= |order|
        invariant text == DocText(doc.sections, order[..i])
      {
        var section := sections[order[i]];
        var t := section.ToText();
        assert order[..i + 1][..i] == order[..i];
        text := text + t;
        i := i + 1;
      }
      assert order[..i] == order;
    }
  }

  /** The loop of `set_atom_color` over the lines of the SITET section: the
      lines after the call and whether it returned normally. */
  method PaintRows(original: seq<Entry>, r: int, g: int, b: int) returns (data: seq<Entry>, ok: bool)
    ensures Outcome(data, ok) == RecolorAsWritten(original, r, g, b)
  {
    ok := true;
    data := original;
    var i := 0;
    while i < |data|
      invariant ok && 0 <= i <= |data| && |data| == |original|
      invariant forall k :: 0 <= k < i ==> !ShortRow(original[k])
      invariant forall k :: 0 <= k < i ==> data[k] == RecolorEntry(original[k], r, g, b)
      invariant forall k :: i <= k < |data| ==> data[k] == original[k]
    {
      var line := data[i];
      if line.Cells? && |line.row| >= 8 {
        var row := line.row;
        row := row[3 := Int(r)];
        row := row[4 := Int(g)];
        row := row[5 := Int(b)];
        row := row[6 := Int(r)];
        row := row[7 := Int(g)];
        if |row| <= 8 {
          // `line[8] = b` raises: the writes before it stay in the row.
          data := data[i := Cells(row)];
          ok := false;
          break;
        }
        row := row[8 := Int(b)];
        data := data[i := Cells(row)];
      }
      i := i + 1;
    }
    RowsAsWritten(original, data, i, ok, r, g, b);
  }

  /** The lines `set_atom_color`'s loop leaves, whether it ran to the end or
      stopped at an 8-value row, are those of the call as written. */
  lemma {:induction false} RowsAsWritten(original: seq<Entry>, data: seq<Entry>, i: nat, ok: bool, r: int, g: int, b: int)
    requires |data| == |original| && i <= |data|
    requires forall k :: 0 <= k < i ==> !ShortRow(original[k])
    requires forall k :: 0 <= k < i ==> data[k] == RecolorEntry(original[k], r, g, b)
    requires ok ==> i == |data|
    requires !ok ==> i < |data| && ShortRow(original[i]) && data[i] == Cells(HalfPainted(original[i].row, r, g, b))
    requires forall k :: i < k < |data| ==> data[k] == original[k]
    ensures Outcome(data, ok) == RecolorAsWritten(original, r, g, b)
  {
    AsWrittenRows(original, r, g, b);
    var o := RecolorAsWritten(original, r, g, b);
    assert FirstShort(original) == i;
    forall k | 0 <= k < |data| ensures data[k] == o.data[k] {
    }
  }
}
