/** `set_atom_color`: writing one RGB colour into every row of the SITET
    section. Each row is laid out as flag, element, number, then the colour
    twice at columns 3-5 and 6-8, then further values.

    As written, the source checks that a row has at least 8 values but then
    writes column 8, which only a row of 9 or more values has. An 8-value row
    is therefore half written (columns 3-7) before the write to column 8
    raises and ends the call. `RecolorAsWritten` models that behaviour.
    `Recolor` is the intended one: rows too short for both colours are left
    alone, like every other row the guard turns away. */
module AtomColors {
  import opened TextLines
  import opened Tokenizer
  import opened Sections
  import opened Documents

  /** The section whose rows hold the atom colours. */
  const Sites := "SITET"

  /** Values a row needs for both colour triples (columns 3 to 8). */
  const ColorColumns := 9

  /** The row with the colour written at columns 3-5 and again at 6-8. */
  function Painted(row: Row, r: int, g: int, b: int): (out: Row)
    requires |row| >= ColorColumns
    ensures |out| == |row|
    ensures out[3] == Int(r) && out[4] == Int(g) && out[5] == Int(b)
    ensures out[6] == Int(r) && out[7] == Int(g) && out[8] == Int(b)
    ensures forall i :: 0 <= i < |row| && (i < 3 || i > 8) ==> out[i] == row[i]
  {
    row[3 := Int(r)][4 := Int(g)][5 := Int(b)][6 := Int(r)][7 := Int(g)][8 := Int(b)]
  }

  /** An 8-value row after the writes that succeed before the write to
      column 8 fails: columns 3-7 hold r, g, b, r, g. */
  function HalfPainted(row: Row, r: int, g: int, b: int): (out: Row)
    requires |row| == ColorColumns - 1
    ensures |out| == |row|
    ensures out[3] == Int(r) && out[4] == Int(g) && out[5] == Int(b)
    ensures out[6] == Int(r) && out[7] == Int(g)
    ensures out[..3] == row[..3]
  {
    row[3 := Int(r)][4 := Int(g)][5 := Int(b)][6 := Int(r)][7 := Int(g)]
  }

  /** The intended effect on one line: a row with room for both colours is
      painted; any other row, and any text line, is left as it is. */
  function RecolorEntry(e: Entry, r: int, g: int, b: int): Entry {
    if e.Cells? && |e.row| >= ColorColumns then Cells(Painted(e.row, r, g, b)) else e
  }

  /** The intended effect on the lines of the section, line by line. */
  function Recolor(data: seq<Entry>, r: int, g: int, b: int): (out: seq<Entry>)
    ensures |out| == |data|
    ensures forall i :: 0 <= i < |data| ==> out[i] == RecolorEntry(data[i], r, g, b)
  {
    seq(|data|, i requires 0 <= i < |data| => RecolorEntry(data[i], r, g, b))
  }

  /** A row the source's guard lets through but that has no column 8. */
  predicate ShortRow(e: Entry) {
    e.Cells? && |e.row| == ColorColumns - 1
  }

  /** The index of the first 8-value row, or |data| when there is none. */
  function FirstShort(data: seq<Entry>): (j: nat)
    ensures j <= |data|
    ensures j < |data| ==> ShortRow(data[j])
    ensures forall i :: 0 <= i < j ==> !ShortRow(data[i])
  {
    if data == [] then 0 else if ShortRow(data[0]) then 0 else 1 + FirstShort(data[1..])
  }

  /** The lines after the call and whether it returned normally (`ok` is
      false when it raised). */
  datatype Outcome = Outcome(data: seq<Entry>, ok: bool)

  /** `set_atom_color` as written: every line before the first 8-value row
      is handled as intended; that row gets columns 3-7 written, then the
      call raises and the remaining lines are untouched. */
  function RecolorAsWritten(data: seq<Entry>, r: int, g: int, b: int): (o: Outcome)
    ensures |o.data| == |data|
  {
    if FirstShort(data) == |data| then Outcome(Recolor(data, r, g, b), true)
    else
      Outcome(Recolor(data[..FirstShort(data)], r, g, b)
              + [Cells(HalfPainted(data[FirstShort(data)].row, r, g, b))]
              + data[FirstShort(data) + 1..],
              false)
  }

  // ---------------------------------------------------------------------
  // The call on a whole document
  // ---------------------------------------------------------------------

  /** The intended `set_atom_color` on a document: only the SITET section
      changes; a document without one is returned unchanged. */
  function RecolorSites(d: Document, r: int, g: int, b: int): (e: Document)
    ensures e.order == d.order
    ensures forall h :: h in e.sections <==> h in d.sections
    ensures forall h :: h in d.sections && h != Sites ==> e.sections[h] == d.sections[h]
    ensures Sites !in d.sections ==> e == d
    ensures Sites in d.sections ==>
      e.sections[Sites] == d.sections[Sites].(data := Recolor(d.sections[Sites].data, r, g, b))
  {
    if Sites in d.sections then
      var s := d.sections[Sites];
      d.(sections := d.sections[Sites := s.(data := Recolor(s.data, r, g, b))])
    else d
  }

  /** `set_atom_color` as written on a document, with whether it returned
      normally. */
  function RecolorSitesAsWritten(d: Document, r: int, g: int, b: int): (o: DocOutcome)
    ensures o.doc.order == d.order
    ensures forall h :: h in o.doc.sections <==> h in d.sections
    ensures forall h :: h in d.sections && h != Sites ==> o.doc.sections[h] == d.sections[h]
    ensures Sites !in d.sections ==> o == DocOutcome(d, true)
    ensures Sites in d.sections ==>
      && o.doc.sections[Sites] == d.sections[Sites].(data := RecolorAsWritten(d.sections[Sites].data, r, g, b).data)
      && o.ok == RecolorAsWritten(d.sections[Sites].data, r, g, b).ok
  {
    if Sites in d.sections then
      var s := d.sections[Sites];
      var out := RecolorAsWritten(s.data, r, g, b);
      DocOutcome(d.(sections := d.sections[Sites := s.(data := out.data)]), out.ok)
    else DocOutcome(d, true)
  }

  datatype DocOutcome = DocOutcome(doc: Document, ok: bool)

  // ---------------------------------------------------------------------
  // Properties
  // ---------------------------------------------------------------------

  /** The call as written raises exactly when the lines hold an 8-value row. */
  lemma {:induction false} AsWrittenRaises(data: seq<Entry>, r: int, g: int, b: int)
    ensures !RecolorAsWritten(data, r, g, b).ok <==> exists i :: 0 <= i < |data| && ShortRow(data[i])
  {
    var j := FirstShort(data);
    if j < |data| {
      assert ShortRow(data[j]);
    }
  }

  /** Line by line, the call as written: the lines before the first 8-value
      row are recoloured as intended, that row is half painted, and the lines
      after it are untouched. */
  lemma {:induction false} AsWrittenRows(data: seq<Entry>, r: int, g: int, b: int)
    ensures var o := RecolorAsWritten(data, r, g, b);
      && (forall k :: 0 <= k < FirstShort(data) ==> o.data[k] == RecolorEntry(data[k], r, g, b))
      && (FirstShort(data) < |data| ==> o.data[FirstShort(data)] == Cells(HalfPainted(data[FirstShort(data)].row, r, g, b)))
      && (forall k :: FirstShort(data) < k < |data| ==> o.data[k] == data[k])
  {
    var j := FirstShort(data);
    if j < |data| {
      var front := Recolor(data[..j], r, g, b);
      var half := [Cells(HalfPainted(data[j].row, r, g, b))];
      var o := front + half + data[j + 1..];
      assert RecolorAsWritten(data, r, g, b).data == o;
      forall k | 0 <= k < j ensures o[k] == RecolorEntry(data[k], r, g, b) {
        assert o[k] == front[k];
      }
      assert o[j] == half[0];
      forall k | j < k < |data| ensures o[k] == data[k] {
        assert o[k] == data[j + 1..][k - j - 1];
      }
    }
  }

  /** The call as written keeps a document consistent, whether or not it raises. */
  lemma {:induction false} AsWrittenConsistent(d: Document, r: int, g: int, b: int)
    requires Consistent(d)
    ensures Consistent(RecolorSitesAsWritten(d, r, g, b).doc)
  {
    if Sites in d.sections {
      var s := d.sections[Sites];
      var o := RecolorAsWritten(s.data, r, g, b);
      AsWrittenRows(s.data, r, g, b);
      var t := s.(data := o.data);
      forall k | 0 <= k < |t.data| ensures t.data[k].Cells? {
        assert s.data[k].Cells?;
      }
      assert WellFormed(t);
    }
  }

  /** When the call as written returns normally, it did what was intended. */
  lemma {:induction false} AsWrittenWhenOk(data: seq<Entry>, r: int, g: int, b: int)
    requires RecolorAsWritten(data, r, g, b).ok
    ensures RecolorAsWritten(data, r, g, b).data == Recolor(data, r, g, b)
  {
  }

  /** The discrepancy on one concrete line: a SITET row of 8 zeros. As
      written, the call raises after overwriting columns 3-7; as intended, the
      row is left unchanged. */
  lemma {:induction false} EightValueRow()
    ensures var row := seq(8, i => Int(0));
      && RecolorAsWritten([Cells(row)], 1, 2, 3)
         == Outcome([Cells([Int(0), Int(0), Int(0), Int(1), Int(2), Int(3), Int(1), Int(2)])], false)
      && Recolor([Cells(row)], 1, 2, 3) == [Cells(row)]
  {
    var row := seq(8, i => Int(0));
    var data := [Cells(row)];
    assert FirstShort(data) == 0;
    assert data[..0] == [] && data[1..] == [];
    assert HalfPainted(row, 1, 2, 3) == [Int(0), Int(0), Int(0), Int(1), Int(2), Int(3), Int(1), Int(2)];
  }

  /** Recolouring twice with the same colour is recolouring once. */
  lemma {:induction false} RecolorIdempotent(d: Document, r: int, g: int, b: int)
    ensures RecolorSites(RecolorSites(d, r, g, b), r, g, b) == RecolorSites(d, r, g, b)
  {
    if Sites in d.sections {
      var s := d.sections[Sites];
      var once := Recolor(s.data, r, g, b);
      var twice := Recolor(once, r, g, b);
      forall i | 0 <= i < |once| ensures twice[i] == once[i] {
        PaintTwice(s.data[i], r, g, b);
      }
      assert twice == once;
      assert RecolorSites(d, r, g, b).sections[Sites := s.(data := twice)] == RecolorSites(d, r, g, b).sections;
    }
  }

  lemma {:induction false} PaintTwice(e: Entry, r: int, g: int, b: int)
    ensures RecolorEntry(RecolorEntry(e, r, g, b), r, g, b) == RecolorEntry(e, r, g, b)
  {
    if e.Cells? && |e.row| >= ColorColumns {
      var once := Painted(e.row, r, g, b);
      assert Painted(once, r, g, b) == once;
    }
  }

  /** Recolouring keeps a document consistent. */
  lemma {:induction false} RecolorConsistent(d: Document, r: int, g: int, b: int)
    requires Consistent(d)
    ensures Consistent(RecolorSites(d, r, g, b))
  {
    if Sites in d.sections {
      var s := d.sections[Sites];
      var t := s.(data := Recolor(s.data, r, g, b));
      forall i | 0 <= i < |t.data| ensures t.data[i].Cells? {
        assert s.data[i].Cells?;
      }
    }
  }

  /** Recolouring keeps a document saveable, so saving and loading after the
      call still gives the recoloured document back. */
  lemma {:induction false} RecolorSaveable(d: Document, r: int, g: int, b: int)
    requires Saveable(d)
    ensures Saveable(RecolorSites(d, r, g, b))
    ensures Load(Empty, ReadLines(DocText(RecolorSites(d, r, g, b).sections, d.order))) == RecolorSites(d, r, g, b)
  {
    var e := RecolorSites(d, r, g, b);
    if Sites in d.sections {
      RecolorSectionSaveable(d.sections[Sites], r, g, b);
    }
    SaveLoad(e);
  }

  lemma {:induction false} RecolorSectionSaveable(s: Section, r: int, g: int, b: int)
    requires SectionSaveable(Sites, s)
    ensures SectionSaveable(Sites, s.(data := Recolor(s.data, r, g, b)))
  {
    var t := s.(data := Recolor(s.data, r, g, b));
    forall i | 0 <= i < |t.data|
      ensures t.data[i].Cells? && EntryRereadable(t.data[i]) && StaysInSection(t.data[i])
    {
      assert s.data[i].Cells?;
      PaintKeepsRow(s.data[i].row, r, g, b);
    }
  }

  /** Painting keeps a row printable and keeps its first value. */
  lemma {:induction false} PaintKeepsRow(row: Row, r: int, g: int, b: int)
    requires PrintableRow(row)
    ensures |row| >= ColorColumns ==> PrintableRow(Painted(row, r, g, b)) && Painted(row, r, g, b)[0] == row[0]
  {
  }
}
