/** The tokenizer of the VESTA text format: whitespace splitting as Python's
    `str.split()` does it, the token classifier `parse_token`, the row reader
    `parse_line`, and a printer for scalars that the classifier inverts. */
module Tokenizer {
  import opened Numerals
  import opened TextLines

  // ---------------------------------------------------------------------
  // Characters and whitespace splitting
  // ---------------------------------------------------------------------

  /** The ASCII characters Python's `str.isspace` accepts:
      space, \t \n \v \f \r and the separators \x1c to \x1f. */
  predicate IsSpace(c: char) {
    c == ' ' || ('\t' <= c <= '\r') || ('\U{1C}' <= c <= '\U{1F}')
  }

  /** A token of `str.split()`: non-empty and free of whitespace. */
  predicate IsToken(w: string) {
    |w| > 0 && forall i :: 0 <= i < |w| ==> !IsSpace(w[i])
  }

  predicate AllSpace(s: string) {
    forall i :: 0 <= i < |s| ==> IsSpace(s[i])
  }

  /** `str.lstrip()`: drop the leading whitespace. */
  function LStrip(s: string): (t: string)
    ensures |t| <= |s|
    ensures t == [] || !IsSpace(t[0])
  {
    if s != [] && IsSpace(s[0]) then LStrip(s[1..]) else s
  }

  /** The longest whitespace-free prefix of `s`. */
  function TakeWord(s: string): (w: string)
    ensures |w| <= |s|
    ensures forall i :: 0 <= i < |w| ==> !IsSpace(w[i])
    ensures |w| < |s| ==> IsSpace(s[|w|])
  {
    if s == [] || IsSpace(s[0]) then [] else [s[0]] + TakeWord(s[1..])
  }

  /** `str.split()` with no separator: the maximal runs of non-whitespace, in order. */
  function Split(s: string): (ws: seq<string>)
    ensures forall i :: 0 <= i < |ws| ==> IsToken(ws[i])
    decreases |s|
  {
    var t := LStrip(s);
    if t == [] then []
    else
      var w := TakeWord(t);
      [w] + Split(t[|w|..])
  }

  /** `str.split(maxsplit=1)`: the first token and, when anything but
      whitespace follows it, the rest of the line with its leading whitespace
      removed (trailing whitespace kept). */
  function SplitFirst(s: string): (parts: seq<string>)
    ensures |parts| <= 2
    ensures |parts| == 2 ==> parts[1] != [] && !IsSpace(parts[1][0])
  {
    var t := LStrip(s);
    if t == [] then []
    else
      var w := TakeWord(t);
      var rest := LStrip(t[|w|..]);
      if rest == [] then [w] else [w, rest]
  }

  /** The first part of `split(maxsplit=1)` is the first token of `split()`,
      and the remainder splits into exactly the other tokens. */
  lemma {:induction false} SplitFirstTokens(s: string)
    ensures var parts := SplitFirst(s);
      && (parts == [] <==> Split(s) == [])
      && (parts != [] ==> parts[0] == Split(s)[0])
      && (|parts| == 1 ==> |Split(s)| == 1)
      && (|parts| == 2 ==> Split(parts[1]) == Split(s)[1..])
  {
    var t := LStrip(s);
    if t != [] {
      var w := TakeWord(t);
      SplitNoLeadingSpace(t[|w|..]);
    }
  }

  /** `str.join` with a single space as separator. */
  function Join(ws: seq<string>): string {
    if |ws| == 0 then ""
    else if |ws| == 1 then ws[0]
    else ws[0] + " " + Join(ws[1..])
  }

  /** Python's `str.isupper`, for ASCII letters: at least one cased
      character and no lower-case one. */
  predicate IsUpper(w: string) {
    (exists i :: 0 <= i < |w| && 'A' <= w[i] <= 'Z') &&
    forall i :: 0 <= i < |w| ==> !('a' <= w[i] <= 'z')
  }

  /** The second part of `split(maxsplit=1)` is the raw end of the text,
      and what comes before it holds exactly the first token. */
  lemma {:induction false} SplitFirstSuffix(s: string)
    requires |SplitFirst(s)| == 2
    ensures exists p :: s == p + SplitFirst(s)[1] && Split(p) == [SplitFirst(s)[0]]
  {
    var t := LStrip(s);
    var lead := LStripParts(s);
    var w := TakeWord(t);
    var u := TakeWordParts(t);
    var rest := LStrip(u);
    var gap := LStripParts(u);
    assert SplitFirst(s) == [w, rest];
    assert IsToken(w) by {
      assert w == [t[0]] + TakeWord(t[1..]);
    }
    Regroup(w, gap, rest);
    Regroup(lead, w + gap, rest);
    SplitOneWord(lead, w, gap);
  }

  /** Text is its leading whitespace followed by what `lstrip` keeps. */
  lemma {:induction false} LStripParts(s: string) returns (lead: string)
    ensures AllSpace(lead) && s == lead + LStrip(s)
  {
    LStripSuffix(s);
    lead := s[..|s| - |LStrip(s)|];
  }

  /** Text is its first word followed by the rest, which starts with whitespace. */
  lemma {:induction false} TakeWordParts(t: string) returns (u: string)
    ensures u == t[|TakeWord(t)|..] && t == TakeWord(t) + u
  {
    TakeWordPrefix(t);
    u := t[|TakeWord(t)|..];
  }

  lemma {:induction false} Regroup(a: string, b: string, c: string)
    ensures a + (b + c) == (a + b) + c
  {
  }

  /** A token between two runs of whitespace is the only token. */
  lemma {:induction false} SplitOneWord(lead: string, w: string, gap: string)
    requires AllSpace(lead) && IsToken(w) && AllSpace(gap)
    ensures Split(lead + (w + gap)) == [w]
  {
    calc {
      Split(lead + (w + gap));
      { SplitAfterSpaces(lead, w + gap); }
      Split(w + gap);
      { SplitCons(w, gap); }
      [w] + Split(gap);
      { SplitEmptyIffBlank(gap); }
      [w];
    }
  }

  lemma {:induction false} TakeWordPrefix(s: string)
    ensures TakeWord(s) == s[..|TakeWord(s)|]
    decreases |s|
  {
    if s != [] && !IsSpace(s[0]) {
      TakeWordPrefix(s[1..]);
    }
  }

  /** Leading whitespace does not change the tokens. */
  lemma {:induction false} SplitAfterSpaces(a: string, x: string)
    requires AllSpace(a)
    ensures Split(a + x) == Split(x)
    decreases |a|
  {
    if a == [] {
      assert a + x == x;
    } else {
      assert a + x == [a[0]] + (a[1..] + x);
      SplitSkipsSpace(a[0], a[1..] + x);
      SplitAfterSpaces(a[1..], x);
    }
  }

  lemma {:induction false} SplitNoLeadingSpace(s: string)
    ensures Split(LStrip(s)) == Split(s)
  {
  }

  // ---------------------------------------------------------------------
  // Scalars
  // ---------------------------------------------------------------------

  /** One field of a row: Python's `int`, `float` or `str`. */
  datatype Scalar = Int(i: int) | Float(f: real) | Str(s: string)

  type Row = seq<Scalar>

  function DropSign(t: string): string {
    if |t| > 0 && (t[0] == '+' || t[0] == '-') then t[1..] else t
  }

  /** The integer literals `int()` accepts: an optional sign, then decimal digits. */
  predicate IsIntLiteral(t: string) {
    |DropSign(t)| > 0 && AllDigits(DropSign(t))
  }

  function IntValue(t: string): int
    requires IsIntLiteral(t)
  {
    if t[0] == '-' then -(DigitsValue(t[1..]) as int) else DigitsValue(DropSign(t))
  }

  /** The decimal literals `float()` accepts in this model: an optional sign,
      digits, one '.', digits, with at least one digit in all. */
  predicate IsFloatLiteral(t: string) {
    IsUnsignedDecimal(DropSign(t))
  }

  predicate IsUnsignedDecimal(d: string) {
    IndexOf(d, '.') < |d| && |d| >= 2 && AllDigits(d[..IndexOf(d, '.')]) && AllDigits(d[IndexOf(d, '.') + 1..])
  }

  function FloatValue(t: string): real
    requires IsFloatLiteral(t)
  {
    if t[0] == '-' then -DecimalValue(DropSign(t)) else DecimalValue(DropSign(t))
  }

  /** The value of digits, '.', digits. */
  function DecimalValue(d: string): real
    requires IsUnsignedDecimal(d)
  {
    DigitsValue(d[..IndexOf(d, '.')]) as real + DigitsValue(d[IndexOf(d, '.') + 1..]) as real / Scale(|d| - IndexOf(d, '.') - 1)
  }

  /** `parse_token`: an `int` if the token reads as one, else a `float` if it
      reads as one, else the token itself. It never fails. */
  function ParseToken(t: string): (x: Scalar)
    ensures x.Int? <==> IsIntLiteral(t)
    ensures x.Float? <==> !IsIntLiteral(t) && IsFloatLiteral(t)
    ensures x.Str? <==> !IsIntLiteral(t) && !IsFloatLiteral(t)
    ensures x.Str? ==> x.s == t
  {
    if IsIntLiteral(t) then Int(IntValue(t))
    else if IsFloatLiteral(t) then Float(FloatValue(t))
    else Str(t)
  }

  /** `parse_line`: one scalar per whitespace-separated token, in order; a
      blank line gives the empty row. */
  function ParseLine(line: string): (row: Row)
    ensures |row| == |Split(line)|
    ensures forall i :: 0 <= i < |row| ==> row[i] == ParseToken(Split(line)[i])
    ensures row == [] <==> AllSpace(line)
  {
    SplitEmptyIffBlank(line);
    ParseTokens(Split(line))
  }

  /** `parse_token` applied to each token in turn. */
  function ParseTokens(ws: seq<string>): (row: Row)
    ensures |row| == |ws|
    ensures forall i :: 0 <= i < |row| ==> row[i] == ParseToken(ws[i])
  {
    if ws == [] then [] else [ParseToken(ws[0])] + ParseTokens(ws[1..])
  }

  // ---------------------------------------------------------------------
  // Printing scalars (Python's `str`)
  // ---------------------------------------------------------------------

  /** Fractional digits the float printer is allowed to use. */
  const MaxPlaces: nat := 17

  predicate IsWhole(x: real) {
    x == x.Floor as real
  }

  /** `r` times 10^k is a whole number: `r` has at most `k` decimal places. */
  predicate WholeAt(r: real, k: nat) {
    IsWhole(r * Scale(k))
  }

  /** A real the printer can write exactly: a decimal with at most MaxPlaces places. */
  predicate IsDecimal(r: real) {
    WholeAt(r, MaxPlaces)
  }

  /** The least number of places from `k` up that writes `r` exactly. */
  function Places(r: real, k: nat): (p: nat)
    requires 1 <= k <= MaxPlaces
    ensures k <= p <= MaxPlaces
    ensures IsDecimal(r) ==> WholeAt(r, p)
    ensures forall j :: k <= j < p ==> !WholeAt(r, j)
    decreases MaxPlaces - k
  {
    if k == MaxPlaces then k
    else if WholeAt(r, k) then k
    else Places(r, k + 1)
  }

  /** Euclidean division of naturals, quotient and remainder. */
  function DivMod(a: nat, p: nat): (qm: (nat, nat))
    requires p > 0
    ensures qm.1 < p && a == qm.0 * p + qm.1
  {
    if a < p then (0, a) else (DivMod(a - p, p).0 + 1, DivMod(a - p, p).1)
  }

  function IntText(i: int): string {
    (if i < 0 then "-" else "") + NatText(if i < 0 then -i else i)
  }

  function Abs(n: int): nat {
    if n < 0 then -n else n
  }

  /** The text of n / 10^k with exactly `k` digits after the point. */
  function ScaledText(n: int, k: nat): string {
    DecimalString(n < 0, WholeDigits(n, k), FractionDigits(n, k))
  }

  /** The digits of n / 10^k before the point. */
  function WholeDigits(n: int, k: nat): string {
    NatText(DivMod(Abs(n), Pow10(k)).0)
  }

  /** The `k` digits of n / 10^k after the point. */
  function FractionDigits(n: int, k: nat): string {
    PadLeft(NatText(DivMod(Abs(n), Pow10(k)).1), k)
  }

  /** `-A.B` or `A.B`. */
  function DecimalString(negative: bool, A: string, B: string): string {
    (if negative then "-" else "") + Dotted(A, B)
  }

  function Dotted(A: string, B: string): string {
    A + "." + B
  }

  /** Python's `str(float)` in this model: the shortest decimal text with at least one place. */
  function FloatText(r: real): string {
    ScaledText(Numerator(r, Places(r, 1)), Places(r, 1))
  }

  /** The whole part of r * 10^k. */
  function Numerator(r: real, k: nat): int {
    (r * Scale(k)).Floor
  }

  function Show(x: Scalar): string {
    match x
    case Int(i) => IntText(i)
    case Float(r) => FloatText(r)
    case Str(s) => s
  }

  /** `" ".join(str(x) for x in row)`. */
  function ShowRow(row: Row): string {
    Join(seq(|row|, i requires 0 <= i < |row| => Show(row[i])))
  }

  /** A scalar whose text `parse_token` reads back as itself: every int, every
      float the printer writes exactly, and every string that is a single token
      and does not look like a number. */
  predicate Printable(x: Scalar) {
    match x
    case Int(_) => true
    case Float(r) => IsDecimal(r)
    case Str(s) => IsToken(s) && !IsIntLiteral(s) && !IsFloatLiteral(s)
  }

  predicate PrintableRow(row: Row) {
    forall i :: 0 <= i < |row| ==> Printable(row[i])
  }

  // ---------------------------------------------------------------------
  // Properties of the tokenizer
  // ---------------------------------------------------------------------

  /** A line yields no tokens exactly when it is empty or all whitespace. */
  lemma {:induction false} SplitEmptyIffBlank(s: string)
    ensures Split(s) == [] <==> AllSpace(s)
  {
    var t := LStrip(s);
    LStripSuffix(s);
    if t != [] {
      assert s[|s| - |t|] == t[0];
    }
  }

  /** `lstrip` removes a whitespace prefix and keeps the rest as it is. */
  lemma {:induction false} LStripSuffix(s: string)
    ensures LStrip(s) == s[|s| - |LStrip(s)|..]
    ensures AllSpace(s[..|s| - |LStrip(s)|])
    decreases |s|
  {
    if s != [] && IsSpace(s[0]) {
      LStripSuffix(s[1..]);
      var t := LStrip(s);
      assert s[1..][|s| - 1 - |t|..] == s[|s| - |t|..];
      forall i | 0 <= i < |s| - |t| ensures IsSpace(s[i]) {
        if i > 0 {
          assert s[1..][..|s| - 1 - |t|][i - 1] == s[i];
        }
      }
    }
  }

  lemma {:induction false} TakeWordOfToken(w: string, rest: string)
    requires forall i :: 0 <= i < |w| ==> !IsSpace(w[i])
    requires rest == [] || IsSpace(rest[0])
    ensures TakeWord(w + rest) == w
    decreases |w|
  {
    if w != [] {
      assert (w + rest)[1..] == w[1..] + rest;
      TakeWordOfToken(w[1..], rest);
    }
  }

  lemma {:induction false} LStripNoSpace(s: string)
    requires s == [] || !IsSpace(s[0])
    ensures LStrip(s) == s
  {
  }

  /** A token followed by nothing or by whitespace is the first token. */
  lemma {:induction false} SplitCons(w: string, rest: string)
    requires IsToken(w)
    requires rest == [] || IsSpace(rest[0])
    ensures Split(w + rest) == [w] + Split(rest)
  {
    var s := w + rest;
    assert s[0] == w[0];
    LStripNoSpace(s);
    TakeWordOfToken(w, rest);
    assert s[|w|..] == rest;
  }

  lemma {:induction false} SplitSkipsSpace(c: char, s: string)
    requires IsSpace(c)
    ensures Split([c] + s) == Split(s)
  {
    assert ([c] + s)[1..] == s;
  }

  /** Splitting the space-joined text of tokens gives the tokens back. */
  lemma {:induction false} SplitJoin(ws: seq<string>)
    requires forall i :: 0 <= i < |ws| ==> IsToken(ws[i])
    ensures Split(Join(ws)) == ws
  {
    if |ws| == 1 {
      assert ws[0] + [] == ws[0];
      SplitCons(ws[0], []);
      assert Split(Join(ws)) == ws;
    } else if |ws| == 0 {
      assert Split(Join(ws)) == ws;
    } else {
      var w, j := ws[0], Join(ws[1..]);
      calc {
        Split(Join(ws));
        { assert Join(ws) == w + ([' '] + j); }
        Split(w + ([' '] + j));
        { SplitCons(w, [' '] + j); }
        [w] + Split([' '] + j);
        { SplitSkipsSpace(' ', j); }
        [w] + Split(j);
        { SplitJoin(ws[1..]); }
        [w] + ws[1..];
        ws;
      }
    }
  }

  /** A leading minus is the sign; text that starts with a digit has none. */
  lemma {:induction false} DropSignOfSigned(negative: bool, x: string)
    requires |x| > 0 && IsDigit(x[0])
    ensures DropSign((if negative then "-" else "") + x) == x
  {
    var t := (if negative then "-" else "") + x;
    if negative {
      assert t[1..] == x;
    } else {
      assert t == x;
    }
  }

  lemma {:induction false} IntTextParses(i: int)
    ensures ParseToken(IntText(i)) == Int(i)
  {
    var a: nat := if i < 0 then -i else i;
    var t := IntText(i);
    assert t == (if i < 0 then "-" else "") + NatText(a);
    DropSignOfSigned(i < 0, NatText(a));
    NatTextValue(a);
    assert t[0] == '-' <==> i < 0;
    if i < 0 {
      assert t[1..] == NatText(a);
    }
  }

  lemma {:induction false} DottedParts(A: string, B: string)
    requires |A| > 0 && AllDigits(A) && AllDigits(B)
    ensures |Dotted(A, B)| == |A| + 1 + |B| && Dotted(A, B)[0] == A[0]
    ensures IndexOf(Dotted(A, B), '.') == |A| && !AllDigits(Dotted(A, B))
    ensures Dotted(A, B)[..|A|] == A && Dotted(A, B)[|A| + 1..] == B
  {
    var d := Dotted(A, B);
    assert d[|A|] == '.';
    IndexOfAt(d, '.', |A|);
  }

  /** A signed decimal `-A.B` or `A.B` is a float literal and not an int literal. */
  lemma {:induction false} DecimalLiteralShape(negative: bool, A: string, B: string)
    requires |A| > 0 && AllDigits(A) && AllDigits(B)
    ensures DropSign(DecimalString(negative, A, B)) == Dotted(A, B)
    ensures !IsIntLiteral(DecimalString(negative, A, B))
    ensures IsFloatLiteral(DecimalString(negative, A, B))
  {
    DottedParts(A, B);
    DropSignOfSigned(negative, Dotted(A, B));
  }

  /** ... and it reads as the float its digits denote. */
  lemma {:induction false} DecimalLiteral(negative: bool, A: string, B: string)
    requires |A| > 0 && AllDigits(A) && AllDigits(B)
    ensures ParseToken(DecimalString(negative, A, B))
         == Float(if negative then -(DigitsValue(A) as real + DigitsValue(B) as real / Scale(|B|))
                  else DigitsValue(A) as real + DigitsValue(B) as real / Scale(|B|))
  {
    DecimalLiteralShape(negative, A, B);
    DecimalLiteralValue(negative, A, B);
  }

  lemma {:induction false} DecimalLiteralValue(negative: bool, A: string, B: string)
    requires |A| > 0 && AllDigits(A) && AllDigits(B)
    ensures IsFloatLiteral(DecimalString(negative, A, B))
    ensures FloatValue(DecimalString(negative, A, B))
         == if negative then -(DigitsValue(A) as real + DigitsValue(B) as real / Scale(|B|))
            else DigitsValue(A) as real + DigitsValue(B) as real / Scale(|B|)
  {
    DecimalLiteralShape(negative, A, B);
    DottedParts(A, B);
    assert DecimalString(negative, A, B)[0] == '-' <==> negative;
  }

  /** The decimal text of two digit strings is a single token. */
  lemma {:induction false} DecimalStringIsToken(negative: bool, A: string, B: string)
    requires AllDigits(A) && AllDigits(B)
    ensures IsToken(DecimalString(negative, A, B))
  {
    var text := DecimalString(negative, A, B);
    forall i | 0 <= i < |text| ensures !IsSpace(text[i]) {
      if negative && i == 0 {
      } else {
        var j := if negative then i - 1 else i;
        assert text[i] == Dotted(A, B)[j];
        if j < |A| {
          assert IsDigit(A[j]);
        } else if j > |A| {
          assert Dotted(A, B)[j] == B[j - |A| - 1];
          assert IsDigit(B[j - |A| - 1]);
        }
      }
    }
  }

  lemma {:induction false} ScaledArithmetic(n: int, k: nat, q: nat, m: nat)
    requires (if n < 0 then -n else n) == q * Pow10(k) + m
    ensures var magnitude := q as real + m as real / Scale(k);
      n as real / Scale(k) == if n < 0 then -magnitude else magnitude
  {
    var P := Scale(k);
    var magnitude := q as real + m as real / P;
    assert magnitude * P == q as real * P + m as real;
  }

  /** The text of n / 10^k (k >= 1) reads back, through `parse_token`, as that float. */
  lemma {:induction false} ScaledDigits(n: int, k: nat)
    requires k >= 1
    ensures |WholeDigits(n, k)| > 0 && AllDigits(WholeDigits(n, k)) && AllDigits(FractionDigits(n, k))
    ensures |FractionDigits(n, k)| == k
    ensures DigitsValue(WholeDigits(n, k)) == DivMod(Abs(n), Pow10(k)).0
    ensures DigitsValue(FractionDigits(n, k)) == DivMod(Abs(n), Pow10(k)).1
  {
    var q, m := DivMod(Abs(n), Pow10(k)).0, DivMod(Abs(n), Pow10(k)).1;
    NatTextLength(m, k);
    NatTextValue(q);
    NatTextValue(m);
    PadLeftValue(NatText(m), k);
  }

  lemma {:induction false} ScaledTextParses(n: int, k: nat)
    requires k >= 1
    ensures ParseToken(ScaledText(n, k)) == Float(n as real / Scale(k))
  {
    var A, B := WholeDigits(n, k), FractionDigits(n, k);
    var q, m := DivMod(Abs(n), Pow10(k)).0, DivMod(Abs(n), Pow10(k)).1;
    var magnitude := q as real + m as real / Scale(k);
    calc {
      ParseToken(ScaledText(n, k));
      ParseToken(DecimalString(n < 0, A, B));
      { ScaledDigits(n, k); DecimalLiteral(n < 0, A, B); }
      Float(if n < 0 then -(DigitsValue(A) as real + DigitsValue(B) as real / Scale(|B|))
            else DigitsValue(A) as real + DigitsValue(B) as real / Scale(|B|));
      { ScaledDigits(n, k); }
      Float(if n < 0 then -magnitude else magnitude);
      { ScaledArithmetic(n, k, q, m); }
      Float(n as real / Scale(k));
    }
  }

  lemma {:induction false} WholeAtValue(r: real, k: nat)
    requires WholeAt(r, k)
    ensures r == Numerator(r, k) as real / Scale(k)
  {
  }

  /** A float the printer writes exactly reads back as itself. */
  lemma {:induction false} FloatTextParses(r: real)
    requires IsDecimal(r)
    ensures ParseToken(FloatText(r)) == Float(r)
  {
    var k := Places(r, 1);
    ScaledTextParses(Numerator(r, k), k);
    WholeAtValue(r, k);
  }

  /** `parse_token` inverts the printer on every printable scalar. */
  lemma {:induction false} ParseShow(x: Scalar)
    requires Printable(x)
    ensures ParseToken(Show(x)) == x
  {
    match x
    case Int(i) => IntTextParses(i);
    case Float(r) => FloatTextParses(r);
    case Str(s) =>
  }

  /** The text of a printable scalar is a single token. */
  lemma {:induction false} ShowIsToken(x: Scalar)
    requires Printable(x)
    ensures IsToken(Show(x))
  {
    match x
    case Int(i) =>
      var a := if i < 0 then -i else i;
      assert forall j :: 0 <= j < |NatText(a)| ==> IsDigit(NatText(a)[j]);
    case Float(r) =>
      var k := Places(r, 1);
      var n := Numerator(r, k);
      ScaledDigits(n, k);
      DecimalStringIsToken(n < 0, WholeDigits(n, k), FractionDigits(n, k));
    case Str(s) =>
  }

  /** `split(maxsplit=1)` of a single token. */
  lemma {:induction false} SplitFirstOfToken(w: string)
    requires IsToken(w)
    ensures SplitFirst(w) == [w]
  {
    LStripNoSpace(w);
    TakeWordOfToken(w, []);
    assert w + [] == w;
    assert w[|w|..] == [];
  }

  /** `split(maxsplit=1)` of a token, one space, and a rest that starts with a
      non-space character. */
  lemma {:induction false} SplitFirstOfPair(w: string, rest: string)
    requires IsToken(w) && rest != [] && !IsSpace(rest[0])
    ensures SplitFirst(w + " " + rest) == [w, rest]
  {
    var tail := " " + rest;
    var s := w + tail;
    assert s == w + " " + rest;
    assert s[0] == w[0];
    LStripNoSpace(s);
    TakeWordOfToken(w, tail);
    assert s[|w|..] == tail;
    LStripAfterSpace(rest);
  }

  lemma {:induction false} LStripAfterSpace(rest: string)
    requires rest != [] && !IsSpace(rest[0])
    ensures LStrip(" " + rest) == rest
  {
    assert (" " + rest)[1..] == rest;
    LStripNoSpace(rest);
  }

  /** Text joined from tokens holds no whitespace but the joining spaces, and
      starts with a non-space character. */
  lemma {:induction false} JoinSpaces(ws: seq<string>)
    requires forall i :: 0 <= i < |ws| ==> IsToken(ws[i])
    ensures forall i :: 0 <= i < |Join(ws)| ==> Join(ws)[i] == ' ' || !IsSpace(Join(ws)[i])
    ensures |ws| > 0 ==> |Join(ws)| > 0 && !IsSpace(Join(ws)[0])
  {
    if |ws| > 1 {
      JoinSpaces(ws[1..]);
      var j := Join(ws[1..]);
      assert Join(ws) == ws[0] + " " + j;
      forall i | 0 <= i < |Join(ws)|
        ensures Join(ws)[i] == ' ' || !IsSpace(Join(ws)[i])
      {
        if i > |ws[0]| {
          assert Join(ws)[i] == j[i - |ws[0]| - 1];
        }
      }
    }
  }

  /** The tokens of the printed text of a printable row are the printed scalars. */
  lemma {:induction false} ShowRowTokens(row: Row)
    requires PrintableRow(row)
    ensures Split(ShowRow(row)) == seq(|row|, i requires 0 <= i < |row| => Show(row[i]))
  {
    var ws := seq(|row|, i requires 0 <= i < |row| => Show(row[i]));
    forall i | 0 <= i < |ws| ensures IsToken(ws[i]) {
      ShowIsToken(row[i]);
    }
    SplitJoin(ws);
  }

  /** The printed text of a printable row holds no whitespace but single
      spaces, and a non-empty row prints to a line that starts with a
      non-space character. */
  lemma {:induction false} ShowRowChars(row: Row)
    requires PrintableRow(row)
    ensures forall i :: 0 <= i < |ShowRow(row)| ==> ShowRow(row)[i] == ' ' || !IsSpace(ShowRow(row)[i])
    ensures |row| > 0 ==> |ShowRow(row)| > 0 && !IsSpace(ShowRow(row)[0])
  {
    var ws := seq(|row|, i requires 0 <= i < |row| => Show(row[i]));
    forall i | 0 <= i < |ws| ensures IsToken(ws[i]) {
      ShowIsToken(row[i]);
    }
    JoinSpaces(ws);
  }

  /** Reading back the printed text of a printable row gives the same row. */
  lemma {:induction false} ParseShowRow(row: Row)
    requires PrintableRow(row)
    ensures ParseLine(ShowRow(row)) == row
  {
    ShowRowTokens(row);
    ParseShownTokens(row);
  }

  lemma {:induction false} ParseShownTokens(row: Row)
    requires PrintableRow(row)
    ensures ParseTokens(seq(|row|, i requires 0 <= i < |row| => Show(row[i]))) == row
    decreases |row|
  {
    if row != [] {
      var ws := seq(|row|, i requires 0 <= i < |row| => Show(row[i]));
      assert ws[1..] == seq(|row[1..]|, i requires 0 <= i < |row[1..]| => Show(row[1..][i]));
      ParseShow(row[0]);
      ParseShownTokens(row[1..]);
      assert [row[0]] + row[1..] == row;
    }
  }

  /** Dropping the first token drops the first scalar. */
  lemma {:induction false} ParseTokensTail(ws: seq<string>)
    requires ws != []
    ensures ParseTokens(ws[1..]) == ParseTokens(ws)[1..]
  {
  }

  /** A number literal of the modelled grammar (sign, digits, at most one
      point) holds no upper-case letter, so it never reads as a section
      keyword. */
  lemma {:induction false} LiteralNotUpper(t: string)
    requires IsIntLiteral(t) || IsFloatLiteral(t)
    ensures !IsUpper(t)
  {
    forall i | 0 <= i < |t| ensures !('A' <= t[i] <= 'Z') {
      LiteralChar(t, i);
    }
  }

  /** Every character of a number literal is a digit, a sign or the point. */
  lemma {:induction false} LiteralChar(t: string, i: nat)
    requires IsIntLiteral(t) || IsFloatLiteral(t)
    requires i < |t|
    ensures IsDigit(t[i]) || t[i] == '.' || t[i] == '+' || t[i] == '-'
  {
    var d := DropSign(t);
    var off := |t| - |d|;
    if i >= off {
      assert t[i] == d[i - off];
      if !IsIntLiteral(t) {
        DigitOrDot(d, i - off);
      }
    }
  }

  lemma {:induction false} DigitOrDot(d: string, j: nat)
    requires IsUnsignedDecimal(d) && j < |d|
    ensures IsDigit(d[j]) || d[j] == '.'
  {
    var p := IndexOf(d, '.');
    if j < p {
      assert d[j] == d[..p][j];
    } else if j > p {
      assert d[j] == d[p + 1..][j - p - 1];
    }
  }

  /** The text of a printed number is never an upper-case word. */
  lemma {:induction false} NumberNotUpper(x: Scalar)
    requires Printable(x) && !x.Str?
    ensures !IsUpper(Show(x))
  {
    ParseShow(x);
    LiteralNotUpper(Show(x));
  }
}
