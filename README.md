# vestacrystparser core in Dafny

This project models the core of `vestacrystparser`. That library reads,
edits and writes VESTA crystal-structure files (`.vesta`). A VESTA file is a
sequence of sections. Each section starts with an upper-case keyword line
(`TITLE`, `CELLP`, `SITET`, ...), which may carry inline values, and is
followed by continuation lines of values.

The model covers:

- **Tokens** (`Tokenizer`).
  - `parse_token` turns a token into an int, a float or the string itself.
  - `parse_line` splits a line on whitespace and parses every token.
  - The printer `str()` that `to_text` uses.
- **Sections** (`Sections`). A section is a value `Section(header, inline, data)`. The class
  `VestaSection` holds the same fields and provides:
  - its constructor, which reads a header line;
  - `add_line`, which appends a continuation line;
  - `to_text`, which writes the section back.
- **Files** (`Documents`, `VestaFiles`).
  - The content of a file is a `Document`: the sections by header and the
    headers in reading order.
  - `load` is the fold of one reading step over the lines.
  - `save` concatenates the sections' texts in order.
  - The class `VestaFile` holds the section objects. It has the methods `Load`, `GetSection`, `Save` and
    `SetAtomColor`, each specified by what it does to that document.
- **Atom colours** (`AtomColors`). `set_atom_color` writes an RGB colour into
  the rows of the `SITET` section. It is modelled both as written and as
  evidently intended (see Findings).
- **Matrices** (`Matrices`).
  - `invert_matrix` is the closed-form 3x3 inverse.
  - `matmul` is the product of two matrices given as lists of rows.
  - Both are modelled with the error each raises.

Strings are `seq<char>`. Numbers are unbounded integers and exact reals.
Python exceptions become `Err` results or an `ok` flag.

## Model

| member | source | states |
|---|---|---|
| Tokenizer.ParseToken | vestacrystparser/parser.py:1-11 | The result is an int exactly when the token is an integer literal. It is a float exactly when the token is a float literal but not an integer literal. Otherwise it is the token itself, unchanged. |
| Tokenizer.ParseLine | vestacrystparser/parser.py:13-19 | One value per whitespace-separated token, and value i is `parse_token` of token i; the row is empty exactly when the line is all whitespace |
| Tokenizer.Split | vestacrystparser/parser.py:18 | `str.split()`: every piece is a non-empty run of non-whitespace |
| Tokenizer.SplitEmptyIffBlank | vestacrystparser/parser.py:18 | `split()` yields nothing exactly when the line is only whitespace |
| Tokenizer.SplitJoin | vestacrystparser/parser.py:89 | Splitting the space-join of tokens gives back the tokens |
| Tokenizer.SplitFirstSuffix | vestacrystparser/parser.py:41-42 | The second part of `split(maxsplit=1)` is the raw end of the text, trailing whitespace included; what precedes it holds only the first token and whitespace |
| Tokenizer.SplitFirstTokens | vestacrystparser/parser.py:41-42 | `lstrip().split(maxsplit=1)` agrees with `split()`. Its first part is the first token. Its second part splits into the remaining tokens. |
| Tokenizer.IntTextParses | vestacrystparser/utilities.py:19-20 | `int(str(i)) == i` for every integer |
| Tokenizer.FloatTextParses | vestacrystparser/utilities.py:19-23 | The printed text of a decimal float is not an integer literal, and `float()` reads it back as the same value |
| Tokenizer.ParseShow | vestacrystparser/utilities.py:8-25 | `parse_token(str(x)) == x` for every printable int, float or non-numeric single-token string |
| Tokenizer.ParseShowRow | vestacrystparser/utilities.py:28-38 | `parse_line` of a row's space-joined text gives back the row |
| Tokenizer.LiteralNotUpper | vestacrystparser/parser.py:131 | A number literal of the modelled grammar (sign, digits, at most one point) holds no upper-case letter, so it is never taken for a section keyword |
| TextLines.RStripTwice | vestacrystparser/parser.py:36 | `rstrip("\n")` is idempotent |
| TextLines.RStripShape | vestacrystparser/parser.py:124 | `rstrip("\n")` keeps a prefix of the line and drops only newlines |
| TextLines.ReadTerminated | vestacrystparser/parser.py:118-119 | Reading back newline-terminated lines in text mode (`readlines` after universal-newline translation) gives each line with its newline, when no line holds a `\n` or `\r` |
| TextLines.UniversalPlain | vestacrystparser/parser.py:118 | Text-mode reading leaves text without carriage returns unchanged |
| Sections.NewSectionFields | vestacrystparser/parser.py:22-56 | The header is the line's first token. For TITLE, inline is empty and the data is one text line holding the rest of the line, or nothing when there is no rest; that text line is the raw end of the line, starting at its first non-space character after the keyword and keeping trailing whitespace. Otherwise, inline is the parsed rest and the data is empty. |
| Sections.HeaderTokensSuffix | vestacrystparser/parser.py:40-42 | The inline text `tokens[1]` is the raw end of the header line; before it come only whitespace and the keyword |
| Sections.NewSectionWellFormed | vestacrystparser/parser.py:46-56 | A new section is well-formed: TITLE holds only text lines, every other section only value rows |
| Sections.VestaSection.constructor | vestacrystparser/parser.py:22-56 | The object holds the section read from the header line, and its `isTitle` field says whether the header is TITLE |
| Sections.AddEntry | vestacrystparser/parser.py:58-68 | `add_line` appends exactly one entry, the raw line for TITLE and `parse_line` of it otherwise, and keeps the header, the inline values, the earlier entries and well-formedness |
| Sections.VestaSection.AddLine | vestacrystparser/parser.py:58-68 | After the call the object holds the old section with the line appended, as text for TITLE and parsed otherwise |
| Sections.AddEntriesOfLines | vestacrystparser/parser.py:58-68 | Adding the printed lines of entries appends exactly those entries |
| Sections.VestaSection.ToText | vestacrystparser/parser.py:70-95 | The returned text is the header line followed by one line per entry, each newline-terminated |
| Sections.SectionTextLines | vestacrystparser/parser.py:70-95 | `to_text` writes 1 + (number of entries) lines, none with an embedded newline |
| Sections.SectionRoundTrip | vestacrystparser/parser.py:22-95 | Reading back the lines `to_text` writes, with the constructor and `add_line`, rebuilds the same section |
| Sections.HeaderLineRereads | vestacrystparser/parser.py:88-92 | The constructor reads the header line `to_text` writes back as the same header and inline values |
| Documents.GlobalSection | vestacrystparser/parser.py:139-144 | `VestaSection("GLOBAL")` is the empty GLOBAL section |
| Documents.Step | vestacrystparser/parser.py:122-145 | One turn of `load`'s loop keeps every header in `order` filed and the current section filed |
| Documents.StepOrder | vestacrystparser/parser.py:125-144 | One line appends to `order` one of three things: its keyword for a header line, GLOBAL for the first continuation line when no section is open, or nothing |
| Documents.RunOrder | vestacrystparser/parser.py:121-145 | After reading lines, `order` is the old order followed by exactly the headers the lines open |
| Documents.RunOpen | vestacrystparser/parser.py:121-145 | A section is current after reading exactly when one was before or some line was not blank |
| Documents.RunConsistent | vestacrystparser/parser.py:121-145 | Reading keeps the file consistent: `order` and the dictionary name the same headers, each section is filed under its own header and well-formed |
| Documents.LoadConsistent | vestacrystparser/parser.py:111-145 | Every loaded file is consistent |
| Documents.HeaderStepFiles | vestacrystparser/parser.py:131-136 | A header line files the section it opens under its header, replacing any section filed there, appends the header to `order` and makes it current |
| Documents.BlankStep | vestacrystparser/parser.py:124-126 | A line that is empty once its newline is removed leaves the reader unchanged |
| Documents.GlobalStep | vestacrystparser/parser.py:137-145 | A continuation line read while no section is open files a new empty GLOBAL section, appends GLOBAL to `order`, makes it current and adds the line to it |
| Documents.ContinueStep | vestacrystparser/parser.py:137-145 | A non-blank, non-header line is added to the current section |
| Documents.DocTextLines | vestacrystparser/parser.py:159-169 | The saved text is the sections' lines in order, each newline-terminated |
| Documents.SaveLoad | vestacrystparser/parser.py:111-169 | Loading the text `save` writes gives back the same document, when every section has an upper-case header, every line stays in its section and no TITLE text holds a line break |
| VestaFiles.VestaFile.constructor | vestacrystparser/parser.py:106-107 | A new file has no sections and an empty order |
| VestaFiles.VestaFile.Load | vestacrystparser/parser.py:111-145 | The file afterwards holds the document `load` produces from the old one and the lines; each filed object carries its header's section |
| VestaFiles.VestaFile.Feed | vestacrystparser/parser.py:122-145 | One iteration moves the file and the current section exactly as one reading step does |
| VestaFiles.VestaFile.OpenSection | vestacrystparser/parser.py:133-136 | A fresh section object holding the section read from the header line is filed under its header; the dictionary changes only at that key, and the header is appended to `order` |
| VestaFiles.VestaFile.File | vestacrystparser/parser.py:134-135 | The dictionary afterwards is the old one with the object filed under its header, replacing any object there; the header is appended to `order` |
| VestaFiles.VestaFile.Extend | vestacrystparser/parser.py:145 | `add_line` on the current section changes only that section's entries |
| VestaFiles.VestaFile.GetSection | vestacrystparser/parser.py:147-157 | None exactly when no section has that header. Otherwise the result is the object filed under the header, and it holds that header's section. |
| VestaFiles.VestaFile.Save | vestacrystparser/parser.py:159-169 | The text written is the concatenation of the sections' `to_text` in `order` |
| VestaFiles.VestaFile.SetAtomColor | vestacrystparser/parser.py:187-214 | The file afterwards, and whether the call returned normally, are those of the as-written recolouring. Headers, order and objects are unchanged. |
| VestaFiles.PaintRows | vestacrystparser/parser.py:204-214 | The loop over the SITET rows leaves the rows and the normal-return flag of the as-written recolouring |
| AtomColors.Painted | vestacrystparser/parser.py:207-212 | Columns 3-5 and 6-8 become r, g, b and every other column is kept |
| AtomColors.Recolor | vestacrystparser/parser.py:204-214 | Intended effect: each row of 9 or more values painted, every other line unchanged |
| AtomColors.RecolorSites | vestacrystparser/parser.py:187-214 | Only SITET's entries change, with headers and order kept; a file without SITET is unchanged |
| AtomColors.FirstShort | vestacrystparser/parser.py:205-212 | The first 8-value row, with no 8-value row before it |
| AtomColors.RecolorSitesAsWritten | vestacrystparser/parser.py:187-214 | As written: SITET's entries become those of the as-written loop, with its normal-return flag; every other section, the headers and the order are kept; without SITET the call returns normally and nothing changes |
| AtomColors.AsWrittenRaises | vestacrystparser/parser.py:205-212 | The call raises exactly when SITET has a row of exactly 8 values |
| AtomColors.AsWrittenRows | vestacrystparser/parser.py:204-214 | Rows before the first 8-value row are painted. That row gets columns 3-7 written. Rows after it are untouched. |
| AtomColors.AsWrittenWhenOk | vestacrystparser/parser.py:204-214 | When no exception is raised, the as-written result is the intended one |
| AtomColors.AsWrittenConsistent | vestacrystparser/parser.py:187-214 | The as-written call keeps the file consistent |
| AtomColors.EightValueRow | vestacrystparser/parser.py:205-212 | An 8-value row passes the guard, gets columns 3-7 written and then raises |
| AtomColors.PaintTwice | vestacrystparser/parser.py:204-212 | Painting a row twice is painting it once |
| AtomColors.RecolorIdempotent | vestacrystparser/parser.py:187-214 | Setting the same colour twice is setting it once |
| AtomColors.RecolorConsistent | vestacrystparser/parser.py:187-214 | Recolouring keeps the file consistent |
| AtomColors.RecolorSaveable | vestacrystparser/parser.py:159-214 | A recoloured saveable file is saveable and loads back as itself |
| Matrices.Inverse | vestacrystparser/utilities.py:53-75 | The result is 3x3, and entry (j, i) is the cofactor of (i, j) over the determinant |
| Matrices.Invert | vestacrystparser/utilities.py:41-76 | Not 3x3 (by length and first row) gives that error, then a short second or third row; a 3x3 matrix fails exactly when its determinant is zero, and otherwise the result is the cofactor inverse |
| Matrices.InvertMatrix | vestacrystparser/utilities.py:41-76 | The nested loops compute exactly `Invert`, errors included |
| Matrices.CofactorExpansion | vestacrystparser/utilities.py:47-49 | Row a times the cofactors of row b is the determinant when a == b, and zero otherwise |
| Matrices.InverseOnRight | vestacrystparser/utilities.py:41-90 | `matmul(M, invert_matrix(M))` is the identity for every non-singular 3x3 M |
| Matrices.InverseOnLeft | vestacrystparser/utilities.py:41-90 | `matmul(invert_matrix(M), M)` is the identity |
| Matrices.InvertIsInverse | vestacrystparser/utilities.py:41-90 | A successful inversion is a two-sided inverse |
| Matrices.InvertIdentity | vestacrystparser/utilities.py:41-76 | The inverse of the identity is the identity |
| Matrices.Multiply | vestacrystparser/utilities.py:78-90 | The product has one row per row of `mat1` and `len(mat2[0])` columns. The errors are those the loops raise, in their order. |
| Matrices.MatMul | vestacrystparser/utilities.py:78-90 | The triple loop computes exactly `Multiply`, errors included |
| Matrices.MismatchAt | vestacrystparser/utilities.py:85-86 | A row of `mat1` of the wrong length fails the dimension assertion |
| Matrices.ShortRowAt | vestacrystparser/utilities.py:87-88 | A row of `mat2` shorter than its first raises an index error |
| Matrices.ProductExample | vestacrystparser/utilities.py:78-90 | [[4,7,6],[0,-3,1]] times [[0,1],[-1,3],[5,0]] is [[23,25],[8,-9]] |

## Left out

- File I/O. `VestaFile.Load` takes the lines `readlines` returns for a file opened in text mode, after `\r\n` and `\r` are turned into `\n` (`TextLines.ReadLines`), and `save` returns the text it would write. The `VestaFile(filename)` constructor's optional load is the constructor followed by `Load`.
- The `print` warnings of `set_atom_color` (no SITET section, a row with fewer than 8 values) are not modelled. Those cases leave the data unchanged.
- `VestaFile.__str__` (the section summary) is not modelled. It changes nothing.
- Whitespace is the ASCII set `str.isspace` accepts. `str.isupper` is decided on ASCII letters only. Non-ASCII text is not modelled.
- Number literals are simplified:
  - an int is an optional sign and digits;
  - a float is an optional sign and digits with one dot;
  - exponents, `inf`, `nan`, underscores and surrounding whitespace are not accepted.
- Floats are exact reals.
  - IEEE-754 rounding is not modelled. This includes the test `detfull == 0` and the division in `invert_matrix`.
  - `str(float)` is modelled as the shortest decimal with 1 to 17 places. Exponent notation is not modelled.
- The tokenizer in `vestacrystparser/utilities.py` (lines 8-38) is the same code as the one in `parser.py`, and is modelled once.
- `Tokenizer.LiteralNotUpper`: holds for the modelled literal grammar only. Python's `float()` also accepts tokens such as `1E5`, `INF` and `NAN`, which pass `str.isupper`; the source opens a section under such a token, and so does the model, which reads them as strings.
- Python's dynamic typing is not modelled. `set_atom_color` takes r, g, b as integers.
- `Sections.VestaSection.constructor`: does not state that `raw_header` is the header line with its trailing newlines removed. The field is set that way, but the contract leaves it out.
- `Sections.VestaSection.constructor`: requires the header line to hold a token. On an empty or whitespace-only header line the source raises IndexError at `tokens[0]` (parser.py line 42); that error path is not modelled. `load` never calls the constructor on such a line.
- `VestaFiles.PaintRows`: works on a copy of the SITET rows, which `SetAtomColor` stores back into the section. Python's in-place update of each row list is not modelled, and neither is aliasing between the rows and other references to them.
- `Matrices.InvertMatrix`: the result is pre-filled with zeros, not `None`. Every cell is overwritten before the result is returned.
- `Documents.SaveLoad`: holds only for files whose sections all have upper-case headers and whose lines are not blank and do not look like headers. Other files need not read back as themselves: a TITLE line that is itself an upper-case word, for instance, reads back as a new section header, and TITLE text holding `\r` is split into several lines when read back.

## Findings

| source | as written | input that shows it | evidently intended | confidence | as-written member | corrected member |
|---|---|---|---|---|---|---|
| vestacrystparser/parser.py:205-212 | The guard `len(line) >= 8` lets an 8-value row through, and then `line[8] = b` raises IndexError. By then columns 3-7 are already overwritten, and later rows are never recoloured. | A SITET row of exactly 8 values, e.g. `[0,0,0,0,0,0,0,0]` with colour (1,2,3) | The guard should be `len(line) >= 9`: every row with all nine colour columns is painted, and shorter rows are left alone | not executed | AtomColors.EightValueRow | AtomColors.RecolorSaveable |
