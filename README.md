# NDF parser and serializer, modelled in Dafny

This project models the core of the Note Data Format (NDF) reader and
writer in `notedf-py/ndf/parser.py`. NDF is an indentation-based text
format: a document is a list of `key: value` lines; a key with nothing
after the colon opens a nested block of deeper lines; `key: |` opens a
multi-line string; a value in `{…}` is an inline object, one in `[…]` an
inline array, and bare text with commas or blanks an implicit list.

The model has two layers.

- **Specification functions.** They say declaratively what each step of
  the reader and the writer produces:
  - `BlockOf` is the dict built by assigning, in order, the entries read
    from the key lines of a block;
  - `MultilineOf` and `NestedOf` describe the two kinds of block that
    follow an empty value or `|`;
  - `ArrayOf` is the list of elements read from the top-level comma
    pieces of an array body;
  - `RenderLines` is the list of lines `dumps` writes.
- **Imperative methods.** They follow the Python loops step by step
  (`ParseBlock`, `ParseMultiline`, `ParseNested`, `ParseArray`,
  `ParseInlineObject`, `Dumps`, `FormatList`, `FormatMultiline`). Each one
  is proved to compute exactly its specification function.

Properties are then proved about the specification functions:

- a repeated key keeps its first position and its last value;
- a block stops at the first shallower content line;
- every text line `dumps` writes at level `n` is empty or starts with `2n`
  blanks, when no key, list-item string or float text holds a line break
  (`DumpsTextIndented`);
- an array body splits only at commas outside brackets;
- `parse(dumps(d)) == d` for every plain tree and for the empty dict
  (`DumpsRoundTrip`).

Modules, leaf first:

| module | contents |
|---|---|
| `NdfOption` | `Option` and the list of present values |
| `NdfText` | Python's `strip`, `lstrip`, `rstrip`, `split`, `join` and `index`, and the tokens of an implicit list |
| `NdfDict` | an insertion-ordered dict as a list of pairs; `d[k] = v`; the dict built by a run of assignments |
| `NdfValue` | the value tree and `_parse_simple_value` |
| `NdfInline` | `_parse_value`, `_parse_array` and `_parse_inline_object` |
| `NdfBlock` | `parse`, `_parse_block`, `_parse_multiline` and `_parse_nested`, plus the line helpers |
| `NdfDump` | `dumps`, `_format_list` and `_format_multiline`, plus `str()`/`repr()` of values |
| `NdfPlain` | the plain trees, and where their lines stand in a list of lines |
| `NdfRoundTrip` | the read-back lemmas leading to `DumpsRoundTrip` |

A Python dict is modelled as `seq<(string, Value)>` with unique keys, in
insertion order. `Put` overwrites a present key in place and appends a new
one, as `d[k] = v` does.

The code differs from the broader description of the format, and the model
follows the code:

- there are no aliases, typed literals or `-` list blocks;
- no escape sequence is decoded inside quotes;
- no duplicate-key diagnostic is emitted;
- a line indented deeper than its block expects is silently skipped;
- inside a nested block, a line indented more than the key but less than
  the key plus 2 ends the reading of that block, and the collected lines
  after it are dropped.

The object has no state (`__init__` does nothing), so every operation is a
function or a method on values.

## Model

| member | source | states |
|---|---|---|
| NdfBlock.Parse | notedf-py/ndf/parser.py:25-36 | `parse` returns exactly `Document(text)`: the block at indentation 0 of the stripped text's lines |
| NdfBlock.Document | notedf-py/ndf/parser.py:25-36 | a parsed document is a dict: no key occurs twice |
| NdfBlock.ParseBlock | notedf-py/ndf/parser.py:91-139 | the cursor loop of `_parse_block` yields the dict and the stop index of `BlockOf` |
| NdfBlock.BlockOf | notedf-py/ndf/parser.py:91-139 | a block's result has unique keys and a stop index within the lines |
| NdfBlock.BlockWrites | notedf-py/ndf/parser.py:96-137 | reading from line `i` never moves the cursor back, and never past the end |
| NdfBlock.KindOf | notedf-py/ndf/parser.py:99-121 | a line is an entry exactly when it is not filler, sits at the block's indentation and holds `:` after comment removal; it ends the block exactly when it is content indented less |
| NdfBlock.BlockStops | notedf-py/ndf/parser.py:105-108 | a block stops at the first content line after its start that is indented less than the block, or at the end of the lines when there is none |
| NdfBlock.EntrySpan | notedf-py/ndf/parser.py:123-137 | every line an entry reads, its key line and the lines of its multi-line string or nested dict, is blank, a comment, or indented at least as deep as the block |
| NdfBlock.NoEntryNoWrites | notedf-py/ndf/parser.py:99-121 | lines with no entry line at the block's level assign nothing: blank, comment, deeper and colon-less lines are all skipped |
| NdfBlock.EntryLinesOrdered | notedf-py/ndf/parser.py:96-137 | the lines the block reads entries from are entry lines, in strictly increasing order |
| NdfBlock.WritesFromEntryLines | notedf-py/ndf/parser.py:123-137 | the k-th assignment of a block is the entry read from its k-th entry line |
| NdfBlock.BlockEntryStep | notedf-py/ndf/parser.py:123-137 | an entry line adds its entry as the next assignment, and reading resumes where that entry ends |
| NdfBlock.ParseEntry | notedf-py/ndf/parser.py:116-137 | the dispatch on `|`, empty and other values gives exactly `EntryAt` |
| NdfBlock.EntryAt | notedf-py/ndf/parser.py:123-137 | reading one entry consumes at least its own line and stays within the lines |
| NdfBlock.EntryKey | notedf-py/ndf/parser.py:116-123 | the key an entry assigns is the stripped text before the first `:` of its comment-free line |
| NdfBlock.BlockKeys | notedf-py/ndf/parser.py:116-123 | every key of a block holds no `:` and is the key of some entry line before the stop index |
| NdfBlock.BlockLastWriteWins | notedf-py/ndf/parser.py:127-136 | a repeated key at one level keeps the value of its last assignment |
| NdfBlock.Indent | notedf-py/ndf/parser.py:301-303 | the indentation never exceeds the line's length |
| NdfBlock.IndentSpec | notedf-py/ndf/parser.py:301-303 | the indentation is the length of the longest all-whitespace prefix: that prefix is blank and the next character, if any, is not whitespace |
| NdfBlock.IndentPadded | notedf-py/ndf/parser.py:301-303 | `n` spaces in front of text that starts with a non-blank have indentation `n` |
| NdfBlock.RemoveInlineComment | notedf-py/ndf/parser.py:305-309 | the result is the prefix of the line before its first `#`, or the whole line when it has none |
| NdfBlock.SplitKeyValue | notedf-py/ndf/parser.py:311-314 | the key never holds a `:` |
| NdfBlock.SplitKeyValueJoin | notedf-py/ndf/parser.py:311-314 | splitting `key:value`, with no `:` in the key, gives back both sides stripped: the inverse of writing a line |
| NdfBlock.ParseMultiline | notedf-py/ndf/parser.py:141-156 | the collecting loop yields exactly `MultilineOf` |
| NdfBlock.MultilineEnd | notedf-py/ndf/parser.py:146-151 | the block ends at the first line that is not blank and is indented no deeper than the key; no line before it does |
| NdfBlock.MultilineOf | notedf-py/ndf/parser.py:141-156 | a multi-line string always consumes its `|` line and ends within the lines |
| NdfBlock.MultilineText | notedf-py/ndf/parser.py:153-156 | the string is the body lines, each cut by the key's indentation plus 2 and joined by line breaks, minus trailing whitespace only |
| NdfBlock.BodyLinePadded | notedf-py/ndf/parser.py:153 | a body line written with the key's indentation plus 2 spaces reads back as its text |
| NdfBlock.ParseNested | notedf-py/ndf/parser.py:158-180 | `_parse_nested` yields exactly `NestedOf` |
| NdfBlock.CollectNested | notedf-py/ndf/parser.py:160-175 | the look-ahead loop collects exactly `NestedLines` and stops at `NestedEnd` |
| NdfBlock.NestedEnd | notedf-py/ndf/parser.py:163-172 | the look-ahead stops at the first content line indented no deeper than the key; no line before it does |
| NdfBlock.NestedLines | notedf-py/ndf/parser.py:160-175 | the collected lines are fewer than all the lines, so the recursion on them terminates |
| NdfBlock.ContentLinesSpec | notedf-py/ndf/parser.py:166-174 | every collected line is a non-filler line of the input, and none is collected exactly when all the input lines are filler |
| NdfBlock.NestedLinesDeeper | notedf-py/ndf/parser.py:166-174 | every collected line is content indented deeper than the key |
| NdfBlock.NestedOf | notedf-py/ndf/parser.py:158-180 | a nested value always consumes its key line and ends within the lines |
| NdfBlock.NestedEmpty | notedf-py/ndf/parser.py:177-180 | the value is `None`, resuming at the next line, exactly when the look-ahead sees only filler; otherwise it is a dict, resuming at the look-ahead's stop |
| NdfValue.ScalarOf | notedf-py/ndf/parser.py:201-226 | a simple value is never a dict or a list |
| NdfValue.ScalarKinds | notedf-py/ndf/parser.py:201-226 | a string result is the quoted text's inside or the token; an int is a token `int()` accepts and has its value; a float is a token with `.` or `e` that `float()` accepts; a bool or null comes from an unquoted keyword; conversely, an unquoted token that is no keyword is read as an int when `int()` accepts it and it has no `.` or `e`, and as a float when it has one and `float()` accepts it |
| NdfValue.QuotedTokenVerbatim | notedf-py/ndf/parser.py:205-208 | a token in matching quotes gives the text between them, with no escape decoding and no keyword or number recognition |
| NdfValue.KeywordNotQuoted | notedf-py/ndf/parser.py:205-218 | no keyword is a quoted token, so the quote test never hides a keyword |
| NdfValue.KeywordsIgnoreCase | notedf-py/ndf/parser.py:210-218 | keywords are case-insensitive: spellings equal after lower-casing give the same bool or null |
| NdfValue.UnconvertedTokenKept | notedf-py/ndf/parser.py:220-226 | a token that is not quoted, not a keyword and not a convertible number comes back as the same string |
| NdfInline.ParseValue | notedf-py/ndf/parser.py:182-199 | `_parse_value` returns exactly `ValueOf` |
| NdfInline.ValueForms | notedf-py/ndf/parser.py:184-199 | the result is a dict exactly when the stripped text is `{…}`; it is a list exactly when the text is `[…]` or an implicit list and not `{…}`; otherwise it is the simple value of the text |
| NdfInline.ImplicitListItems | notedf-py/ndf/parser.py:194-197 | an implicit list has one scalar per token; tokens are non-empty and hold no comma and no whitespace |
| NdfInline.ListOf | notedf-py/ndf/parser.py:196-197 | an implicit list has as many elements as tokens |
| NdfText.Tokens | notedf-py/ndf/parser.py:196 | tokens are non-empty and contain no list separator |
| NdfText.TokensJoin | notedf-py/ndf/parser.py:196 | separator-free words joined by `, ` split back into the same words |
| NdfInline.ParseArray | notedf-py/ndf/parser.py:242-273 | `_parse_array` returns exactly `ArrayOf`: the depth scan when the body holds `[`, else the plain comma split |
| NdfInline.ParseNestedItems | notedf-py/ndf/parser.py:248-269 | the character loop with its depth counter yields the elements of the top-level pieces of the body plus a final `,` |
| NdfInline.CloseItem | notedf-py/ndf/parser.py:259-265 | a comma at depth 0 closes the current item and adds its element, if any, after those of the earlier pieces |
| NdfInline.ParseArrayItem | notedf-py/ndf/parser.py:260-264 | a non-blank piece gives a nested array when it starts with `[`, else a simple value; a blank piece gives nothing |
| NdfInline.TopPieces | notedf-py/ndf/parser.py:252-265 | every piece is shorter than the text it comes from, so parsing nested pieces recursively terminates |
| NdfInline.TopPiecesConcat | notedf-py/ndf/parser.py:252-265 | splitting a prefix that ends at a top-level comma, and the rest, separately gives the same pieces |
| NdfInline.BalancedPiecesRejoin | notedf-py/ndf/parser.py:252-265 | for a balanced body, the top-level pieces joined by commas give the body back: no character is lost |
| NdfInline.FirstTopCommaLeast | notedf-py/ndf/parser.py:259 | the first top-level comma found is the least one at or after the start |
| NdfInline.NestedElementsSnoc | notedf-py/ndf/parser.py:260-265 | one more piece appends its element, if it has one, after the others |
| NdfInline.FlatArrayOf | notedf-py/ndf/parser.py:271-273 | with no `[` in the body, the array is the simple values of the non-blank pieces of a plain comma split |
| NdfInline.FlatArrayOfTokens | notedf-py/ndf/parser.py:271-273 | `[a,b,c]` of stripped non-empty tokens reads as one scalar per token, in order |
| NdfInline.ParseInlineObject | notedf-py/ndf/parser.py:228-240 | `_parse_inline_object` returns exactly `InlineObjectOf` |
| NdfInline.InlineObjectOf | notedf-py/ndf/parser.py:228-240 | an inline object is a dict: no key occurs twice |
| NdfInline.PairWritesFrom | notedf-py/ndf/parser.py:234-238 | every assignment comes from a comma piece that holds a `:`; pieces without one are skipped |
| NdfInline.InlineObjectShape | notedf-py/ndf/parser.py:233-238 | keys hold neither `,` nor `:`, and values are simple values, never dicts or lists |
| NdfInline.InlineObjectLastPairWins | notedf-py/ndf/parser.py:234-238 | a repeated key keeps the value of its last pair |
| NdfDict.Lookup | notedf-py/ndf/parser.py:127-136 | a key is absent exactly when no pair holds it, and a found value is one stored with that key |
| NdfDict.LookupAt | notedf-py/ndf/parser.py:127-136 | in a dict, the value found under a key is the one at that key's position |
| NdfDict.Put | notedf-py/ndf/parser.py:136 | `d[k] = v` keeps the keys unique |
| NdfDict.PutSpec | notedf-py/ndf/parser.py:136 | after `d[k] = v`, `k` maps to `v` and every other key is unchanged; a new key goes last, and a present key keeps its place |
| NdfDict.Assign | notedf-py/ndf/parser.py:127-136 | the dict built by a run of assignments has unique keys |
| NdfDict.AssignSnoc | notedf-py/ndf/parser.py:127-136 | one more assignment is one more `d[k] = v` |
| NdfDict.LastWriteWins | notedf-py/ndf/parser.py:127-136 | the value under a key is that of its last assignment |
| NdfDict.NeverWritten | notedf-py/ndf/parser.py:127-136 | a key never assigned is absent |
| NdfDict.AssignKeyOrder | notedf-py/ndf/parser.py:127-136 | the keys appear once each, in order of first assignment |
| NdfDict.AssignDistinct | notedf-py/ndf/parser.py:127-136 | assigning distinct keys in order builds exactly that list of pairs |
| NdfDump.Dumps | notedf-py/ndf/parser.py:62-87 | `dumps` returns the lines of `RenderLines` joined by line breaks |
| NdfDump.AppendChunk | notedf-py/ndf/parser.py:76-87 | appending the next entry's text keeps the output equal to the join of the entries written so far |
| NdfDump.RenderLines | notedf-py/ndf/parser.py:62-87 | `dumps` always writes at least one line, and an empty dict writes one empty line |
| NdfDump.EntriesLines | notedf-py/ndf/parser.py:76-85 | a non-empty dict writes at least one line |
| NdfDump.RenderEntry | notedf-py/ndf/parser.py:77-85 | every entry writes at least one line |
| NdfDump.RenderIndent | notedf-py/ndf/parser.py:73-87 | every element of the line list `dumps` joins at level `n` is empty or starts with `2n` spaces |
| NdfDump.EntryIndent | notedf-py/ndf/parser.py:77-85 | every element of an entry's line list at level `n` is empty or starts with `2n` spaces, nested dicts and list items included |
| NdfDump.EntriesIndent | notedf-py/ndf/parser.py:76-85 | every element of the entries' line list at level `n` is empty or starts with `2n` spaces |
| NdfDump.Pad | notedf-py/ndf/parser.py:74 | the indentation string of level `n` is `2n` blanks |
| NdfDump.FormatList | notedf-py/ndf/parser.py:277-290 | `_format_list` returns the lines of `ListLines` joined by line breaks |
| NdfDump.AppendItem | notedf-py/ndf/parser.py:285-290 | appending the next item's text keeps the output equal to the header plus the items written so far |
| NdfDump.ListLines | notedf-py/ndf/parser.py:277-290 | a list always writes at least its `key:` line |
| NdfDump.ListIndent | notedf-py/ndf/parser.py:277-290 | every element of a list's line list at level `n` is empty or starts with `2n` spaces |
| NdfDump.ItemsIndent | notedf-py/ndf/parser.py:285-289 | every element of the line list after a complex list's header is empty or starts with `2n` spaces |
| NdfDump.DumpsTextIndented | notedf-py/ndf/parser.py:62-87 | for a tree whose keys, list-item strings and float texts hold no line break, the text `dumps` writes splits at line breaks into exactly its line list, and every text line is empty or starts with `2n` spaces |
| NdfDump.RenderNoBreak | notedf-py/ndf/parser.py:62-87 | for such a tree, no element of the line list `dumps` joins holds a line break |
| NdfDump.EntriesNoBreak | notedf-py/ndf/parser.py:76-85 | the entries of such a tree write line-break-free elements |
| NdfDump.EntryNoBreak | notedf-py/ndf/parser.py:77-85 | an entry whose key holds no line break and whose value is such a tree writes line-break-free elements; a string value may hold line breaks, since it is written as a multi-line block cut at them |
| NdfDump.ListNoBreak | notedf-py/ndf/parser.py:277-290 | a list whose item strings hold no line break writes line-break-free elements |
| NdfDump.ItemsNoBreak | notedf-py/ndf/parser.py:285-289 | the `- item` lines and nested dicts of such a complex list write line-break-free elements |
| NdfDump.PyStrNoBreak | notedf-py/ndf/parser.py:85 | `str()` of a value with no line break in its strings, keys or float texts holds none |
| NdfDump.PyReprNoBreak | notedf-py/ndf/parser.py:289 | `repr()` of such a value holds no line break, since `repr()` escapes the line breaks of strings |
| NdfDump.FormatMultiline | notedf-py/ndf/parser.py:292-297 | `_format_multiline` returns the lines of `MultilineLines` joined by line breaks |
| NdfDump.MultilineLines | notedf-py/ndf/parser.py:292-297 | a multi-line string writes its `key: |` line and at least one body line |
| NdfDump.NatToString | notedf-py/ndf/parser.py:85 | decimal digits of `n`, with no leading zero, that read back as `n` |
| NdfDump.IntToStringShape | notedf-py/ndf/parser.py:85 | `str()` of an int is a numeral `int()` accepts, with the same value |
| NdfDump.IntToStringReadBack | notedf-py/ndf/parser.py:85 | an int written by `dumps` is read back as the same int |
| NdfDump.KeywordsReadBack | notedf-py/ndf/parser.py:85 | `True`, `False` and `None` as written are read back as the same values |
| NdfDump.ReprStringQuoted | notedf-py/ndf/parser.py:289 | `repr()` of a string is a quoted token whose inside is the escaped text |
| NdfDump.EscapedPlain | notedf-py/ndf/parser.py:289 | `repr()` writes a string without backslashes, control characters or the quote unchanged |
| NdfRoundTrip.DumpsRoundTrip | notedf-py/ndf/parser.py:25-36 | parsing the text `dumps` writes for a plain tree, or for the empty dict, gives back the same dict, order included |
| NdfRoundTrip.EmptyDocument | notedf-py/ndf/parser.py:35-36 | `dumps({})` is the empty text, and `parse` reads the empty text as the empty dict |
| NdfRoundTrip.DocumentLines | notedf-py/ndf/parser.py:35 | stripping and splitting the text `dumps` writes gives back exactly its lines |
| NdfRoundTrip.LinesText | notedf-py/ndf/parser.py:35 | content lines joined by line breaks, with the first not indented, are cut back into the same lines |
| NdfRoundTrip.BlockWritesRead | notedf-py/ndf/parser.py:91-139 | the entries of a plain dict written at level `n` are read back by the block at indentation `2n` as exactly these assignments, stopping right after their lines |
| NdfRoundTrip.EntryRead | notedf-py/ndf/parser.py:116-137 | one plain entry written at level `n` is read back as the same key and value, resuming right after its lines |
| NdfRoundTrip.NestedRead | notedf-py/ndf/parser.py:158-180 | a non-empty plain dict written under a key is read back by `_parse_nested` as the same dict, resuming right after its lines |
| NdfRoundTrip.ObjRead | notedf-py/ndf/parser.py:131-132 | an entry whose value is a dict is read back with the same key and dict |
| NdfRoundTrip.MultilineRead | notedf-py/ndf/parser.py:141-156 | a multi-line string of plain segments written at level `n` is read back as the same string, resuming right after it |
| NdfRoundTrip.HeaderRead | notedf-py/ndf/parser.py:116-123 | the first line of a written entry is an entry line of its level and splits back into the key and the value text |
| NdfRoundTrip.EntryLineRead | notedf-py/ndf/parser.py:116-123 | `key:` plus comment-free text, indented for level `n`, is an entry line at `2n` and splits back into the key and the stripped text |
| NdfRoundTrip.ValueTextRead | notedf-py/ndf/parser.py:182-199 | what follows `key:` is empty for a dict and `|` for a multi-line string; otherwise it reads back as the value |
| NdfRoundTrip.ListRead | notedf-py/ndf/parser.py:194-197 | a list of two or more plain items written as `a, b, c` reads back as the same list |
| NdfRoundTrip.ItemRead | notedf-py/ndf/parser.py:201-226 | `str()` of a bool, an int, `None` or a plain word is one bare token read back as the same value |
| NdfRoundTrip.BareRead | notedf-py/ndf/parser.py:182-199 | a bare token, with or without a blank in front, reads as the simple value it spells |
| NdfText.Strip | notedf-py/ndf/parser.py:35 | `strip()` never lengthens the text |
| NdfText.StripSpec | notedf-py/ndf/parser.py:35 | `strip()` keeps a contiguous slice that starts and ends with non-whitespace, and is empty exactly for blank text |
| NdfText.LStripSpec | notedf-py/ndf/parser.py:303 | `lstrip()` drops exactly the longest all-whitespace prefix |
| NdfText.RStripSpec | notedf-py/ndf/parser.py:156 | `rstrip()` drops exactly the longest all-whitespace suffix |
| NdfText.Split | notedf-py/ndf/parser.py:35 | `split(c)` gives at least one part; no part holds `c`, and joining the parts with `c` gives the text back |
| NdfText.SplitJoin | notedf-py/ndf/parser.py:35 | splitting a join of separator-free parts gives the parts back |
| NdfText.IndexOf | notedf-py/ndf/parser.py:308 | `index(c)` is the position of the first `c` |

## Left out

- `load` and `save` (parser.py:38-60) read and write files. The model has no I/O; `save` is `dumps` followed by a write.
- Floats are kept as the literal text `float()` accepted (`Float(lit)`), and `dumps` writes that literal back. Python writes `repr` of the float (`1.50` becomes `1.5`), and binary floating point is not modelled.
- `NdfValue.IsIntLiteral`: `int()` is modelled for an optional sign and ASCII digits only. Python also accepts `_` digit separators and non-ASCII digits, which the model reads as strings.
- `NdfValue.IsFloatLiteral`: `float()` is modelled for sign, mantissa and exponent in ASCII only. Python also accepts `_` separators and non-ASCII digits, which the model reads as strings.
- `NdfText.Lower`: `lower()` is modelled for ASCII letters only. The source compares lower-cased text only with ASCII keywords and with `e`, and no non-ASCII character lower-cases onto those letters, so those comparisons come out the same.
- `NdfText.Tokens`: the regular expression `[,\s]+` is modelled as splitting at runs of commas and whitespace, with no regex engine.
- `NdfDump.PyRepr`: `repr()` inside list and dict items is modelled with ASCII escaping rules. Characters from U+0080 up are treated as printable, whereas Python escapes the non-printable ones.
- `NdfRoundTrip.DumpsRoundTrip` holds only for the empty dict and for plain trees:
  - null, booleans and ints;
  - one-word strings that do not look like another kind;
  - multi-line strings whose lines are non-blank, unpadded and not comments;
  - lists of at least two ints, booleans or plain words;
  - dicts with plain keys, non-empty when nested under a key (the top-level dict may be empty).

  Outside these, the source's own writer and reader disagree. An empty or one-element list, a string with blanks, commas or `#`, a multi-line string with blank lines (lost when nested, since `_parse_nested` drops blank lines), a nested empty dict (written as a bare `key:` line, which `_parse_nested` reads back as `None`) and lists of dicts do not come back unchanged; neither do infinite and NaN floats, which `str()` writes as `inf`, `-inf` and `nan`, with no `.` or `e`, so `int()` rejects them and they are read back as strings. Every finite float does come back in the source, since its `str()` holds a `.` or an `e` and `float()` reads it back. The model leaves floats out of its plain trees because it keeps a float as the literal text that was read, not as a binary number.
- `NdfDump.RenderIndent`: states the indentation of the elements of the line list that `dumps` joins, not of the text lines. A key with a line break, or a string with a line break written in a one-line list (`k: a\nb`), puts a text line with no indentation into the output. `NdfDump.DumpsTextIndented` states the property for the text lines of trees without such line breaks.
- `NdfDump.EntryIndent`: the same restriction as `NdfDump.RenderIndent`, for the elements of one entry's line list.
- `NdfDump.EntriesIndent`: the same restriction as `NdfDump.RenderIndent`, for the elements of the entries' line list.
- `NdfDump.ListIndent`: the same restriction as `NdfDump.RenderIndent`, for the elements of a list's line list.
- `NdfDump.ItemsIndent`: the same restriction as `NdfDump.RenderIndent`, for the items of a complex list, where a `- item` string with a line break breaks the indentation of the text.
- The indentation of the whole document: `parse` strips the text first, so only the first line loses its leading blanks. The round trip starts from level 0, which is what `dumps` writes by default.
