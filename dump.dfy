/** The serializer: a dict is written back as indented `key: value` lines,
    two spaces per nesting level (`dumps`, `_format_list`,
    `_format_multiline`). Scalars are written with Python's `str()`, and
    values inside a complex list with Python's `repr()`. */
module NdfDump {
  import opened NdfText
  import opened NdfValue

  // ---------------------------------------------------------------------
  // Sizes of nested values (termination of the walks over a tree)
  // ---------------------------------------------------------------------

  lemma {:induction false} SumBound(xs: seq<nat>, k: nat)
    requires k < |xs|
    ensures xs[k] <= Sum(xs)
  {
    if k < |xs| - 1 {
      assert xs[..|xs| - 1][k] == xs[k];
      SumBound(xs[..|xs| - 1], k);
    }
  }

  /** The value of one entry is no bigger than all the entries together. */
  lemma EntrySizeBound(d: seq<(string, Value)>, k: nat)
    requires k < |d|
    ensures Size(d[k].1) <= EntriesSize(d)
  {
    SumBound(seq(|d|, i requires 0 <= i < |d| => Size(d[i].1)), k);
  }

  lemma ItemSizeBound(xs: seq<Value>, k: nat)
    requires k < |xs|
    ensures Size(xs[k]) <= ItemsSize(xs)
  {
    SumBound(seq(|xs|, i requires 0 <= i < |xs| => Size(xs[i])), k);
  }

  // ---------------------------------------------------------------------
  // Python's str() and repr() of a value
  // ---------------------------------------------------------------------

  function DigitChar(d: nat): char
    requires d < 10
  {
    ('0' as int + d) as char
  }

  /** Decimal digits of a natural number, without leading zeros. */
  function NatToString(n: nat): (s: string)
    ensures s != [] && AllDigits(s) && DigitsValue(s) == n
    ensures n > 0 ==> s[0] != '0'
  {
    if n < 10 then [DigitChar(n)]
    else
      var pre := NatToString(n / 10);
      var s := pre + [DigitChar(n % 10)];
      assert s[..|s| - 1] == pre;
      s
  }

  /** `str(i)` for an int. */
  function IntToString(i: int): string
  {
    if i < 0 then "-" + NatToString(-i) else NatToString(i)
  }

  /** A character `str()` of an int may contain. */
  predicate NumeralChar(c: char)
  {
    IsDigit(c) || c == '-'
  }

  /** Text made of digits and minus signs, other than a lone `-`, is neither
      quoted, a keyword, nor a candidate for `float()`. */
  lemma NumeralNotWord(t: string)
    requires t != [] && t != "-"
    requires forall k :: 0 <= k < |t| ==> NumeralChar(t[k])
    ensures !IsQuoted(t) && !IsKeyword(t) && !LooksFractional(t)
  {
    assert Lower(t) == t;
    assert '.' !in t;
  }

  lemma IntToStringShape(i: int)
    ensures var t := IntToString(i);
      && t != [] && t != "-"
      && (forall k :: 0 <= k < |t| ==> NumeralChar(t[k]))
      && IsIntLiteral(t) && IntValue(t) == i
  {
    var t := IntToString(i);
    if i < 0 {
      assert t[1..] == NatToString(-i);
      assert Unsigned(t) == NatToString(-i);
    } else {
      assert Unsigned(t) == t;
    }
  }

  /** What `str()` writes for an int is read back by `_parse_simple_value`
      as the same int. */
  lemma IntToStringReadBack(i: int)
    ensures ScalarOf(IntToString(i)) == Int(i)
  {
    var t := IntToString(i);
    IntToStringShape(i);
    StripNoSpaceEnds(t);
    NumeralNotWord(t);
  }

  /** `str()` of `True`, `False` and `None` is read back as the same value. */
  lemma KeywordsReadBack()
    ensures ScalarOf(PyStr(Bool(true))) == Bool(true)
    ensures ScalarOf(PyStr(Bool(false))) == Bool(false)
    ensures ScalarOf(PyStr(Null)) == Null
  {
    StripNoSpaceEnds("True");
    StripNoSpaceEnds("False");
    StripNoSpaceEnds("None");
    assert Lower("True") == "true";
    assert Lower("False") == "false";
    assert Lower("None") == "none";
  }

  function HexDigit(d: nat): char
    requires d < 16
  {
    if d < 10 then DigitChar(d) else ('a' as int + d - 10) as char
  }

  /** The quote `repr()` puts around a string: double quotes when the
      string holds a single quote and no double quote, else single quotes. */
  function QuoteFor(s: string): char
  {
    if '\'' in s && '"' !in s then '"' else '\''
  }

  /** How `repr()` writes one character inside quotes `q`. */
  function EscapeChar(c: char, q: char): (r: string)
    ensures r != []
  {
    if c == '\\' then "\\\\"
    else if c == q then ['\\', q]
    else if c == '\t' then "\\t"
    else if c == '\n' then "\\n"
    else if c == '\r' then "\\r"
    else if c < ' ' || c == 0x7F as char then "\\x" + [HexDigit(c as nat / 16), HexDigit(c as nat % 16)]
    else [c]
  }

  function Escaped(s: string, q: char): string
  {
    if s == [] then [] else Escaped(s[..|s| - 1], q) + EscapeChar(s[|s| - 1], q)
  }

  /** A character `repr()` writes as itself. */
  predicate PlainChar(c: char, q: char)
  {
    c != '\\' && c != q && ' ' <= c && c != 0x7F as char
  }

  /** A string of plain characters is written unchanged between the quotes. */
  lemma {:induction false} EscapedPlain(s: string, q: char)
    requires forall k :: 0 <= k < |s| ==> PlainChar(s[k], q)
    ensures Escaped(s, q) == s
  {
    if s != [] {
      EscapedPlain(s[..|s| - 1], q);
      assert s == s[..|s| - 1] + [s[|s| - 1]];
    }
  }

  function ReprString(s: string): (r: string)
  {
    var q := QuoteFor(s);
    [q] + Escaped(s, q) + [q]
  }

  /** `repr()` of a string is the escaped text between matching quotes, so
      `_parse_simple_value` takes it for a quoted token. */
  lemma ReprStringQuoted(s: string)
    ensures IsQuoted(ReprString(s))
    ensures Inner(ReprString(s)) == Escaped(s, QuoteFor(s))
  {
    var q := QuoteFor(s);
    var r := ReprString(s);
    assert r[1..|r| - 1] == Escaped(s, q);
  }

  /** `repr(v)`: as `str(v)`, except that strings are quoted. */
  function PyRepr(v: Value): string
    decreases v, 1
  {
    match v
    case Str(s) => ReprString(s)
    case _ => PyStr(v)
  }

  /** `str(v)`. A float is written as the literal it was read from; lists
      and dicts are written with `repr()` of their elements. */
  function PyStr(v: Value): string
    decreases v, 0
  {
    match v
    case Null => "None"
    case Bool(b) => if b then "True" else "False"
    case Int(i) => IntToString(i)
    case Float(lit) => lit
    case Str(s) => s
    case Arr(xs) => "[" + Join(", ", seq(|xs|, k requires 0 <= k < |xs| => PyRepr(xs[k]))) + "]"
    case Obj(es) =>
      "{" + Join(", ", seq(|es|, k requires 0 <= k < |es| => ReprString(es[k].0) + ": " + PyRepr(es[k].1))) + "}"
  }

  // ---------------------------------------------------------------------
  // The lines of the output
  // ---------------------------------------------------------------------

  /** `'  ' * level`. */
  function Pad(level: nat): (r: string)
    ensures |r| == 2 * level && IsBlank(r)
  {
    Spaces(2 * level)
  }

  /** The element kinds `_format_list` writes on one line: int, float, str and bool. */
  predicate IsSimpleItem(v: Value)
  {
    v.Int? || v.Float? || v.Str? || v.Bool?
  }

  /** The lines `dumps(d, level)` writes; a dict with no entries gives the
      one empty line of `''`. */
  function RenderLines(d: seq<(string, Value)>, level: nat): (r: seq<string>)
    ensures r != []
    decreases EntriesSize(d), 2, 0
  {
    if d == [] then [""] else EntriesLines(d, level)
  }

  /** The lines of the entries of `d`, in order. */
  function EntriesLines(d: seq<(string, Value)>, level: nat): (r: seq<string>)
    ensures d != [] ==> r != []
    decreases EntriesSize(d), 1, |d|
  {
    if d == [] then []
    else
      var pre := d[..|d| - 1];
      var last := d[|d| - 1];
      EntriesSizeSnoc(d);
      EntriesLines(pre, level) + RenderEntry(last.0, last.1, level)
  }

  /** The lines of one `key: value` entry at `level`. */
  function RenderEntry(key: string, value: Value, level: nat): (r: seq<string>)
    ensures r != []
    decreases Size(value), 0, 0
  {
    var indentStr := Pad(level);
    match value
    case Obj(es) => [indentStr + key + ":"] + RenderLines(es, level + 1)
    case Arr(xs) => ListLines(key, xs, indentStr)
    case Str(s) =>
      if '\n' in s then MultilineLines(key, s, indentStr) else [indentStr + key + ": " + s]
    case _ => [indentStr + key + ": " + PyStr(value)]
  }

  /** `_format_list`: all elements simple gives one line `key: a, b, c`;
      otherwise a `key:` line, then each dict element as `dumps` at the next
      level and each other element as a `- item` line. */
  function ListLines(key: string, xs: seq<Value>, indentStr: string): (r: seq<string>)
    ensures r != []
    decreases ItemsSize(xs), 2, 0
  {
    if forall k :: 0 <= k < |xs| ==> IsSimpleItem(xs[k]) then
      [indentStr + key + ": " + Join(", ", seq(|xs|, k requires 0 <= k < |xs| => PyStr(xs[k])))]
    else [indentStr + key + ":"] + ItemsLines(xs, indentStr)
  }

  /** The lines after the `key:` line of a complex list. */
  function ItemsLines(xs: seq<Value>, indentStr: string): seq<string>
    decreases ItemsSize(xs), 1, |xs|
  {
    if xs == [] then []
    else
      var pre := xs[..|xs| - 1];
      var last := xs[|xs| - 1];
      ItemsSizeSnoc(xs);
      ItemsLines(pre, indentStr) +
        match last
        case Obj(es) => RenderLines(es, |indentStr| / 2 + 1)
        case _ => [indentStr + "  - " + PyStr(last)]
  }

  /** `_format_multiline`: a `key: |` line, then one line per segment of the
      text, indented two more spaces. */
  function MultilineLines(key: string, s: string, indentStr: string): (r: seq<string>)
    ensures |r| >= 2
  {
    var segs := Split(s, '\n');
    [indentStr + key + ": |"] + seq(|segs|, k requires 0 <= k < |segs| => indentStr + "  " + segs[k])
  }

  // ---------------------------------------------------------------------
  // The serializing methods
  // ---------------------------------------------------------------------

  /** `dumps`: one chunk of text per entry, joined by newlines. */
  method Dumps(data: seq<(string, Value)>, indent: nat) returns (text: string)
    ensures text == Join("\n", RenderLines(data, indent))
    decreases EntriesSize(data), 2
  {
    var lines: seq<string> := [];
    var indentStr := Pad(indent);
    var k := 0;
    while k < |data|
      invariant 0 <= k <= |data|
      invariant lines == [] <==> k == 0
      invariant Join("\n", lines) == Join("\n", EntriesLines(data[..k], indent))
    {
      var (key, value) := data[k];
      EntrySizeBound(data, k);
      var chunk;
      if value.Obj? {
        var inner := Dumps(value.entries, indent + 1);
        chunk := indentStr + key + ":" + "\n" + inner;
        assert chunk == Join("\n", RenderEntry(key, value, indent));
      } else if value.Arr? {
        chunk := FormatList(key, value.items, indentStr);
      } else if value.Str? && '\n' in value.s {
        chunk := FormatMultiline(key, value.s, indentStr);
      } else {
        chunk := indentStr + key + ": " + PyStr(value);
      }
      AppendChunk(data, k, indent, lines, chunk);
      lines := lines + [chunk];
      k := k + 1;
    }
    assert data[..k] == data;
    text := Join("\n", lines);
  }

  /** Appending the text of entry `k` extends the joined output by exactly
      that entry's lines. */
  lemma AppendChunk(data: seq<(string, Value)>, k: nat, indent: nat, lines: seq<string>, chunk: string)
    requires k < |data|
    requires lines == [] <==> k == 0
    requires Join("\n", lines) == Join("\n", EntriesLines(data[..k], indent))
    requires chunk == Join("\n", RenderEntry(data[k].0, data[k].1, indent))
    ensures Join("\n", lines + [chunk]) == Join("\n", EntriesLines(data[..k + 1], indent))
  {
    var pre := data[..k + 1][..k];
    assert pre == data[..k];
    var e := RenderEntry(data[k].0, data[k].1, indent);
    assert EntriesLines(data[..k + 1], indent) == EntriesLines(data[..k], indent) + e;
    if k == 0 {
      assert EntriesLines(data[..k], indent) == [];
      assert [] + e == e;
    } else {
      JoinAppend("\n", lines, chunk);
      JoinConcat("\n", EntriesLines(data[..k], indent), e);
    }
  }

  /** `_format_list`. */
  method FormatList(key: string, value: seq<Value>, indentStr: string) returns (text: string)
    ensures text == Join("\n", ListLines(key, value, indentStr))
    decreases ItemsSize(value), 1
  {
    if forall k :: 0 <= k < |value| ==> IsSimpleItem(value[k]) {
      text := indentStr + key + ": " + Join(", ", seq(|value|, k requires 0 <= k < |value| => PyStr(value[k])));
      return;
    }
    var header := indentStr + key + ":";
    var lines := [header];
    var k := 0;
    while k < |value|
      invariant 0 <= k <= |value|
      invariant lines != []
      invariant Join("\n", lines) == Join("\n", [header] + ItemsLines(value[..k], indentStr))
    {
      var item := value[k];
      ItemSizeBound(value, k);
      var chunk;
      if item.Obj? {
        chunk := Dumps(item.entries, |indentStr| / 2 + 1);
      } else {
        chunk := indentStr + "  - " + PyStr(item);
      }
      AppendItem(value, k, indentStr, header, lines, chunk);
      lines := lines + [chunk];
      k := k + 1;
    }
    assert value[..k] == value;
    text := Join("\n", lines);
  }

  lemma AppendItem(xs: seq<Value>, k: nat, indentStr: string, header: string, lines: seq<string>, chunk: string)
    requires k < |xs| && lines != []
    requires Join("\n", lines) == Join("\n", [header] + ItemsLines(xs[..k], indentStr))
    requires xs[k].Obj? ==> chunk == Join("\n", RenderLines(xs[k].entries, |indentStr| / 2 + 1))
    requires !xs[k].Obj? ==> chunk == indentStr + "  - " + PyStr(xs[k])
    ensures Join("\n", lines + [chunk]) == Join("\n", [header] + ItemsLines(xs[..k + 1], indentStr))
  {
    assert xs[..k + 1][..k] == xs[..k];
    var more := if xs[k].Obj? then RenderLines(xs[k].entries, |indentStr| / 2 + 1) else [indentStr + "  - " + PyStr(xs[k])];
    assert ItemsLines(xs[..k + 1], indentStr) == ItemsLines(xs[..k], indentStr) + more;
    assert [header] + ItemsLines(xs[..k + 1], indentStr) == ([header] + ItemsLines(xs[..k], indentStr)) + more;
    JoinAppend("\n", lines, chunk);
    JoinConcat("\n", [header] + ItemsLines(xs[..k], indentStr), more);
  }

  /** `_format_multiline`. */
  method FormatMultiline(key: string, value: string, indentStr: string) returns (text: string)
    ensures text == Join("\n", MultilineLines(key, value, indentStr))
  {
    var lines := [indentStr + key + ": |"];
    var segs := Split(value, '\n');
    var k := 0;
    while k < |segs|
      invariant 0 <= k <= |segs|
      invariant lines == [indentStr + key + ": |"] + seq(k, j requires 0 <= j < k => indentStr + "  " + segs[j])
    {
      lines := lines + [indentStr + "  " + segs[k]];
      k := k + 1;
    }
    text := Join("\n", lines);
  }

  // ---------------------------------------------------------------------
  // Indentation of the output
  // ---------------------------------------------------------------------

  /** A line written at `level`: two spaces per level in front, or the empty
      line of a dict with no entries. */
  predicate Indented(line: string, level: nat)
  {
    line == "" || (2 * level <= |line| && line[..2 * level] == Pad(level))
  }

  predicate AllIndented(lines: seq<string>, level: nat)
  {
    forall k :: 0 <= k < |lines| ==> Indented(lines[k], level)
  }

  lemma IndentedShallower(lines: seq<string>, level: nat)
    requires AllIndented(lines, level + 1)
    ensures AllIndented(lines, level)
  {
    forall k | 0 <= k < |lines| ensures Indented(lines[k], level) {
      if lines[k] != "" {
        assert lines[k][..2 * level] == lines[k][..2 * level + 2][..2 * level];
      }
    }
  }

  lemma AllIndentedConcat(a: seq<string>, b: seq<string>, level: nat)
    requires AllIndented(a, level) && AllIndented(b, level)
    ensures AllIndented(a + b, level)
  {
  }

  /** A line that starts with `indentStr` and that prefix is `Pad(level)`. */
  lemma PaddedLine(level: nat, rest: string)
    ensures Indented(Pad(level) + rest, level)
  {
    assert (Pad(level) + rest)[..2 * level] == Pad(level);
  }

  /** Every line `dumps(d, level)` emits starts with `2 * level` spaces
      (or is the empty output of a dict with no entries). */
  lemma {:induction false} RenderIndent(d: seq<(string, Value)>, level: nat)
    ensures AllIndented(RenderLines(d, level), level)
    decreases EntriesSize(d), 2, 0
  {
    if d != [] {
      EntriesIndent(d, level);
    }
  }

  lemma {:induction false} EntriesIndent(d: seq<(string, Value)>, level: nat)
    ensures AllIndented(EntriesLines(d, level), level)
    decreases EntriesSize(d), 1, |d|
  {
    if d != [] {
      EntriesSizeSnoc(d);
      EntriesIndent(d[..|d| - 1], level);
      EntryIndent(d[|d| - 1].0, d[|d| - 1].1, level);
      AllIndentedConcat(EntriesLines(d[..|d| - 1], level), RenderEntry(d[|d| - 1].0, d[|d| - 1].1, level), level);
    }
  }

  /** Each entry's lines are at its level: a nested dict's own lines are two
      spaces deeper, list and multi-line lines carry the entry's indentation. */
  lemma {:induction false} EntryIndent(key: string, value: Value, level: nat)
    ensures AllIndented(RenderEntry(key, value, level), level)
    decreases Size(value), 0, 0
  {
    PaddedLine(level, key + ":");
    match value
    case Obj(es) =>
      RenderIndent(es, level + 1);
      IndentedShallower(RenderLines(es, level + 1), level);
      assert RenderEntry(key, value, level) == [Pad(level) + key + ":"] + RenderLines(es, level + 1);
    case Arr(xs) =>
      ListIndent(key, xs, level);
    case Str(s) =>
      if '\n' in s {
        var segs := Split(s, '\n');
        forall k | 0 <= k < |segs| ensures Indented(Pad(level) + "  " + segs[k], level) {
          PaddedLine(level, "  " + segs[k]);
          assert Pad(level) + "  " + segs[k] == Pad(level) + ("  " + segs[k]);
        }
      } else {
        PaddedLine(level, key + ": " + s);
        assert Pad(level) + key + ": " + s == Pad(level) + (key + ": " + s);
      }
    case _ =>
      PaddedLine(level, key + ": " + PyStr(value));
      assert Pad(level) + key + ": " + PyStr(value) == Pad(level) + (key + ": " + PyStr(value));
  }

  lemma {:induction false} ListIndent(key: string, xs: seq<Value>, level: nat)
    ensures AllIndented(ListLines(key, xs, Pad(level)), level)
    decreases ItemsSize(xs), 2, 0
  {
    var line := Pad(level) + key + ": " + Join(", ", seq(|xs|, k requires 0 <= k < |xs| => PyStr(xs[k])));
    PaddedLine(level, key + ": " + Join(", ", seq(|xs|, k requires 0 <= k < |xs| => PyStr(xs[k]))));
    assert line == Pad(level) + (key + ": " + Join(", ", seq(|xs|, k requires 0 <= k < |xs| => PyStr(xs[k]))));
    PaddedLine(level, key + ":");
    ItemsIndent(xs, level);
  }

  lemma {:induction false} ItemsIndent(xs: seq<Value>, level: nat)
    ensures AllIndented(ItemsLines(xs, Pad(level)), level)
    decreases ItemsSize(xs), 1, |xs|
  {
    if xs != [] {
      var last := xs[|xs| - 1];
      ItemsSizeSnoc(xs);
      ItemsIndent(xs[..|xs| - 1], level);
      if last.Obj? {
        assert |Pad(level)| / 2 + 1 == level + 1;
        RenderIndent(last.entries, level + 1);
        IndentedShallower(RenderLines(last.entries, level + 1), level);
      } else {
        PaddedLine(level, "  - " + PyStr(last));
        assert Pad(level) + "  - " + PyStr(last) == Pad(level) + ("  - " + PyStr(last));
      }
    }
  }

  // ---------------------------------------------------------------------
  // Line breaks in the output
  // ---------------------------------------------------------------------

  /** A tree whose written lines hold no line break: no key of a dict
      `dumps` writes holds one, no string that is a list element does, and
      no float's text does (Python's `str()` of a float never does). A
      multi-line string value is allowed: it is written one segment per
      line. */
  predicate OneLine(v: Value)
    decreases v
  {
    match v
    case Float(lit) => '\n' !in lit
    case Obj(es) => forall k :: 0 <= k < |es| ==> '\n' !in es[k].0 && OneLine(es[k].1)
    case Arr(xs) => forall k :: 0 <= k < |xs| ==> (xs[k].Str? ==> '\n' !in xs[k].s) && OneLine(xs[k])
    case _ => true
  }

  predicate NoBreaks(lines: seq<string>)
  {
    forall k :: 0 <= k < |lines| ==> '\n' !in lines[k]
  }

  lemma PadNoBreak(level: nat)
    ensures '\n' !in Pad(level)
  {
  }

  /** `repr()` escapes a line break, and writes no other character as one. */
  lemma {:induction false} EscapedNoBreak(s: string, q: char)
    requires q == '\'' || q == '"'
    ensures '\n' !in Escaped(s, q)
  {
    if s != [] {
      EscapedNoBreak(s[..|s| - 1], q);
      var c := s[|s| - 1];
      if !(c == '\\' || c == q || c == '\t' || c == '\n' || c == '\r') && (c < ' ' || c == 0x7F as char) {
        assert EscapeChar(c, q) == "\\x" + [HexDigit(c as nat / 16), HexDigit(c as nat % 16)];
      }
    }
  }

  lemma ReprStringNoBreak(s: string)
    ensures '\n' !in ReprString(s)
  {
    EscapedNoBreak(s, QuoteFor(s));
  }

  lemma IntToStringNoBreak(i: int)
    ensures '\n' !in IntToString(i)
  {
    IntToStringShape(i);
  }

  /** `repr()` of a value of a one-line tree is one line. */
  lemma {:induction false} PyReprNoBreak(v: Value)
    requires OneLine(v)
    ensures '\n' !in PyRepr(v)
    decreases v, 1
  {
    if v.Str? {
      ReprStringNoBreak(v.s);
    } else {
      PyStrNoBreak(v);
    }
  }

  /** `str()` of a value of a one-line tree, other than a string holding a
      line break, is one line. */
  lemma {:induction false} PyStrNoBreak(v: Value)
    requires OneLine(v) && (v.Str? ==> '\n' !in v.s)
    ensures '\n' !in PyStr(v)
    decreases v, 0
  {
    match v
    case Int(i) => IntToStringNoBreak(i);
    case Arr(xs) =>
      var parts := seq(|xs|, k requires 0 <= k < |xs| => PyRepr(xs[k]));
      forall k | 0 <= k < |xs| ensures '\n' !in parts[k] {
        PyReprNoBreak(xs[k]);
      }
      NotInJoin(", ", parts, '\n');
    case Obj(es) =>
      var parts := seq(|es|, k requires 0 <= k < |es| => ReprString(es[k].0) + ": " + PyRepr(es[k].1));
      forall k | 0 <= k < |es| ensures '\n' !in parts[k] {
        ReprStringNoBreak(es[k].0);
        PyReprNoBreak(es[k].1);
      }
      NotInJoin(", ", parts, '\n');
    case _ =>
  }

  /** No line `dumps` writes for a one-line tree holds a line break. */
  lemma {:induction false} RenderNoBreak(d: seq<(string, Value)>, level: nat)
    requires OneLine(Obj(d))
    ensures NoBreaks(RenderLines(d, level))
    decreases EntriesSize(d), 2, 0
  {
    if d != [] {
      EntriesNoBreak(d, level);
    }
  }

  lemma {:induction false} EntriesNoBreak(d: seq<(string, Value)>, level: nat)
    requires OneLine(Obj(d))
    ensures NoBreaks(EntriesLines(d, level))
    decreases EntriesSize(d), 1, |d|
  {
    if d != [] {
      var pre := d[..|d| - 1];
      assert forall k :: 0 <= k < |pre| ==> pre[k] == d[k];
      EntriesSizeSnoc(d);
      EntriesNoBreak(pre, level);
      EntryNoBreak(d[|d| - 1].0, d[|d| - 1].1, level);
    }
  }

  lemma {:induction false} EntryNoBreak(key: string, value: Value, level: nat)
    requires '\n' !in key && OneLine(value)
    ensures NoBreaks(RenderEntry(key, value, level))
    decreases Size(value), 0, 0
  {
    PadNoBreak(level);
    match value
    case Obj(es) =>
      RenderNoBreak(es, level + 1);
    case Arr(xs) =>
      ListNoBreak(key, xs, level);
    case Str(s) =>
    case _ =>
      PyStrNoBreak(value);
  }

  lemma {:induction false} ListNoBreak(key: string, xs: seq<Value>, level: nat)
    requires '\n' !in key && OneLine(Arr(xs))
    ensures NoBreaks(ListLines(key, xs, Pad(level)))
    decreases ItemsSize(xs), 2, 0
  {
    PadNoBreak(level);
    if forall k :: 0 <= k < |xs| ==> IsSimpleItem(xs[k]) {
      var parts := seq(|xs|, k requires 0 <= k < |xs| => PyStr(xs[k]));
      forall k | 0 <= k < |xs| ensures '\n' !in parts[k] {
        PyStrNoBreak(xs[k]);
      }
      NotInJoin(", ", parts, '\n');
    } else {
      ItemsNoBreak(xs, level);
    }
  }

  lemma {:induction false} ItemsNoBreak(xs: seq<Value>, level: nat)
    requires OneLine(Arr(xs))
    ensures NoBreaks(ItemsLines(xs, Pad(level)))
    decreases ItemsSize(xs), 1, |xs|
  {
    if xs != [] {
      var pre := xs[..|xs| - 1];
      var last := xs[|xs| - 1];
      assert forall k :: 0 <= k < |pre| ==> pre[k] == xs[k];
      ItemsSizeSnoc(xs);
      ItemsNoBreak(pre, level);
      if last.Obj? {
        assert |Pad(level)| / 2 + 1 == level + 1;
        RenderNoBreak(last.entries, level + 1);
      } else {
        PadNoBreak(level);
        PyStrNoBreak(last);
      }
    }
  }

  /** The text `dumps` writes for a one-line tree is cut at its line breaks
      into exactly the lines of `RenderLines`, so every line of the text
      starts with two spaces per level. */
  lemma DumpsTextIndented(d: seq<(string, Value)>, level: nat)
    requires OneLine(Obj(d))
    ensures Split(Join("\n", RenderLines(d, level)), '\n') == RenderLines(d, level)
    ensures AllIndented(Split(Join("\n", RenderLines(d, level)), '\n'), level)
  {
    RenderNoBreak(d, level);
    SplitJoin(RenderLines(d, level), '\n');
    RenderIndent(d, level);
  }
}
