/** The block parser: the document is cut into lines, and an index cursor
    walks them. Indentation decides which lines belong to a block; each
    `key: value` line at the block's own indentation assigns one key; `|`
    opens a multi-line string and an empty value opens a nested block
    (`parse`, `_parse_block`, `_parse_multiline`, `_parse_nested`). */
module NdfBlock {
  import opened NdfOption
  import opened NdfText
  import opened NdfDict
  import opened NdfValue
  import opened NdfInline

  // ---------------------------------------------------------------------
  // Line helpers
  // ---------------------------------------------------------------------

  /** `_get_indent`: the number of leading whitespace characters (all of
      them for a blank line). */
  function Indent(line: string): (n: nat)
    ensures n <= |line|
  {
    |line| - |LStrip(line)|
  }

  /** The indentation is all whitespace and is followed by non-whitespace
      or by the end of the line. */
  lemma IndentSpec(line: string)
    ensures IsBlank(line[..Indent(line)])
    ensures Indent(line) == |line| || !IsSpace(line[Indent(line)])
  {
    LStripSpec(line);
  }

  /** `n` spaces in front of text that starts with non-whitespace make an
      indentation of exactly `n`. */
  lemma {:induction false} IndentPadded(n: nat, s: string)
    requires s == [] || !IsSpace(s[0])
    ensures Indent(Spaces(n) + s) == n
  {
    if n > 0 {
      assert (Spaces(n) + s)[0] == ' ';
      assert (Spaces(n) + s)[1..] == Spaces(n - 1) + s;
      IndentPadded(n - 1, s);
    } else {
      assert Spaces(0) + s == s;
    }
  }

  /** `_remove_inline_comment`: everything from the first `#` on is dropped. */
  function RemoveInlineComment(line: string): (r: string)
    ensures |r| <= |line| && r == line[..|r|] && '#' !in r
    ensures |r| < |line| ==> line[|r|] == '#'
  {
    if '#' in line then line[..IndexOf(line, '#')] else line
  }

  /** `_split_key_value`: the line is cut at its first `:`, both sides stripped. */
  function SplitKeyValue(line: string): (kv: (string, string))
    requires ':' in line
    ensures ':' !in kv.0
  {
    var i := IndexOf(line, ':');
    StripInside(line[..i]);
    (Strip(line[..i]), Strip(line[i + 1..]))
  }

  /** Cutting `key:value` gives back the stripped key and value, whatever
      the value holds, provided the key has no `:`. */
  lemma SplitKeyValueJoin(key: string, value: string)
    requires ':' !in key
    ensures SplitKeyValue(key + ":" + value) == (Strip(key), Strip(value))
  {
    var line := key + ":" + value;
    assert line == key + [':'] + value;
    IndexOfAfter(key, ':', value);
    assert line[..|key|] == key;
    assert line[|key| + 1..] == value;
  }

  /** A blank line or one whose text starts with `#`: skipped everywhere. */
  predicate IsFiller(line: string)
  {
    Strip(line) == [] || Strip(line)[0] == '#'
  }

  /** The text of a line the block reads a key from. */
  function CleanLine(line: string): string
  {
    Strip(RemoveInlineComment(line))
  }

  /** A line that assigns a key in a block indented `start`: content,
      indented exactly `start`, with a `:` before any `#`. */
  predicate IsEntryLine(line: string, start: nat)
  {
    !IsFiller(line) && Indent(line) == start && ':' in CleanLine(line)
  }

  /** The key an entry line assigns. */
  function KeyOf(line: string): (k: string)
    requires ':' in CleanLine(line)
    ensures ':' !in k
  {
    SplitKeyValue(CleanLine(line)).0
  }

  // ---------------------------------------------------------------------
  // _parse_multiline
  // ---------------------------------------------------------------------

  /** A line that ends a multi-line string opened at indentation `indent`. */
  predicate EndsMultiline(line: string, indent: nat)
  {
    Indent(line) <= indent && Strip(line) != []
  }

  /** The first line from `m` on that ends the multi-line string, or the
      number of lines when none does. */
  function MultilineEnd(lines: seq<string>, m: nat, indent: nat): (e: nat)
    requires m <= |lines|
    ensures m <= e <= |lines|
    ensures e == |lines| || EndsMultiline(lines[e], indent)
    ensures forall p :: m <= p < e ==> !EndsMultiline(lines[p], indent)
    decreases |lines| - m
  {
    if m == |lines| || EndsMultiline(lines[m], indent) then m
    else MultilineEnd(lines, m + 1, indent)
  }

  /** One line of a multi-line body: the first `indent + 2` characters are
      dropped, and a line no longer than that becomes empty. */
  function BodyLine(line: string, indent: nat): string
  {
    if |line| > indent + 2 then line[indent + 2..] else ""
  }

  /** A body line written with `indent + 2` spaces in front reads back as
      the text after them. */
  lemma BodyLinePadded(indent: nat, s: string)
    ensures BodyLine(Spaces(indent + 2) + s, indent) == s
  {
    assert (Spaces(indent + 2) + s)[indent + 2..] == s;
  }

  function BodyLines(ls: seq<string>, indent: nat): (r: seq<string>)
    ensures |r| == |ls|
  {
    seq(|ls|, k requires 0 <= k < |ls| => BodyLine(ls[k], indent))
  }

  /** `_parse_multiline` for the key on line `i`: the body lines up to the
      end line, joined by newlines, trailing whitespace removed; and the
      index of the end line. */
  function MultilineOf(lines: seq<string>, i: nat, indent: nat): (r: (string, nat))
    requires i < |lines|
    ensures i < r.1 <= |lines|
  {
    var e := MultilineEnd(lines, i + 1, indent);
    (RStrip(Join("\n", BodyLines(lines[i + 1..e], indent))), e)
  }

  /** The multi-line text is the joined body with only whitespace removed
      from its end, and it does not end with whitespace. */
  lemma MultilineText(lines: seq<string>, i: nat, indent: nat)
    requires i < |lines|
    ensures var (s, e) := MultilineOf(lines, i, indent);
      var body := Join("\n", BodyLines(lines[i + 1..e], indent));
      && s == body[..|s|] && IsBlank(body[|s|..])
      && (s == [] || !IsSpace(s[|s| - 1]))
  {
    var e := MultilineEnd(lines, i + 1, indent);
    RStripSpec(Join("\n", BodyLines(lines[i + 1..e], indent)));
  }

  // ---------------------------------------------------------------------
  // _parse_nested
  // ---------------------------------------------------------------------

  /** A line that ends a nested block opened at indentation `indent`. */
  predicate EndsNested(line: string, indent: nat)
  {
    !IsFiller(line) && Indent(line) <= indent
  }

  /** The first line from `m` on that ends the nested block, or the number
      of lines when none does. */
  function NestedEnd(lines: seq<string>, m: nat, indent: nat): (e: nat)
    requires m <= |lines|
    ensures m <= e <= |lines|
    ensures e == |lines| || EndsNested(lines[e], indent)
    ensures forall p :: m <= p < e ==> !EndsNested(lines[p], indent)
    decreases |lines| - m
  {
    if m == |lines| || EndsNested(lines[m], indent) then m
    else NestedEnd(lines, m + 1, indent)
  }

  /** The lines of `ls` that are not filler, in order. */
  function ContentLines(ls: seq<string>): (r: seq<string>)
    ensures |r| <= |ls|
  {
    if ls == [] then []
    else
      var last := ls[|ls| - 1];
      ContentLines(ls[..|ls| - 1]) + if IsFiller(last) then [] else [last]
  }

  /** The kept lines are exactly the non-filler lines, in order: none is
      filler, each is a line of `ls`, and nothing is kept only when every
      line is filler. */
  lemma {:induction false} ContentLinesSpec(ls: seq<string>)
    ensures forall x :: x in ContentLines(ls) ==> x in ls && !IsFiller(x)
    ensures ContentLines(ls) == [] <==> forall p :: 0 <= p < |ls| ==> IsFiller(ls[p])
  {
    if ls != [] {
      var pre := ls[..|ls| - 1];
      ContentLinesSpec(pre);
      forall p | 0 <= p < |pre| ensures pre[p] == ls[p] { }
    }
  }

  /** The lines `_parse_nested` collects for the key on line `i`. */
  function NestedLines(lines: seq<string>, i: nat, indent: nat): (r: seq<string>)
    requires i < |lines|
    ensures |r| < |lines|
  {
    ContentLines(lines[i + 1..NestedEnd(lines, i + 1, indent)])
  }

  // ---------------------------------------------------------------------
  // _parse_block
  // ---------------------------------------------------------------------

  /** The assignment the entry line `i` makes, and the index of the line
      after everything it consumed: a multi-line string for `|`, a nested
      block for an empty value, otherwise the value token read by
      `_parse_value`. */
  function EntryAt(lines: seq<string>, i: nat, indent: nat): (r: ((string, Value), nat))
    requires i < |lines| && ':' in CleanLine(lines[i])
    ensures i < r.1 <= |lines|
    decreases |lines|, 1, 0
  {
    var (key, value) := SplitKeyValue(CleanLine(lines[i]));
    if value == "|" then
      var (s, e) := MultilineOf(lines, i, indent);
      ((key, Str(s)), e)
    else if value == [] then
      var (v, e) := NestedOf(lines, i, indent);
      ((key, v), e)
    else ((key, ValueOf(value)), i + 1)
  }

  /** `_parse_nested`: `None` and the next line when no content line follows
      at a deeper indentation; otherwise the block of the collected lines,
      read at `indent + 2`, and the index of the line that ended them. */
  function NestedOf(lines: seq<string>, i: nat, indent: nat): (r: (Value, nat))
    requires i < |lines|
    ensures i < r.1 <= |lines|
    decreases |lines|, 0, 0
  {
    var nested := NestedLines(lines, i, indent);
    if nested == [] then (Null, i + 1)
    else (Obj(BlockOf(nested, indent + 2).0), NestedEnd(lines, i + 1, indent))
  }

  /** How `_parse_block` treats a line, in the order it tests them. */
  datatype LineKind = Filler | Dedent | Deeper | NoColon | Entry

  function KindOf(line: string, start: nat): (k: LineKind)
    ensures k == Entry <==> IsEntryLine(line, start)
    ensures k == Dedent <==> !IsFiller(line) && Indent(line) < start
  {
    if IsFiller(line) then Filler
    else if Indent(line) < start then Dedent
    else if Indent(line) > start then Deeper
    else if ':' !in CleanLine(line) then NoColon
    else Entry
  }

  /** The assignments the block makes from line `i` on, in order, and the
      index where it stops. */
  function BlockWrites(lines: seq<string>, start: nat, i: nat): (r: (seq<(string, Value)>, nat))
    requires i <= |lines|
    ensures i <= r.1 <= |lines|
    decreases |lines|, 2, |lines| - i
  {
    if i == |lines| then ([], i)
    else match KindOf(lines[i], start)
      case Dedent => ([], i)
      case Entry =>
        var (w, j) := EntryAt(lines, i, start);
        var (ws, e) := BlockWrites(lines, start, j);
        ([w] + ws, e)
      case _ => BlockWrites(lines, start, i + 1)
  }

  /** `_parse_block`: the dict the block's assignments build, and the index
      where it stops. */
  function BlockOf(lines: seq<string>, start: nat): (r: (seq<(string, Value)>, nat))
    ensures UniqueKeys(r.0) && r.1 <= |lines|
    decreases |lines|, 3, 0
  {
    var (ws, e) := BlockWrites(lines, start, 0);
    (Assign(ws), e)
  }

  /** `parse`: the text is stripped, cut at newlines and read as the block at
      indentation 0. */
  function Document(text: string): (r: seq<(string, Value)>)
    ensures UniqueKeys(r)
  {
    BlockOf(Split(Strip(text), '\n'), 0).0
  }

  // ---------------------------------------------------------------------
  // What the block reads
  // ---------------------------------------------------------------------

  /** Where one entry stops: right after its line, or where its multi-line
      string or its nested block ends. */
  lemma EntryEnd(lines: seq<string>, i: nat, start: nat)
    requires i < |lines| && ':' in CleanLine(lines[i])
    ensures var e := EntryAt(lines, i, start).1;
      e == i + 1 || e == MultilineEnd(lines, i + 1, start) || e == NestedEnd(lines, i + 1, start)
  {
  }

  /** The lines one entry consumes: its own line, then lines that are
      filler or indented deeper than the entry. */
  lemma EntrySpan(lines: seq<string>, i: nat, start: nat)
    requires i < |lines| && IsEntryLine(lines[i], start)
    ensures forall p :: i <= p < EntryAt(lines, i, start).1 ==>
      IsFiller(lines[p]) || Indent(lines[p]) >= start
  {
    var e := EntryAt(lines, i, start).1;
    EntryEnd(lines, i, start);
    forall p | i <= p < e ensures IsFiller(lines[p]) || Indent(lines[p]) >= start {
      if p > i {
        if e == MultilineEnd(lines, i + 1, start) {
          assert !EndsMultiline(lines[p], start);
        } else {
          assert !EndsNested(lines[p], start);
        }
      }
    }
  }

  /** A block stops at the first content line after `i` indented less than
      the block, or at the end of the lines when there is none. */
  lemma {:induction false} BlockStops(lines: seq<string>, start: nat, i: nat)
    requires i <= |lines|
    ensures var e := BlockWrites(lines, start, i).1;
      e == |lines| || (!IsFiller(lines[e]) && Indent(lines[e]) < start)
    ensures forall p :: i <= p < BlockWrites(lines, start, i).1 ==>
      IsFiller(lines[p]) || Indent(lines[p]) >= start
    decreases |lines| - i
  {
    if i < |lines| {
      match KindOf(lines[i], start)
      case Dedent =>
      case Entry =>
        EntrySpan(lines, i, start);
        BlockStops(lines, start, EntryAt(lines, i, start).1);
      case _ => BlockStops(lines, start, i + 1);
    }
  }

  /** Filler lines, deeper lines and lines without `:` assign nothing: a
      block with no entry line before its end makes no assignment. */
  lemma {:induction false} NoEntryNoWrites(lines: seq<string>, start: nat, i: nat)
    requires i <= |lines|
    requires forall p :: i <= p < |lines| ==> !IsEntryLine(lines[p], start)
    ensures BlockWrites(lines, start, i).0 == []
    decreases |lines| - i
  {
    if i < |lines| && KindOf(lines[i], start) != Dedent {
      NoEntryNoWrites(lines, start, i + 1);
    }
  }

  /** The entry lines the cursor of a block reaches from line `i` on, in
      order: the lines its assignments come from. */
  ghost function EntryLines(lines: seq<string>, start: nat, i: nat): seq<nat>
    requires i <= |lines|
    decreases |lines| - i
  {
    if i == |lines| then []
    else match KindOf(lines[i], start)
      case Dedent => []
      case Entry => [i] + EntryLines(lines, start, EntryAt(lines, i, start).1)
      case _ => EntryLines(lines, start, i + 1)
  }

  /** `ps` lists entry lines of a block indented `start`, all at or after
      line `lo`, in increasing order. */
  ghost predicate EntryIndices(lines: seq<string>, start: nat, ps: seq<nat>, lo: nat)
  {
    && (forall n :: 0 <= n < |ps| ==> lo <= ps[n] < |lines| && IsEntryLine(lines[ps[n]], start))
    && (forall n, m :: 0 <= n < m < |ps| ==> ps[n] < ps[m])
  }

  lemma ConsEntryIndices(lines: seq<string>, start: nat, i: nat, j: nat, ps: seq<nat>)
    requires i < j && i < |lines| && IsEntryLine(lines[i], start)
    requires EntryIndices(lines, start, ps, j)
    ensures EntryIndices(lines, start, [i] + ps, i)
  {
    var qs := [i] + ps;
    forall n | 0 < n < |qs| ensures qs[n] == ps[n - 1] { }
  }

  /** The lines the cursor stops at are entry lines of the block, in
      increasing order. */
  lemma {:induction false} EntryLinesOrdered(lines: seq<string>, start: nat, i: nat)
    requires i <= |lines|
    ensures EntryIndices(lines, start, EntryLines(lines, start, i), i)
    decreases |lines| - i
  {
    if i < |lines| {
      match KindOf(lines[i], start)
      case Dedent =>
      case Entry =>
        var j := EntryAt(lines, i, start).1;
        EntryLinesOrdered(lines, start, j);
        ConsEntryIndices(lines, start, i, j, EntryLines(lines, start, j));
      case _ =>
        EntryLinesOrdered(lines, start, i + 1);
        LowerEntryIndices(lines, start, EntryLines(lines, start, i + 1), i + 1, i);
    }
  }

  lemma LowerEntryIndices(lines: seq<string>, start: nat, ps: seq<nat>, lo: nat, lo': nat)
    requires lo' <= lo && EntryIndices(lines, start, ps, lo)
    ensures EntryIndices(lines, start, ps, lo')
  {
  }

  /** The `n`-th assignment in `ws` is the one entry line `ps[n]` makes,
      and each of those lines comes before line `e`. */
  ghost predicate WritesAt(lines: seq<string>, start: nat, ws: seq<(string, Value)>, ps: seq<nat>, e: nat)
  {
    |ps| == |ws| &&
    forall n :: 0 <= n < |ps| ==>
      ps[n] < e && ps[n] < |lines| && ':' in CleanLine(lines[ps[n]]) &&
      ws[n] == EntryAt(lines, ps[n], start).0
  }

  lemma ConsWritesAt(lines: seq<string>, start: nat, i: nat, ws: seq<(string, Value)>, ps: seq<nat>, e: nat)
    requires i < e && i < |lines| && ':' in CleanLine(lines[i])
    requires WritesAt(lines, start, ws, ps, e)
    ensures WritesAt(lines, start, [EntryAt(lines, i, start).0] + ws, [i] + ps, e)
  {
    var qs := [i] + ps;
    var vs := [EntryAt(lines, i, start).0] + ws;
    forall n | 0 <= n < |qs|
      ensures qs[n] < e && qs[n] < |lines| && ':' in CleanLine(lines[qs[n]])
      ensures vs[n] == EntryAt(lines, qs[n], start).0
    {
      if n > 0 {
        assert qs[n] == ps[n - 1] && vs[n] == ws[n - 1];
      }
    }
  }

  /** Each assignment of a block is the one an entry line of the block
      makes, and those lines lie before the line where the block stops. */
  lemma {:induction false} WritesFromEntryLines(lines: seq<string>, start: nat, i: nat)
    requires i <= |lines|
    ensures WritesAt(lines, start, BlockWrites(lines, start, i).0, EntryLines(lines, start, i), BlockWrites(lines, start, i).1)
    decreases |lines| - i
  {
    if i < |lines| {
      match KindOf(lines[i], start)
      case Dedent =>
      case Entry =>
        var j := EntryAt(lines, i, start).1;
        WritesFromEntryLines(lines, start, j);
        BlockEntryStep(lines, start, i);
        ConsWritesAt(lines, start, i, BlockWrites(lines, start, j).0, EntryLines(lines, start, j), BlockWrites(lines, start, j).1);
      case _ =>
        WritesFromEntryLines(lines, start, i + 1);
        assert EntryLines(lines, start, i) == EntryLines(lines, start, i + 1);
        assert BlockWrites(lines, start, i) == BlockWrites(lines, start, i + 1);
    }
  }

  /** The key of an entry is the key of its line. */
  lemma EntryKey(lines: seq<string>, i: nat, indent: nat)
    requires i < |lines| && ':' in CleanLine(lines[i])
    ensures EntryAt(lines, i, indent).0.0 == KeyOf(lines[i])
  {
  }

  /** Every key of a block is the key of an entry line of the block before
      the line where it stops, and so holds no `:`. */
  lemma BlockKeys(lines: seq<string>, start: nat)
    ensures var (d, e) := BlockOf(lines, start);
      forall k :: k in KeysOf(d) ==>
        ':' !in k && exists p :: 0 <= p < e && IsEntryLine(lines[p], start) && k == KeyOf(lines[p])
  {
    var (ws, e) := BlockWrites(lines, start, 0);
    var ps := EntryLines(lines, start, 0);
    AssignKeyOrder(ws);
    EntryLinesOrdered(lines, start, 0);
    WritesFromEntryLines(lines, start, 0);
    forall k | k in KeysOf(Assign(ws))
      ensures exists p :: 0 <= p < e && IsEntryLine(lines[p], start) && k == KeyOf(lines[p])
    {
      assert k in KeysOf(ws);
      var n :| 0 <= n < |ws| && KeysOf(ws)[n] == k;
      EntryKey(lines, ps[n], start);
      assert k == KeyOf(lines[ps[n]]);
    }
  }

  /** Last write wins: among the assignments of a block, the last one to a
      key decides the value the block holds under it. */
  lemma BlockLastWriteWins(lines: seq<string>, start: nat, n: nat)
    requires var ws := BlockWrites(lines, start, 0).0;
      n < |ws| && forall n' :: n < n' < |ws| ==> ws[n'].0 != ws[n].0
    ensures var ws := BlockWrites(lines, start, 0).0;
      Lookup(BlockOf(lines, start).0, ws[n].0) == Some(ws[n].1)
  {
    LastWriteWins(BlockWrites(lines, start, 0).0, n);
  }

  /** A nested block is `None`, consuming only the key's line, exactly when
      only filler lines come before its end line; otherwise it is a dict
      and its index is the end line. */
  lemma NestedEmpty(lines: seq<string>, i: nat, indent: nat)
    requires i < |lines|
    ensures var e := NestedEnd(lines, i + 1, indent); var (v, j) := NestedOf(lines, i, indent);
      && (v == Null <==> forall p :: i < p < e ==> IsFiller(lines[p]))
      && (v == Null ==> j == i + 1)
      && (v != Null ==> v.Obj? && j == e)
  {
    var e := NestedEnd(lines, i + 1, indent);
    ContentLinesSpec(lines[i + 1..e]);
    FillerSlice(lines, i + 1, e);
  }

  lemma FillerSlice(lines: seq<string>, a: nat, b: nat)
    requires a <= b <= |lines|
    ensures (forall q :: 0 <= q < b - a ==> IsFiller(lines[a..b][q])) <==>
            (forall p :: a <= p < b ==> IsFiller(lines[p]))
  {
    assert forall q :: 0 <= q < b - a ==> lines[a..b][q] == lines[a + q];
    assert forall p :: a <= p < b ==> lines[p] == lines[a..b][p - a];
  }

  /** The lines a nested block is read from are content lines indented
      deeper than the key. */
  lemma NestedLinesDeeper(lines: seq<string>, i: nat, indent: nat)
    requires i < |lines|
    ensures forall x :: x in NestedLines(lines, i, indent) ==> !IsFiller(x) && Indent(x) > indent
  {
    var e := NestedEnd(lines, i + 1, indent);
    var ls := lines[i + 1..e];
    ContentLinesSpec(ls);
    forall x | x in NestedLines(lines, i, indent) ensures !IsFiller(x) && Indent(x) > indent {
      var q :| 0 <= q < |ls| && ls[q] == x;
      assert !EndsNested(lines[q + i + 1], indent);
    }
  }

  // ---------------------------------------------------------------------
  // The parsing methods
  // ---------------------------------------------------------------------

  /** `parse`. */
  method Parse(text: string) returns (r: seq<(string, Value)>)
    ensures r == Document(text)
  {
    var lines := Split(Strip(text), '\n');
    var end;
    r, end := ParseBlock(lines, 0);
  }

  /** `_parse_block`: the cursor loop over the lines of a block. */
  method ParseBlock(lines: seq<string>, start: nat) returns (result: seq<(string, Value)>, i: nat)
    ensures (result, i) == BlockOf(lines, start)
    decreases |lines|, 3, 0
  {
    result := [];
    i := 0;
    ghost var done: seq<(string, Value)> := [];
    while i < |lines|
      invariant i <= |lines|
      invariant BlockWrites(lines, start, 0).0 == done + BlockWrites(lines, start, i).0
      invariant BlockWrites(lines, start, 0).1 == BlockWrites(lines, start, i).1
      invariant result == Assign(done)
      decreases |lines| - i
    {
      var line := lines[i];
      if IsFiller(line) {
        i := i + 1;
        continue;
      }
      var indent := Indent(line);
      if indent < start {
        assert BlockWrites(lines, start, i) == ([], i);
        break;
      }
      if indent > start {
        i := i + 1;
        continue;
      }
      var cleaned := Strip(RemoveInlineComment(line));
      if ':' !in cleaned {
        i := i + 1;
        continue;
      }
      var kv, j := ParseEntry(lines, i, indent);
      BlockEntryStep(lines, start, i);
      AppendAssoc(done, [kv], BlockWrites(lines, start, j).0);
      AssignSnoc(done, kv);
      done := done + [kv];
      result := Put(result, kv.0, kv.1);
      i := j;
    }
    assert BlockWrites(lines, start, i).0 == [] && BlockWrites(lines, start, i).1 == i;
    assert done == BlockWrites(lines, start, 0).0;
  }

  /** At an entry line the block makes that line's assignment and goes on
      from the line after what the entry consumed. */
  lemma BlockEntryStep(lines: seq<string>, start: nat, i: nat)
    requires i < |lines| && IsEntryLine(lines[i], start)
    ensures var (w, j) := EntryAt(lines, i, start);
      && BlockWrites(lines, start, i).0 == [w] + BlockWrites(lines, start, j).0
      && BlockWrites(lines, start, i).1 == BlockWrites(lines, start, j).1
  {
  }

  /** One entry line of `_parse_block`: its key and value, and where the
      cursor goes next. */
  method ParseEntry(lines: seq<string>, i: nat, indent: nat) returns (kv: (string, Value), j: nat)
    requires i < |lines| && ':' in CleanLine(lines[i])
    ensures (kv, j) == EntryAt(lines, i, indent)
    decreases |lines|, 1, 0
  {
    var (key, value) := SplitKeyValue(CleanLine(lines[i]));
    if value == "|" {
      var s;
      s, j := ParseMultiline(lines, i, indent);
      kv := (key, Str(s));
      return;
    }
    if value == [] {
      var v;
      v, j := ParseNested(lines, i, indent);
      kv := (key, v);
      return;
    }
    var v := ParseValue(value);
    kv := (key, v);
    j := i + 1;
  }

  /** `_parse_multiline`: collects body lines until a non-blank line is
      indented at or below the key. */
  method ParseMultiline(lines: seq<string>, i: nat, indent: nat) returns (s: string, j: nat)
    requires i < |lines|
    ensures (s, j) == MultilineOf(lines, i, indent)
  {
    var textLines: seq<string> := [];
    j := i + 1;
    while j < |lines|
      invariant i + 1 <= j <= |lines|
      invariant textLines == BodyLines(lines[i + 1..j], indent)
      invariant MultilineEnd(lines, i + 1, indent) == MultilineEnd(lines, j, indent)
    {
      var next := lines[j];
      if Indent(next) <= indent && Strip(next) != [] {
        break;
      }
      assert BodyLines(lines[i + 1..j + 1], indent) == textLines + [BodyLine(next, indent)];
      textLines := textLines + [if |next| > indent + 2 then next[indent + 2..] else ""];
      j := j + 1;
    }
    s := RStrip(Join("\n", textLines));
  }

  /** `_parse_nested`: collects the deeper content lines and parses them as
      a block at `indent + 2`. */
  method ParseNested(lines: seq<string>, i: nat, indent: nat) returns (v: Value, j: nat)
    requires i < |lines|
    ensures (v, j) == NestedOf(lines, i, indent)
    decreases |lines|, 0, 0
  {
    var nested, nestedStart := CollectNested(lines, i, indent);
    if nested != [] {
      var r, _ := ParseBlock(nested, indent + 2);
      v, j := Obj(r), nestedStart;
    } else {
      v, j := Null, i + 1;
    }
  }

  /** The loop of `_parse_nested`: filler lines are passed over, and the
      first other line indented at most `indent` ends the collection. */
  method CollectNested(lines: seq<string>, i: nat, indent: nat) returns (nested: seq<string>, nestedStart: nat)
    requires i < |lines|
    ensures nested == NestedLines(lines, i, indent)
    ensures nestedStart == NestedEnd(lines, i + 1, indent)
  {
    nestedStart := i + 1;
    nested := [];
    while nestedStart < |lines|
      invariant i + 1 <= nestedStart <= |lines|
      invariant nested == ContentLines(lines[i + 1..nestedStart])
      invariant NestedEnd(lines, i + 1, indent) == NestedEnd(lines, nestedStart, indent)
    {
      var next := lines[nestedStart];
      assert lines[i + 1..nestedStart + 1][..nestedStart - i - 1] == lines[i + 1..nestedStart];
      if IsFiller(next) {
        nestedStart := nestedStart + 1;
        continue;
      }
      if Indent(next) <= indent {
        break;
      }
      nested := nested + [next];
      nestedStart := nestedStart + 1;
    }
  }
}
