/** Reading back what the serializer writes. For the trees `dumps` writes
    without loss (plain trees, below), parsing the output of `dumps` gives
    the tree back. Other trees do not come back: an unquoted string with a
    space is read as a list, a one-element list as its element, a float is
    written with `str()`, and a dict inside a list loses its place. */
module NdfRoundTrip {
  import opened NdfText
  import opened NdfDict
  import opened NdfValue
  import opened NdfInline
  import opened NdfBlock
  import opened NdfDump
  import opened NdfPlain

  // ---------------------------------------------------------------------
  // One value
  // ---------------------------------------------------------------------

  /** A bare token, with or without the blank in front, is read as the
      scalar it spells. */
  lemma BareRead(t: string)
    requires Bare(t)
    ensures Strip(t) == t && Strip(" " + t) == t
    ensures ValueOf(t) == ScalarOf(t)
  {
    assert !IsListSep(t[0]) && !IsListSep(t[|t| - 1]);
    StripNoSpaceEnds(t);
    StripPadded(" ", t);
    assert ',' !in t && ' ' !in t;
  }

  /** Letters, digits and `-`: the characters of `str()` of an int, a
      boolean or `None`. */
  predicate WordChar(c: char)
  {
    '0' <= c <= '9' || 'A' <= c <= 'Z' || 'a' <= c <= 'z' || c == '-'
  }

  lemma WordCharsBare(t: string)
    requires t != [] && t != "|"
    requires forall i :: 0 <= i < |t| ==> WordChar(t[i])
    ensures Bare(t)
  {
  }

  lemma IntItemRead(i: int)
    ensures Bare(IntToString(i)) && ScalarOf(IntToString(i)) == Int(i)
  {
    IntToStringShape(i);
    WordCharsBare(IntToString(i));
    IntToStringReadBack(i);
  }

  lemma KeywordItemRead(v: Value)
    requires v.Bool? || v.Null?
    ensures Bare(PyStr(v)) && ScalarOf(PyStr(v)) == v
  {
    var t := PyStr(v);
    assert t == "True" || t == "False" || t == "None";
    WordCharsBare(t);
    KeywordsReadBack();
  }

  /** `str()` of a plain list element or of `None` is bare and is read back
      as the same value. */
  lemma ItemRead(v: Value)
    requires PlainItem(v) || v.Null?
    ensures Bare(PyStr(v)) && ScalarOf(PyStr(v)) == v
  {
    if v.Int? {
      IntItemRead(v.i);
    } else if v.Str? {
      BareRead(v.s);
      UnconvertedTokenKept(v.s);
    } else {
      KeywordItemRead(v);
    }
  }

  /** The one-line form of a list of at least two plain items, `a, b, c`,
      is read back as the same list. */
  lemma ListRead(xs: seq<Value>)
    requires |xs| >= 2 && forall k :: 0 <= k < |xs| ==> PlainItem(xs[k])
    ensures var t := Join(", ", seq(|xs|, k requires 0 <= k < |xs| => PyStr(xs[k])));
      && t != [] && !IsSpace(t[0]) && !IsSpace(t[|t| - 1]) && '#' !in t && '\n' !in t
      && Strip(" " + t) == t && t != "|" && ValueOf(t) == Arr(xs)
  {
    var strs := seq(|xs|, k requires 0 <= k < |xs| => PyStr(xs[k]));
    forall k | 0 <= k < |xs| ensures Bare(strs[k]) && ScalarOf(strs[k]) == xs[k] {
      ItemRead(xs[k]);
    }
    var t := Join(", ", strs);
    JoinFirst(", ", strs);
    JoinLast(", ", strs);
    NotInJoin(", ", strs, '#');
    NotInJoin(", ", strs, '\n');
    assert t == strs[0] + ", " + Join(", ", strs[1..]);
    assert t[|strs[0]|] == ',';
    StripNoSpaceEnds(t);
    StripPadded(" ", t);
    TokensJoin(strs);
    assert ListOf(t) == xs;
  }

  /** The facts about a bare token the entry line needs. */
  lemma BareChars(t: string)
    requires Bare(t)
    ensures '#' !in t && '\n' !in t && ',' !in t && ' ' !in t
    ensures !IsSpace(t[0]) && !IsSpace(t[|t| - 1])
  {
    assert !IsListSep(t[0]) && !IsListSep(t[|t| - 1]);
    assert '\n' !in t by {
      forall i | 0 <= i < |t| ensures t[i] != '\n' {
        assert !IsListSep(t[i]);
      }
    }
  }

  /** A blank in front of text keeps its characters and its last one. */
  lemma BlankFront(t: string)
    requires t != [] && '#' !in t && '\n' !in t
    ensures '#' !in " " + t && '\n' !in " " + t
    ensures (" " + t)[|" " + t| - 1] == t[|t| - 1]
  {
  }

  /** What the value line holds: nothing for a dict, `|` for a multi-line
      string, otherwise text that reads back as the value. */
  lemma ValueTextRead(v: Value)
    requires PlainValue(v)
    ensures var rest := ValueText(v);
      && '#' !in rest && '\n' !in rest && (rest == [] || !IsSpace(rest[|rest| - 1]))
      && (v.Obj? ==> rest == [])
      && (v.Str? && '\n' in v.s ==> Strip(rest) == "|")
      && (!v.Obj? && !(v.Str? && '\n' in v.s) ==>
            Strip(rest) != [] && Strip(rest) != "|" && ValueOf(Strip(rest)) == v)
  {
    match v
    case Obj(_) =>
    case Arr(xs) =>
      ListRead(xs);
      BlankFront(Join(", ", seq(|xs|, k requires 0 <= k < |xs| => PyStr(xs[k]))));
    case Str(s) =>
      if '\n' in s {
        StripPadded(" ", "|");
      } else {
        WordRead(s);
      }
    case _ =>
      ItemTextRead(v);
  }

  lemma WordRead(s: string)
    requires '\n' !in s && PlainWord(s)
    ensures var rest := ValueText(Str(s));
      && '#' !in rest && '\n' !in rest && !IsSpace(rest[|rest| - 1])
      && Strip(rest) == s && s != "|" && s != [] && ValueOf(s) == Str(s)
  {
    BareRead(s);
    BareChars(s);
    BlankFront(s);
    UnconvertedTokenKept(s);
  }

  lemma ItemTextRead(v: Value)
    requires v.Null? || v.Bool? || v.Int?
    ensures var rest := ValueText(v);
      && '#' !in rest && '\n' !in rest && !IsSpace(rest[|rest| - 1])
      && Strip(rest) == PyStr(v) && PyStr(v) != "|" && PyStr(v) != [] && ValueOf(PyStr(v)) == v
  {
    var t := PyStr(v);
    ItemRead(v);
    BareRead(t);
    BareChars(t);
    BlankFront(t);
    assert ValueText(v) == " " + t;
  }

  // ---------------------------------------------------------------------
  // Lines
  // ---------------------------------------------------------------------

  /** `key:` and what follows, at `level`, is a line the block parser
      takes as an entry of a block at `2 * level`, and cuts back into the
      key and the stripped rest. */
  lemma EntryLineRead(level: nat, key: string, rest: string)
    requires PlainKey(key) && '#' !in rest && '\n' !in rest
    requires rest == [] || !IsSpace(rest[|rest| - 1])
    ensures var line := Pad(level) + key + ":" + rest;
      && IsEntryLine(line, 2 * level)
      && SplitKeyValue(CleanLine(line)) == (key, Strip(rest))
      && '\n' !in line && !IsSpace(line[|line| - 1])
  {
    var body := key + ":" + rest;
    var line := Pad(level) + key + ":" + rest;
    assert line == Pad(level) + body;
    assert '#' !in line && '\n' !in line;
    assert line[|line| - 1] == body[|body| - 1];
    assert RemoveInlineComment(line) == line;
    StripPadded(Pad(level), body);
    IndentPadded(2 * level, body);
    StripNoSpaceEnds(key);
    SplitKeyValueJoin(key, rest);
  }

  lemma ColonSpace(p: string, t: string)
    ensures p + ": " + t == p + ":" + (" " + t)
  {
  }

  /** The first line `dumps` writes for an entry is `key:` and the value text. */
  lemma HeaderText(key: string, value: Value, level: nat)
    requires PlainValue(value)
    ensures RenderEntry(key, value, level)[0] == Pad(level) + key + ":" + ValueText(value)
  {
    var p := Pad(level) + key;
    match value
    case Obj(_) =>
      assert p + ":" + [] == p + ":";
    case Arr(xs) =>
      assert forall k :: 0 <= k < |xs| ==> IsSimpleItem(xs[k]);
      ColonSpace(p, Join(", ", seq(|xs|, k requires 0 <= k < |xs| => PyStr(xs[k]))));
    case Str(s) =>
      if '\n' in s {
        ColonSpace(p, "|");
      } else {
        ColonSpace(p, s);
      }
    case _ =>
      ColonSpace(p, PyStr(value));
  }

  /** The first line of an entry is an entry line at its level, and it reads
      back as the key and the value text. */
  lemma HeaderRead(key: string, value: Value, level: nat)
    requires PlainEntry((key, value))
    ensures var h := RenderEntry(key, value, level)[0];
      && h == Pad(level) + key + ":" + ValueText(value)
      && IsEntryLine(h, 2 * level) && ContentLine(h, level)
      && SplitKeyValue(CleanLine(h)) == (key, Strip(ValueText(value)))
  {
    HeaderText(key, value, level);
    ValueTextRead(value);
    EntryLineRead(level, key, ValueText(value));
  }

  /** A line of a multi-line string, `2 * level + 2` spaces in front of a
      plain segment. */
  lemma SegmentLine(level: nat, seg: string)
    requires PlainSegment(seg) && '\n' !in seg
    ensures Pad(level) + "  " + seg == Spaces(2 * level + 2) + seg
    ensures Indent(Pad(level) + "  " + seg) == 2 * level + 2
    ensures ContentLine(Pad(level) + "  " + seg, level)
    ensures BodyLine(Pad(level) + "  " + seg, 2 * level) == seg
  {
    var line := Pad(level) + "  " + seg;
    assert line == Spaces(2 * level + 2) + seg;
    IndentPadded(2 * level + 2, seg);
    StripPadded(Spaces(2 * level + 2), seg);
    BodyLinePadded(2 * level, seg);
  }

  /** Every line `dumps` writes for plain entries is a content line. */
  lemma {:induction false} EntriesShape(d: seq<(string, Value)>, level: nat)
    requires PlainEntries(d)
    ensures AllContent(EntriesLines(d, level), level)
    decreases EntriesSize(d), 1, |d|
  {
    if d != [] {
      EntriesSizeSnoc(d);
      var pre := d[..|d| - 1];
      assert PlainEntries(pre) by {
        forall k | 0 <= k < |pre| ensures PlainEntry(pre[k]) {
          assert pre[k] == d[k];
        }
      }
      EntriesShape(pre, level);
      assert PlainEntry(d[|d| - 1]);
      EntryShape(d[|d| - 1].0, d[|d| - 1].1, level);
    }
  }

  lemma {:induction false} EntryShape(key: string, value: Value, level: nat)
    requires PlainEntry((key, value))
    ensures AllContent(RenderEntry(key, value, level), level)
    decreases Size(value), 0, 1
  {
    if value.Obj? {
      ObjShape(key, value.entries, level);
    } else if value.Str? && '\n' in value.s {
      MultilineShape(key, value.s, level);
    } else {
      ScalarShape(key, value, level);
    }
  }

  lemma AllContentCons(h: string, ls: seq<string>, level: nat)
    requires ContentLine(h, level) && AllContent(ls, level + 1)
    ensures AllContent([h] + ls, level)
  {
    forall k | 0 <= k < |[h] + ls| ensures ContentLine(([h] + ls)[k], level) {
      if k > 0 {
        assert ([h] + ls)[k] == ls[k - 1];
      }
    }
  }

  lemma {:induction false} ObjShape(key: string, es: seq<(string, Value)>, level: nat)
    requires PlainKey(key) && PlainValue(Obj(es))
    ensures AllContent(RenderEntry(key, Obj(es), level), level)
    decreases Size(Obj(es)), 0, 0
  {
    assert PlainEntry((key, Obj(es)));
    HeaderRead(key, Obj(es), level);
    var h := RenderEntry(key, Obj(es), level)[0];
    assert RenderEntry(key, Obj(es), level) == [h] + EntriesLines(es, level + 1);
    EntriesShape(es, level + 1);
    AllContentCons(h, EntriesLines(es, level + 1), level);
  }

  lemma MultilineShape(key: string, s: string, level: nat)
    requires PlainKey(key) && PlainText(s)
    ensures AllContent(RenderEntry(key, Str(s), level), level)
  {
    assert PlainEntry((key, Str(s)));
    HeaderRead(key, Str(s), level);
    var segs := Split(s, '\n');
    var ml := MultilineLines(key, s, Pad(level));
    assert RenderEntry(key, Str(s), level) == ml;
    forall k | 1 <= k < |ml| ensures ContentLine(ml[k], level) {
      assert ml[k] == Pad(level) + "  " + segs[k - 1];
      SegmentLine(level, segs[k - 1]);
    }
  }

  lemma ScalarShape(key: string, value: Value, level: nat)
    requires PlainEntry((key, value)) && !value.Obj? && !(value.Str? && '\n' in value.s)
    ensures AllContent(RenderEntry(key, value, level), level)
  {
    HeaderRead(key, value, level);
    if value.Arr? {
      assert forall k :: 0 <= k < |value.items| ==> IsSimpleItem(value.items[k]);
    }
    assert |RenderEntry(key, value, level)| == 1;
  }

  /** The entries' lines, split after the first entry. */
  lemma {:induction false} EntriesLinesCons(d: seq<(string, Value)>, level: nat)
    requires d != []
    ensures EntriesLines(d, level) == RenderEntry(d[0].0, d[0].1, level) + EntriesLines(d[1..], level)
  {
    if |d| > 1 {
      var pre, rest := d[..|d| - 1], d[1..];
      EntriesLinesCons(pre, level);
      TrimBothEnds(d);
      EntriesLinesLast(d, level);
      EntriesLinesLast(rest, level);
    } else {
      assert d[1..] == [];
    }
  }

  /** Dropping the last element and then the first is dropping the first
      and then the last. */
  lemma TrimBothEnds<T>(d: seq<T>)
    requires |d| > 1
    ensures d[..|d| - 1][0] == d[0]
    ensures d[..|d| - 1][1..] == d[1..][..|d| - 2]
    ensures d[1..][|d| - 2] == d[|d| - 1]
  {
  }

  lemma EntriesLinesLast(d: seq<(string, Value)>, level: nat)
    requires d != []
    ensures EntriesLines(d, level) == EntriesLines(d[..|d| - 1], level) + RenderEntry(d[|d| - 1].0, d[|d| - 1].1, level)
  {
  }

  lemma {:induction false} SumCons(xs: seq<nat>)
    requires xs != []
    ensures Sum(xs) == xs[0] + Sum(xs[1..])
  {
    if |xs| > 1 {
      SumCons(xs[..|xs| - 1]);
      assert xs[..|xs| - 1][1..] == xs[1..][..|xs[1..]| - 1];
    }
  }

  lemma EntriesSizeCons(d: seq<(string, Value)>)
    requires d != []
    ensures EntriesSize(d) == Size(d[0].1) + EntriesSize(d[1..])
  {
    var m := seq(|d|, i requires 0 <= i < |d| => Size(d[i].1));
    SumCons(m);
    assert m[1..] == seq(|d| - 1, i requires 0 <= i < |d| - 1 => Size(d[1..][i].1));
  }

  // ---------------------------------------------------------------------
  // Reading back
  // ---------------------------------------------------------------------

  lemma MultilineEndAt(lines: seq<string>, m: nat, e: nat, indent: nat)
    requires m <= e <= |lines|
    requires forall p :: m <= p < e ==> !EndsMultiline(lines[p], indent)
    requires e == |lines| || EndsMultiline(lines[e], indent)
    ensures MultilineEnd(lines, m, indent) == e
  {
  }

  /** A line that ends an entry also ends a multi-line string it opened. */
  lemma FollowsEndsMultiline(lines: seq<string>, e: nat, indent: nat)
    requires Follows(lines, e, indent)
    ensures e == |lines| || EndsMultiline(lines[e], indent)
  {
  }

  lemma NestedEndAt(lines: seq<string>, m: nat, e: nat, indent: nat)
    requires m <= e <= |lines|
    requires forall p :: m <= p < e ==> !EndsNested(lines[p], indent)
    requires e == |lines| || EndsNested(lines[e], indent)
    ensures NestedEnd(lines, m, indent) == e
  {
  }

  lemma {:induction false} ContentLinesAll(ls: seq<string>)
    requires forall p :: 0 <= p < |ls| ==> !IsFiller(ls[p])
    ensures ContentLines(ls) == ls
  {
    if ls != [] {
      ContentLinesAll(ls[..|ls| - 1]);
    }
  }

  lemma PlacedFirst(lines: seq<string>, i: nat, ls: seq<string>)
    requires Placed(lines, i, ls) && ls != []
    ensures i < |lines| && lines[i] == ls[0]
  {
    assert lines[i + 0] == ls[0];
  }

  /** A multi-line string of plain segments, written at `level`, is read
      back as the same string, and reading stops right after it. */
  lemma MultilineRead(lines: seq<string>, i: nat, level: nat, key: string, s: string)
    requires PlainKey(key) && PlainText(s)
    requires Placed(lines, i, MultilineLines(key, s, Pad(level)))
    requires Follows(lines, i + |MultilineLines(key, s, Pad(level))|, 2 * level)
    ensures MultilineOf(lines, i, 2 * level).0 == s
    ensures MultilineOf(lines, i, 2 * level).1 == i + |MultilineLines(key, s, Pad(level))|
  {
    var e := i + |MultilineLines(key, s, Pad(level))|;
    MultilineBody(lines, i, level, key, s, e);
    PlainTextKept(s);
    MultilineOfAt(lines, i, 2 * level, e, Split(s, '\n'), s);
  }

  /** `_parse_multiline` stopping at `e` with these body lines gives their
      join when nothing trails it. */
  lemma MultilineOfAt(lines: seq<string>, i: nat, indent: nat, e: nat, segs: seq<string>, s: string)
    requires i < e <= |lines| && MultilineEnd(lines, i + 1, indent) == e
    requires BodyLines(lines[i + 1..e], indent) == segs
    requires Join("\n", segs) == s && RStrip(s) == s
    ensures MultilineOf(lines, i, indent).0 == s && MultilineOf(lines, i, indent).1 == e
  {
  }

  /** A multi-line string of plain segments is the join of its segments
      and keeps its last character under `rstrip`. */
  lemma PlainTextKept(s: string)
    requires PlainText(s)
    ensures Join("\n", Split(s, '\n')) == s && RStrip(s) == s
  {
    var segs := Split(s, '\n');
    JoinLast("\n", segs);
    assert Join("\n", segs) == s;
  }

  /** The segment lines of a multi-line string written at `level` do not end
      it, the line after them does, and their bodies are the segments. */
  lemma MultilineBody(lines: seq<string>, i: nat, level: nat, key: string, s: string, e: nat)
    requires PlainKey(key) && PlainText(s)
    requires Placed(lines, i, MultilineLines(key, s, Pad(level)))
    requires e == i + |MultilineLines(key, s, Pad(level))| && Follows(lines, e, 2 * level)
    ensures i < e <= |lines|
    ensures MultilineEnd(lines, i + 1, 2 * level) == e
    ensures BodyLines(lines[i + 1..e], 2 * level) == Split(s, '\n')
  {
    var segs := Split(s, '\n');
    forall p | i + 1 <= p < e
      ensures !EndsMultiline(lines[p], 2 * level) && BodyLine(lines[p], 2 * level) == segs[p - i - 1]
    {
      SegmentAt(lines, i, level, key, s, p);
    }
    assert BodyLines(lines[i + 1..e], 2 * level) == segs;
    FollowsEndsMultiline(lines, e, 2 * level);
    MultilineEndAt(lines, i + 1, e, 2 * level);
  }

  /** One segment line of a multi-line string written at `level`. */
  lemma SegmentAt(lines: seq<string>, i: nat, level: nat, key: string, s: string, p: nat)
    requires PlainKey(key) && PlainText(s)
    requires Placed(lines, i, MultilineLines(key, s, Pad(level)))
    requires i + 1 <= p < i + |MultilineLines(key, s, Pad(level))|
    ensures !EndsMultiline(lines[p], 2 * level) && BodyLine(lines[p], 2 * level) == Split(s, '\n')[p - i - 1]
  {
    var segs := Split(s, '\n');
    var ml := MultilineLines(key, s, Pad(level));
    assert lines[p] == ml[p - i] == Pad(level) + "  " + segs[p - i - 1];
    SegmentLine(level, segs[p - i - 1]);
  }

  lemma NestedLinesAt(lines: seq<string>, i: nat, level: nat, n: seq<string>)
    requires AllContent(n, level + 1)
    requires Placed(lines, i + 1, n)
    requires Follows(lines, i + 1 + |n|, 2 * level)
    ensures NestedEnd(lines, i + 1, 2 * level) == i + 1 + |n|
    ensures NestedLines(lines, i, 2 * level) == n
  {
    NestedBody(lines, i, level, n);
    NestedEndAt(lines, i + 1, i + 1 + |n|, 2 * level);
    ContentLinesAll(n);
  }

  /** Content lines one level deeper, placed after line `i`: none of them
      ends the nested block of line `i`, and none is filler. */
  lemma NestedBody(lines: seq<string>, i: nat, level: nat, n: seq<string>)
    requires AllContent(n, level + 1) && Placed(lines, i + 1, n)
    ensures forall p :: i + 1 <= p < i + 1 + |n| ==> !EndsNested(lines[p], 2 * level)
    ensures forall p :: 0 <= p < |n| ==> !IsFiller(n[p])
    ensures lines[i + 1..i + 1 + |n|] == n
  {
    forall p | i + 1 <= p < i + 1 + |n| ensures !EndsNested(lines[p], 2 * level) {
      assert lines[p] == n[p - i - 1];
    }
  }

  lemma NestedOfAt(lines: seq<string>, i: nat, level: nat, n: seq<string>)
    requires i < |lines| && n != [] && NestedLines(lines, i, 2 * level) == n
    ensures NestedOf(lines, i, 2 * level) == (Obj(BlockOf(n, 2 * (level + 1)).0), NestedEnd(lines, i + 1, 2 * level))
  {
    assert 2 * level + 2 == 2 * (level + 1);
  }

  lemma PlacedAppend(lines: seq<string>, i: nat, a: seq<string>, b: seq<string>)
    requires Placed(lines, i, a + b)
    ensures Placed(lines, i, a) && Placed(lines, i + |a|, b)
  {
    forall k | 0 <= k < |a| ensures lines[i + k] == a[k] {
      assert (a + b)[k] == a[k];
    }
    forall k | 0 <= k < |b| ensures lines[i + |a| + k] == b[k] {
      assert (a + b)[|a| + k] == b[k];
    }
  }

  lemma PlacedCons(lines: seq<string>, i: nat, h: string, t: seq<string>)
    requires Placed(lines, i, [h] + t)
    ensures i < |lines| && lines[i] == h && Placed(lines, i + 1, t)
  {
    PlacedAppend(lines, i, [h], t);
    assert lines[i + 0] == [h][0];
  }

  /** The entry reader on a line whose value is empty, `|`, or other text. */
  lemma EntryAtNested(lines: seq<string>, i: nat, indent: nat, key: string, v: Value, e: nat)
    requires i < |lines| && ':' in CleanLine(lines[i]) && SplitKeyValue(CleanLine(lines[i])) == (key, "")
    requires NestedOf(lines, i, indent).0 == v && NestedOf(lines, i, indent).1 == e
    ensures EntryAt(lines, i, indent).0.0 == key && EntryAt(lines, i, indent).0.1 == v
    ensures EntryAt(lines, i, indent).1 == e
  {
  }

  lemma EntryAtMultiline(lines: seq<string>, i: nat, indent: nat, key: string)
    requires i < |lines| && ':' in CleanLine(lines[i]) && SplitKeyValue(CleanLine(lines[i])) == (key, "|")
    ensures EntryAt(lines, i, indent).0.0 == key && EntryAt(lines, i, indent).0.1 == Str(MultilineOf(lines, i, indent).0)
    ensures EntryAt(lines, i, indent).1 == MultilineOf(lines, i, indent).1
  {
  }

  lemma EntryAtValue(lines: seq<string>, i: nat, indent: nat, key: string, t: string)
    requires i < |lines| && ':' in CleanLine(lines[i]) && SplitKeyValue(CleanLine(lines[i])) == (key, t)
    requires t != [] && t != "|"
    ensures EntryAt(lines, i, indent).0.0 == key && EntryAt(lines, i, indent).0.1 == ValueOf(t)
    ensures EntryAt(lines, i, indent).1 == i + 1
  {
  }

  /** An entry written on one line is read back from that line alone. */
  lemma ScalarLineRead(lines: seq<string>, i: nat, level: nat, key: string, value: Value)
    requires PlainEntry((key, value)) && !value.Obj? && !(value.Str? && '\n' in value.s)
    requires i < |lines| && lines[i] == RenderEntry(key, value, level)[0]
    ensures |RenderEntry(key, value, level)| == 1
    ensures IsEntryLine(lines[i], 2 * level)
    ensures EntryAt(lines, i, 2 * level).0.0 == key && EntryAt(lines, i, 2 * level).0.1 == value
    ensures EntryAt(lines, i, 2 * level).1 == i + 1
  {
    HeaderRead(key, value, level);
    ValueTextRead(value);
    EntryAtValue(lines, i, 2 * level, key, Strip(ValueText(value)));
    if value.Arr? {
      assert forall k :: 0 <= k < |value.items| ==> IsSimpleItem(value.items[k]);
    }
  }

  lemma ScalarEntryRead(lines: seq<string>, i: nat, level: nat, key: string, value: Value)
    requires EntryFits(lines, level, i, key, value)
    requires !value.Obj? && !(value.Str? && '\n' in value.s)
    ensures i < |lines| && IsEntryLine(lines[i], 2 * level)
    ensures EntryAt(lines, i, 2 * level).0.0 == key && EntryAt(lines, i, 2 * level).0.1 == value
    ensures EntryAt(lines, i, 2 * level).1 == i + |RenderEntry(key, value, level)|
  {
    PlacedFirst(lines, i, RenderEntry(key, value, level));
    ScalarLineRead(lines, i, level, key, value);
  }

  /** The lines of a multi-line string entry, and its first line read back. */
  lemma MultilineFits(lines: seq<string>, i: nat, level: nat, key: string, value: Value)
    requires EntryFits(lines, level, i, key, value) && value.Str? && '\n' in value.s
    ensures PlainKey(key) && PlainText(value.s)
    ensures RenderEntry(key, value, level) == MultilineLines(key, value.s, Pad(level))
    ensures i < |lines| && IsEntryLine(lines[i], 2 * level)
    ensures SplitKeyValue(CleanLine(lines[i])) == (key, "|")
  {
    PlacedFirst(lines, i, RenderEntry(key, value, level));
    HeaderRead(key, value, level);
    ValueTextRead(value);
  }

  /** A multi-line string entry is read back up to its last segment. */
  lemma MultilineEntryRead(lines: seq<string>, i: nat, level: nat, key: string, value: Value)
    requires EntryFits(lines, level, i, key, value) && value.Str? && '\n' in value.s
    ensures i < |lines| && IsEntryLine(lines[i], 2 * level)
    ensures EntryAt(lines, i, 2 * level).0.0 == key && EntryAt(lines, i, 2 * level).0.1 == value
    ensures EntryAt(lines, i, 2 * level).1 == i + |RenderEntry(key, value, level)|
  {
    MultilineFits(lines, i, level, key, value);
    MultilineRead(lines, i, level, key, value.s);
    EntryAtMultiline(lines, i, 2 * level, key);
  }

  /** The lines of a nested dict entry: its key line, then the dict's
      entries one level deeper. */
  lemma ObjLines(key: string, value: Value, level: nat)
    requires PlainEntry((key, value)) && value.Obj?
    ensures value.entries != [] && UniqueKeys(value.entries) && PlainEntries(value.entries)
    ensures RenderEntry(key, value, level) == [Pad(level) + key + ":"] + EntriesLines(value.entries, level + 1)
  {
  }

  /** The lines of a nested dict written at `level` from line `i` are its
      key line followed by its entries' lines one level deeper. */
  lemma ObjPlaced(lines: seq<string>, i: nat, level: nat, key: string, value: Value)
    requires EntryFits(lines, level, i, key, value) && value.Obj?
    ensures value.entries != [] && UniqueKeys(value.entries) && PlainEntries(value.entries)
    ensures Placed(lines, i, [Pad(level) + key + ":"] + EntriesLines(value.entries, level + 1))
    ensures Follows(lines, i + 1 + |EntriesLines(value.entries, level + 1)|, 2 * level)
    ensures |RenderEntry(key, value, level)| == 1 + |EntriesLines(value.entries, level + 1)|
  {
    ObjLines(key, value, level);
  }

  /** A key line standing at `i` with the entries' lines after it: the
      entries fit the nested block of that key. */
  lemma NestedPlaced(lines: seq<string>, i: nat, level: nat, h: string, es: seq<(string, Value)>)
    requires es != [] && UniqueKeys(es) && PlainEntries(es)
    requires Placed(lines, i, [h] + EntriesLines(es, level + 1))
    requires Follows(lines, i + 1 + |EntriesLines(es, level + 1)|, 2 * level)
    ensures i < |lines| && lines[i] == h
    ensures NestedFits(lines, i, level, es)
  {
    PlacedCons(lines, i, h, EntriesLines(es, level + 1));
  }

  /** The key line of a nested dict is read as the key with nothing after it. */
  lemma ObjHeaderAt(lines: seq<string>, i: nat, level: nat, key: string)
    requires PlainKey(key) && i < |lines| && lines[i] == Pad(level) + key + ":"
    ensures IsEntryLine(lines[i], 2 * level)
    ensures SplitKeyValue(CleanLine(lines[i])) == (key, "")
  {
    EntryLineRead(level, key, "");
    assert Pad(level) + key + ":" + "" == Pad(level) + key + ":";
  }

  /** A nested dict entry is read back up to the last line of the dict. */
  lemma {:induction false} ObjEntryRead(lines: seq<string>, i: nat, level: nat, key: string, es: seq<(string, Value)>, e: nat)
    requires i < |lines| && IsEntryLine(lines[i], 2 * level)
    requires SplitKeyValue(CleanLine(lines[i])) == (key, "")
    requires NestedFits(lines, i, level, es)
    requires e == i + 1 + |EntriesLines(es, level + 1)|
    ensures EntryAt(lines, i, 2 * level).0.0 == key && EntryAt(lines, i, 2 * level).0.1 == Obj(es)
    ensures EntryAt(lines, i, 2 * level).1 == e
    decreases EntriesSize(es), 3, 0
  {
    NestedRead(lines, i, level, es);
    EntryAtNested(lines, i, 2 * level, key, Obj(es), e);
  }

  /** Content lines one level deeper, placed after a key line and followed
      by a line no deeper than the key, are what `_parse_nested` collects. */
  lemma NestedOfLines(lines: seq<string>, i: nat, level: nat, n: seq<string>)
    requires i < |lines| && n != [] && AllContent(n, level + 1)
    requires Placed(lines, i + 1, n)
    requires Follows(lines, i + 1 + |n|, 2 * level)
    ensures NestedOf(lines, i, 2 * level).0 == Obj(BlockOf(n, 2 * (level + 1)).0)
    ensures NestedOf(lines, i, 2 * level).1 == i + 1 + |n|
  {
    NestedLinesAt(lines, i, level, n);
    NestedOfAt(lines, i, level, n);
  }

  /** The lines of plain entries written at `level` form a block of their
      own, read from their first line. */
  lemma OwnBlock(d: seq<(string, Value)>, level: nat)
    requires PlainEntries(d)
    ensures BlockFits(EntriesLines(d, level), level, 0, d)
  {
  }

  /** What `_parse_nested` collects after a key line is the entries' lines,
      read as a block of their own one level deeper. */
  lemma NestedFitsBlock(lines: seq<string>, i: nat, level: nat, es: seq<(string, Value)>)
    requires NestedFits(lines, i, level, es)
    ensures var n := EntriesLines(es, level + 1);
      && i < |lines|
      && NestedOf(lines, i, 2 * level).0 == Obj(BlockOf(n, 2 * (level + 1)).0)
      && NestedOf(lines, i, 2 * level).1 == i + 1 + |n|
  {
    EntriesShape(es, level + 1);
    NestedOfLines(lines, i, level, EntriesLines(es, level + 1));
  }

  /** A non-empty dict of plain entries, written as a nested block under a
      key at `level`, is read back as the same dict, and reading stops right
      after its lines. */
  lemma {:induction false} NestedRead(lines: seq<string>, i: nat, level: nat, es: seq<(string, Value)>)
    requires NestedFits(lines, i, level, es)
    ensures NestedOf(lines, i, 2 * level).0 == Obj(es)
    ensures NestedOf(lines, i, 2 * level).1 == i + 1 + |EntriesLines(es, level + 1)|
    decreases EntriesSize(es), 2, 0
  {
    NestedFitsBlock(lines, i, level, es);
    OwnBlock(es, level + 1);
    BlockWritesRead(EntriesLines(es, level + 1), level + 1, 0, es);
    AssignDistinct(es);
  }

  /** One plain entry written at `level` is read back as the same key and
      value by the entry reader, which continues right after its lines. */
  lemma {:induction false} EntryRead(lines: seq<string>, i: nat, level: nat, w: (string, Value))
    requires EntryFits(lines, level, i, w.0, w.1)
    ensures i < |lines| && IsEntryLine(lines[i], 2 * level)
    ensures EntryAt(lines, i, 2 * level).0 == w
    ensures EntryAt(lines, i, 2 * level).1 == i + |RenderEntry(w.0, w.1, level)|
    decreases Size(w.1), 0, 2
  {
    var (key, value) := w;
    if value.Obj? {
      ObjRead(lines, i, level, key, value);
    } else {
      LeafEntryRead(lines, i, level, key, value);
    }
  }

  /** An entry whose value is a dict is read back. */
  lemma {:induction false} ObjRead(lines: seq<string>, i: nat, level: nat, key: string, value: Value)
    requires EntryFits(lines, level, i, key, value) && value.Obj?
    ensures i < |lines| && IsEntryLine(lines[i], 2 * level)
    ensures EntryAt(lines, i, 2 * level).0.0 == key && EntryAt(lines, i, 2 * level).0.1 == value
    ensures EntryAt(lines, i, 2 * level).1 == i + |RenderEntry(key, value, level)|
    decreases Size(value), 0, 1
  {
    ObjPlaced(lines, i, level, key, value);
    NestedPlaced(lines, i, level, Pad(level) + key + ":", value.entries);
    ObjHeaderAt(lines, i, level, key);
    ObjEntryRead(lines, i, level, key, value.entries, i + |RenderEntry(key, value, level)|);
  }

  /** An entry whose value is not a dict is read back. */
  lemma LeafEntryRead(lines: seq<string>, i: nat, level: nat, key: string, value: Value)
    requires EntryFits(lines, level, i, key, value) && !value.Obj?
    ensures i < |lines| && IsEntryLine(lines[i], 2 * level)
    ensures EntryAt(lines, i, 2 * level).0.0 == key && EntryAt(lines, i, 2 * level).0.1 == value
    ensures EntryAt(lines, i, 2 * level).1 == i + |RenderEntry(key, value, level)|
  {
    if value.Str? && '\n' in value.s {
      MultilineEntryRead(lines, i, level, key, value);
    } else {
      ScalarEntryRead(lines, i, level, key, value);
    }
  }

  lemma PlainEntriesCons(d: seq<(string, Value)>)
    requires d != [] && PlainEntries(d)
    ensures PlainEntry(d[0]) && PlainEntries(d[1..])
  {
    assert forall k :: 0 <= k < |d[1..]| ==> d[1..][k] == d[k + 1];
  }

  /** After an entry comes the next entry's first line, or what ends the block. */
  lemma FollowsNext(lines: seq<string>, level: nat, j: nat, d: seq<(string, Value)>)
    requires BlockFits(lines, level, j, d)
    ensures Follows(lines, j, 2 * level)
  {
    if d != [] {
      var el := EntriesLines(d, level);
      EntriesLinesCons(d, level);
      PlainEntriesCons(d);
      HeaderRead(d[0].0, d[0].1, level);
      PlacedFirst(lines, j, el);
      assert el[0] == RenderEntry(d[0].0, d[0].1, level)[0];
      assert IsEntryLine(lines[j], 2 * level);
    }
  }

  /** The lines of the first entry of a block, and the block of the rest. */
  lemma BlockFitsCons(lines: seq<string>, level: nat, i: nat, d: seq<(string, Value)>, j: nat)
    requires d != [] && BlockFits(lines, level, i, d)
    requires j == i + |RenderEntry(d[0].0, d[0].1, level)|
    ensures BlockFits(lines, level, j, d[1..])
    ensures Placed(lines, i, RenderEntry(d[0].0, d[0].1, level))
    ensures i + |EntriesLines(d, level)| == j + |EntriesLines(d[1..], level)|
  {
    var first := RenderEntry(d[0].0, d[0].1, level);
    var rest := EntriesLines(d[1..], level);
    EntriesLinesCons(d, level);
    PlacedEnded(lines, i, EntriesLines(d, level), first, rest, j, 2 * level);
    PlainEntriesCons(d);
  }

  /** Lines placed at `i` and ended there split into their two halves, the
      second one placed at `j`. */
  lemma PlacedEnded(lines: seq<string>, i: nat, ls: seq<string>, a: seq<string>, b: seq<string>, j: nat, indent: nat)
    requires ls == a + b && Placed(lines, i, ls) && BlockEnd(lines, i + |ls|, indent)
    requires j == i + |a|
    ensures Placed(lines, i, a) && Placed(lines, j, b) && BlockEnd(lines, j + |b|, indent)
    ensures i + |ls| == j + |b|
  {
    PlacedAppend(lines, i, a, b);
  }

  /** The first entry of a block fits where it stands, and the rest of the
      block is smaller. */
  lemma BlockSplit(lines: seq<string>, level: nat, i: nat, d: seq<(string, Value)>, j: nat)
    requires d != [] && BlockFits(lines, level, i, d)
    requires j == i + |RenderEntry(d[0].0, d[0].1, level)|
    ensures EntryFits(lines, level, i, d[0].0, d[0].1)
    ensures BlockFits(lines, level, j, d[1..])
    ensures i + |EntriesLines(d, level)| == j + |EntriesLines(d[1..], level)|
  {
    BlockFitsCons(lines, level, i, d, j);
    PlainEntriesCons(d);
    FollowsNext(lines, level, j, d[1..]);
  }

  /** The block reader on the line after its last entry writes nothing. */
  lemma BlockWritesEnd(lines: seq<string>, start: nat, e: nat)
    requires e <= |lines| && BlockEnd(lines, e, start)
    ensures BlockWrites(lines, start, e).0 == [] && BlockWrites(lines, start, e).1 == e
  {
    if e < |lines| {
      assert KindOf(lines[e], start) == Dedent;
    }
  }

  /** An entry line read as `w`, followed by a block that writes `rest`,
      is a block that writes `w` and then `rest`. */
  lemma BlockStep(lines: seq<string>, start: nat, i: nat, w: (string, Value), j: nat, rest: seq<(string, Value)>, e: nat)
    requires i < |lines| && IsEntryLine(lines[i], start)
    requires EntryAt(lines, i, start).0 == w && EntryAt(lines, i, start).1 == j
    requires BlockWrites(lines, start, j).0 == rest && BlockWrites(lines, start, j).1 == e
    ensures BlockWrites(lines, start, i).0 == [w] + rest && BlockWrites(lines, start, i).1 == e
  {
    BlockEntryStep(lines, start, i);
  }

  /** The entries of a plain dict, written at `level` from line `i` on and
      followed by the end or by a shallower line, are read back by the
      block at `2 * level` as exactly these writes, in order. */
  lemma {:induction false} BlockWritesRead(lines: seq<string>, level: nat, i: nat, d: seq<(string, Value)>)
    requires BlockFits(lines, level, i, d)
    ensures BlockWrites(lines, 2 * level, i).0 == d
    ensures BlockWrites(lines, 2 * level, i).1 == i + |EntriesLines(d, level)|
    decreases EntriesSize(d), 1, |d|
  {
    if d == [] {
      BlockWritesEnd(lines, 2 * level, i);
    } else {
      var j := i + |RenderEntry(d[0].0, d[0].1, level)|;
      BlockSplit(lines, level, i, d, j);
      EntrySizeBound(d, 0);
      EntriesSizeCons(d);
      HeadTail(d);
      BlockWritesRead(lines, level, j, d[1..]);
      EntryRead(lines, i, level, d[0]);
      BlockStep(lines, 2 * level, i, d[0], j, d[1..], j + |EntriesLines(d[1..], level)|);
    }
  }

  /** Content lines, the first one not indented, joined with line breaks
      and read as a document, are cut back into the same lines. */
  lemma LinesText(ls: seq<string>)
    requires ls != [] && AllContent(ls, 0) && Indent(ls[0]) == 0
    ensures Split(Strip(Join("\n", ls)), '\n') == ls
  {
    IndentSpec(ls[0]);
    var text := Join("\n", ls);
    JoinFirst("\n", ls);
    JoinLast("\n", ls);
    StripNoSpaceEnds(text);
    SplitJoin(ls, '\n');
  }

  /** The text `dumps` writes for a plain tree is cut back into exactly its
      lines. */
  lemma DocumentLines(d: seq<(string, Value)>)
    requires PlainValue(Obj(d))
    ensures Split(Strip(Join("\n", RenderLines(d, 0))), '\n') == EntriesLines(d, 0)
  {
    var ls := EntriesLines(d, 0);
    assert RenderLines(d, 0) == ls;
    EntriesShape(d, 0);
    EntriesLinesCons(d, 0);
    assert PlainEntry(d[0]);
    HeaderRead(d[0].0, d[0].1, 0);
    LinesText(ls);
  }


  /** Parsing the output of `dumps` gives a plain tree back; the empty
      dict is written as the empty text, which reads as the empty dict. */
  lemma DumpsRoundTrip(d: seq<(string, Value)>)
    requires d == [] || PlainValue(Obj(d))
    ensures Document(Join("\n", RenderLines(d, 0))) == d
  {
    if d == [] {
      EmptyDocument();
    } else {
      DocumentLines(d);
      OwnBlock(d, 0);
      BlockWritesRead(EntriesLines(d, 0), 0, 0, d);
      AssignDistinct(d);
    }
  }

  /** `dumps({})` is the empty text, and parsing it gives the empty dict. */
  lemma EmptyDocument()
    ensures Join("\n", RenderLines([], 0)) == ""
    ensures Document("") == []
  {
    assert Split(Strip(""), '\n') == [""];
    assert KindOf("", 0) == Filler;
  }
}
