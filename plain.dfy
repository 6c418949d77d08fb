/** Plain trees: the documents `dumps` writes so that `parse` reads them
    back unchanged, and where their lines stand in a list of lines. */
module NdfPlain {
  import opened NdfText
  import opened NdfDict
  import opened NdfValue
  import opened NdfBlock
  import opened NdfDump

  /** A key the block parser reads back: it starts and ends with
      non-whitespace, does not start a comment, and has no `:`, `#` or
      line break. */
  predicate PlainKey(k: string)
  {
    && k != [] && !IsSpace(k[0]) && !IsSpace(k[|k| - 1]) && k[0] != '#'
    && ':' !in k && '#' !in k && '\n' !in k
  }

  /** Text written bare after `key: `: one token with no list separator and
      no `#`, not opening an inline object or array, not the `|` marker. */
  predicate Bare(t: string)
  {
    && t != [] && t != "|" && t[0] != '{' && t[0] != '['
    && forall i :: 0 <= i < |t| ==> !IsListSep(t[i]) && t[i] != '#'
  }

  /** A one-line string that is read back as the same string: bare, and
      neither quoted, a keyword, nor a number. */
  predicate PlainWord(s: string)
  {
    && Bare(s) && !IsQuoted(s) && !IsKeyword(s)
    && (LooksFractional(s) ==> !IsFloatLiteral(s))
    && (!LooksFractional(s) ==> !IsIntLiteral(s))
  }

  /** An element of a list written on one line. */
  predicate PlainItem(v: Value)
  {
    v.Bool? || v.Int? || (v.Str? && PlainWord(v.s))
  }

  /** A line of a multi-line string that survives being written and read
      back anywhere in the tree: not blank, no whitespace at either end,
      not starting with `#`. */
  predicate PlainSegment(seg: string)
  {
    seg != [] && !IsSpace(seg[0]) && !IsSpace(seg[|seg| - 1]) && seg[0] != '#'
  }

  predicate PlainText(s: string)
  {
    var segs := Split(s, '\n');
    '\n' in s && forall k :: 0 <= k < |segs| ==> PlainSegment(segs[k])
  }

  /** A value `dumps` writes so that `parse` reads it back: null, a boolean,
      an int, a plain word, a multi-line string of plain segments, a list
      of at least two plain items, or a non-empty dict of plain entries. */
  predicate PlainValue(v: Value)
    decreases v
  {
    match v
    case Null => true
    case Bool(_) => true
    case Int(_) => true
    case Float(_) => false
    case Str(s) => if '\n' in s then PlainText(s) else PlainWord(s)
    case Arr(xs) => |xs| >= 2 && forall k :: 0 <= k < |xs| ==> PlainItem(xs[k])
    case Obj(es) => es != [] && UniqueKeys(es) && PlainEntries(es)
  }

  predicate PlainEntries(es: seq<(string, Value)>)
    decreases es
  {
    forall k :: 0 <= k < |es| ==> PlainEntry(es[k])
  }

  predicate PlainEntry(e: (string, Value))
    decreases e
  {
    PlainKey(e.0) && PlainValue(e.1)
  }

  /** What follows `key:` on the first line `dumps` writes for a value. */
  function ValueText(v: Value): string
  {
    match v
    case Obj(_) => ""
    case Arr(xs) => " " + Join(", ", seq(|xs|, k requires 0 <= k < |xs| => PyStr(xs[k])))
    case Str(s) => if '\n' in s then " |" else " " + s
    case _ => " " + PyStr(v)
  }

  /** A line the parser keeps wherever it stands: not filler, no line
      break, no trailing whitespace, and indented at least `2 * level`. */
  predicate ContentLine(line: string, level: nat)
  {
    && line != [] && !IsFiller(line) && Indent(line) >= 2 * level
    && '\n' !in line && !IsSpace(line[|line| - 1])
  }

  predicate AllContent(lines: seq<string>, level: nat)
  {
    forall k :: 0 <= k < |lines| ==> ContentLine(lines[k], level)
  }

  /** The line at `e` ends whatever an entry at indentation `indent` opened:
      there is none, or it is content indented no deeper than the entry. */
  predicate Follows(lines: seq<string>, e: nat, indent: nat)
  {
    e == |lines| || (e < |lines| && !IsFiller(lines[e]) && Indent(lines[e]) <= indent)
  }

  /** The line at `e` ends a block indented `start`. */
  predicate BlockEnd(lines: seq<string>, e: nat, start: nat)
  {
    e == |lines| || (e < |lines| && !IsFiller(lines[e]) && Indent(lines[e]) < start)
  }

  /** The lines `ls` stand in `lines` from line `i` on. */
  predicate Placed(lines: seq<string>, i: nat, ls: seq<string>)
  {
    i + |ls| <= |lines| && forall k {:trigger ls[k]} :: 0 <= k < |ls| ==> lines[i + k] == ls[k]
  }

  /** A plain entry written at `level` stands at line `i`, and the line
      after its last one ends it. */
  predicate EntryFits(lines: seq<string>, level: nat, i: nat, key: string, value: Value)
  {
    && PlainEntry((key, value))
    && Placed(lines, i, RenderEntry(key, value, level))
    && Follows(lines, i + |RenderEntry(key, value, level)|, 2 * level)
  }

  /** The entries of a non-empty plain dict with unique keys, written at
      `level + 1`, stand right after line `i`, and the line after them
      ends the nested block. */
  predicate NestedFits(lines: seq<string>, i: nat, level: nat, es: seq<(string, Value)>)
  {
    && es != [] && UniqueKeys(es) && PlainEntries(es)
    && Placed(lines, i + 1, EntriesLines(es, level + 1))
    && Follows(lines, i + 1 + |EntriesLines(es, level + 1)|, 2 * level)
  }

  /** Plain entries written at `level` stand at line `i`, and the line after
      them ends the block. */
  predicate BlockFits(lines: seq<string>, level: nat, i: nat, d: seq<(string, Value)>)
  {
    && PlainEntries(d)
    && Placed(lines, i, EntriesLines(d, level))
    && BlockEnd(lines, i + |EntriesLines(d, level)|, 2 * level)
  }
}
