/** The value parser: one value token becomes an inline object, a bracketed
    array, an implicit comma/space list or a scalar, tried in that order
    (`_parse_value`, `_parse_inline_object`, `_parse_array`). */
module NdfInline {
  import opened NdfOption
  import opened NdfText
  import opened NdfDict
  import opened NdfValue

  // ---------------------------------------------------------------------
  // Bracket depth and the top-level commas of an array body
  // ---------------------------------------------------------------------

  function BracketDelta(c: char): int
  {
    if c == '[' then 1 else if c == ']' then -1 else 0
  }

  /** Net bracket depth after reading `s`: opening minus closing brackets. */
  function Depth(s: string): int
  {
    if s == [] then 0 else Depth(s[..|s| - 1]) + BracketDelta(s[|s| - 1])
  }

  lemma {:induction false} DepthConcat(a: string, b: string)
    ensures Depth(a + b) == Depth(a) + Depth(b)
    decreases |b|
  {
    if b == [] {
      assert a + b == a;
    } else {
      assert (a + b)[..|a + b| - 1] == a + b[..|b| - 1];
      DepthConcat(a, b[..|b| - 1]);
    }
  }

  /** A comma of `s` at bracket depth 0: the only place an array body is split. */
  predicate IsTopComma(s: string, p: int)
  {
    0 <= p < |s| && s[p] == ',' && Depth(s[..p]) == 0
  }

  /** No comma of `s` sits at depth 0. */
  predicate NoTopComma(s: string)
  {
    forall q {:trigger IsTopComma(s, q)} :: 0 <= q < |s| ==> !IsTopComma(s, q)
  }

  /** The first top-level comma of `s` at or after `from`. */
  function FirstTopComma(s: string, from: nat): (r: Option<nat>)
    requires from <= |s|
    ensures r.Some? ==> from <= r.value < |s| && IsTopComma(s, r.value)
    decreases |s| - from
  {
    if from == |s| then None
    else if IsTopComma(s, from) then Some(from)
    else FirstTopComma(s, from + 1)
  }

  /** No top-level comma comes before the one found, and none at all when
      none is found. */
  lemma {:induction false} FirstTopCommaLeast(s: string, from: nat)
    requires from <= |s|
    ensures var r := FirstTopComma(s, from);
      forall q {:trigger IsTopComma(s, q)} :: from <= q < (if r.Some? then r.value else |s|) ==> !IsTopComma(s, q)
    decreases |s| - from
  {
    if from < |s| && !IsTopComma(s, from) {
      FirstTopCommaLeast(s, from + 1);
    }
  }

  /** A top-level comma of a prefix is one of the whole string, and conversely. */
  lemma TopCommaPrefix(s: string, n: nat, q: int)
    requires n <= |s| && 0 <= q < n
    ensures IsTopComma(s[..n], q) <==> IsTopComma(s, q)
  {
    assert s[..n][..q] == s[..q];
  }

  /** The pieces of `s` that end at a top-level comma, in order, without
      that comma. Text after the last top-level comma is not a piece. */
  function TopPieces(s: string): (r: seq<string>)
    ensures forall k :: 0 <= k < |r| ==> |r[k]| < |s|
    decreases |s|
  {
    match FirstTopComma(s, 0)
    case None => []
    case Some(p) => [s[..p]] + TopPieces(s[p + 1..])
  }

  /** `s` is empty or ends with a top-level comma: nothing after its last piece. */
  predicate Closed(s: string)
  {
    s == [] || IsTopComma(s, |s| - 1)
  }

  /** The first top-level comma of `a + b` is that of `a` when `a` is closed
      and not empty. */
  lemma FirstTopCommaClosed(a: string, b: string)
    requires a != [] && Closed(a)
    ensures FirstTopComma(a + b, 0) == FirstTopComma(a, 0)
  {
    FirstTopCommaLeast(a, 0);
    FirstTopCommaLeast(a + b, 0);
    var p := FirstTopComma(a, 0).value;
    var r := FirstTopComma(a + b, 0);
    assert (a + b)[..|a|] == a;
    TopCommaPrefix(a + b, |a|, p);
    TopCommaPrefix(a + b, |a|, |a| - 1);
    if r.value < p {
      TopCommaPrefix(a + b, |a|, r.value);
    }
  }

  /** What follows the first top-level comma of a closed string is closed. */
  lemma ClosedRest(a: string, p: nat)
    requires a != [] && Closed(a) && IsTopComma(a, p)
    ensures Closed(a[p + 1..])
  {
    var rest := a[p + 1..];
    if rest != [] {
      assert a[..|a| - 1] == a[..p + 1] + rest[..|rest| - 1];
      DepthConcat(a[..p + 1], rest[..|rest| - 1]);
      assert a[..p + 1] == a[..p] + [','];
      DepthConcat(a[..p], [',']);
      assert Depth([',']) == 0 by { assert [','][..0] == []; }
      assert rest[..|rest| - 1] == a[p + 1..|a| - 1];
    }
  }

  /** Splitting a closed prefix and the rest separately gives the same pieces. */
  lemma {:induction false} TopPiecesConcat(a: string, b: string)
    requires Closed(a)
    ensures TopPieces(a + b) == TopPieces(a) + TopPieces(b)
    decreases |a|
  {
    if a == [] {
      assert a + b == b;
    } else {
      FirstTopCommaLeast(a, 0);
      var p := FirstTopComma(a, 0).value;
      var rest := a[p + 1..];
      FirstTopCommaClosed(a, b);
      TopPiecesAt(a, p);
      TopPiecesAt(a + b, p);
      assert (a + b)[..p] == a[..p];
      assert (a + b)[p + 1..] == rest + b;
      ClosedRest(a, p);
      TopPiecesConcat(rest, b);
      AppendAssoc([a[..p]], TopPieces(rest), TopPieces(b));
    }
  }

  lemma AppendAssoc<T>(x: seq<T>, y: seq<T>, z: seq<T>)
    ensures x + (y + z) == (x + y) + z
  {
  }

  /** The first piece ends at the first top-level comma. */
  lemma TopPiecesAt(s: string, p: nat)
    requires FirstTopComma(s, 0) == Some(p)
    ensures TopPieces(s) == [s[..p]] + TopPieces(s[p + 1..])
  {
  }

  /** Adding a character that is not a top-level comma keeps a piece whole. */
  lemma NoTopCommaSnoc(item: string, c: char)
    requires NoTopComma(item) && (c != ',' || Depth(item) != 0)
    ensures NoTopComma(item + [c])
  {
    var s := item + [c];
    assert s[..|item|] == item;
    forall q | 0 <= q < |s| ensures !IsTopComma(s, q) {
      if q < |item| {
        TopCommaPrefix(s, |item|, q);
      }
    }
  }

  /** A balanced piece with no top-level comma, closed by one, is one piece. */
  lemma OnePiece(item: string)
    requires NoTopComma(item) && Depth(item) == 0
    ensures TopPieces(item + [',']) == [item]
  {
    var s := item + [','];
    assert s[..|item|] == item;
    assert IsTopComma(s, |item|);
    forall q | 0 <= q < |item| ensures !IsTopComma(s, q) {
      TopCommaPrefix(s, |item|, q);
    }
    FirstTopCommaLeast(s, 0);
    assert FirstTopComma(s, 0) == Some(|item|);
    assert s[|item| + 1..] == [];
  }

  /** Without a top-level comma there is no piece at all. */
  lemma NoPieces(s: string)
    requires NoTopComma(s)
    ensures TopPieces(s) == []
  {
  }

  /** When the brackets of `t` balance, joining the pieces of `t + ","` with
      commas gives `t` back: the array body is split without losing text. */
  lemma {:induction false} BalancedPiecesRejoin(t: string)
    requires Depth(t) == 0
    ensures TopPieces(t + [',']) != []
    ensures Join([','], TopPieces(t + [','])) == t
    decreases |t|
  {
    var s := t + [','];
    assert s[..|t|] == t;
    assert IsTopComma(s, |t|);
    FirstTopCommaLeast(s, 0);
    var p := FirstTopComma(s, 0).value;
    assert s[..p] == t[..p];
    if p == |t| {
      assert s[p + 1..] == [];
    } else {
      var rest := t[p + 1..];
      assert s[p + 1..] == rest + [','];
      assert t == t[..p] + [','] + rest;
      DepthConcat(t[..p] + [','], rest);
      DepthConcat(t[..p], [',']);
      assert Depth([',']) == 0 by { assert [','][..0] == []; }
      BalancedPiecesRejoin(rest);
    }
  }

  // ---------------------------------------------------------------------
  // _parse_array
  // ---------------------------------------------------------------------

  /** One comma-separated item of a nested array body: blank items are
      dropped, an item starting with `[` is an array, anything else a scalar. */
  function ArrayItem(p: string): Option<Value>
    decreases |p|, 3, 0
  {
    var s := Strip(p);
    if s == [] then None
    else if s[0] == '[' then Some(Arr(ArrayOf(s)))
    else Some(ScalarOf(s))
  }

  /** The elements the items `ps` of a nested array body give, in order.
      `bound` exceeds the length of every item; it only measures termination. */
  function NestedElements(ps: seq<string>, bound: nat): (r: seq<Value>)
    requires forall k :: 0 <= k < |ps| ==> |ps[k]| < bound
    ensures |r| <= |ps|
    decreases bound, 1, |ps|
  {
    if ps == [] then []
    else
      var p := ps[|ps| - 1];
      NestedElements(ps[..|ps| - 1], bound) + match ArrayItem(p) case Some(v) => [v] case None => []
  }

  /** One item of a flat array body (no `[` inside). */
  function SimpleItem(p: string): Option<Value>
  {
    if Strip(p) == [] then None else Some(ScalarOf(Strip(p)))
  }

  function SimpleItems(ps: seq<string>): seq<Option<Value>>
  {
    seq(|ps|, k requires 0 <= k < |ps| => SimpleItem(ps[k]))
  }

  /** `_parse_array`: the elements of `[ ... ]`. With a `[` inside, the body
      is cut at top-level commas only; otherwise at every comma. */
  function ArrayOf(text: string): (r: seq<Value>)
    decreases |text|, 2, 0
  {
    var t := Inner(Strip(text));
    if '[' in t then NestedElements(TopPieces(t + [',']), |t| + 1)
    else Somes(SimpleItems(Split(t, ',')))
  }

  /** One more item adds its element, if it has one, at the end. */
  lemma NestedElementsSnoc(ps: seq<string>, p: string, bound: nat)
    requires forall k :: 0 <= k < |ps| ==> |ps[k]| < bound
    requires |p| < bound
    ensures NestedElements(ps + [p], bound) ==
      NestedElements(ps, bound) + if ArrayItem(p).Some? then [ArrayItem(p).value] else []
  {
    assert (ps + [p])[..|ps|] == ps;
  }

  /** The scalars of a list of plain tokens, one per token. */
  function Scalars(toks: seq<string>): (r: seq<Value>)
    ensures |r| == |toks|
    ensures forall k :: 0 <= k < |toks| ==> r[k] == ScalarOf(toks[k])
  {
    seq(|toks|, k requires 0 <= k < |toks| => ScalarOf(toks[k]))
  }

  /** Items that are plain tokens are all kept, one scalar each. */
  lemma SimpleItemsOfTokens(toks: seq<string>)
    requires forall k :: 0 <= k < |toks| ==> toks[k] != [] && Strip(toks[k]) == toks[k]
    ensures Somes(SimpleItems(toks)) == Scalars(toks)
  {
    var xs := SimpleItems(toks);
    assert forall k :: 0 <= k < |xs| ==> xs[k] == Some(ScalarOf(toks[k]));
    SomesAllPresent(xs);
    assert Values(xs) == Scalars(toks);
  }

  /** Text between two non-space delimiters is its own strip, and its inner
      part is what lies between them. */
  lemma Wrapped(open: char, body: string, close: char)
    requires !IsSpace(open) && !IsSpace(close)
    ensures Strip([open] + body + [close]) == [open] + body + [close]
    ensures Inner([open] + body + [close]) == body
  {
    var t := [open] + body + [close];
    StripNoSpaceEnds(t);
    assert t[1..|t| - 1] == body;
  }

  /** A flat array of plain tokens (non-blank, already stripped, free of
      commas and brackets) reads back one scalar per token, in order. */
  lemma FlatArrayOfTokens(toks: seq<string>)
    requires toks != []
    requires forall k :: 0 <= k < |toks| ==>
      toks[k] != [] && Strip(toks[k]) == toks[k] && ',' !in toks[k] && '[' !in toks[k]
    ensures ArrayOf("[" + Join(",", toks) + "]") == Scalars(toks)
  {
    FlatArraySplit(toks);
    SimpleItemsOfTokens(toks);
  }

  /** A bracketed join of comma- and bracket-free parts is read by splitting
      its body back into those parts. */
  lemma FlatArraySplit(toks: seq<string>)
    requires toks != []
    requires forall k :: 0 <= k < |toks| ==> ',' !in toks[k] && '[' !in toks[k]
    ensures ArrayOf("[" + Join(",", toks) + "]") == Somes(SimpleItems(toks))
  {
    var body := Join(",", toks);
    SplitJoin(toks, ',');
    Wrapped('[', body, ']');
    NotInJoin(",", toks, '[');
    FlatArrayOf("[" + body + "]", body);
  }

  /** Without a `[` in the body, the array is read by a plain split on commas. */
  lemma FlatArrayOf(text: string, body: string)
    requires Inner(Strip(text)) == body && '[' !in body
    ensures ArrayOf(text) == Somes(SimpleItems(Split(body, ',')))
  {
  }

  /** Reading one more character adds its bracket delta to the depth. */
  lemma DepthSnoc(s: string, c: char)
    ensures Depth(s + [c]) == Depth(s) + BracketDelta(c)
  {
    assert (s + [c])[..|s|] == s;
  }

  /** A closed string has balanced brackets. */
  lemma ClosedDepth(s: string)
    requires Closed(s)
    ensures Depth(s) == 0
  {
    if s != [] {
      assert s[..|s| - 1] + [','] == s;
      DepthSnoc(s[..|s| - 1], ',');
    }
  }

  /** A top-level comma closes the current item: the text read so far is
      closed again and has gained exactly that item as a piece. */
  lemma CutAtComma(u: string, cut: nat, k: nat)
    requires cut <= k < |u| && u[k] == ','
    requires Closed(u[..cut]) && NoTopComma(u[cut..k]) && Depth(u[cut..k]) == 0
    ensures Closed(u[..k + 1])
    ensures TopPieces(u[..k + 1]) == TopPieces(u[..cut]) + [u[cut..k]]
  {
    var item := u[cut..k];
    assert IsTopComma(u[..k + 1], k) by {
      assert u[..k + 1][..k] == u[..cut] + item;
      DepthConcat(u[..cut], item);
      ClosedDepth(u[..cut]);
    }
    assert u[..k + 1] == u[..cut] + (item + [',']);
    TopPiecesConcat(u[..cut], item + [',']);
    OnePiece(item);
  }

  /** Before the scan nothing is read and nothing is produced. */
  lemma NestedStart(u: string)
    ensures Closed(u[..0]) && TopPieces(u[..0]) == []
  {
    assert u[..0] == [];
  }

  /** A character that is not a top-level comma extends the current item. */
  lemma ExtendItem(u: string, cut: nat, k: nat)
    requires cut <= k < |u| && NoTopComma(u[cut..k])
    requires u[k] != ',' || Depth(u[cut..k]) != 0
    ensures u[cut..k + 1] == u[cut..k] + [u[k]]
    ensures Depth(u[cut..k + 1]) == Depth(u[cut..k]) + BracketDelta(u[k])
    ensures NoTopComma(u[cut..k + 1])
  {
    assert u[cut..k + 1] == u[cut..k] + [u[k]];
    NoTopCommaSnoc(u[cut..k], u[k]);
    DepthSnoc(u[cut..k], u[k]);
  }

  /** Text after the last top-level comma adds no piece. */
  lemma OpenTail(u: string, cut: nat, k: nat)
    requires cut <= |u| && k == |u| && Closed(u[..cut]) && NoTopComma(u[cut..k])
    ensures TopPieces(u) == TopPieces(u[..cut])
  {
    assert u[cut..k] == u[cut..];
    assert u == u[..cut] + u[cut..];
    TopPiecesConcat(u[..cut], u[cut..]);
    NoPieces(u[cut..]);
  }

  /** `_parse_array`: the nested form scans the body, the flat form splits it. */
  method ParseArray(text: string) returns (r: seq<Value>)
    ensures r == ArrayOf(text)
    decreases |text|, 0
  {
    var t := Inner(Strip(text));
    if '[' in t {
      r := ParseNestedItems(t);
    } else {
      r := Somes(SimpleItems(Split(t, ',')));
    }
  }

  /** The nested form of `_parse_array`: the body is read character by
      character with a bracket-depth counter, and an item ends at a comma
      met at depth 0 (one is added after the body). */
  method ParseNestedItems(t: string) returns (r: seq<Value>)
    ensures r == NestedElements(TopPieces(t + [',']), |t| + 1)
    decreases |t| + 1, 2
  {
    r := [];
    var depth := 0;
    var item := "";
    var u := t + [','];
    var k := 0;
    ghost var cut := 0;
    NestedStart(u);
    while k < |u|
      invariant 0 <= cut <= k <= |u|
      invariant item == u[cut..k]
      invariant depth == Depth(item)
      invariant NoTopComma(item)
      invariant Closed(u[..cut])
      invariant r == NestedElements(TopPieces(u[..cut]), |u|)
    {
      var c := u[k];
      if c == ',' && depth == 0 {
        r := CloseItem(u, cut, k, item, r);
        item := "";
        cut := k + 1;
      } else {
        ExtendItem(u, cut, k);
        if c == '[' {
          depth := depth + 1;
        } else if c == ']' {
          depth := depth - 1;
        }
        item := item + [c];
      }
      k := k + 1;
    }
    OpenTail(u, cut, k);
  }

  /** The end of one item of a nested array body: its element, if any, is
      appended to the elements read so far. */
  method CloseItem(u: string, ghost cut: nat, k: nat, item: string, r: seq<Value>) returns (r': seq<Value>)
    requires cut <= k < |u| && u[k] == ',' && item == u[cut..k]
    requires Closed(u[..cut]) && NoTopComma(item) && Depth(item) == 0
    requires r == NestedElements(TopPieces(u[..cut]), |u|)
    ensures Closed(u[..k + 1])
    ensures r' == NestedElements(TopPieces(u[..k + 1]), |u|)
    decreases |u|, 1
  {
    var o := ParseArrayItem(item);
    CutAtComma(u, cut, k);
    NestedElementsSnoc(TopPieces(u[..cut]), item, |u|);
    if o.Some? {
      r' := r + [o.value];
    } else {
      r' := r;
    }
  }

  /** One item of a nested array body, the array parsed recursively. */
  method ParseArrayItem(p: string) returns (o: Option<Value>)
    ensures o == ArrayItem(p)
    decreases |p|, 1
  {
    var s := Strip(p);
    if s == [] {
      return None;
    }
    if s[0] == '[' {
      var sub := ParseArray(s);
      return Some(Arr(sub));
    }
    return Some(ScalarOf(s));
  }

  // ---------------------------------------------------------------------
  // _parse_inline_object
  // ---------------------------------------------------------------------

  /** The assignment one `key: value` pair makes: the pair is cut at its
      first `:`, the key stripped, the value read as a scalar. */
  function PairOf(pair: string): (w: (string, Value))
    requires ':' in pair
    ensures ':' !in w.0 && !w.1.Obj? && !w.1.Arr?
  {
    var i := IndexOf(pair, ':');
    StripInside(pair[..i]);
    (Strip(pair[..i]), ScalarOf(Strip(pair[i + 1..])))
  }

  /** The assignments a list of pairs makes, in order; pairs without `:` make none. */
  function PairWrites(pairs: seq<string>): (ws: seq<(string, Value)>)
    ensures |ws| <= |pairs|
  {
    if pairs == [] then []
    else
      var pair := pairs[|pairs| - 1];
      PairWrites(pairs[..|pairs| - 1]) + if ':' in pair then [PairOf(pair)] else []
  }

  /** `_parse_inline_object`: `{k: v, ...}` split at every comma, each pair at
      its first colon, values read as scalars, later keys overwriting earlier. */
  function InlineObjectOf(text: string): (r: seq<(string, Value)>)
    ensures UniqueKeys(r)
  {
    Assign(PairWrites(Split(Inner(Strip(text)), ',')))
  }

  /** Every assignment comes from one pair of the list that holds a `:`. */
  lemma {:induction false} PairWritesFrom(pairs: seq<string>)
    ensures forall w :: w in PairWrites(pairs) ==>
      exists k :: 0 <= k < |pairs| && ':' in pairs[k] && w == PairOf(pairs[k])
  {
    if pairs != [] {
      var pre := pairs[..|pairs| - 1];
      PairWritesFrom(pre);
      forall w | w in PairWrites(pairs)
        ensures exists k :: 0 <= k < |pairs| && ':' in pairs[k] && w == PairOf(pairs[k])
      {
        if w in PairWrites(pre) {
          var k :| 0 <= k < |pre| && ':' in pre[k] && w == PairOf(pre[k]);
          assert pairs[k] == pre[k];
        } else {
          assert w == PairOf(pairs[|pairs| - 1]);
        }
      }
    }
  }

  /** Keys of an inline object hold no `,` or `:`, and its values are scalars. */
  lemma InlineObjectShape(text: string)
    ensures forall e :: e in InlineObjectOf(text) ==>
      ',' !in e.0 && ':' !in e.0 && !e.1.Obj? && !e.1.Arr?
  {
    var pairs := Split(Inner(Strip(text)), ',');
    var ws := PairWrites(pairs);
    PairWritesFrom(pairs);
    forall w | w in ws ensures ',' !in w.0 {
      var k :| 0 <= k < |pairs| && ':' in pairs[k] && w == PairOf(pairs[k]);
      StripInside(pairs[k][..IndexOf(pairs[k], ':')]);
      assert ',' !in pairs[k];
    }
    AssignFrom(ws);
  }

  /** The value an inline object holds under a key is the one of the last pair
      with that key. */
  lemma InlineObjectLastPairWins(text: string, j: nat)
    requires var ws := PairWrites(Split(Inner(Strip(text)), ','));
      j < |ws| && forall j' :: j < j' < |ws| ==> ws[j'].0 != ws[j].0
    ensures var ws := PairWrites(Split(Inner(Strip(text)), ','));
      Lookup(InlineObjectOf(text), ws[j].0) == Some(ws[j].1)
  {
    LastWriteWins(PairWrites(Split(Inner(Strip(text)), ',')), j);
  }

  /** Every entry of an assigned dict is one of the assignments made. */
  lemma {:induction false} AssignFrom(ws: seq<(string, Value)>)
    ensures forall e :: e in Assign(ws) ==> e in ws
  {
    if ws != [] {
      var pre := ws[..|ws| - 1];
      var last := ws[|ws| - 1];
      AssignFrom(pre);
      assert ws == pre + [last];
      forall e | e in Assign(ws) ensures e in ws {
        var i :| 0 <= i < |Assign(ws)| && Assign(ws)[i] == e;
        PutFrom(Assign(pre), last.0, last.1, i);
      }
    }
  }

  /** An entry of `Put(d, k, v)` is `(k, v)` or an entry of `d` at the same place. */
  lemma PutFrom(d: seq<(string, Value)>, k: string, v: Value, i: nat)
    requires UniqueKeys(d) && i < |Put(d, k, v)|
    ensures Put(d, k, v)[i] == (k, v) || (i < |d| && Put(d, k, v)[i] == d[i])
  {
  }

  /** `_parse_inline_object`, pair by pair. */
  method ParseInlineObject(text: string) returns (r: seq<(string, Value)>)
    ensures r == InlineObjectOf(text)
  {
    var t := Inner(Strip(text));
    r := [];
    var pairs := Split(t, ',');
    var k := 0;
    while k < |pairs|
      invariant 0 <= k <= |pairs|
      invariant r == Assign(PairWrites(pairs[..k]))
    {
      var pair := pairs[k];
      PairWritesSnoc(pairs, k);
      if ':' in pair {
        var kv := PairOf(pair);
        assert PairWrites(pairs[..k + 1]) == PairWrites(pairs[..k]) + [kv];
        AssignSnoc(PairWrites(pairs[..k]), kv);
        r := Put(r, kv.0, kv.1);
      } else {
        assert PairWrites(pairs[..k + 1]) == PairWrites(pairs[..k]);
      }
      k := k + 1;
    }
    assert pairs[..k] == pairs;
  }

  lemma PairWritesSnoc(pairs: seq<string>, k: nat)
    requires k < |pairs|
    ensures PairWrites(pairs[..k + 1]) ==
      PairWrites(pairs[..k]) + if ':' in pairs[k] then [PairOf(pairs[k])] else []
  {
    assert pairs[..k + 1][..k] == pairs[..k];
  }

  // ---------------------------------------------------------------------
  // _parse_value
  // ---------------------------------------------------------------------

  predicate Delimited(v: string, open: char, close: char)
  {
    v != [] && v[0] == open && v[|v| - 1] == close
  }

  /** The implicit list form: a comma anywhere, or a space in text that does
      not start with a double quote. */
  predicate IsImplicitList(v: string)
  {
    ',' in v || (' ' in v && !(v != [] && v[0] == '"'))
  }

  /** The elements of an implicit list: one scalar per token. */
  function ListOf(v: string): (r: seq<Value>)
    ensures |r| == |Tokens(v)|
  {
    var toks := Tokens(v);
    seq(|toks|, k requires 0 <= k < |toks| => ScalarOf(toks[k]))
  }

  /** `_parse_value`. The first form that matches wins: inline object, then
      bracketed array, then implicit list, then scalar. */
  function ValueOf(text: string): Value
  {
    var v := Strip(text);
    if Delimited(v, '{', '}') then Obj(InlineObjectOf(v))
    else if Delimited(v, '[', ']') then Arr(ArrayOf(v))
    else if IsImplicitList(v) then Arr(ListOf(v))
    else ScalarOf(v)
  }

  /** Which form a value takes: an object exactly for `{...}`, an array
      exactly for `[...]` or an implicit list, and otherwise the scalar
      reading of the stripped text. */
  lemma ValueForms(text: string)
    ensures var v := Strip(text); var r := ValueOf(text);
      && (r.Obj? <==> Delimited(v, '{', '}'))
      && (r.Arr? <==> !Delimited(v, '{', '}') && (Delimited(v, '[', ']') || IsImplicitList(v)))
      && (!r.Obj? && !r.Arr? ==> r == ScalarOf(v))
  {
  }

  /** An implicit list never holds an empty item: every element is the scalar
      reading of a non-empty token free of commas and whitespace. */
  lemma ImplicitListItems(text: string)
    requires var v := Strip(text);
      !Delimited(v, '{', '}') && !Delimited(v, '[', ']') && IsImplicitList(v)
    ensures var v := Strip(text); var toks := Tokens(v);
      ValueOf(text) == Arr(ListOf(v)) &&
      forall k :: 0 <= k < |toks| ==>
        ListOf(v)[k] == ScalarOf(toks[k]) && toks[k] != [] &&
        forall i :: 0 <= i < |toks[k]| ==> toks[k][i] != ',' && !IsSpace(toks[k][i])
  {
  }

  /** `_parse_value`, calling the array and object parsers. */
  method ParseValue(value: string) returns (r: Value)
    ensures r == ValueOf(value)
  {
    var v := Strip(value);
    if Delimited(v, '{', '}') {
      var o := ParseInlineObject(v);
      return Obj(o);
    }
    if Delimited(v, '[', ']') {
      var a := ParseArray(v);
      return Arr(a);
    }
    if IsImplicitList(v) {
      return Arr(ListOf(v));
    }
    return ScalarOf(v);
  }
}
