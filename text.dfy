/** String primitives of the format, with the meaning Python's `str` methods
    give them: whitespace, strip, first index, split on one character, join,
    and the split on runs of commas and whitespace used for implicit lists. */
module NdfText {

  /** Python's `str.isspace()` for a single character. */
  predicate IsSpace(c: char)
  {
    var n := c as int;
    (9 <= n <= 13) || (28 <= n <= 32) || n == 0x85 || n == 0xA0 || n == 0x1680
    || (0x2000 <= n <= 0x200A) || n == 0x2028 || n == 0x2029 || n == 0x202F
    || n == 0x205F || n == 0x3000
  }

  /** True when every character of `s` is whitespace (Python: `not s.strip()`). */
  predicate IsBlank(s: string)
  {
    forall i :: 0 <= i < |s| ==> IsSpace(s[i])
  }

  /** `s.lstrip()`: drops the longest all-whitespace prefix. */
  function LStrip(s: string): (r: string)
    ensures |r| <= |s|
  {
    if s != [] && IsSpace(s[0]) then LStrip(s[1..]) else s
  }

  /** What `lstrip` leaves is a suffix that starts with non-whitespace, and
      what it drops is all whitespace. */
  lemma {:induction false} LStripSpec(s: string)
    ensures LStrip(s) == s[|s| - |LStrip(s)|..]
    ensures LStrip(s) == [] || !IsSpace(LStrip(s)[0])
    ensures IsBlank(s[..|s| - |LStrip(s)|])
  {
    if s != [] && IsSpace(s[0]) {
      LStripSpec(s[1..]);
      var r := LStrip(s);
      assert s[1..][..|s[1..]| - |r|] == s[1..|s| - |r|];
    }
  }

  /** `s.rstrip()`: drops the longest all-whitespace suffix. */
  function RStrip(s: string): (r: string)
    ensures |r| <= |s|
  {
    if s != [] && IsSpace(s[|s| - 1]) then RStrip(s[..|s| - 1]) else s
  }

  /** What `rstrip` leaves is a prefix that ends with non-whitespace, and
      what it drops is all whitespace. */
  lemma {:induction false} RStripSpec(s: string)
    ensures RStrip(s) == s[..|RStrip(s)|]
    ensures RStrip(s) == [] || !IsSpace(RStrip(s)[|RStrip(s)| - 1])
    ensures IsBlank(s[|RStrip(s)|..])
  {
    if s != [] && IsSpace(s[|s| - 1]) {
      RStripSpec(s[..|s| - 1]);
      var r := RStrip(s);
      assert s[..|s| - 1][|r|..] + [s[|s| - 1]] == s[|r|..];
    }
  }

  /** `s.strip()`: drops whitespace on both ends. */
  function Strip(s: string): (r: string)
    ensures |r| <= |s|
  {
    RStrip(LStrip(s))
  }

  /** Where the text `strip` keeps starts in `s`. */
  function StripStart(s: string): (a: nat)
    ensures a + |Strip(s)| <= |s|
  {
    |s| - |LStrip(s)|
  }

  /** `strip` leaves a slice of `s` with non-whitespace ends, and leaves
      nothing exactly when `s` is all whitespace. */
  lemma StripSpec(s: string)
    ensures var r := Strip(s);
      && (r == [] || (!IsSpace(r[0]) && !IsSpace(r[|r| - 1])))
      && (r == [] <==> IsBlank(s))
      && r == s[StripStart(s)..StripStart(s) + |r|]
  {
    var l := LStrip(s);
    var r := RStrip(l);
    LStripSpec(s);
    RStripSpec(l);
    var a := |s| - |l|;
    if r != [] {
      assert r[0] == l[0];
      assert r[0] == s[a];
    } else {
      assert l == [];
      assert s == s[..a];
    }
  }

  /** Every character `strip` keeps is a character of `s`. */
  lemma StripInside(s: string)
    ensures forall c :: c in Strip(s) ==> c in s
  {
    StripSpec(s);
    var r := Strip(s);
    var a := StripStart(s);
    forall c | c in r ensures c in s {
      var i :| 0 <= i < |r| && r[i] == c;
      assert s[a + i] == c;
    }
  }

  /** A string that already starts and ends with non-whitespace is its own strip. */
  lemma StripNoSpaceEnds(s: string)
    requires s == [] || (!IsSpace(s[0]) && !IsSpace(s[|s| - 1]))
    ensures Strip(s) == s
  {
  }

  /** Leading spaces in front of an already stripped string are dropped by strip. */
  lemma StripPadded(pad: string, s: string)
    requires IsBlank(pad)
    requires s != [] && !IsSpace(s[0]) && !IsSpace(s[|s| - 1])
    ensures LStrip(pad + s) == s
    ensures Strip(pad + s) == s
  {
    LStripPadded(pad, s);
    assert RStrip(s) == s;
  }

  lemma {:induction false} LStripPadded(pad: string, s: string)
    requires IsBlank(pad)
    requires s != [] && !IsSpace(s[0])
    ensures LStrip(pad + s) == s
  {
    if pad != [] {
      assert (pad + s)[0] == pad[0];
      assert (pad + s)[1..] == pad[1..] + s;
      LStripPadded(pad[1..], s);
    } else {
      assert pad + s == s;
    }
  }

  /** A string of `n` blanks (Python: `' ' * n`). */
  function Spaces(n: nat): (r: string)
    ensures |r| == n && IsBlank(r)
    ensures forall i :: 0 <= i < n ==> r[i] == ' '
  {
    if n == 0 then [] else Spaces(n - 1) + [' ']
  }

  /** ASCII lower case (Python's `str.lower()` restricted to ASCII letters). */
  function LowerChar(c: char): char
  {
    if 'A' <= c <= 'Z' then (c as int + 32) as char else c
  }

  function Lower(s: string): (r: string)
    ensures |r| == |s|
  {
    seq(|s|, i requires 0 <= i < |s| => LowerChar(s[i]))
  }

  /** `s.index(c)`: position of the first occurrence. */
  function IndexOf(s: string, c: char): (i: nat)
    requires c in s
    ensures i < |s| && s[i] == c && c !in s[..i]
  {
    if s[0] == c then 0 else IndexOf(s[1..], c) + 1
  }

  /** `sep.join(parts)`. */
  function Join(sep: string, parts: seq<string>): (r: string)
  {
    if |parts| == 0 then ""
    else if |parts| == 1 then parts[0]
    else parts[0] + sep + Join(sep, parts[1..])
  }

  /** Joining one more part at the end adds a separator and that part. */
  lemma {:induction false} JoinAppend(sep: string, parts: seq<string>, x: string)
    requires parts != []
    ensures Join(sep, parts + [x]) == Join(sep, parts) + sep + x
  {
    if |parts| > 1 {
      assert (parts + [x])[1..] == parts[1..] + [x];
      JoinAppend(sep, parts[1..], x);
    }
  }

  /** Joining two non-empty lists puts one separator between the halves. */
  lemma {:induction false} JoinConcat(sep: string, a: seq<string>, b: seq<string>)
    requires a != [] && b != []
    ensures Join(sep, a + b) == Join(sep, a) + sep + Join(sep, b)
  {
    if |a| == 1 {
      assert (a + b)[1..] == b;
    } else {
      assert (a + b)[1..] == a[1..] + b;
      JoinConcat(sep, a[1..], b);
    }
  }

  /** `s.split(c)` for a one-character separator: the pieces between every
      occurrence of `c`; there is always at least one piece. */
  function Split(s: string, c: char): (r: seq<string>)
    ensures |r| >= 1
    ensures forall k :: 0 <= k < |r| ==> c !in r[k]
    ensures Join([c], r) == s
    decreases |s|
  {
    if c !in s then [s]
    else
      var i := IndexOf(s, c);
      var rest := Split(s[i + 1..], c);
      assert s == s[..i] + [c] + s[i + 1..];
      [s[..i]] + rest
  }

  /** The first `c` in `a + [c] + b` is the one right after `a` when `a` has none. */
  lemma {:induction false} IndexOfAfter(a: string, c: char, b: string)
    requires c !in a
    ensures c in a + [c] + b && IndexOf(a + [c] + b, c) == |a|
  {
    assert (a + [c] + b)[|a|] == c;
    if a != [] {
      assert (a + [c] + b)[1..] == a[1..] + [c] + b;
      IndexOfAfter(a[1..], c, b);
    }
  }

  /** Splitting a join of separator-free parts gives the parts back. */
  lemma {:induction false} SplitJoin(parts: seq<string>, c: char)
    requires parts != []
    requires forall k :: 0 <= k < |parts| ==> c !in parts[k]
    ensures Split(Join([c], parts), c) == parts
  {
    if |parts| > 1 {
      var rest := Join([c], parts[1..]);
      var s := parts[0] + [c] + rest;
      assert Join([c], parts) == s;
      IndexOfAfter(parts[0], c, rest);
      assert s[..|parts[0]|] == parts[0];
      assert s[|parts[0]| + 1..] == rest;
      SplitJoin(parts[1..], c);
      assert Split(s, c) == [parts[0]] + Split(rest, c);
      assert parts == [parts[0]] + parts[1..];
    }
  }

  /** A separator of the implicit list form: a comma or any whitespace. */
  predicate IsListSep(c: char)
  {
    c == ',' || IsSpace(c)
  }

  /** Length of the longest prefix of `s` free of list separators. */
  function RunLength(s: string): (k: nat)
    ensures k <= |s|
    ensures forall i :: 0 <= i < k ==> !IsListSep(s[i])
    ensures k == |s| || IsListSep(s[k])
  {
    if s == [] || IsListSep(s[0]) then 0 else RunLength(s[1..]) + 1
  }

  /** The maximal runs of non-separator characters of `s`, in order: what
      Python's `re.split(r'[,\s]+', s)` gives once empty pieces are dropped. */
  function Tokens(s: string): (r: seq<string>)
    ensures forall k :: 0 <= k < |r| ==> r[k] != []
    ensures forall k, i :: 0 <= k < |r| && 0 <= i < |r[k]| ==> !IsListSep(r[k][i])
    decreases |s|
  {
    if s == [] then []
    else if IsListSep(s[0]) then Tokens(s[1..])
    else
      var n := RunLength(s);
      [s[..n]] + Tokens(s[n..])
  }

  /** A join starts with the first character of the first part. */
  lemma JoinFirst(sep: string, parts: seq<string>)
    requires parts != [] && parts[0] != []
    ensures Join(sep, parts) != [] && Join(sep, parts)[0] == parts[0][0]
  {
  }

  /** A join ends with the last character of the last part. */
  lemma {:induction false} JoinLast(sep: string, parts: seq<string>)
    requires parts != [] && parts[|parts| - 1] != []
    ensures var r := Join(sep, parts); var p := parts[|parts| - 1];
      r != [] && r[|r| - 1] == p[|p| - 1]
  {
    if |parts| > 1 {
      JoinLast(sep, parts[1..]);
    }
  }

  /** A separator-free word followed by a separator (or nothing) is one run. */
  lemma {:induction false} RunLengthWord(p: string, rest: string)
    requires forall i :: 0 <= i < |p| ==> !IsListSep(p[i])
    requires rest == [] || IsListSep(rest[0])
    ensures RunLength(p + rest) == |p|
  {
    if p == [] {
      assert p + rest == rest;
    } else {
      assert (p + rest)[1..] == p[1..] + rest;
      RunLengthWord(p[1..], rest);
    }
  }

  /** A separator-free word in front of the rest is the first token. */
  lemma TokensWord(p: string, rest: string)
    requires p != [] && forall i :: 0 <= i < |p| ==> !IsListSep(p[i])
    requires rest == [] || IsListSep(rest[0])
    ensures Tokens(p + rest) == [p] + Tokens(rest)
  {
    RunLengthWord(p, rest);
    var s := p + rest;
    assert s[..|p|] == p;
    assert s[|p|..] == rest;
  }

  /** A non-empty list is its first element in front of the rest. */
  lemma HeadTail<T>(d: seq<T>)
    requires d != []
    ensures d == [d[0]] + d[1..]
  {
  }

  /** Splitting `", ".join(parts)` into tokens gives the parts back, when the
      parts are non-empty and free of commas and whitespace. */
  lemma {:induction false} TokensJoin(parts: seq<string>)
    requires parts != []
    requires forall k :: 0 <= k < |parts| ==> parts[k] != []
    requires forall k, i :: 0 <= k < |parts| && 0 <= i < |parts[k]| ==> !IsListSep(parts[k][i])
    ensures Tokens(Join(", ", parts)) == parts
  {
    if |parts| == 1 {
      TokensWord(parts[0], []);
      assert parts[0] + [] == parts[0];
    } else {
      var j := Join(", ", parts[1..]);
      assert Join(", ", parts) == parts[0] + (", " + j);
      TokensWord(parts[0], ", " + j);
      assert (", " + j)[1..] == " " + j;
      assert (" " + j)[1..] == j;
      assert Tokens(", " + j) == Tokens(" " + j) == Tokens(j);
      TokensJoin(parts[1..]);
      HeadTail(parts);
    }
  }

  /** A character of a join is a character of the separator or of a part. */
  lemma {:induction false} InJoin(sep: string, parts: seq<string>, c: char)
    requires c in Join(sep, parts)
    ensures c in sep || exists k :: 0 <= k < |parts| && c in parts[k]
  {
    if |parts| > 1 {
      var rest := Join(sep, parts[1..]);
      assert Join(sep, parts) == parts[0] + sep + rest;
      if c in rest {
        InJoin(sep, parts[1..], c);
        if c !in sep {
          var k :| 0 <= k < |parts[1..]| && c in parts[1..][k];
          assert parts[k + 1] == parts[1..][k];
        }
      }
    }
  }

  /** A character in neither the separator nor any part is not in the join. */
  lemma NotInJoin(sep: string, parts: seq<string>, c: char)
    requires c !in sep && forall k :: 0 <= k < |parts| ==> c !in parts[k]
    ensures c !in Join(sep, parts)
  {
    if c in Join(sep, parts) {
      InJoin(sep, parts, c);
      assert false;
    }
  }
}
