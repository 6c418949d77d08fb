/** The values a document holds, and the reading of one scalar token
    (`_parse_simple_value`): quotes, keywords, numbers, else the text. */
module NdfValue {
  import opened NdfText

  /** A parsed value. Python's `dict` becomes `Obj` (pairs in insertion
      order, keys unique), `list` becomes `Arr`. A float is kept as the
      literal text that Python's `float()` accepted. */
  datatype Value =
    | Null
    | Bool(b: bool)
    | Int(i: int)
    | Float(lit: string)
    | Str(s: string)
    | Obj(entries: seq<(string, Value)>)
    | Arr(items: seq<Value>)

  function Sum(xs: seq<nat>): nat
  {
    if xs == [] then 0 else Sum(xs[..|xs| - 1]) + xs[|xs| - 1]
  }

  /** Number of nodes of a value; the termination measure of the walks over trees. */
  function Size(v: Value): (n: nat)
    ensures n >= 1
    decreases v
  {
    match v
    case Obj(es) => Sum(seq(|es|, i requires 0 <= i < |es| => Size(es[i].1))) + 1
    case Arr(xs) => Sum(seq(|xs|, i requires 0 <= i < |xs| => Size(xs[i]))) + 1
    case _ => 1
  }

  function EntriesSize(es: seq<(string, Value)>): (n: nat)
    ensures Size(Obj(es)) == n + 1
  {
    Sum(seq(|es|, i requires 0 <= i < |es| => Size(es[i].1)))
  }

  function ItemsSize(xs: seq<Value>): (n: nat)
    ensures Size(Arr(xs)) == n + 1
  {
    Sum(seq(|xs|, i requires 0 <= i < |xs| => Size(xs[i])))
  }

  /** The size of a list of entries is the size of all but the last plus the last. */
  lemma EntriesSizeSnoc(es: seq<(string, Value)>)
    requires es != []
    ensures EntriesSize(es) == EntriesSize(es[..|es| - 1]) + Size(es[|es| - 1].1)
  {
    var m := seq(|es|, i requires 0 <= i < |es| => Size(es[i].1));
    assert m[..|m| - 1] == seq(|es| - 1, i requires 0 <= i < |es| - 1 => Size(es[..|es| - 1][i].1));
  }

  lemma ItemsSizeSnoc(xs: seq<Value>)
    requires xs != []
    ensures ItemsSize(xs) == ItemsSize(xs[..|xs| - 1]) + Size(xs[|xs| - 1])
  {
    var m := seq(|xs|, i requires 0 <= i < |xs| => Size(xs[i]));
    assert m[..|m| - 1] == seq(|xs| - 1, i requires 0 <= i < |xs| - 1 => Size(xs[..|xs| - 1][i]));
  }

  predicate IsDigit(c: char)
  {
    '0' <= c <= '9'
  }

  predicate AllDigits(s: string)
  {
    forall i :: 0 <= i < |s| ==> IsDigit(s[i])
  }

  /** Value of a string of decimal digits. */
  function DigitsValue(s: string): nat
    requires AllDigits(s)
  {
    if s == [] then 0 else DigitsValue(s[..|s| - 1]) * 10 + (s[|s| - 1] as int - '0' as int)
  }

  predicate IsSign(c: char)
  {
    c == '+' || c == '-'
  }

  /** The text after an optional leading sign. */
  function Unsigned(t: string): string
  {
    if t != [] && IsSign(t[0]) then t[1..] else t
  }

  /** What Python's `int()` accepts once the text is stripped: an optional
      sign and at least one ASCII digit. */
  predicate IsIntLiteral(t: string)
  {
    Unsigned(t) != [] && AllDigits(Unsigned(t))
  }

  function IntValue(t: string): int
    requires IsIntLiteral(t)
  {
    if t[0] == '-' then 0 - DigitsValue(t[1..]) else DigitsValue(Unsigned(t))
  }

  /** A decimal mantissa: digits with at most one `.`, and at least one digit. */
  predicate IsMantissa(m: string)
  {
    if '.' in m then
      var d := IndexOf(m, '.');
      AllDigits(m[..d]) && AllDigits(m[d + 1..]) && |m| >= 2
    else m != [] && AllDigits(m)
  }

  /** What Python's `float()` accepts once the text is stripped, for text that
      contains a `.` or an `e`: an optional sign, a mantissa and an optional
      exponent `e`/`E` with optional sign and digits. */
  predicate IsFloatLiteral(t: string)
  {
    var u := Unsigned(t);
    if 'e' in Lower(u) then
      var x := IndexOf(Lower(u), 'e');
      IsMantissa(u[..x]) && IsIntLiteral(u[x + 1..])
    else IsMantissa(u)
  }

  /** Wrapped in a matching pair of `"` or of `'` (one character counts). */
  predicate IsQuoted(t: string)
  {
    t != [] && ((t[0] == '"' && t[|t| - 1] == '"') || (t[0] == '\'' && t[|t| - 1] == '\''))
  }

  /** Python's `t[1:-1]`. */
  function Inner(t: string): (r: string)
    ensures |t| >= 2 ==> r == t[1..|t| - 1]
    ensures |t| < 2 ==> r == []
  {
    if |t| >= 2 then t[1..|t| - 1] else ""
  }

  predicate IsTrueWord(t: string)
  {
    Lower(t) == "yes" || Lower(t) == "true"
  }

  predicate IsFalseWord(t: string)
  {
    Lower(t) == "no" || Lower(t) == "false"
  }

  predicate IsNullWord(t: string)
  {
    Lower(t) == "null" || Lower(t) == "none" || Lower(t) == "-"
  }

  /** True when the text goes to Python's `float()` rather than `int()`. */
  predicate LooksFractional(t: string)
  {
    '.' in t || 'e' in Lower(t)
  }

  /** `_parse_simple_value`: one scalar token. Quotes are removed without
      decoding anything inside; keywords are case-insensitive; a numeric
      conversion that fails leaves the text as it is. */
  function ScalarOf(value: string): (r: Value)
    ensures !r.Obj? && !r.Arr?
  {
    var t := Strip(value);
    if IsQuoted(t) then Str(Inner(t))
    else if IsTrueWord(t) then Bool(true)
    else if IsFalseWord(t) then Bool(false)
    else if IsNullWord(t) then Null
    else if LooksFractional(t) then
      if IsFloatLiteral(t) then Float(t) else Str(t)
    else if IsIntLiteral(t) then Int(IntValue(t))
    else Str(t)
  }

  /** What each kind of scalar result says about the token: a string is the
      text between the quotes or the whole token, a number is one Python's
      `int()` or `float()` accepts, and a keyword's spelling is recognised.
      Conversely, an unquoted token that is no keyword and that `int()` or
      `float()` accepts is read as that number. */
  lemma ScalarKinds(value: string)
    ensures var t := Strip(value); var r := ScalarOf(value);
      && (r.Str? ==> r.s == if IsQuoted(t) then Inner(t) else t)
      && (r.Int? ==> IsIntLiteral(t) && r.i == IntValue(t) && !LooksFractional(t))
      && (r.Float? ==> IsFloatLiteral(t) && r.lit == t && LooksFractional(t))
      && (r.Bool? ==> !IsQuoted(t) && r.b == IsTrueWord(t) && IsKeyword(t))
      && (r.Null? ==> !IsQuoted(t) && IsNullWord(t))
    ensures var t := Strip(value);
      && (!IsQuoted(t) && !IsKeyword(t) && !LooksFractional(t) && IsIntLiteral(t) ==>
            ScalarOf(value) == Int(IntValue(t)))
      && (!IsQuoted(t) && !IsKeyword(t) && LooksFractional(t) && IsFloatLiteral(t) ==>
            ScalarOf(value) == Float(t))
  {
  }

  /** A quoted token yields exactly the text between the quotes: no escape
      sequence is decoded and no keyword or number is recognised inside. */
  lemma QuotedTokenVerbatim(s: string, q: char)
    requires q == '"' || q == '\''
    ensures ScalarOf([q] + s + [q]) == Str(s)
  {
    var t := [q] + s + [q];
    assert !IsSpace(t[0]) && !IsSpace(t[|t| - 1]);
    StripNoSpaceEnds(t);
    assert IsQuoted(t);
    assert t[1..|t| - 1] == s;
  }

  /** A spelling read as a boolean or as null. */
  predicate IsKeyword(t: string)
  {
    IsTrueWord(t) || IsFalseWord(t) || IsNullWord(t)
  }

  /** A keyword never starts with a quote character. */
  lemma KeywordNotQuoted(t: string)
    requires IsKeyword(t)
    ensures !IsQuoted(t)
  {
    assert Lower(t)[0] == LowerChar(t[0]);
    assert Lower(t)[0] != '"' && Lower(t)[0] != '\'';
  }

  /** Keywords are read case-insensitively: two spellings that differ only in
      letter case give the same value. */
  lemma KeywordsIgnoreCase(t: string, u: string)
    requires Strip(t) == t && Strip(u) == u
    requires IsKeyword(t) && Lower(t) == Lower(u)
    ensures ScalarOf(t) == ScalarOf(u)
    ensures ScalarOf(t) == if IsTrueWord(t) then Bool(true) else if IsFalseWord(t) then Bool(false) else Null
  {
    KeywordNotQuoted(t);
    KeywordNotQuoted(u);
  }

  /** A token that is neither quoted, a keyword, nor a number Python can
      convert comes back as the same text. */
  lemma UnconvertedTokenKept(t: string)
    requires Strip(t) == t && !IsQuoted(t) && !IsKeyword(t)
    requires LooksFractional(t) ==> !IsFloatLiteral(t)
    requires !LooksFractional(t) ==> !IsIntLiteral(t)
    ensures ScalarOf(t) == Str(t)
  {
  }
}
