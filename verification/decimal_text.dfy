/**
 * Decimal literals as text.
 *
 * The calculator turns strings into decimal numbers with Python's
 * `Decimal(str)`. This module models that conversion over exact rationals:
 * surrounding whitespace is ignored, then an optional sign, then digits
 * with at most one decimal point and at least one digit. Anything else is
 * a failed conversion (`None`), which the callers turn into a default.
 */
module DecimalText {
  import opened Wrappers

  // ---------------------------------------------------------------------
  // Characters and trimming
  // ---------------------------------------------------------------------

  /** The characters Python's `str.strip()` (and `Decimal(str)`) treat as whitespace. */
  predicate IsSpace(c: char) {
    || ('\U{9}' <= c <= '\U{D}')
    || ('\U{1C}' <= c <= '\U{20}')
    || c == '\U{85}' || c == '\U{A0}' || c == '\U{1680}'
    || ('\U{2000}' <= c <= '\U{200A}')
    || c == '\U{2028}' || c == '\U{2029}' || c == '\U{202F}'
    || c == '\U{205F}' || c == '\U{3000}'
  }

  /** Drops leading whitespace: the result is the suffix of `s` that starts at its first non-space character. */
  function TrimLeft(s: string): (r: string)
    ensures |r| <= |s| && r == s[|s| - |r|..]
    ensures forall i :: 0 <= i < |s| - |r| ==> IsSpace(s[i])
    ensures r == [] || !IsSpace(r[0])
  {
    if |s| > 0 && IsSpace(s[0]) then TrimLeft(s[1..]) else s
  }

  /** Drops trailing whitespace: the result is the prefix of `s` that ends at its last non-space character. */
  function TrimRight(s: string): (r: string)
    ensures |r| <= |s| && r == s[..|r|]
    ensures forall i :: |r| <= i < |s| ==> IsSpace(s[i])
    ensures r == [] || !IsSpace(r[|r| - 1])
  {
    if |s| > 0 && IsSpace(s[|s| - 1]) then TrimRight(s[..|s| - 1]) else s
  }

  /** Every character of `p` is whitespace. */
  predicate AllSpace(p: string) {
    forall k :: 0 <= k < |p| ==> IsSpace(p[k])
  }

  /** `r` is `s` with a run of whitespace cut off its start and one off its end, and nothing else changed. */
  ghost predicate IsMiddle(r: string, s: string) {
    exists lead, trail :: s == lead + r + trail && AllSpace(lead) && AllSpace(trail)
  }

  /**
   * Python's `str.strip()` with no argument: the middle of `s` between a
   * run of leading and a run of trailing whitespace, kept as it is
   * (`TrimIsMiddle`).
   */
  function Trim(s: string): (r: string)
    ensures r == [] || (!IsSpace(r[0]) && !IsSpace(r[|r| - 1]))
  {
    TrimRight(TrimLeft(s))
  }

  /** Trimming cuts only whitespace, and only from the two ends. */
  lemma TrimIsMiddle(s: string)
    ensures IsMiddle(Trim(s), s)
  {
    var l := TrimLeft(s);
    MiddleOf(s, l, TrimRight(l));
  }

  /** A prefix `r` of a suffix `l` of `s`, with only whitespace cut off either end, is a middle slice of `s`. */
  lemma MiddleOf(s: string, l: string, r: string)
    requires |l| <= |s| && l == s[|s| - |l|..]
    requires forall k :: 0 <= k < |s| - |l| ==> IsSpace(s[k])
    requires |r| <= |l| && r == l[..|r|]
    requires forall k :: |r| <= k < |l| ==> IsSpace(l[k])
    ensures IsMiddle(r, s)
  {
    var i := |s| - |l|;
    var j := i + |r|;
    assert r == s[i..j];
    forall k | j <= k < |s| ensures IsSpace(s[k]) {
      assert s[k] == l[k - i];
    }
    assert s == s[..i] + r + s[j..];
    assert AllSpace(s[..i]) && AllSpace(s[j..]);
  }

  /** A string that neither starts nor ends with whitespace is its own trim. */
  lemma TrimOfTrimmed(s: string)
    requires s == [] || (!IsSpace(s[0]) && !IsSpace(s[|s| - 1]))
    ensures Trim(s) == s
  {
    var l := TrimLeft(s);
    if |l| < |s| {
      assert IsSpace(s[0]);
    }
    assert l == s;
  }

  /** Trimming only removes characters. */
  lemma TrimKeepsAbsent(s: string, c: char)
    requires c !in s
    ensures c !in Trim(s)
  {
    var l := TrimLeft(s);
    assert c !in l;
  }

  /** Trimming keeps every occurrence of every non-space character. */
  lemma TrimKeepsCount(s: string)
    ensures forall x :: !IsSpace(x) ==> multiset(Trim(s))[x] == multiset(s)[x]
  {
    TrimIsMiddle(s);
    var lead, trail :| s == lead + Trim(s) + trail && AllSpace(lead) && AllSpace(trail);
    forall x | !IsSpace(x) ensures multiset(Trim(s))[x] == multiset(s)[x] {
      AllSpaceLacks(lead, x);
      AllSpaceLacks(trail, x);
    }
  }

  /** A run of whitespace holds no non-space character. */
  lemma AllSpaceLacks(p: string, x: char)
    requires AllSpace(p)
    requires !IsSpace(x)
    ensures x !in p
  {
  }

  /** Trimming twice is trimming once. */
  lemma TrimIdempotent(s: string)
    ensures Trim(Trim(s)) == Trim(s)
  {
    TrimOfTrimmed(Trim(s));
  }

  /** Python's `s.replace(c, '')`: every occurrence of `c` removed, the rest kept in order. */
  function RemoveAll(s: string, c: char): (r: string)
    ensures c !in r
    ensures |r| <= |s|
    ensures forall x :: x != c ==> multiset(r)[x] == multiset(s)[x]
  {
    if |s| == 0 then []
    else if s[0] == c then assert s == [s[0]] + s[1..]; RemoveAll(s[1..], c)
    else assert s == [s[0]] + s[1..]; [s[0]] + RemoveAll(s[1..], c)
  }

  /** Removing a character from a concatenation removes it from each part. */
  lemma {:induction false} RemoveAllConcat(a: string, b: string, c: char)
    ensures RemoveAll(a + b, c) == RemoveAll(a, c) + RemoveAll(b, c)
  {
    if |a| == 0 {
      assert a + b == b;
    } else {
      assert (a + b)[1..] == a[1..] + b;
      RemoveAllConcat(a[1..], b, c);
    }
  }

  /** A string without `c` is unchanged by removing `c`. */
  lemma {:induction false} RemoveAllAbsent(s: string, c: char)
    requires c !in s
    ensures RemoveAll(s, c) == s
  {
    if |s| > 0 {
      assert c !in s[1..];
      RemoveAllAbsent(s[1..], c);
    }
  }

  // ---------------------------------------------------------------------
  // Digits
  // ---------------------------------------------------------------------

  predicate IsDigit(c: char) {
    '0' <= c <= '9'
  }

  predicate AllDigits(s: string) {
    forall i :: 0 <= i < |s| ==> IsDigit(s[i])
  }

  function Pow10(k: nat): (p: nat)
    ensures p >= 1
  {
    if k == 0 then 1 else 10 * Pow10(k - 1)
  }

  function DigitValue(c: char): (d: nat)
    requires IsDigit(c)
    ensures d < 10
  {
    (c as int) - ('0' as int)
  }

  /** The value of a digit string read in base ten; the empty string reads as 0. */
  function DigitsValue(s: string): (n: nat)
    requires AllDigits(s)
    ensures n < Pow10(|s|)
  {
    if |s| == 0 then 0
    else DigitsValue(s[..|s| - 1]) * 10 + DigitValue(s[|s| - 1])
  }

  /** The value of the digits after a decimal point: a fraction in [0, 1). */
  function FracValue(s: string): (f: real)
    requires AllDigits(s)
    ensures 0.0 <= f < 1.0
  {
    var n, d := DigitsValue(s) as real, Pow10(|s|) as real;
    BelowOne(n, d);
    n / d
  }

  lemma BelowOne(n: real, d: real)
    requires 0.0 <= n < d
    ensures 0.0 <= n / d < 1.0
  {
    assert n / d * d == n;
  }

  // ---------------------------------------------------------------------
  // The literal grammar
  // ---------------------------------------------------------------------

  datatype Sign = Unsigned | Plus | Minus

  /**
   * A decimal literal: a sign, the digits before the point, and the digits
   * after it when a point is written (`5.` has an empty fraction, `5` none).
   */
  datatype Literal = Literal(sign: Sign, whole: string, frac: Option<string>)

  /** Digits only, and at least one digit: `5`, `5.`, `.5`, `5.25`, but not `.` or `` ``. */
  predicate WellFormed(lit: Literal) {
    && AllDigits(lit.whole)
    && match lit.frac
       case None => |lit.whole| > 0
       case Some(f) => AllDigits(f) && |lit.whole| + |f| > 0
  }

  function SignText(sg: Sign): string {
    match sg
    case Unsigned => ""
    case Plus => "+"
    case Minus => "-"
  }

  /** The text of a literal after its sign. */
  function Magnitude(lit: Literal): string {
    lit.whole + (if lit.frac.Some? then "." + lit.frac.value else "")
  }

  /** The text of a literal. */
  function Render(lit: Literal): string {
    SignText(lit.sign) + Magnitude(lit)
  }

  /** The size of the number a literal denotes. */
  function MagnitudeValue(lit: Literal): (m: real)
    requires WellFormed(lit)
    ensures m >= 0.0
  {
    DigitsValue(lit.whole) as real + (if lit.frac.Some? then FracValue(lit.frac.value) else 0.0)
  }

  /** The number a literal denotes. */
  function Value(lit: Literal): real
    requires WellFormed(lit)
  {
    if lit.sign == Minus then -MagnitudeValue(lit) else MagnitudeValue(lit)
  }

  // ---------------------------------------------------------------------
  // Reading text as a literal
  // ---------------------------------------------------------------------

  /** Takes one leading `+` or `-` off the text. */
  function SplitSign(t: string): (r: (Sign, string))
    ensures SignText(r.0) + r.1 == t
  {
    if |t| > 0 && t[0] == '-' then (Minus, t[1..])
    else if |t| > 0 && t[0] == '+' then (Plus, t[1..])
    else assert "" + t == t; (Unsigned, t)
  }

  /** Cuts the text at its first `.`: the part before it holds no point. */
  function SplitPoint(body: string): (r: (string, Option<string>))
    ensures '.' !in r.0
    ensures r.0 + (if r.1.Some? then "." + r.1.value else "") == body
  {
    if |body| == 0 then ("", None)
    else if body[0] == '.' then ("", Some(body[1..]))
    else
      var rest := SplitPoint(body[1..]);
      assert body == [body[0]] + body[1..];
      ([body[0]] + rest.0, rest.1)
  }

  /** Every text reads as exactly one literal, whose text it is; it is a number when the literal is well formed. */
  function LiteralOf(t: string): (lit: Literal)
    ensures Render(lit) == t
  {
    var (sg, body) := SplitSign(t);
    var (whole, frac) := SplitPoint(body);
    Literal(sg, whole, frac)
  }

  /** `Decimal(s)` over exact rationals: `None` where Python would raise. */
  function ParseDecimal(s: string): (r: Option<real>)
  {
    var lit := LiteralOf(Trim(s));
    if WellFormed(lit) then Some(Value(lit)) else None
  }

  // ---------------------------------------------------------------------
  // Round trips between literals and text
  // ---------------------------------------------------------------------

  /** Splitting at the point recovers the digits before and after it. */
  lemma {:induction false} SplitPointOfDigits(w: string, frac: Option<string>)
    requires AllDigits(w)
    ensures SplitPoint(w + (if frac.Some? then "." + frac.value else "")) == (w, frac)
  {
    var tail := if frac.Some? then "." + frac.value else "";
    if |w| == 0 {
      assert w + tail == tail;
    } else {
      assert (w + tail)[1..] == w[1..] + tail;
      SplitPointOfDigits(w[1..], frac);
      assert [w[0]] + w[1..] == w;
    }
  }

  /** Reading a well-formed literal's text gives the literal back. */
  lemma LiteralOfRender(lit: Literal)
    requires WellFormed(lit)
    ensures LiteralOf(Render(lit)) == lit
  {
    var body := Magnitude(lit);
    assert body[0] == '.' || IsDigit(body[0]);
    if lit.sign == Unsigned {
      assert Render(lit) == body;
    } else {
      assert Render(lit)[1..] == body;
    }
    assert SplitSign(Render(lit)) == (lit.sign, body);
    SplitPointOfDigits(lit.whole, lit.frac);
  }

  /** The text of a well-formed literal holds only signs, digits and the point. */
  lemma RenderAlphabet(lit: Literal, c: char)
    requires WellFormed(lit)
    requires !IsDigit(c) && c != '.' && c != '+' && c != '-'
    ensures c !in Render(lit)
  {
    assert c !in lit.whole;
    if lit.frac.Some? {
      assert c !in lit.frac.value;
    }
  }

  /** The text of a well-formed literal starts and ends with a non-space character. */
  lemma RenderIsTrimmed(lit: Literal)
    requires WellFormed(lit)
    ensures Trim(Render(lit)) == Render(lit)
  {
    var body := Magnitude(lit);
    var s := Render(lit);
    assert body[0] == '.' || IsDigit(body[0]);
    assert body[|body| - 1] == '.' || IsDigit(body[|body| - 1]) by {
      if lit.frac.Some? && |lit.frac.value| > 0 {
        assert body[|body| - 1] == lit.frac.value[|lit.frac.value| - 1];
      } else if lit.frac.None? {
        assert body[|body| - 1] == lit.whole[|lit.whole| - 1];
      }
    }
    assert s[|s| - 1] == body[|body| - 1];
    TrimOfTrimmed(s);
  }

  /** Every well-formed literal parses to the number it denotes. */
  lemma RenderParses(lit: Literal)
    requires WellFormed(lit)
    ensures ParseDecimal(Render(lit)) == Some(Value(lit))
  {
    RenderIsTrimmed(lit);
    LiteralOfRender(lit);
  }

  /** Parsing ignores surrounding whitespace. */
  lemma ParseIgnoresSpace(s: string)
    ensures ParseDecimal(Trim(s)) == ParseDecimal(s)
  {
    TrimIdempotent(s);
  }

  /**
   * The parser and the grammar agree on every input: a string parses iff,
   * once trimmed, it is the text of a well-formed literal, and then it
   * parses to that literal's value.
   */
  lemma ParseMatchesGrammar(s: string)
    ensures ParseDecimal(s).Some? <==> exists lit :: WellFormed(lit) && Render(lit) == Trim(s)
    ensures forall lit :: WellFormed(lit) && Render(lit) == Trim(s) ==> ParseDecimal(s) == Some(Value(lit))
  {
    forall lit | WellFormed(lit) && Render(lit) == Trim(s)
      ensures ParseDecimal(s) == Some(Value(lit))
    {
      LiteralOfRender(lit);
    }
    if ParseDecimal(s).Some? {
      var lit := LiteralOf(Trim(s));
      assert WellFormed(lit) && Render(lit) == Trim(s);
    }
  }
}
