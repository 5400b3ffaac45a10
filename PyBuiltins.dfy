/** The Python built-ins the setup script leans on, stated over Dafny values:
    `str.replace` of one character, `str.lower`/`str.upper`, `int(str)`,
    `str(int)` and list indexing with negative indices. */
module PyBuiltins {

  datatype Option<T> = None | Some(value: T)

  // ---------------------------------------------------------------------------
  // str.replace(from, to) for single characters

  /** `s.replace(from, to)`: every `from` becomes `to`, nothing else moves. */
  function ReplaceChar(s: string, from: char, to: char): (r: string)
    ensures |r| == |s|
    ensures forall i :: 0 <= i < |s| && s[i] == from ==> r[i] == to
    ensures forall i :: 0 <= i < |s| && s[i] != from ==> r[i] == s[i]
  {
    if s == [] then [] else [if s[0] == from then to else s[0]] + ReplaceChar(s[1..], from, to)
  }

  /** After the replacement no `from` is left, and a second replacement changes nothing. */
  lemma ReplaceCharSettles(s: string, from: char, to: char)
    requires from != to
    ensures from !in ReplaceChar(s, from, to)
    ensures ReplaceChar(ReplaceChar(s, from, to), from, to) == ReplaceChar(s, from, to)
  {
    var r := ReplaceChar(s, from, to);
    assert forall i :: 0 <= i < |r| ==> r[i] != from;
  }

  // ---------------------------------------------------------------------------
  // str.lower() / str.upper() on ASCII letters

  predicate IsUpperAscii(c: char) { 'A' <= c <= 'Z' }
  predicate IsLowerAscii(c: char) { 'a' <= c <= 'z' }

  function LowerChar(c: char): char
  {
    if IsUpperAscii(c) then (c as int + 32) as char else c
  }

  function UpperChar(c: char): char
  {
    if IsLowerAscii(c) then (c as int - 32) as char else c
  }

  /** `s.lower()` */
  function Lower(s: string): (r: string)
    ensures |r| == |s|
    ensures forall i :: 0 <= i < |s| ==> r[i] == LowerChar(s[i])
  {
    if s == [] then [] else [LowerChar(s[0])] + Lower(s[1..])
  }

  /** `s.upper()` */
  function Upper(s: string): (r: string)
    ensures |r| == |s|
    ensures forall i :: 0 <= i < |s| ==> r[i] == UpperChar(s[i])
  {
    if s == [] then [] else [UpperChar(s[0])] + Upper(s[1..])
  }

  /** An upper-cased string has no lower-case letter left and is its own upper case. */
  lemma UpperSettles(s: string)
    ensures forall i :: 0 <= i < |s| ==> !IsLowerAscii(Upper(s)[i])
    ensures Upper(Upper(s)) == Upper(s)
  {
    var u := Upper(s);
    assert forall i :: 0 <= i < |s| ==> UpperChar(u[i]) == u[i];
  }

  /** Two strings have the same upper case exactly when they have the same lower case:
      both say that the strings are equal up to the case of ASCII letters. */
  lemma UpperEqIffLowerEq(a: string, b: string)
    ensures Upper(a) == Upper(b) <==> Lower(a) == Lower(b)
  {
    if |a| == |b| {
      forall i | 0 <= i < |a|
        ensures (UpperChar(a[i]) == UpperChar(b[i])) == (LowerChar(a[i]) == LowerChar(b[i]))
      {
        SameCaseFold(a[i], b[i]);
      }
      if Upper(a) == Upper(b) {
        assert forall i :: 0 <= i < |a| ==> Upper(a)[i] == Upper(b)[i];
        assert Lower(a) == Lower(b);
      }
      if Lower(a) == Lower(b) {
        assert forall i :: 0 <= i < |a| ==> Lower(a)[i] == Lower(b)[i];
        assert Upper(a) == Upper(b);
      }
    }
  }

  lemma SameCaseFold(x: char, y: char)
    ensures (UpperChar(x) == UpperChar(y)) == (LowerChar(x) == LowerChar(y))
  {
  }

  // ---------------------------------------------------------------------------
  // int(str) in base 10

  /** The whitespace `int()` strips from both ends: ASCII tab, newline, vertical
      tab, form feed, carriage return and space, and the non-ASCII characters of
      `str.isspace()`. The separators U+001C..U+001F, which `str.isspace()` accepts,
      are not stripped by `int()`. */
  predicate IsSpace(c: char)
  {
    var n := c as int;
    (9 <= n <= 13) || n == 32 || n == 0x85 || n == 0xA0 || n == 0x1680
    || (0x2000 <= n <= 0x200A) || n == 0x2028 || n == 0x2029 || n == 0x202F
    || n == 0x205F || n == 0x3000
  }

  predicate IsDigit(c: char) { '0' <= c <= '9' }

  function DigitValue(c: char): nat
    requires IsDigit(c)
  {
    c as int - '0' as int
  }

  function DigitChar(d: nat): (c: char)
    requires d < 10
    ensures IsDigit(c) && DigitValue(c) == d
  {
    (d + '0' as int) as char
  }

  function StripLeft(s: string): (r: string)
    ensures |r| <= |s| && r == s[|s| - |r|..]
    ensures forall i :: 0 <= i < |s| - |r| ==> IsSpace(s[i])
    ensures r != [] ==> !IsSpace(r[0])
  {
    if s != [] && IsSpace(s[0]) then StripLeft(s[1..]) else s
  }

  function StripRight(s: string): (r: string)
    ensures |r| <= |s| && r == s[..|r|]
    ensures forall i :: |r| <= i < |s| ==> IsSpace(s[i])
    ensures r != [] ==> !IsSpace(r[|r| - 1])
  {
    if s != [] && IsSpace(s[|s| - 1]) then StripRight(s[..|s| - 1]) else s
  }

  /** The whitespace `int()` strips from both ends of its argument (`IsSpace`);
      unlike `str.strip()`, it keeps U+001C..U+001F. */
  function IntStrip(s: string): string
  {
    StripRight(StripLeft(s))
  }

  /** Digits with single underscores between them, as `int()` accepts since Python 3.6. */
  predicate WellGrouped(t: string)
  {
    && |t| > 0
    && IsDigit(t[0])
    && IsDigit(t[|t| - 1])
    && (forall i :: 0 <= i < |t| ==> IsDigit(t[i]) || t[i] == '_')
    && (forall i :: 0 <= i < |t| - 1 ==> !(t[i] == '_' && t[i + 1] == '_'))
  }

  predicate AllDigits(d: string)
  {
    forall i :: 0 <= i < |d| ==> IsDigit(d[i])
  }

  function WithoutUnderscores(t: string): (d: string)
    ensures |d| <= |t|
    ensures (forall i :: 0 <= i < |t| ==> IsDigit(t[i]) || t[i] == '_') ==> AllDigits(d)
  {
    if t == [] then []
    else (if t[0] == '_' then [] else [t[0]]) + WithoutUnderscores(t[1..])
  }

  /** The number a string of decimal digits denotes, most significant digit first. */
  function DigitsValue(d: string): nat
    requires AllDigits(d)
  {
    if d == [] then 0 else 10 * DigitsValue(d[..|d| - 1]) + DigitValue(d[|d| - 1])
  }

  /** `t` without a leading `+` or `-`. */
  function Unsigned(t: string): (u: string)
    ensures u == t || (t != [] && t[0] in "+-" && u == t[1..])
  {
    if t != [] && (t[0] == '-' || t[0] == '+') then t[1..] else t
  }

  /** `int(s)`: `None` is the `ValueError` Python raises for text that is not a
      base-10 integer literal. The line is accepted exactly when, once stripped, it
      is an optional sign and well-grouped digits; their value is the magnitude of
      the result, and only a `-` makes it negative. */
  function ParseInt(s: string): (r: Option<int>)
    ensures r.Some? <==> WellGrouped(Unsigned(IntStrip(s)))
    ensures r.Some? ==>
      && IntStrip(s) != []
      && DigitsValue(WithoutUnderscores(Unsigned(IntStrip(s)))) == (if r.value < 0 then -r.value else r.value)
      && (r.value < 0 ==> IntStrip(s)[0] == '-')
      && (IntStrip(s)[0] == '-' ==> r.value <= 0)
  {
    ParseStripped(IntStrip(s))
  }

  /** An optional sign and a well-grouped run of digits, with nothing around them. */
  function ParseStripped(t: string): Option<int>
  {
    if t == [] then None
    else
      var body := Unsigned(t);
      if !WellGrouped(body) then None
      else
        var n: int := DigitsValue(WithoutUnderscores(body));
        Some(if t[0] == '-' then -n else n)
  }

  /** A line `int()` accepts holds only whitespace, digits, underscores and signs:
      any other character, such as a letter, makes it a `ValueError`. */
  lemma ParseIntCharset(s: string)
    requires ParseInt(s).Some?
    ensures forall i :: 0 <= i < |s| ==> IsSpace(s[i]) || IsDigit(s[i]) || s[i] in "_+-"
  {
    StripKeepsNonSpace(s);
    SignedDigitsCharset(IntStrip(s));
    forall i | 0 <= i < |s|
      ensures IsSpace(s[i]) || IsDigit(s[i]) || s[i] in "_+-"
    {
      assert s[i] in s;
    }
  }

  /** Every character of `s` that is not whitespace survives `int()`'s stripping. */
  lemma StripKeepsNonSpace(s: string)
    ensures forall c :: c in s && !IsSpace(c) ==> c in IntStrip(s)
  {
    StripLeftKeepsNonSpace(s);
    StripRightKeepsNonSpace(StripLeft(s));
  }

  lemma StripLeftKeepsNonSpace(s: string)
    ensures forall c :: c in s && !IsSpace(c) ==> c in StripLeft(s)
  {
    var l := StripLeft(s);
    var k := |s| - |l|;
    forall i | 0 <= i < |s| && !IsSpace(s[i])
      ensures s[i] in l
    {
      assert l[i - k] == s[i];
    }
  }

  lemma StripRightKeepsNonSpace(s: string)
    ensures forall c :: c in s && !IsSpace(c) ==> c in StripRight(s)
  {
    var r := StripRight(s);
    forall i | 0 <= i < |s| && !IsSpace(s[i])
      ensures s[i] in r
    {
      assert r[i] == s[i];
    }
  }

  lemma SignedDigitsCharset(t: string)
    requires WellGrouped(Unsigned(t))
    ensures forall c :: c in t ==> IsDigit(c) || c in "_+-"
  {
    var u := Unsigned(t);
    forall j | 0 <= j < |t|
      ensures IsDigit(t[j]) || t[j] in "_+-"
    {
      if u != t && j > 0 {
        assert t[j] == u[j - 1];
      } else if u == t {
        assert t[j] == u[j];
      }
    }
  }

  // ---------------------------------------------------------------------------
  // str(int), the partner of int()

  /** Decimal digits of `n` without leading zeros. */
  function NatDigits(n: nat): (d: string)
    ensures |d| > 0 && AllDigits(d)
  {
    if n < 10 then [DigitChar(n)] else NatDigits(n / 10) + [DigitChar(n % 10)]
  }

  /** `str(n)` */
  function Render(n: int): string
  {
    if n < 0 then "-" + NatDigits(-n) else NatDigits(n)
  }

  lemma {:induction false} NatDigitsValue(n: nat)
    ensures DigitsValue(NatDigits(n)) == n
  {
    var d := NatDigits(n);
    if n >= 10 {
      NatDigitsValue(n / 10);
      assert d[..|d| - 1] == NatDigits(n / 10);
    }
  }

  lemma {:induction false} WithoutUnderscoresOfDigits(d: string)
    requires AllDigits(d)
    ensures WithoutUnderscores(d) == d
  {
    if d != [] {
      WithoutUnderscoresOfDigits(d[1..]);
    }
  }

  lemma DigitsWellGrouped(d: string)
    requires d != [] && AllDigits(d)
    ensures WellGrouped(d) && WithoutUnderscores(d) == d
  {
    WithoutUnderscoresOfDigits(d);
  }

  lemma ParseDigitRun(d: string)
    requires d != [] && AllDigits(d)
    ensures ParseStripped(d) == Some(DigitsValue(d) as int)
  {
    assert IsDigit(d[0]) && Unsigned(d) == d;
    DigitsWellGrouped(d);
  }

  lemma ParseNegDigitRun(d: string)
    requires d != [] && AllDigits(d)
    ensures var v := -(DigitsValue(d) as int); ParseStripped("-" + d) == Some(v)
  {
    DigitsWellGrouped(d);
    ParseNegative(d);
    assert DigitsValue(WithoutUnderscores(d)) == DigitsValue(d);
  }

  lemma ParseNegative(d: string)
    requires WellGrouped(d)
    ensures var v := -(DigitsValue(WithoutUnderscores(d)) as int); ParseStripped("-" + d) == Some(v)
  {
    var t := "-" + d;
    assert t[0] == '-' && t[1..] == d;
    assert Unsigned(t) == d;
  }

  /** `int(str(n)) == n` for every integer. */
  lemma ParseRender(n: int)
    ensures ParseInt(Render(n)) == Some(n)
  {
    var s := Render(n);
    RenderEnds(n);
    StripPadded([], s, []);
    assert [] + s + [] == s;
    assert ParseInt(s) == ParseStripped(s);
    var m: nat := if n < 0 then -n else n;
    var d := NatDigits(m);
    NatDigitsValue(m);
    if n < 0 {
      assert s == "-" + d;
      ParseNegDigitRun(d);
    } else {
      assert s == d;
      ParseDigitRun(d);
    }
  }

  lemma {:induction false} StripLeftSpaces(pad: string, s: string)
    requires forall i :: 0 <= i < |pad| ==> IsSpace(pad[i])
    ensures StripLeft(pad + s) == StripLeft(s)
  {
    if pad == [] {
      assert pad + s == s;
    } else {
      assert IsSpace((pad + s)[0]);
      assert (pad + s)[1..] == pad[1..] + s;
      StripLeftSpaces(pad[1..], s);
    }
  }

  lemma {:induction false} StripRightSpaces(s: string, pad: string)
    requires forall i :: 0 <= i < |pad| ==> IsSpace(pad[i])
    ensures StripRight(s + pad) == StripRight(s)
  {
    if pad == [] {
      assert s + pad == s;
    } else {
      assert IsSpace((s + pad)[|s + pad| - 1]);
      assert (s + pad)[..|s + pad| - 1] == s + pad[..|pad| - 1];
      StripRightSpaces(s, pad[..|pad| - 1]);
    }
  }

  lemma StripPadded(before: string, s: string, after: string)
    requires forall i :: 0 <= i < |before| ==> IsSpace(before[i])
    requires forall i :: 0 <= i < |after| ==> IsSpace(after[i])
    requires s != [] && !IsSpace(s[0]) && !IsSpace(s[|s| - 1])
    ensures IntStrip(before + s + after) == s
  {
    StripLeftSpaces(before, s + after);
    assert before + s + after == before + (s + after);
    assert StripLeft(s + after) == s + after;
    StripRightSpaces(s, after);
  }

  /** `int()` ignores whitespace around the number: the line a user types may carry
      leading or trailing blanks. */
  lemma ParsePaddedRender(before: string, n: int, after: string)
    requires forall i :: 0 <= i < |before| ==> IsSpace(before[i])
    requires forall i :: 0 <= i < |after| ==> IsSpace(after[i])
    ensures ParseInt(before + Render(n) + after) == Some(n)
  {
    RenderEnds(n);
    StripPadded(before, Render(n), after);
    ParseRender(n);
    assert IntStrip(Render(n)) == Render(n);
  }

  /** `int()` does not strip the separators U+001C..U+001F: a number typed after
      one of them is a `ValueError`. */
  lemma ParseIntKeepsSeparators(c: char, n: int)
    requires 28 <= c as int <= 31
    ensures ParseInt([c] + Render(n)) == None
  {
    var s := [c] + Render(n);
    RenderEnds(n);
    assert !IsSpace(s[0]) && !IsSpace(s[|s| - 1]);
    assert StripLeft(s) == s;
    var t := StripRight(s);
    assert t == s;
    assert Unsigned(t) == t;
  }

  lemma RenderEnds(n: int)
    ensures Render(n) != [] && !IsSpace(Render(n)[0]) && !IsSpace(Render(n)[|Render(n)| - 1])
  {
    var s := Render(n);
    var d := if n < 0 then NatDigits(-n) else NatDigits(n);
    assert s[|s| - 1] == d[|d| - 1];
  }

  // ---------------------------------------------------------------------------
  // list[i]

  /** `xs[i]` on a Python list: `None` is the `IndexError`; a negative index counts
      from the end. */
  function PyIndex<T>(xs: seq<T>, i: int): (r: Option<T>)
    ensures r.Some? <==> -|xs| <= i < |xs|
    ensures r.Some? ==> r.value == xs[if i < 0 then |xs| + i else i]
  {
    if 0 <= i < |xs| then Some(xs[i])
    else if -|xs| <= i < 0 then Some(xs[|xs| + i])
    else None
  }

  /** Index `k` and index `k - len(xs)` name the same element. */
  lemma PyIndexNegativeAlias<T>(xs: seq<T>, k: nat)
    requires k < |xs|
    ensures PyIndex(xs, k) == PyIndex(xs, k - |xs|) == Some(xs[k])
  {
  }
}
