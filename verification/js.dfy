/** The few pieces of JavaScript value semantics the route handlers rely on:
    truthiness, String.prototype.trim, lower-casing and the integer-literal
    pattern /^-?\d+$/ with its numeric value. */
module Js {

  /** A JavaScript number. Finite values are kept exactly, as reals;
      the rounding of IEEE doubles is not modelled. */
  datatype Number = Finite(v: real) | NaN | Infinity(negative: bool)

  /** A JSON request value as Express hands it to a handler. */
  datatype JsValue =
    | Undefined
    | Null
    | Bool(b: bool)
    | Num(n: Number)
    | Str(s: string)
    | Arr(elems: seq<JsValue>)
    | Obj(fields: map<string, JsValue>)

  /** `Boolean(v)`, and so the negation of `!v`. */
  predicate Truthy(v: JsValue): (b: bool)
    // the falsy values of ToBoolean: undefined, null, false, 0, NaN and the empty string
    ensures !b <==> v == Undefined || v == Null || v == Bool(false) || v == Num(Finite(0.0)) || v == Num(NaN) || v == Str("")
  {
    match v
    case Undefined => false
    case Null => false
    case Bool(b) => b
    case Num(n) => (n.Finite? && n.v != 0.0) || n.Infinity?
    case Str(s) => s != ""
    case Arr(_) => true
    case Obj(_) => true
  }

  /** The characters String.prototype.trim removes: WhiteSpace and LineTerminator. */
  predicate IsWhiteSpace(c: char)
  {
    var n := c as int;
    n == 0x09 || n == 0x0A || n == 0x0B || n == 0x0C || n == 0x0D || n == 0x20
    || n == 0xA0 || n == 0x1680 || (0x2000 <= n <= 0x200A)
    || n == 0x2028 || n == 0x2029 || n == 0x202F || n == 0x205F
    || n == 0x3000 || n == 0xFEFF
  }

  predicate AllWhiteSpace(s: string)
  {
    forall k :: 0 <= k < |s| ==> IsWhiteSpace(s[k])
  }

  /** Drops leading white space: the result is a suffix of `s` that does not start
      with white space, and everything dropped was white space. */
  function TrimStart(s: string): (r: string)
    ensures |r| <= |s| && r == s[|s| - |r|..]
    ensures r != [] ==> !IsWhiteSpace(r[0])
    ensures AllWhiteSpace(s[..|s| - |r|])
  {
    if s != [] && IsWhiteSpace(s[0]) then
      var r := TrimStart(s[1..]);
      assert s[..|s| - |r|] == [s[0]] + s[1..][..|s| - 1 - |r|];
      r
    else
      s
  }

  /** Drops trailing white space: the result is a prefix of `s` that does not end
      with white space, and everything dropped was white space. */
  function TrimEnd(s: string): (r: string)
    ensures |r| <= |s| && r == s[..|r|]
    ensures r != [] ==> !IsWhiteSpace(r[|r| - 1])
    ensures AllWhiteSpace(s[|r|..])
  {
    if s != [] && IsWhiteSpace(s[|s| - 1]) then
      var r := TrimEnd(s[..|s| - 1]);
      assert s[|r|..] == s[..|s| - 1][|r|..] + [s[|s| - 1]];
      r
    else
      s
  }

  /** `s.trim()`: the slice of `s` between its leading and its trailing white space. */
  function Trim(s: string): (r: string)
    ensures |r| <= |s|
    ensures r != [] ==> !IsWhiteSpace(r[0]) && !IsWhiteSpace(r[|r| - 1])
    ensures r == [] <==> AllWhiteSpace(s)
  {
    TrimBlank(s);
    TrimEnd(TrimStart(s))
  }

  lemma TrimBlank(s: string)
    ensures TrimEnd(TrimStart(s)) == [] <==> AllWhiteSpace(s)
  {
    var t := TrimStart(s);
    TrimStartBlank(s);
    TrimEndBlank(t);
    if t != [] {
      assert !IsWhiteSpace(t[0]);
    }
  }

  lemma TrimStartBlank(s: string)
    ensures TrimStart(s) == [] <==> AllWhiteSpace(s)
  {
    var r := TrimStart(s);
    if r == [] {
      assert s[..|s|] == s;
    } else {
      assert s[|s| - |r|] == r[0];
    }
  }

  lemma TrimEndBlank(s: string)
    ensures TrimEnd(s) == [] <==> AllWhiteSpace(s)
  {
    var r := TrimEnd(s);
    if r == [] {
      assert s[0..] == s;
    } else {
      assert s[|r| - 1] == r[|r| - 1];
    }
  }

  /** Trimming removes exactly the white-space padding around a word that neither
      starts nor ends with white space. */
  lemma {:induction false} TrimPadded(w1: string, word: string, w2: string)
    requires AllWhiteSpace(w1) && AllWhiteSpace(w2)
    requires word != [] && !IsWhiteSpace(word[0]) && !IsWhiteSpace(word[|word| - 1])
    ensures Trim(w1 + word + w2) == word
  {
    var x := w1 + word + w2;
    assert x == w1 + (word + w2);
    TrimStartPadded(w1, word + w2);
    TrimEndPadded(word, w2);
    calc {
      Trim(x);
      TrimEnd(TrimStart(w1 + (word + w2)));
      TrimEnd(word + w2);
      word;
    }
  }

  lemma {:induction false} TrimStartPadded(w: string, s: string)
    requires AllWhiteSpace(w)
    requires s != [] && !IsWhiteSpace(s[0])
    ensures TrimStart(w + s) == s
  {
    if w != [] {
      assert (w + s)[1..] == w[1..] + s;
      TrimStartPadded(w[1..], s);
    }
  }

  lemma {:induction false} TrimEndPadded(s: string, w: string)
    requires AllWhiteSpace(w)
    requires s != [] && !IsWhiteSpace(s[|s| - 1])
    ensures TrimEnd(s + w) == s
  {
    if w != [] {
      assert (s + w)[..|s + w| - 1] == s + w[..|w| - 1];
      TrimEndPadded(s, w[..|w| - 1]);
    }
  }

  /** Trimming a padded string is trimming the string inside the padding. */
  lemma {:induction false} TrimWithin(w1: string, s: string, w2: string)
    requires AllWhiteSpace(w1) && AllWhiteSpace(w2)
    ensures Trim(w1 + s + w2) == Trim(s)
  {
    if Trim(s) == "" {
      AllWhiteSpaceConcat(w1, s);
      AllWhiteSpaceConcat(w1 + s, w2);
    } else {
      TrimStartSkips(w1, s);
      assert TrimStart(s) != [];
      TrimStartKeepsTail(w1 + s, w2);
      TrimEndSkips(TrimStart(s), w2);
    }
  }

  lemma {:induction false} TrimStartSkips(w: string, s: string)
    requires AllWhiteSpace(w)
    ensures TrimStart(w + s) == TrimStart(s)
  {
    if w == [] {
      assert w + s == s;
    } else {
      assert (w + s)[1..] == w[1..] + s;
      TrimStartSkips(w[1..], s);
    }
  }

  lemma {:induction false} TrimEndSkips(s: string, w: string)
    requires AllWhiteSpace(w)
    ensures TrimEnd(s + w) == TrimEnd(s)
  {
    if w == [] {
      assert s + w == s;
    } else {
      assert (s + w)[..|s + w| - 1] == s + w[..|w| - 1];
      TrimEndSkips(s, w[..|w| - 1]);
    }
  }

  lemma {:induction false} TrimStartKeepsTail(s: string, w: string)
    requires TrimStart(s) != []
    ensures TrimStart(s + w) == TrimStart(s) + w
  {
    var x := s + w;
    assert x[0] == s[0];
    if IsWhiteSpace(s[0]) {
      assert x[1..] == s[1..] + w;
      TrimStartStep(s);
      TrimStartStep(x);
      TrimStartKeepsTail(s[1..], w);
    } else {
      TrimStartStop(s);
      TrimStartStop(x);
    }
  }

  lemma TrimStartStep(s: string)
    requires s != [] && IsWhiteSpace(s[0])
    ensures TrimStart(s) == TrimStart(s[1..])
  {
  }

  lemma TrimStartStop(s: string)
    requires s != [] && !IsWhiteSpace(s[0])
    ensures TrimStart(s) == s
  {
  }

  lemma AllWhiteSpaceConcat(a: string, b: string)
    requires AllWhiteSpace(a) && AllWhiteSpace(b)
    ensures AllWhiteSpace(a + b)
  {
    forall k | 0 <= k < |a + b| ensures IsWhiteSpace((a + b)[k]) {
      if k < |a| { assert (a + b)[k] == a[k]; } else { assert (a + b)[k] == b[k - |a|]; }
    }
  }

  /** The trimmed text of a string that is not blank is not blank. */
  lemma TrimNotBlank(s: string)
    requires !AllWhiteSpace(s)
    ensures !AllWhiteSpace(Trim(s))
  {
    var t := Trim(s);
    assert !IsWhiteSpace(t[0]);
  }

  /** Trimming twice is trimming once. */
  lemma TrimIdempotent(s: string)
    ensures Trim(Trim(s)) == Trim(s)
  {
    var r := Trim(s);
    if r != [] {
      TrimUnpadded(r);
    } else {
      assert AllWhiteSpace(r);
    }
  }

  /** A string that neither starts nor ends with white space is its own trimmed text. */
  lemma TrimUnpadded(word: string)
    requires word != [] && !IsWhiteSpace(word[0]) && !IsWhiteSpace(word[|word| - 1])
    ensures Trim(word) == word
  {
    assert TrimStart(word) == word;
    assert TrimEnd(word) == word;
  }

  function LowerChar(c: char): char
  {
    if 'A' <= c <= 'Z' then (c as int + 32) as char else c
  }

  /** `s.toLowerCase()` on the ASCII letters; other characters are kept. */
  function ToLower(s: string): (r: string)
    ensures |r| == |s|
    ensures forall k :: 0 <= k < |s| ==> r[k] == LowerChar(s[k])
    // no ASCII capital is left, and every other character is kept
    ensures forall k :: 0 <= k < |r| ==> !('A' <= r[k] <= 'Z')
    ensures forall k :: 0 <= k < |s| && !('A' <= s[k] <= 'Z') ==> r[k] == s[k]
  {
    seq(|s|, k requires 0 <= k < |s| => LowerChar(s[k]))
  }

  predicate IsDigit(c: char)
  {
    '0' <= c <= '9'
  }

  predicate AllDigits(s: string)
  {
    forall k :: 0 <= k < |s| ==> IsDigit(s[k])
  }

  /** The digits of a literal, after an optional leading minus sign. */
  function Magnitude(s: string): string
  {
    if s != [] && s[0] == '-' then s[1..] else s
  }

  /** `/^-?\d+$/.test(s)`. */
  predicate IsIntegerLiteral(s: string): (b: bool)
    // one or more digits, or a minus sign followed by one or more digits, and nothing else
    ensures b <==> (s != [] && AllDigits(s)) || (|s| >= 2 && s[0] == '-' && AllDigits(s[1..]))
  {
    Magnitude(s) != [] && AllDigits(Magnitude(s))
  }

  /** The value of a string of decimal digits, read left to right. */
  function DigitsValue(d: string): (n: nat)
    requires AllDigits(d)
    decreases |d|
  {
    if d == [] then 0
    else DigitsValue(d[..|d| - 1]) * 10 + ((d[|d| - 1] as int) - ('0' as int))
  }

  /** `Number(s)` for a string that passes IsIntegerLiteral. */
  function IntegerValue(s: string): (n: int)
    requires IsIntegerLiteral(s)
    // the sign of the value follows the minus sign
    ensures s[0] == '-' ==> n <= 0
    ensures s[0] != '-' ==> n >= 0
  {
    if s[0] == '-' then 0 - DigitsValue(s[1..]) else DigitsValue(s)
  }

  /** `Number` ignores leading zeros: a zero put in front of the digits does not change
      their value. */
  lemma {:induction false} LeadingZeroIgnored(d: string)
    requires AllDigits(d)
    ensures AllDigits("0" + d) && DigitsValue("0" + d) == DigitsValue(d)
  {
    var z := "0" + d;
    forall k | 0 <= k < |z| ensures IsDigit(z[k]) {
      if k > 0 { assert z[k] == d[k - 1]; }
    }
    if d != [] {
      var init := d[..|d| - 1];
      assert z[..|z| - 1] == "0" + init;
      assert z[|z| - 1] == d[|d| - 1];
      LeadingZeroIgnored(init);
    } else {
      assert z[..0] == [];
    }
  }

  /** An integer literal neither starts nor ends with white space. */
  lemma LiteralUnpadded(s: string)
    requires IsIntegerLiteral(s)
    ensures s != [] && !IsWhiteSpace(s[0]) && !IsWhiteSpace(s[|s| - 1])
  {
    var m := Magnitude(s);
    assert IsDigit(m[|m| - 1]);
    assert s[|s| - 1] == m[|m| - 1];
    if s[0] != '-' {
      assert IsDigit(m[0]);
    }
  }

  function DigitChar(d: nat): (c: char)
    requires d < 10
    ensures IsDigit(c) && (c as int) - ('0' as int) == d
  {
    ('0' as int + d) as char
  }

  /** The shortest decimal text of a natural number. */
  function NatText(n: nat): (s: string)
    ensures s != [] && AllDigits(s)
  {
    if n < 10 then [DigitChar(n)] else NatText(n / 10) + [DigitChar(n % 10)]
  }

  /** The decimal text of an integer, with a minus sign when negative. */
  function IntText(n: int): string
  {
    if n < 0 then "-" + NatText(-n) else NatText(n)
  }

  lemma {:induction false} NatTextValue(n: nat)
    ensures DigitsValue(NatText(n)) == n
  {
    if n >= 10 {
      var s := NatText(n);
      assert s[..|s| - 1] == NatText(n / 10);
      NatTextValue(n / 10);
    }
  }

  /** Reading back the decimal text of an integer gives the integer: the text matches
      /^-?\d+$/ and `Number` of it is `n`. */
  lemma IntTextRoundTrip(n: int)
    ensures IsIntegerLiteral(IntText(n))
    ensures IntegerValue(IntText(n)) == n
  {
    if n < 0 {
      assert Magnitude(IntText(n)) == NatText(-n);
      NatTextValue(-n);
    } else {
      assert Magnitude(IntText(n)) == NatText(n);
      NatTextValue(n);
    }
  }
}
