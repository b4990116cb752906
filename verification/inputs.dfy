/**
 Caller-supplied user inputs and their cleaning. A user input is either a
 string or some other value; the other values are turned into text the way
 Python's `str()` does, then every entry is lower-cased. The cleaned list is
 what both the instance wrapper and the module-level entry hand to the
 dictionaries (zxcvbn/zxcvbn_class.py:66-70, :141-145; zxcvbn/__init__.py:83-87).
 */
module Inputs {
  import opened Text
  import opened Outcomes

  /** The non-string values a caller is modelled to pass: `None`, a bool or an int. */
  datatype Value = NoneValue | BoolValue(b: bool) | IntValue(n: int)

  /** One element of `user_inputs`. */
  datatype Input = Str(s: string) | Other(v: Value)

  /** The character of a decimal digit 0..9. */
  function DigitChar(d: nat): (c: char)
    requires d < 10
    ensures '0' <= c <= '9'
    ensures c as int - '0' as int == d
  {
    ('0' as int + d) as char
  }

  /** True for a non-empty run of decimal digits. */
  predicate IsDigits(s: string) {
    |s| > 0 && forall k :: 0 <= k < |s| ==> '0' <= s[k] <= '9'
  }

  /** Python's `str(n)` for a natural number: its decimal digits, most significant first. */
  function Decimal(n: nat): (s: string)
    ensures IsDigits(s)
    ensures n < 10 <==> |s| == 1
    ensures n >= 10 ==> s[0] != '0'
  {
    if n < 10 then [DigitChar(n)] else Decimal(n / 10) + [DigitChar(n % 10)]
  }

  /** Reads a run of decimal digits back into the number it denotes. */
  function ParseDecimal(s: string): nat
    requires forall k :: 0 <= k < |s| ==> '0' <= s[k] <= '9'
  {
    if |s| == 0 then 0
    else ParseDecimal(s[..|s| - 1]) * 10 + (s[|s| - 1] as int - '0' as int)
  }

  /** Reading the digits of `n` gives back `n`: `str` loses nothing on integers. */
  lemma {:induction false} DecimalRoundTrip(n: nat)
    ensures ParseDecimal(Decimal(n)) == n
  {
    if n >= 10 {
      var s := Decimal(n);
      assert s[..|s| - 1] == Decimal(n / 10);
      DecimalRoundTrip(n / 10);
    }
  }

  /** A digit run without a leading zero denotes a positive number. */
  lemma {:induction false} ParseLeadingNonZero(s: string)
    requires IsDigits(s) && s[0] != '0'
    ensures ParseDecimal(s) > 0
    decreases |s|
  {
    if |s| > 1 {
      ParseLeadingNonZero(s[..|s| - 1]);
    }
  }

  /** Appending a digit multiplies by ten and adds it. */
  lemma DivModDigit(p: nat, d: nat)
    requires d < 10
    ensures (p * 10 + d) / 10 == p && (p * 10 + d) % 10 == d
  {
  }

  /** `str(n)` is pinned down: the only digit run without a superfluous leading zero that denotes `n` is `Decimal(n)`. */
  lemma {:induction false} DecimalUnique(s: string, n: nat)
    requires IsDigits(s) && (|s| > 1 ==> s[0] != '0') && ParseDecimal(s) == n
    ensures s == Decimal(n)
    decreases |s|
  {
    var init, last := s[..|s| - 1], s[|s| - 1];
    var d := last as int - '0' as int;
    if |s| == 1 {
      assert n == d;
      assert s == [DigitChar(n)];
    } else {
      assert init[0] == s[0];
      ParseLeadingNonZero(init);
      var p := ParseDecimal(init);
      assert n == p * 10 + d;
      DivModDigit(p, d);
      DecimalUnique(init, p);
      assert Decimal(n) == Decimal(p) + [DigitChar(d)];
      assert s == init + [last];
    }
  }

  /** The text of a natural number: digits without a superfluous leading zero that read back as it. */
  lemma NonNegativeText(m: nat)
    ensures var s := Decimal(m);
      IsDigits(s) && IsLowered(s) && ParseDecimal(s) == m && (|s| > 1 ==> s[0] != '0')
  {
    DecimalRoundTrip(m);
  }

  /** The text of a negative number: a minus sign before the digits of its absolute value. */
  lemma NegativeText(m: nat)
    ensures var s := "-" + Decimal(m);
      |s| >= 2 && s[0] == '-' && s[1..] == Decimal(m) && IsLowered(s) &&
      ParseDecimal(s[1..]) == m && (|s| > 2 ==> s[1] != '0')
  {
    var d := Decimal(m);
    DecimalRoundTrip(m);
    assert ("-" + d)[1..] == d && ("-" + d)[1] == d[0];
  }

  /** Python's `str(v)` for the modelled non-string values. */
  function ToStr(v: Value): (s: string)
    ensures v == NoneValue ==> s == "None"
    ensures v.BoolValue? ==> s == (if v.b then "True" else "False")
    ensures v.IntValue? && v.n >= 0 ==> IsDigits(s)
    ensures v.IntValue? && v.n < 0 ==> |s| >= 2 && s[0] == '-' && IsDigits(s[1..])
    ensures v.IntValue? && v.n >= 0 ==> ParseDecimal(s) == v.n && (|s| > 1 ==> s[0] != '0')
    ensures v.IntValue? && v.n < 0 ==> ParseDecimal(s[1..]) == -v.n && (|s| > 2 ==> s[1] != '0')
    ensures v.IntValue? ==> IsLowered(s)
  {
    match v
    case NoneValue => "None"
    case BoolValue(b) => if b then "True" else "False"
    case IntValue(n) =>
      if n >= 0 then NonNegativeText(n); Decimal(n)
      else NegativeText(-n); "-" + Decimal(-n)
  }

  /** Two different integers never render to the same text. */
  lemma ToStrInjectiveOnInts(m: int, n: int)
    requires ToStr(IntValue(m)) == ToStr(IntValue(n))
    ensures m == n
  {
    if m >= 0 && n >= 0 {
      DecimalRoundTrip(m);
      DecimalRoundTrip(n);
    } else if m < 0 && n < 0 {
      assert Decimal(-m) == ToStr(IntValue(m))[1..];
      DecimalRoundTrip(-m);
      DecimalRoundTrip(-n);
    } else {
      assert false;
    }
  }

  /** `user_inputs or []` and `if user_inputs is None: user_inputs = []`: a missing list is an empty one. */
  function OrEmpty(inputs: Option<seq<Input>>): seq<Input> {
    if inputs.Some? then inputs.value else []
  }

  /** The text of one input before lower-casing: strings as they are, anything else through `str`. */
  function AsText(x: Input): string {
    match x
    case Str(s) => s
    case Other(v) => ToStr(v)
  }

  /** The cleaning loop: same length, same order, the k-th entry is the lower-cased text of the k-th input. */
  function Clean(xs: seq<Input>): (r: seq<string>)
    ensures |r| == |xs|
    ensures forall k :: 0 <= k < |xs| ==> |r[k]| == |AsText(xs[k])| && IsLowered(r[k])
    ensures forall k, c :: 0 <= k < |xs| && 0 <= c < |r[k]| ==> r[k][c] == LowerChar(AsText(xs[k])[c])
  {
    if |xs| == 0 then [] else [Lower(AsText(xs[0]))] + Clean(xs[1..])
  }

  /** Cleaning a list with a head cleans the head, then the rest. */
  lemma CleanCons(x: Input, rest: seq<Input>)
    ensures Clean([x] + rest) == [Lower(AsText(x))] + Clean(rest)
  {
    assert ([x] + rest)[0] == x && ([x] + rest)[1..] == rest;
  }

  /** Cleaning works element by element, so it distributes over concatenation. */
  lemma {:induction false} CleanAppend(xs: seq<Input>, ys: seq<Input>)
    ensures Clean(xs + ys) == Clean(xs) + Clean(ys)
  {
    if |xs| > 0 {
      var x, rest := xs[0], xs[1..];
      assert xs == [x] + rest && xs + ys == [x] + (rest + ys);
      CleanAppend(rest, ys);
      CleanCons(x, rest + ys);
      CleanCons(x, rest);
    } else {
      assert xs + ys == ys;
    }
  }

  /** Cleaned words, passed back in as strings, come out unchanged: cleaning is idempotent. */
  lemma CleanIdempotent(xs: seq<Input>)
    ensures Clean(seq(|xs|, k requires 0 <= k < |xs| => Str(Clean(xs)[k]))) == Clean(xs)
  {
    var ys := seq(|xs|, k requires 0 <= k < |xs| => Str(Clean(xs)[k]));
    forall k | 0 <= k < |xs|
      ensures Clean(ys)[k] == Clean(xs)[k]
    {
      LowerFixesLowered(Clean(xs)[k]);
      assert AsText(ys[k]) == Clean(xs)[k];
    }
  }

  /** The k-th cleaned word is the lower-cased text of the k-th input. */
  lemma CleanAt(xs: seq<Input>, k: int)
    requires 0 <= k < |xs|
    ensures Clean(xs)[k] == Lower(AsText(xs[k]))
  {
    var w, t := Clean(xs)[k], AsText(xs[k]);
    assert |w| == |Lower(t)|;
    forall c | 0 <= c < |w| ensures w[c] == Lower(t)[c] {
    }
  }

  /** `None` in the list never raises: wherever it stands, it becomes the word "none". */
  lemma NoneBecomesWord(xs: seq<Input>, k: int)
    requires 0 <= k < |xs| && xs[k] == Other(NoneValue)
    ensures Clean(xs)[k] == "none"
  {
    CleanAt(xs, k);
    LowerNone();
    assert AsText(xs[k]) == "None";
  }

  /** The text of `None`, lowered. */
  lemma LowerNone()
    ensures Lower("None") == "none"
  {
    var w := Lower("None");
    assert w[0] == 'n' && w[1] == 'o' && w[2] == 'n' && w[3] == 'e';
  }
}
