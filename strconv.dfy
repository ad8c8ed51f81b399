/**
 * Decimal text and Go's 64-bit `int`: `strconv.Atoi` and the `%d` verb of
 * `fmt.Sprintf`.
 */
module GoStrconv {
  import opened Wrappers

  const MinInt: int := -0x8000_0000_0000_0000
  const MaxInt: int := 0x7fff_ffff_ffff_ffff

  const MaxUint64: int := 0xffff_ffff_ffff_ffff

  /** Go's `int` on a 64-bit platform. */
  type Int = x: int | MinInt <= x <= MaxInt

  /** The two failures `strconv.Atoi` distinguishes. */
  datatype NumError = ErrSyntax | ErrRange

  predicate IsDigit(c: char)
  {
    '0' <= c <= '9'
  }

  predicate AllDigits(s: string)
  {
    forall i | 0 <= i < |s| :: IsDigit(s[i])
  }

  function DigitValue(c: char): (d: nat)
    requires IsDigit(c)
    ensures d < 10
  {
    (c as int) - ('0' as int)
  }

  function DigitChar(d: nat): (c: char)
    requires d < 10
    ensures IsDigit(c) && DigitValue(c) == d
  {
    ('0' as int + d) as char
  }

  /** The number a string of decimal digits denotes, most significant first. */
  function Value(s: string): nat
    requires AllDigits(s)
  {
    if s == [] then 0 else Value(s[..|s| - 1]) * 10 + DigitValue(s[|s| - 1])
  }

  /**
   * The decimal digits of `n`: never empty, and without leading zeros.
   * They denote `n`.
   */
  function Digits(n: nat): (s: string)
    ensures s != [] && AllDigits(s)
    ensures s[0] == '0' ==> s == "0"
    ensures Value(s) == n
  {
    if n < 10 then [DigitChar(n)]
    else
      var p := Digits(n / 10);
      var s := p + [DigitChar(n % 10)];
      assert s[..|s| - 1] == p;
      s
  }

  /** `fmt.Sprintf("%d", n)`. */
  function FormatInt(n: int): (s: string)
    ensures Canonical(s)
    ensures s[0] == '-' <==> n < 0
  {
    if n < 0 then "-" + Digits(-n) else Digits(n)
  }

  /**
   * The shape of what `%d` prints: an optional minus sign, then digits with
   * no leading zero, and no "-0".
   */
  predicate Canonical(s: string)
  {
    var d := if s != [] && s[0] == '-' then s[1..] else s;
    d != [] && AllDigits(d) && (d[0] == '0' ==> s == "0")
  }

  /**
   * The scan loop of `strconv.ParseUint` in base 10, at index `i` of `s`:
   * the digits before `i` have been read and their value `Value(s[..i])` fits
   * in 64 unsigned bits. A non-digit is a syntax error; a digit that takes the
   * value past `MaxUint64` is a range error at once, whatever follows it.
   */
  function ScanDigits(s: string, i: nat): (r: Result<nat, NumError>)
    requires i <= |s| && AllDigits(s[..i]) && Value(s[..i]) <= MaxUint64
    ensures r.Success? ==> AllDigits(s) && r.value == Value(s) && r.value <= MaxUint64
    ensures r == Failure(ErrRange) ==> i < |s| && IsDigit(s[i])
    decreases |s| - i
  {
    if i == |s| then
      assert s[..i] == s;
      Success(Value(s[..i]))
    else if !IsDigit(s[i]) then Failure(ErrSyntax)
    else
      assert s[..i + 1][..i] == s[..i];
      if Value(s[..i + 1]) > MaxUint64 then Failure(ErrRange) else ScanDigits(s, i + 1)
  }

  /** `strconv.ParseUint(s, 10, 64)`: one or more decimal digits whose value fits in 64 unsigned bits. */
  function ParseUint(s: string): (r: Result<nat, NumError>)
    ensures r.Success? ==> s != [] && AllDigits(s) && r.value == Value(s) && r.value <= MaxUint64
    ensures r == Failure(ErrRange) ==> s != [] && IsDigit(s[0])
  {
    if s == [] then Failure(ErrSyntax)
    else
      assert s[..0] == [];
      ScanDigits(s, 0)
  }

  /**
   * `strconv.Atoi`: an optional `+` or `-`, then one or more decimal digits
   * (leading zeros allowed), whose value must fit in `Int`. Nothing else is
   * accepted, in particular no surrounding space. Both of Go's paths (the
   * fast path for short text and `ParseInt` for the rest) are this one
   * definition: on short text the scan cannot overflow.
   */
  function Atoi(s: string): (r: Result<Int, NumError>)
    ensures r.Success? ==> s != [] && (IsDigit(s[0]) || ((s[0] == '+' || s[0] == '-') && |s| > 1))
    ensures r.Success? ==> AllDigits(s[1..])
    ensures r.Success? ==> (r.value < 0 ==> s[0] == '-')
    ensures r == Failure(ErrRange) ==>
      s != [] && (IsDigit(s[0]) || ((s[0] == '+' || s[0] == '-') && |s| > 1 && IsDigit(s[1])))
  {
    if s == [] then Failure(ErrSyntax)
    else
      var digits := if s[0] == '+' || s[0] == '-' then s[1..] else s;
      match ParseUint(digits)
      case Failure(e) => Failure(e)
      case Success(u) =>
        var v: int := if s[0] == '-' then -(u as int) else u;
        if MinInt <= v <= MaxInt then Success(v) else Failure(ErrRange)
  }

  /** A prefix of a digit string never denotes more than the whole. */
  lemma {:induction false} ValuePrefix(s: string, j: nat)
    requires j <= |s| && AllDigits(s)
    ensures AllDigits(s[..j]) && Value(s[..j]) <= Value(s)
    decreases |s| - j
  {
    if j < |s| {
      ValuePrefix(s, j + 1);
      assert s[..j + 1][..j] == s[..j];
    } else {
      assert s[..j] == s;
    }
  }

  /** On a digit string the scan yields the value, or a range error when it exceeds `MaxUint64`. */
  lemma {:induction false} ScanAllDigits(s: string, i: nat)
    requires i <= |s| && AllDigits(s) && Value(s[..i]) <= MaxUint64
    ensures AllDigits(s[..i])
    ensures ScanDigits(s, i) == if Value(s) <= MaxUint64 then Success(Value(s)) else Failure(ErrRange)
    decreases |s| - i
  {
    assert AllDigits(s[..i]);
    if i < |s| {
      ValuePrefix(s, i + 1);
      if Value(s[..i + 1]) <= MaxUint64 {
        ScanAllDigits(s, i + 1);
      }
    } else {
      assert s[..i] == s;
    }
  }

  /**
   * The scan reports overflow as soon as the digits read exceed `MaxUint64`,
   * before it looks at any later character.
   */
  lemma {:induction false} ScanOverflow(s: string, i: nat, k: nat)
    requires i <= k <= |s| && AllDigits(s[..k]) && Value(s[..k]) > MaxUint64
    requires AllDigits(s[..i]) && Value(s[..i]) <= MaxUint64
    ensures ScanDigits(s, i) == Failure(ErrRange)
    decreases k - i
  {
    assert i != k;
    assert s[i] == s[..k][i];
    assert s[..i + 1] == s[..k][..i + 1];
    assert s[..k][..i + 1][..i] == s[..i];
    if Value(s[..i + 1]) <= MaxUint64 {
      assert s[..k][..i + 1] == s[..i + 1];
      ScanOverflow(s, i + 1, k);
    }
  }

  /**
   * Overflow wins over a syntax error that comes later: digits beyond 64 bits
   * followed by anything at all are a range error.
   */
  lemma AtoiOverflowFirst(d: string, t: string)
    requires d != [] && AllDigits(d) && Value(d) > MaxUint64
    ensures Atoi(d + t) == Failure(ErrRange)
  {
    var s := d + t;
    assert s[..|d|] == d;
    assert s[..0] == [];
    ScanOverflow(s, 0, |d|);
  }

  /** Atoi on unsigned and signed digit strings: the accepting direction of its contract. */
  lemma AtoiOfDigits(d: string)
    requires d != [] && AllDigits(d)
    ensures Atoi(d) == if Value(d) <= MaxInt then Success(Value(d)) else Failure(ErrRange)
    ensures Atoi("+" + d) == Atoi(d)
    ensures Atoi("-" + d) == if Value(d) <= -MinInt then Success(-(Value(d) as int)) else Failure(ErrRange)
  {
    assert ("+" + d)[1..] == d;
    assert ("-" + d)[1..] == d;
    assert d[..0] == [];
    ScanAllDigits(d, 0);
  }

  /** Format then parse: `%d` output is read back by Atoi as the same number. */
  lemma AtoiFormat(n: Int)
    ensures Atoi(FormatInt(n)) == Success(n)
  {
    var m: int := n;
    if m < 0 {
      AtoiOfDigits(Digits(-m));
      assert FormatInt(m) == "-" + Digits(-m);
    } else {
      AtoiOfDigits(Digits(m));
    }
  }

  /** A digit string without leading zeros is the `Digits` of its value. */
  lemma {:induction false} DigitsValue(s: string)
    requires s != [] && AllDigits(s)
    requires s[0] == '0' ==> |s| == 1
    ensures Digits(Value(s)) == s
  {
    if |s| > 1 {
      var p := s[..|s| - 1];
      PositiveValue(p);
      DigitsValue(p);
      assert s == p + [s[|s| - 1]];
    }
  }

  lemma {:induction false} PositiveValue(s: string)
    requires s != [] && AllDigits(s) && s[0] != '0'
    ensures Value(s) > 0
  {
    if |s| > 1 {
      PositiveValue(s[..|s| - 1]);
    }
  }

  /** Parse then format: text in `%d` shape that Atoi accepts is printed back unchanged. */
  lemma FormatAtoi(s: string)
    requires Canonical(s) && Atoi(s).Success?
    ensures FormatInt(Atoi(s).value) == s
  {
    if s[0] == '-' {
      var d := s[1..];
      assert s == "-" + d;
      AtoiOfDigits(d);
      DigitsValue(d);
      PositiveValue(d);
      assert Atoi(s).value == -(Value(d) as int);
    } else {
      assert s[0] != '+';
      AtoiOfDigits(s);
      DigitsValue(s);
    }
  }

  /** `%d` is injective, so distinct pids are written as distinct text. */
  lemma FormatInjective(m: Int, n: Int)
    requires FormatInt(m) == FormatInt(n)
    ensures m == n
  {
    AtoiFormat(m);
    AtoiFormat(n);
  }
}
