/** Decimal integer text: what Rust's `to_string` writes for an integer and what
    `str::parse` reads back. Both the behaviour-tree codec (`num_cycles`,
    `num_attempts`, numeric character references) and the Twin name suffix search
    (`name-2`, `name-3`, …) depend on this text being injective. */
module Numerals {
  import opened Wrappers

  const I64_MAX: int := 0x7fff_ffff_ffff_ffff
  const U64_MAX: nat := 0xffff_ffff_ffff_ffff

  type U64 = n: nat | n <= U64_MAX

  function DigitChar(d: nat): char
    requires d < 10
  {
    '0' + d as char
  }

  predicate IsDigit(c: char) {
    '0' <= c <= '9'
  }

  function DigitValue(c: char): nat
    requires IsDigit(c)
  {
    c as nat - '0' as nat
  }

  function ShowNat(n: nat): (s: string)
    ensures s != [] && forall i :: 0 <= i < |s| ==> IsDigit(s[i])
  {
    if n < 10 then [DigitChar(n)] else ShowNat(n / 10) + [DigitChar(n % 10)]
  }

  /** The value of an unsigned digit string, most significant digit first. */
  function ParseNat(s: string): Option<nat>
  {
    if s == [] || !IsDigit(s[|s| - 1]) then
      None
    else if |s| == 1 then
      Some(DigitValue(s[0]))
    else
      match ParseNat(s[..|s| - 1])
      case None => None
      case Some(high) => Some(10 * high + DigitValue(s[|s| - 1]))
  }

  lemma {:induction false} ParseShowNat(n: nat)
    ensures ParseNat(ShowNat(n)) == Some(n)
  {
    if n >= 10 {
      ParseShowNat(n / 10);
      var s := ShowNat(n);
      assert s[..|s| - 1] == ShowNat(n / 10);
    }
  }

  // ----- What the text says, digit by digit -----

  function Pow10(e: nat): (p: nat)
    ensures p > 0
  {
    if e == 0 then 1 else 10 * Pow10(e - 1)
  }

  /** The number with `low` in its last `k` places, the digit `d` before them and `high` before that. */
  function Assembled(high: nat, d: nat, low: nat, k: nat): nat {
    Pow10(k) * (10 * high + d) + low
  }

  /** `c` is the digit of `n` for ten to the power `k`. */
  ghost predicate HasDigit(n: nat, k: nat, c: char) {
    exists high: nat, d: nat, low: nat ::
      d < 10 && c == "0123456789"[d] && low < Pow10(k) && n == Assembled(high, d, low, k)
  }

  /** The digit for ten to the power `k` stands `k` places from the end. */
  lemma {:induction false} ShowNatDigits(n: nat, k: nat)
    requires k < |ShowNat(n)|
    ensures HasDigit(n, k, ShowNat(n)[|ShowNat(n)| - 1 - k])
    decreases n
  {
    if k == 0 {
      LastDigit(n);
    } else {
      ShowNatDigits(n / 10, k - 1);
      assert ShowNat(n) == ShowNat(n / 10) + [DigitChar(n % 10)];
      EarlierDigit(n, k - 1, ShowNat(n)[|ShowNat(n)| - 1 - k]);
      hide HasDigit;
    }
  }

  lemma LastDigit(n: nat)
    ensures HasDigit(n, 0, ShowNat(n)[|ShowNat(n)| - 1])
  {
    assert ShowNat(n)[|ShowNat(n)| - 1] == DigitChar(n % 10) == "0123456789"[n % 10];
    hide ShowNat;
    assert n == Assembled(n / 10, n % 10, 0, 0);
  }

  lemma EarlierDigit(n: nat, k: nat, c: char)
    requires HasDigit(n / 10, k, c)
    ensures HasDigit(n, k + 1, c)
  {
    var high: nat, d: nat, low: nat :| d < 10 && c == "0123456789"[d] && low < Pow10(k)
      && n / 10 == Assembled(high, d, low, k);
    TenTimes(Pow10(k), 10 * high + d);
    assert n == Assembled(high, d, 10 * low + n % 10, k + 1);
  }

  lemma TenTimes(p: nat, x: nat)
    ensures 10 * (p * x) == (10 * p) * x
  {
  }

  /** No zero leads but in "0" itself: the text is as short as it can be. */
  lemma {:induction false} ShowNatShortest(n: nat)
    ensures n < Pow10(|ShowNat(n)|)
    ensures |ShowNat(n)| > 1 ==> Pow10(|ShowNat(n)| - 1) <= n
  {
    if n < 10 {
      assert Pow10(1) == 10 * Pow10(0);
    } else {
      ShowNatShortest(n / 10);
      var places := |ShowNat(n / 10)|;
      assert Pow10(places + 1) == 10 * Pow10(places);
      assert places > 1 ==> Pow10(places) == 10 * Pow10(places - 1);
      assert places == 1 ==> Pow10(1) == 10 * Pow10(0);
    }
  }

  /** A digit string stands for a number: leading zeros, then its shortest text. */
  ghost predicate Denotes(s: string, n: nat) {
    exists zeros: nat :: s == Zeros(zeros) + ShowNat(n)
  }

  function Zeros(k: nat): string {
    seq(k, _ => '0')
  }

  /** Reading a digit string is the inverse of writing it, leading zeros aside. */
  lemma {:induction false} ParseNatIff(s: string, n: nat)
    ensures ParseNat(s) == Some(n) <==> Denotes(s, n)
    decreases |s|
  {
    if ParseNat(s) == Some(n) {
      ParsedIsDenoted(s);
    }
    if Denotes(s, n) {
      var zeros: nat :| s == Zeros(zeros) + ShowNat(n);
      PaddedParses(zeros, n);
    }
  }

  lemma {:induction false} ParsedIsDenoted(s: string)
    requires ParseNat(s).Some?
    ensures Denotes(s, ParseNat(s).value)
  {
    var init, last := s[..|s| - 1], s[|s| - 1];
    if |s| == 1 {
      assert s == Zeros(0) + ShowNat(DigitValue(last));
    } else {
      ParsedIsDenoted(init);
      LongerIsDenoted(init, ParseNat(init).value, last);
      assert s == init + [last];
    }
  }

  lemma LongerIsDenoted(init: string, high: nat, last: char)
    requires Denotes(init, high) && IsDigit(last)
    ensures Denotes(init + [last], 10 * high + DigitValue(last))
  {
    var zeros: nat :| init == Zeros(zeros) + ShowNat(high);
    var n := 10 * high + DigitValue(last);
    if high == 0 {
      assert ShowNat(high) == "0" && ShowNat(n) == [last];
      assert init + [last] == Zeros(zeros + 1) + ShowNat(n);
    } else {
      assert ShowNat(n) == ShowNat(high) + [last];
      assert init + [last] == Zeros(zeros) + ShowNat(n);
    }
  }

  lemma DenotedIsDigits(s: string, n: nat)
    requires Denotes(s, n)
    ensures s != [] && IsDigit(s[0])
  {
    var zeros: nat :| s == Zeros(zeros) + ShowNat(n);
    assert s[0] == if zeros > 0 then '0' else ShowNat(n)[0];
  }

  lemma {:induction false} PaddedParses(zeros: nat, n: nat)
    ensures ParseNat(Zeros(zeros) + ShowNat(n)) == Some(n)
    decreases zeros, n
  {
    var s := Zeros(zeros) + ShowNat(n);
    if n >= 10 {
      PaddedParses(zeros, n / 10);
      assert s[..|s| - 1] == Zeros(zeros) + ShowNat(n / 10);
    } else if zeros > 0 {
      PaddedParses(zeros - 1, 0);
      assert s[..|s| - 1] == Zeros(zeros - 1) + ShowNat(0);
    }
  }

  lemma ShowNatInjective(m: nat, n: nat)
    requires ShowNat(m) == ShowNat(n)
    ensures m == n
  {
    ParseShowNat(m);
    ParseShowNat(n);
  }

  function ShowInt(n: int): string {
    if n < 0 then "-" + ShowNat(-n) else ShowNat(n)
  }

  /** `str::parse::<i64>`: an optional sign, at least one digit, and a value that fits. */
  function ParseI64(s: string): Option<int> {
    var magnitude := if s != [] && (s[0] == '-' || s[0] == '+') then ParseNat(s[1..]) else ParseNat(s);
    if magnitude == None then None
    else
      var n: int := magnitude.value;
      var value := if s[0] == '-' then -n else n;
      if -I64_MAX - 1 <= value <= I64_MAX then Some(value) else None
  }

  lemma ParseShowInt(n: int)
    requires -I64_MAX - 1 <= n <= I64_MAX
    ensures ParseI64(ShowInt(n)) == Some(n)
  {
    if n < 0 {
      ParseShowNat(-n);
      assert ShowInt(n)[1..] == ShowNat(-n);
    } else {
      ParseShowNat(n);
    }
  }

  /** `str::parse::<u64>`: an optional plus, at least one digit, and a value that fits. */
  function ParseU64(s: string): Option<U64> {
    match if s != [] && s[0] == '+' then ParseNat(s[1..]) else ParseNat(s)
    case Some(n) => if n <= U64_MAX then Some(n) else None
    case None => None
  }

  /** The texts read as an unsigned 64-bit number: its digits with any leading zeros and one plus at most. */
  ghost predicate DenotesUnsigned(s: string, n: U64) {
    Denotes(s, n) || (s != [] && s[0] == '+' && Denotes(s[1..], n))
  }

  lemma ParseU64Iff(s: string, n: U64)
    ensures ParseU64(s) == Some(n) <==> DenotesUnsigned(s, n)
  {
    ParseNatIff(s, n);
    if s != [] {
      ParseNatIff(s[1..], n);
    }
    if Denotes(s, n) {
      DenotedIsDigits(s, n);
    }
  }

  /** The same for a signed number: digits after one sign at most, negated by a minus. */
  lemma ParseI64Iff(s: string, n: int)
    ensures ParseI64(s) == Some(n) <==>
      && -I64_MAX - 1 <= n <= I64_MAX
      && ((n >= 0 && (Denotes(s, n) || (s != [] && s[0] == '+' && Denotes(s[1..], n))))
          || (n <= 0 && s != [] && s[0] == '-' && Denotes(s[1..], -n)))
  {
    var m: nat := if n < 0 then -n else n;
    ParseNatIff(s, m);
    if s != [] {
      ParseNatIff(s[1..], m);
    }
    if Denotes(s, m) {
      DenotedIsDigits(s, m);
    }
  }
}
