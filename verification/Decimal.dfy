/** Decimal text of unsigned 64-bit numbers, as Rust's `format!` prints it and
    `str::parse::<u64>` reads it: an optional plus sign, leading zeros allowed, overflow
    rejected. */
module Decimal {
  import opened Common

  const U64_LIMIT: nat := 0x1_0000_0000_0000_0000

  type u64 = n: nat | n < U64_LIMIT

  predicate IsDigit(c: char) {
    '0' <= c <= '9'
  }

  predicate AllDigits(s: string) {
    forall i | 0 <= i < |s| :: IsDigit(s[i])
  }

  function DigitChar(d: nat): char
    requires d < 10
  {
    '0' + d as char
  }

  function ValueOf(s: string): nat
    requires AllDigits(s)
  {
    if s == "" then 0 else 10 * ValueOf(s[..|s| - 1]) + (s[|s| - 1] as int - '0' as int)
  }

  function PrintU64(n: nat): string {
    if n < 10 then [DigitChar(n)] else PrintU64(n / 10) + [DigitChar(n % 10)]
  }

  function ParseU64(s: string): Option<u64> {
    var digits := if |s| > 1 && s[0] == '+' then s[1..] else s;
    if digits == "" || !AllDigits(digits) || ValueOf(digits) >= U64_LIMIT then None
    else Some(ValueOf(digits))
  }

  /** No sign and no superfluous leading zero. */
  predicate Canonical(s: string) {
    s != "" && AllDigits(s) && (|s| == 1 || s[0] != '0')
  }

  lemma {:induction false} PrintIsCanonical(n: nat)
    ensures Canonical(PrintU64(n))
    ensures ValueOf(PrintU64(n)) == n
    ensures n > 0 ==> PrintU64(n)[0] != '0'
    decreases n
  {
    if n < 10 {
      var s := PrintU64(n);
      assert s[..|s| - 1] == "";
    } else {
      PrintIsCanonical(n / 10);
      var s := PrintU64(n);
      assert s[..|s| - 1] == PrintU64(n / 10);
      assert s[0] == PrintU64(n / 10)[0];
    }
  }

  lemma {:induction false} LeadingDigitCounts(s: string)
    requires s != "" && AllDigits(s) && s[0] != '0'
    ensures ValueOf(s) > 0
  {
    if |s| > 1 {
      LeadingDigitCounts(s[..|s| - 1]);
    } else {
      assert s[..|s| - 1] == "";
    }
  }

  lemma {:induction false} CanonicalIsPrinted(s: string)
    requires Canonical(s)
    ensures PrintU64(ValueOf(s)) == s
  {
    var front, d := s[..|s| - 1], s[|s| - 1] as int - '0' as int;
    if |s| == 1 {
      assert front == "";
      assert s == [DigitChar(d)];
    } else {
      LeadingDigitCounts(front);
      CanonicalIsPrinted(front);
      assert ValueOf(s) / 10 == ValueOf(front) && ValueOf(s) % 10 == d;
      assert s == front + [DigitChar(d)];
    }
  }

  /** Reading back what was printed gives the number; conversely an accepted text is the
      printed form of its number exactly when it is canonical, so `003` and `+3` are read as
      3 but never printed. */
  lemma DecimalRoundTrip(n: u64, s: string)
    ensures ParseU64(PrintU64(n)) == Some(n)
    ensures ParseU64(s).Some? ==> (PrintU64(ParseU64(s).value) == s <==> Canonical(s))
  {
    PrintIsCanonical(n);
    assert PrintU64(n)[0] != '+';
    match ParseU64(s) {
      case None =>
      case Some(v) =>
        PrintIsCanonical(v);
        if Canonical(s) {
          assert s[0] != '+';
          CanonicalIsPrinted(s);
        }
    }
  }

  // ---------- every text a number is read from ----------

  function Zeros(k: nat): string {
    seq(k, _ => '0')
  }

  /** A plus sign or none, any number of zeros, then the printed number. */
  ghost predicate ReadsAs(s: string, n: nat) {
    exists k: nat :: s == Zeros(k) + PrintU64(n) || s == "+" + (Zeros(k) + PrintU64(n))
  }

  lemma {:induction false} LeadingZerosCountNothing(k: nat, s: string)
    requires AllDigits(s)
    ensures AllDigits(Zeros(k) + s) && ValueOf(Zeros(k) + s) == ValueOf(s)
    decreases |s|, k
  {
    var t := Zeros(k) + s;
    if s == "" && k == 0 {
      assert t == "";
    } else if s == "" {
      LeadingZerosCountNothing(k - 1, "");
      assert t[..|t| - 1] == Zeros(k - 1) + "";
    } else {
      LeadingZerosCountNothing(k, s[..|s| - 1]);
      assert t[..|t| - 1] == Zeros(k) + s[..|s| - 1];
    }
  }

  lemma {:induction false} StripZeros(s: string) returns (k: nat, c: string)
    requires s != "" && AllDigits(s)
    ensures Canonical(c) && s == Zeros(k) + c
  {
    if |s| == 1 || s[0] != '0' {
      k, c := 0, s;
    } else {
      k, c := StripZeros(s[1..]);
      k := k + 1;
      assert Zeros(k) == "0" + Zeros(k - 1);
    }
  }

  /** Both spellings are read, with any number of zeros. */
  lemma ZerosAndSignAreRead(k: nat, n: u64)
    ensures ParseU64(Zeros(k) + PrintU64(n)) == Some(n) == ParseU64("+" + (Zeros(k) + PrintU64(n)))
  {
    var digits := Zeros(k) + PrintU64(n);
    PrintIsCanonical(n);
    LeadingZerosCountNothing(k, PrintU64(n));
    hide ValueOf, PrintU64;
    assert IsDigit(digits[0]) && ("+" + digits)[1..] == digits;
  }

  lemma AcceptedIsSpelled(s: string, n: u64)
    requires ParseU64(s) == Some(n)
    ensures ReadsAs(s, n)
  {
    var digits := if |s| > 1 && s[0] == '+' then s[1..] else s;
    var k, c := StripZeros(digits);
    LeadingZerosCountNothing(k, c);
    CanonicalIsPrinted(c);
    hide ValueOf, PrintU64;
    assert digits == Zeros(k) + PrintU64(n);
    assert s == digits || s == "+" + digits;
  }

  /** Main result on versions: a text is read as a 64-bit number exactly when it is the printed
      number behind any zeros and at most one plus sign; every other text is rejected. */
  lemma ParseU64Exactly(s: string, n: u64)
    ensures ParseU64(s) == Some(n) <==> ReadsAs(s, n)
  {
    if ReadsAs(s, n) {
      var k: nat :| s == Zeros(k) + PrintU64(n) || s == "+" + (Zeros(k) + PrintU64(n));
      ZerosAndSignAreRead(k, n);
    }
    if ParseU64(s) == Some(n) {
      AcceptedIsSpelled(s, n);
    }
  }
}
