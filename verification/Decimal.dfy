/** Decimal numerals, as `%d` prints them and as they are read back. */
module Decimal {
  import opened CText

  predicate IsDigit(c: char) {
    '0' <= c <= '9'
  }

  function DigitOf(c: char): (d: nat)
    requires IsDigit(c)
    ensures d < 10
  {
    c as int - '0' as int
  }

  function CharOf(d: nat): (c: char)
    requires d < 10
    ensures IsDigit(c) && DigitOf(c) == d
  {
    '0' + d as char
  }

  ghost predicate IsNumeral(s: string) {
    s != "" && forall k | 0 <= k < |s| :: IsDigit(s[k])
  }

  function Print(n: nat): (s: string)
    ensures IsNumeral(s)
  {
    if n < 10 then [CharOf(n)] else Print(n / 10) + [CharOf(n % 10)]
  }

  /** The value of the digits `s[i..j]`. */
  function Value(s: string, i: nat, j: nat): nat
    requires i <= j <= |s| && forall k | i <= k < j :: IsDigit(s[k])
    decreases j
  {
    if i == j then 0 else Value(s, i, j - 1) * 10 + DigitOf(s[j - 1])
  }

  lemma {:induction false} ValueOfCopy(s: string, i: nat, j: nat, t: string, d: nat)
    requires i <= j <= |s| && d + (j - i) <= |t|
    requires forall k | i <= k < j :: IsDigit(s[k]) && t[k - i + d] == s[k]
    requires forall k | d <= k < d + (j - i) :: IsDigit(t[k])
    ensures Value(t, d, d + (j - i)) == Value(s, i, j)
    decreases j
  {
    if i < j {
      ValueOfCopy(s, i, j - 1, t, d);
    }
  }

  /** Reading undoes printing. */
  lemma {:induction false} ValueOfPrint(n: nat)
    ensures Value(Print(n), 0, |Print(n)|) == n
  {
    if n >= 10 {
      var s, h := Print(n), Print(n / 10);
      ValueOfPrint(n / 10);
      ValueOfCopy(h, 0, |h|, s, 0);
    }
  }

  // --- atoi ---

  /** Digits from the front, after the value read so far. */
  function Digits(s: string, read: nat): nat {
    if s == "" || !IsDigit(s[0]) then read else Digits(s[1..], read * 10 + DigitOf(s[0]))
  }

  function Atoi(s: string): int {
    if s == "" then 0
    else if IsSpace(s[0]) then Atoi(s[1..])
    else if s[0] == '-' then 0 - Digits(s[1..], 0)
    else if s[0] == '+' then Digits(s[1..], 0)
    else Digits(s, 0)
  }

  /** Printing a number and reading it as C does. */
  lemma {:induction false} DigitsOfNumeral(s: string, i: nat)
    requires IsNumeral(s) && i <= |s|
    ensures Digits(s[i..], Value(s, 0, i)) == Value(s, 0, |s|)
    decreases |s| - i
  {
    if i < |s| {
      assert s[i..][0] == s[i] && s[i..][1..] == s[i + 1..];
      DigitsOfNumeral(s, i + 1);
    }
  }

  lemma DigitsOfPrint(n: nat)
    ensures Digits(Print(n), 0) == n
  {
    var s := Print(n);
    DigitsOfNumeral(s, 0);
    assert s[0..] == s;
    ValueOfPrint(n);
  }

  lemma AtoiOfPrint(n: nat)
    ensures Atoi(Print(n)) == n
  {
    assert IsDigit(Print(n)[0]);
    DigitsOfPrint(n);
  }

  lemma DigitsBeforeJunk(n: nat, junk: string)
    requires junk == "" || !('0' <= junk[0] <= '9')
    ensures Digits(Print(n) + junk, 0) == n
  {
    DigitsStop(Print(n), junk, 0);
    DigitsOfPrint(n);
  }

  lemma {:induction false} DigitsStop(s: string, junk: string, read: nat)
    requires (forall k | 0 <= k < |s| :: IsDigit(s[k])) && (junk == "" || !IsDigit(junk[0]))
    ensures Digits(s + junk, read) == Digits(s, read)
    decreases |s|
  {
    if s == "" {
      assert s + junk == junk;
    } else {
      assert (s + junk)[0] == s[0] && (s + junk)[1..] == s[1..] + junk;
      DigitsStop(s[1..], junk, read * 10 + DigitOf(s[0]));
    }
  }

  /** `atoi` reads a number behind a sign up to the first other character. */
  lemma AtoiIs(n: nat, junk: string)
    requires junk == "" || !('0' <= junk[0] <= '9')
    ensures Atoi(Print(n) + junk) == n && Atoi("+" + (Print(n) + junk)) == n && Atoi("-" + (Print(n) + junk)) == 0 - n
  {
    var s := Print(n) + junk;
    DigitsBeforeJunk(n, junk);
    assert s[0] == Print(n)[0] && IsDigit(s[0]);
    assert ("+" + s)[1..] == s && ("-" + s)[1..] == s;
  }

  function SignedText(n: int): string {
    if n < 0 then "-" + Print(-n) else Print(n)
  }

  lemma AtoiOfSigned(n: int)
    ensures Atoi(SignedText(n)) == n
  {
    var digits := Print(if n < 0 then -n else n);
    AtoiIs(if n < 0 then -n else n, "");
    assert digits + "" == digits;
  }

  /** A text that starts with no digit, behind a sign or not, reads as nothing. */
  lemma NothingToRead(s: string)
    requires s == "" || (!('0' <= s[0] <= '9') && !IsSpace(s[0]) && s[0] != '-' && s[0] != '+')
    ensures Atoi(s) == 0 && Counter(s) == 0
    ensures Atoi("-" + s) == Atoi("+" + s) == 0 && Counter("-" + s) == Counter("+" + s) == 0
  {
    assert ("-" + s)[1..] == s && ("+" + s)[1..] == s;
  }

  // --- strtoull ---

  const ULLONG_MAX: nat := 0xFFFF_FFFF_FFFF_FFFF

  /** `strtoull(s, NULL, 10)`: a minus sign negates in 64 bits, too large a number saturates. */
  function Counter(s: string): (n: nat)
    ensures n <= ULLONG_MAX
  {
    if s == "" then 0
    else if IsSpace(s[0]) then Counter(s[1..])
    else
      var n := Digits(if s[0] == '-' || s[0] == '+' then s[1..] else s, 0);
      if n > ULLONG_MAX then ULLONG_MAX
      else if s[0] == '-' && n > 0 then ULLONG_MAX + 1 - n
      else n
  }

  /** A 64-bit counter that was printed is read back. */
  lemma CounterOfPrint(n: nat)
    requires n <= ULLONG_MAX
    ensures Counter(Print(n)) == n
  {
    assert IsDigit(Print(n)[0]);
    DigitsOfPrint(n);
  }
}
