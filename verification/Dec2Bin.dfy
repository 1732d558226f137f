/**
 dec2bin: the binary spelling of a long, built backwards in a scratch array and reversed.
 */
module Dec2Bin {
  import opened Common

  const NUL: char := 0 as char

  function Pow2(k: nat): (p: nat)
    ensures p > 0
  {
    if k == 0 then 1 else 2 * Pow2(k - 1)
  }

  function Digit(d: nat): char
    requires d < 2
  {
    if d == 0 then '0' else '1'
  }

  // The binary digits of n, most significant first.
  function Bits(n: nat): (s: string)
    ensures |s| > 0
  {
    if n < 2 then [Digit(n)] else Bits(n / 2) + [Digit(n % 2)]
  }

  function Value(s: string): nat {
    if s == [] then 0 else 2 * Value(s[..|s| - 1]) + if s[|s| - 1] == '1' then 1 else 0
  }

  predicate IsBinary(s: string) {
    forall i :: 0 <= i < |s| ==> s[i] == '0' || s[i] == '1'
  }

  // Binary digits without a leading zero, except that 0 has one digit.
  predicate IsMinimal(s: string) {
    |s| > 0 && IsBinary(s) && (s[0] == '1' || s == "0")
  }

  // The number that a sign character followed by minimal binary digits stands for.
  function Parse(s: string): Option<int> {
    if |s| > 0 && s[0] == '-' && IsMinimal(s[1..]) then Some(-(Value(s[1..]) as int))
    else if |s| > 0 && s[0] == ' ' && IsMinimal(s[1..]) then Some(Value(s[1..]))
    else None
  }

  // The text at the start of s is a sign, n digits and NUL: '-' for a negative number and a
  // space for others, and then the minimal binary digits of the magnitude.
  predicate Spells(s: string, n: nat, decimal: int) {
    && n + 2 <= |s| && s[0] == (if decimal < 0 then '-' else ' ')
    && IsMinimal(s[1..n + 1]) && Value(s[1..n + 1]) == (if decimal < 0 then -decimal else decimal)
    && s[n + 1] == NUL
  }

  function Spelling(decimal: int): string {
    if decimal < 0 then ['-'] + Bits(-decimal) else [' '] + Bits(decimal)
  }

  lemma {:induction false} BitsValue(n: nat)
    ensures Value(Bits(n)) == n
  {
    if n >= 2 {
      BitsValue(n / 2);
      assert Bits(n)[..|Bits(n)| - 1] == Bits(n / 2);
    } else {
      assert Bits(n)[..0] == [];
    }
  }

  // There is no leading zero, except that 0 is spelled with one digit.
  lemma {:induction false} BitsMinimal(n: nat)
    ensures IsMinimal(Bits(n)) && (Bits(n)[0] == '1' || n == 0)
  {
    if n >= 2 {
      BitsMinimal(n / 2);
    }
  }

  lemma {:induction false} BitsLength(n: nat, k: nat)
    requires 0 < k && n < Pow2(k)
    ensures |Bits(n)| <= k
  {
    if n >= 2 {
      BitsLength(n / 2, k - 1);
    }
  }

  // Parsing the spelling of any integer gives it back.
  lemma RoundTrip(decimal: int)
    ensures Parse(Spelling(decimal)) == Some(decimal)
  {
    var n := if decimal < 0 then -decimal else decimal;
    BitsValue(n);
    BitsMinimal(n);
    hide Bits, Value;
    assert Spelling(decimal)[1..] == Bits(n);
  }

  // There is only one way to spell a magnitude.
  lemma {:induction false} DigitsUnique(s: string, t: string)
    requires IsMinimal(s) && IsMinimal(t) && Value(s) == Value(t)
    ensures s == t
    decreases |s|
  {
    DigitsPositive(s);
    DigitsPositive(t);
    if |s| > 1 && |t| > 1 {
      var s', t' := s[..|s| - 1], t[..|t| - 1];
      DigitsUnique(s', t');
      assert s == s' + [s[|s| - 1]] && t == t' + [t[|t| - 1]];
    } else {
      OneDigit(s);
      OneDigit(t);
    }
  }

  // A text of more than one digit stands for more than 1.
  lemma {:induction false} DigitsPositive(s: string)
    requires IsMinimal(s)
    ensures s[0] == '1' ==> Value(s) >= 1
    ensures |s| > 1 ==> Value(s) >= 2 && IsMinimal(s[..|s| - 1])
  {
    if |s| > 1 {
      DigitsPositive(s[..|s| - 1]);
    } else {
      OneDigit(s);
    }
  }

  lemma OneDigit(s: string)
    requires |s| == 1
    ensures Value(s) == if s[0] == '1' then 1 else 0
  {
    assert s[..0] == [];
  }

  // So the cells that dec2bin writes are determined by the number.
  lemma SpellingUnique(s: string, n: nat, s': string, n': nat, decimal: int)
    requires Spells(s, n, decimal) && Spells(s', n', decimal)
    ensures n == n' && s[..n + 2] == s'[..n' + 2]
  {
    DigitsUnique(s[1..n + 1], s'[1..n' + 1]);
    assert n == |s[1..n + 1]| == |s'[1..n' + 1]| == n';
    forall i | 0 <= i < n + 2 ensures s[i] == s'[i] {
      assert 1 <= i < n + 1 ==> s[i] == s[1..n + 1][i - 1] && s'[i] == s'[1..n + 1][i - 1];
    }
  }

  // A text that starts with the spelling and NUL spells the number.
  lemma SpellingSpells(s: string, decimal: int)
    requires |Spelling(decimal)| < |s| && s[..|Spelling(decimal)| + 1] == Spelling(decimal) + [NUL]
    ensures Spells(s, |Spelling(decimal)| - 1, decimal)
  {
    var n, text := if decimal < 0 then -decimal else decimal, Spelling(decimal);
    BitsValue(n);
    BitsMinimal(n);
    hide Bits, Value;
    assert text[1..] == Bits(n);
    assert forall i :: 0 <= i < |text| ==> s[i] == s[..|text| + 1][i] == text[i];
    assert s[1..|text|] == Bits(n);
    assert s[|text|] == s[..|text| + 1][|text|];
  }

  function Reversed(s: string): (r: string)
    ensures |r| == |s| && forall i :: 0 <= i < |s| ==> r[i] == s[|s| - 1 - i]
  {
    if s == [] then [] else [s[|s| - 1]] + Reversed(s[..|s| - 1])
  }

  lemma ReversedMore(s: string, c: char)
    ensures Reversed(s + [c]) == [c] + Reversed(s)
  {
    assert (s + [c])[..|s|] == s;
  }

  // The digits still to come, followed by those already spelled backwards.
  function Pending(n: nat): string {
    if n == 0 then [] else Bits(n)
  }

  lemma PendingStep(n: nat)
    requires n > 0
    ensures Pending(n) == Pending(n / 2) + [Digit(n % 2)]
  {
    if n == 1 {
      assert n / 2 == 0;
    }
  }

  // The first loop: temp gets the digits of d, least significant first.
  method SpellBackwards(d: nat, temp: array<char>) returns (k: nat)
    requires d < Pow2(63) && temp.Length == 80
    modifies temp
    ensures 0 < k <= 63 && Reversed(temp[..k]) == Bits(d)
  {
    hide Pow2, Pending, Bits, Reversed;
    temp[0] := Digit(d % 2);
    var rest: nat := d / 2;
    k := 1;
    SpellFirst(d);
    assert temp[..1] == [Digit(d % 2)];
    while rest > 0
      invariant 0 < k <= 63 && rest < Pow2(63 - k)
      invariant Pending(rest) + Reversed(temp[..k]) == Bits(d)
    {
      ghost var before := temp[..k];
      SpellNext(rest, before);
      HalfFits(rest, 63 - k);
      temp[k] := Digit(rest % 2);
      assert temp[..k + 1] == before + [Digit(rest % 2)];
      rest := rest / 2;
      k := k + 1;
    }
    PendingNone(temp[..k], d);
  }

  lemma PendingNone(done: string, d: nat)
    requires Pending(0) + Reversed(done) == Bits(d)
    ensures Reversed(done) == Bits(d)
  {
  }

  lemma SpellFirst(d: nat)
    requires d < Pow2(63)
    ensures Pending(d / 2) + Reversed([Digit(d % 2)]) == Bits(d) && d / 2 < Pow2(62)
  {
    HalfFits(d, 63);
    hide Pow2;
    assert Reversed([Digit(d % 2)]) == [Digit(d % 2)];
    hide Reversed;
    if d > 0 {
      PendingStep(d);
    }
  }

  lemma SpellNext(rest: nat, done: string)
    requires 0 < rest
    ensures Pending(rest / 2) + Reversed(done + [Digit(rest % 2)]) == Pending(rest) + Reversed(done)
  {
    hide Pending, Reversed, Bits;
    PendingStep(rest);
    ReversedMore(done, Digit(rest % 2));
    Regroup(Pending(rest / 2), [Digit(rest % 2)], Reversed(done));
  }

  lemma HalfFits(rest: nat, k: nat)
    requires 0 < rest < Pow2(k) || (0 < k && rest < Pow2(k))
    ensures 0 < k && rest / 2 < Pow2(k - 1)
  {
  }

  // The second loop reads temp from its last used cell down to one before its start; stray
  // is whatever that last read finds, and it is overwritten by the NUL.
  method CopyReversed(temp: array<char>, used: nat, binary: array<char>, stray: char)
    requires temp != binary && used <= temp.Length && used < binary.Length
    modifies binary
    ensures binary[..used + 1] == Reversed(temp[..used]) + [NUL]
    ensures forall i :: used < i < binary.Length ==> binary[i] == old(binary[i])
  {
    var k: int, n := used, 0;
    while k >= 0
      invariant -1 <= k <= used && n == used - k
      invariant forall i :: 0 <= i < n && i < used ==> binary[i] == temp[used - 1 - i]
      invariant forall i :: used < i < binary.Length ==> binary[i] == old(binary[i])
    {
      k := k - 1;
      binary[n] := if k >= 0 then temp[k] else stray;
      n := n + 1;
    }
    binary[n - 1] := NUL;
  }

  method Convert(decimal: int, binary: array<char>, stray: char)
    requires -0x8000_0000_0000_0000 < decimal < 0x8000_0000_0000_0000
    requires |Spelling(decimal)| < binary.Length
    modifies binary
    ensures |Spelling(decimal)| <= 64
    ensures binary[..|Spelling(decimal)| + 1] == Spelling(decimal) + [NUL]
    ensures exists n :: 0 < n <= 63 && Spells(binary[..], n, decimal)
    ensures forall i :: |Spelling(decimal)| < i < binary.Length ==> binary[i] == old(binary[i])
  {
    var d := if decimal < 0 then -decimal else decimal;
    var temp := new char[80](_ => ' ');
    assert d < Pow2(63) by { Pow63(); }
    hide Pow2;
    var k := SpellBackwards(d, temp);
    ghost var digits := temp[..k];
    var sign := if decimal < 0 then '-' else ' ';
    temp[k] := sign;
    assert temp[..k + 1] == digits + [sign];
    ReversedMore(digits, sign);
    hide Bits, Reversed;
    assert Reversed(temp[..k + 1]) == Spelling(decimal);
    assert |Spelling(decimal)| == k + 1;
    hide Spelling, Spells, Pow2;
    CopyReversed(temp, k + 1, binary, stray);
    assert binary[..][..k + 2] == binary[..k + 2];
    SpellingSpells(binary[..], decimal);
  }

  lemma Pow63()
    ensures Pow2(63) == 0x8000_0000_0000_0000
  {
    hide Pow2;
    SmallPowers();
    PowSum(8, 8);
    PowSum(16, 16);
    PowSum(7, 8);
    PowSum(15, 16);
    PowSum(31, 32);
  }

  lemma SmallPowers()
    ensures Pow2(7) == 0x80 && Pow2(8) == 0x100
  {
  }

  lemma {:induction false} PowSum(a: nat, b: nat)
    ensures Pow2(a + b) == Pow2(a) * Pow2(b)
  {
    if b > 0 {
      PowSum(a, b - 1);
    }
  }
}
