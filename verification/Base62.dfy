/** Instance identifiers: a 256-bit hash value written in base 62. */
module Base62 {

  const DIGITS := "0123456789"
  const CAPITALS := "ABCDEFGHIJKLMNOPQRSTUVWXYZ"
  const SMALLS := "abcdefghijklmnopqrstuvwxyz"
  const ALPHABET := DIGITS + CAPITALS + SMALLS

  /** Bound of a 256-bit value. */
  const HASH_BOUND: nat := 0x1_0000000000000000_0000000000000000_0000000000000000_0000000000000000

  /** The value of a character as a digit. */
  function DigitValue(c: char): (v: int)
    ensures -1 <= v < 62
  {
    if '0' <= c <= '9' then c as int - '0' as int
    else if 'A' <= c <= 'Z' then c as int - 'A' as int + 10
    else if 'a' <= c <= 'z' then c as int - 'a' as int + 36
    else -1
  }

  predicate IsNumeral(s: seq<char>) {
    forall i :: 0 <= i < |s| ==> DigitValue(s[i]) >= 0
  }

  /** The number a numeral denotes, most significant digit first. */
  function Value(s: seq<char>): (n: nat)
    requires IsNumeral(s)
  {
    if s == [] then 0 else 62 * Value(s[..|s| - 1]) + DigitValue(s[|s| - 1])
  }

  function Reversed(s: seq<char>): (r: seq<char>)
    ensures |r| == |s| && forall i :: 0 <= i < |s| ==> r[i] == s[|s| - 1 - i]
  {
    seq(|s|, i requires 0 <= i < |s| => s[|s| - 1 - i])
  }

  function Power(e: nat): (p: nat)
    ensures p >= 1
  {
    if e == 0 then 1 else 62 * Power(e - 1)
  }

  lemma AlphabetDigits(d: nat)
    requires d < 62
    ensures |ALPHABET| == 62 && DigitValue(ALPHABET[d]) == d
  {
    AlphabetParts(d);
    var c := ALPHABET[d];
    if d < 10 {
      DecimalDigits(d, c);
    } else if d < 36 {
      CapitalDigits(d - 10, c);
    } else {
      SmallDigits(d - 36, c);
    }
  }

  lemma AlphabetParts(d: nat)
    requires d < 62
    ensures |ALPHABET| == 62
    ensures ALPHABET[d] == if d < 10 then DIGITS[d] else if d < 36 then CAPITALS[d - 10] else SMALLS[d - 36]
  {
  }

  lemma DecimalDigits(d: nat, c: char)
    requires d < 10 && c == DIGITS[d]
    ensures DigitValue(c) == d
  {
  }

  lemma CapitalDigits(d: nat, c: char)
    requires d < 26 && c == CAPITALS[d]
    ensures DigitValue(c) == d + 10
  {
  }

  lemma SmallDigits(d: nat, c: char)
    requires d < 26 && c == SMALLS[d]
    ensures DigitValue(c) == d + 36
  {
  }

  /** The digits are in the usual order: figures, capitals, small letters. */
  lemma DigitOrder(c: char)
    ensures '0' <= c <= '9' ==> DigitValue(c) == c as int - 48
    ensures 'A' <= c <= 'Z' ==> DigitValue(c) == c as int - 55
    ensures 'a' <= c <= 'z' ==> DigitValue(c) == c as int - 61
    ensures DigitValue(c) < 0 <==> !('0' <= c <= '9') && !('A' <= c <= 'Z') && !('a' <= c <= 'z')
  {
  }

  /** A numeral without a leading zero lies between two powers of 62. */
  lemma {:induction false} ValueBounds(s: seq<char>)
    requires IsNumeral(s)
    ensures Value(s) < Power(|s|)
    ensures s != [] && DigitValue(s[0]) > 0 ==> Value(s) >= Power(|s| - 1)
  {
    if s != [] {
      ValueBounds(s[..|s| - 1]);
    }
  }

  lemma {:induction false} PowerMonotone(a: nat, b: nat)
    requires a <= b
    ensures Power(a) <= Power(b)
  {
    if a < b {
      PowerMonotone(a, b - 1);
    }
  }

  lemma HashFits()
    ensures HASH_BOUND <= Power(43)
  {
    assert Power(5) == 916132832;
    assert Power(10) == 62 * (62 * (62 * (62 * (62 * Power(5)))));
    assert Power(10) == 839299365868340224;
    assert Power(15) == 62 * (62 * (62 * (62 * (62 * Power(10)))));
    assert Power(20) == 62 * (62 * (62 * (62 * (62 * Power(15)))));
    assert Power(25) == 62 * (62 * (62 * (62 * (62 * Power(20)))));
    assert Power(30) == 62 * (62 * (62 * (62 * (62 * Power(25)))));
    assert Power(35) == 62 * (62 * (62 * (62 * (62 * Power(30)))));
    assert Power(40) == 62 * (62 * (62 * (62 * (62 * Power(35)))));
    assert Power(43) == 62 * (62 * (62 * Power(40)));
  }

  /** The pattern the resource definition puts on an instance identifier: 8 to 64
      letters, digits or inner underscores. */
  predicate MatchesPattern(s: seq<char>) {
    && 8 <= |s| <= 64
    && DigitValue(s[0]) >= 0 && DigitValue(s[|s| - 1]) >= 0
    && forall i :: 0 < i < |s| - 1 ==> DigitValue(s[i]) >= 0 || s[i] == '_'
  }

  /** A numeral without a leading zero that denotes the number; zero is the empty one. */
  predicate Denotes(s: seq<char>, n: nat) {
    IsNumeral(s) && Value(s) == n && (s != [] ==> DigitValue(s[0]) > 0)
  }

  /** There is only one such numeral. */
  lemma {:induction false} NumeralUnique(s: seq<char>, t: seq<char>, n: nat)
    requires Denotes(s, n) && Denotes(t, n)
    ensures s == t
  {
    ValueBounds(s);
    ValueBounds(t);
    if s == [] || t == [] {
      assert s == [] && t == [];
    } else {
      var a, b := s[..|s| - 1], t[..|t| - 1];
      var x, y := DigitValue(s[|s| - 1]), DigitValue(t[|t| - 1]);
      assert n == 62 * Value(a) + x && n == 62 * Value(b) + y;
      assert Value(a) == n / 62 && Value(b) == n / 62;
      NumeralUnique(a, b, n / 62);
      DigitInjective(s[|s| - 1], t[|t| - 1]);
      assert s == a + [s[|s| - 1]] && t == b + [t[|t| - 1]];
    }
  }

  lemma DigitInjective(c: char, d: char)
    requires DigitValue(c) == DigitValue(d) >= 0
    ensures c == d
  {
  }

  /** Length, bound and pattern of the numeral of a hash value. */
  lemma HashNumeral(s: seq<char>, n: nat)
    requires Denotes(s, n) && n < HASH_BOUND
    ensures |s| <= 43
    ensures MatchesPattern(s) <==> n >= Power(7)
  {
    ValueBounds(s);
    HashFits();
    if |s| > 43 {
      PowerMonotone(43, |s| - 1);
    }
    if |s| >= 8 {
      PowerMonotone(7, |s| - 1);
    } else {
      PowerMonotone(|s|, 7);
    }
  }

  /** Reading more significant digits: what the division loop has left, times the weight
      of what it has written. */
  lemma ReversedSnoc(out: seq<char>, c: char)
    ensures Reversed(out + [c]) == [c] + Reversed(out)
  {
  }

  lemma ValueSnoc(s: seq<char>, c: char)
    requires IsNumeral(s) && DigitValue(c) >= 0
    ensures IsNumeral(s + [c]) && Value(s + [c]) == 62 * Value(s) + DigitValue(c)
  {
    assert (s + [c])[..|s|] == s;
  }

  lemma {:induction false} ValueCons(c: char, s: seq<char>)
    requires IsNumeral(s) && DigitValue(c) >= 0
    ensures IsNumeral([c] + s) && Value([c] + s) == DigitValue(c) * Power(|s|) + Value(s)
  {
    NumeralCons(c, s);
    if s == [] {
      ValueSnoc([], c);
      assert [c] + s == [] + [c];
    } else {
      var t, last := s[..|s| - 1], s[|s| - 1];
      ValueCons(c, t);
      ValueSnoc([c] + t, last);
      ValueSnoc(t, last);
      assert [c] + s == ([c] + t) + [last] && s == t + [last];
      Distribute(DigitValue(c), Power(|t|), Value(t));
    }
  }

  lemma NumeralCons(c: char, s: seq<char>)
    requires DigitValue(c) >= 0 && IsNumeral(s)
    ensures IsNumeral([c] + s)
  {
  }

  lemma Distribute(d: int, p: int, v: int)
    ensures 62 * (d * p + v) == d * (62 * p) + 62 * v
  {
  }

  /** One turn of the division loop keeps the weighted sum. */
  lemma DivideStep(n: nat, weight: nat, rest: nat)
    ensures n * weight + rest == (n / 62) * (62 * weight) + ((n % 62) * weight + rest)
  {
    assert n == 62 * (n / 62) + n % 62;
    var q, r := n / 62, n % 62;
    assert (62 * q + r) * weight == q * (62 * weight) + r * weight;
  }

  /** The in-place reversal of the digit buffer. */
  method ReverseInPlace(out: array<char>)
    modifies out
    ensures out[..] == Reversed(old(out[..]))
  {
    var i, j := 0, out.Length - 1;
    while i < j
      invariant 0 <= i <= out.Length && j == out.Length - 1 - i && i <= j + 1
      invariant forall k :: 0 <= k < i ==> out[k] == old(out[out.Length - 1 - k])
      invariant forall k :: j < k < out.Length ==> out[k] == old(out[out.Length - 1 - k])
      invariant forall k :: i <= k <= j ==> out[k] == old(out[k])
      decreases j - i
    {
      out[i], out[j] := out[j], out[i];
      i, j := i + 1, j - 1;
    }
  }

  /** Between turns of the division loop: what is left, weighted, and what is written
      make up the hash. */
  ghost predicate Split(hash: nat, n: nat, out: seq<char>) {
    && IsNumeral(Reversed(out))
    && hash == n * Power(|out|) + Value(Reversed(out))
    && (n == 0 && out != [] ==> DigitValue(out[|out| - 1]) > 0)
  }

  lemma SplitStep(hash: nat, n: nat, out: seq<char>)
    requires n > 0 && Split(hash, n, out)
    ensures |ALPHABET| == 62 && Split(hash, n / 62, out + [ALPHABET[n % 62]])
  {
    var digit := n % 62;
    AlphabetDigits(digit);
    DivideStep(n, Power(|out|), Value(Reversed(out)));
    ReversedSnoc(out, ALPHABET[digit]);
    ValueCons(ALPHABET[digit], Reversed(out));
    assert Power(|out| + 1) == 62 * Power(|out|);
  }

  lemma SplitEnd(hash: nat, out: seq<char>)
    requires Split(hash, 0, out)
    ensures Denotes(Reversed(out), hash)
  {
    assert 0 * Power(|out|) == 0;
  }

  /** The division loop writes the digits least significant first. */
  method Digits(hash: nat) returns (out: seq<char>)
    ensures Denotes(Reversed(out), hash)
  {
    var n := hash;
    out := [];
    while n > 0
      invariant Split(hash, n, out)
      decreases n
    {
      SplitStep(hash, n, out);
      out := out + [ALPHABET[n % 62]];
      n := n / 62;
    }
    SplitEnd(hash, out);
  }

  /** Instance identifier of a hash value: the numeral of the value, at most 43
      characters, matching the identifier pattern exactly from 62 to the seventh on. */
  method Encode(hash: nat) returns (id: seq<char>)
    requires hash < HASH_BOUND
    ensures Denotes(id, hash)
    ensures |id| <= 43
    ensures MatchesPattern(id) <==> hash >= Power(7)
  {
    var out := Digits(hash);
    var buffer := new char[|out|](i requires 0 <= i < |out| => out[i]);
    assert buffer[..] == out;
    ReverseInPlace(buffer);
    id := buffer[..];
    HashNumeral(id, hash);
  }
}
