/**
 * Base-62 rendering of integers (`base_encode` / `base_decode` in apps/core/helpers.py),
 * used for compact instance ids and expiry stamps in access tokens.
 */
module Base62 {
  import opened Wrappers

  /** string.digits, string.ascii_lowercase and string.ascii_uppercase. */
  const Digits: string := "0123456789"
  const Lowercase: string := "abcdefghijklmnopqrstuvwxyz"
  const Uppercase: string := "ABCDEFGHIJKLMNOPQRSTUVWXYZ"

  /** BASE_LIST = string.digits + string.ascii_letters */
  const BaseList: string := Digits + Lowercase + Uppercase

  /** len(BASE_LIST) */
  const Radix: int := 62

  /** The symbol BASE_LIST holds at position `d`, computed from the ASCII layout. */
  function Symbol(d: int): (c: char)
    requires 0 <= d < Radix
  {
    if d < 10 then (48 + d) as char
    else if d < 36 then (97 + d - 10) as char
    else (65 + d - 36) as char
  }

  lemma BaseListSymbols()
    ensures |BaseList| == Radix
    ensures forall d :: 0 <= d < Radix ==> BaseList[d] == Symbol(d)
  {
    assert forall d :: 0 <= d < 10 ==> Digits[d] == Symbol(d);
    assert forall d :: 0 <= d < 26 ==> Lowercase[d] == Symbol(d + 10);
    assert forall d :: 0 <= d < 26 ==> Uppercase[d] == Symbol(d + 36);
  }

  /** The keys of BASE_DICT, by their ASCII ranges. */
  predicate IsDigit(c: char) {
    '0' <= c <= '9' || 'a' <= c <= 'z' || 'A' <= c <= 'Z'
  }

  /** BASE_DICT[c]: the position of the digit `c` in BASE_LIST. */
  function DigitValue(c: char): (d: int)
    requires IsDigit(c)
    ensures 0 <= d < Radix
    ensures d == 0 <==> c == '0'
  {
    if '0' <= c <= '9' then c as int - 48
    else if 'a' <= c <= 'z' then c as int - 97 + 10
    else c as int - 65 + 36
  }

  /** BASE_DICT maps each symbol of BASE_LIST back to its position. */
  lemma SymbolDigit(d: int)
    requires 0 <= d < Radix
    ensures IsDigit(BaseList[d]) && DigitValue(BaseList[d]) == d
  {
    BaseListSymbols();
  }

  /** Every key of BASE_DICT sits in BASE_LIST at the position it maps to. */
  lemma DigitSymbol(c: char)
    requires IsDigit(c)
    ensures BaseList[DigitValue(c)] == c
  {
    BaseListSymbols();
  }

  /** The keys of BASE_DICT are exactly the characters of BASE_LIST. */
  lemma DigitsAreBaseList(c: char)
    ensures IsDigit(c) <==> c in BaseList
  {
    BaseListSymbols();
    if IsDigit(c) {
      DigitSymbol(c);
    } else if c in BaseList {
      var d :| 0 <= d < |BaseList| && BaseList[d] == c;
      SymbolDigit(d);
    }
  }

  predicate AllDigits(s: string) {
    forall i :: 0 <= i < |s| ==> IsDigit(s[i])
  }

  /**
   * The positional value of a string of base-62 digits: the sum over i of
   * 62^i times the digit i places from the right, folded from the right.
   */
  function DigitsValue(s: string): (n: int)
    requires AllDigits(s)
    ensures n >= 0
  {
    if s == [] then 0
    else DigitsValue(s[..|s| - 1]) * Radix + DigitValue(s[|s| - 1])
  }

  /** base_decode: None stands for the KeyError raised on a character outside BASE_LIST. */
  function BaseDecode(s: string): (r: Option<int>)
    ensures r.Some? <==> forall c :: c in s ==> c in BaseList
    ensures r.Some? ==> r.value >= 0
    ensures s == [] ==> r == Some(0)
  {
    if AllDigits(s) then
      assert forall c :: c in s ==> c in BaseList by {
        forall c | c in s ensures c in BaseList {
          DigitsAreBaseList(c);
        }
      }
      Some(DigitsValue(s))
    else
      var i :| 0 <= i < |s| && !IsDigit(s[i]);
      DigitsAreBaseList(s[i]);
      None
  }

  /** int(integer / length): Python's division, truncated toward zero. */
  function Quot(n: int): (q: int)
    ensures n >= 0 ==> q == n / Radix
    ensures n < 0 ==> q == -((-n) / Radix) && q <= 0
    ensures n != 0 ==> (if q < 0 then -q else q) < (if n < 0 then -n else n)
  {
    if n >= 0 then n / Radix else -((-n) / Radix)
  }

  /** The digits the loop of base_encode prepends, most significant first; empty for 0. */
  function EncodeDigits(n: int): (s: string)
    decreases if n < 0 then -n else n
  {
    if n == 0 then []
    else EncodeDigits(Quot(n)) + [BaseList[n % Radix]]
  }

  /** What base_encode returns: base[0] for zero, the loop's digits otherwise. */
  function Encoded(n: int): string {
    if n == 0 then [BaseList[0]] else EncodeDigits(n)
  }

  /** base_encode, with its while loop. */
  method BaseEncode(integer: int) returns (ret: string)
    ensures ret == Encoded(integer)
    ensures AllDigits(ret) && |ret| > 0
    ensures integer != 0 ==> ret[0] != '0'
    ensures integer >= 0 ==> BaseDecode(ret) == Some(integer)
  {
    if integer == 0 {
      ret := [BaseList[0]];
    } else {
      ret := "";
      var n := integer;
      while n != 0
        invariant EncodeDigits(n) + ret == EncodeDigits(integer)
        decreases if n < 0 then -n else n
      {
        ghost var rest := EncodeDigits(Quot(n));
        assert EncodeDigits(n) + ret == rest + ([BaseList[n % Radix]] + ret);
        ret := [BaseList[n % Radix]] + ret;
        n := Quot(n);
      }
      assert ret == EncodeDigits(integer);
    }
    EncodedIsCanonical(integer);
    if integer >= 0 {
      DecodeEncode(integer);
    }
  }

  lemma {:induction false} EncodeDigitsAreDigits(n: int)
    ensures AllDigits(EncodeDigits(n))
    ensures n != 0 ==> |EncodeDigits(n)| > 0 && EncodeDigits(n)[0] != '0'
    decreases if n < 0 then -n else n
  {
    if n != 0 {
      EncodeDigitsAreDigits(Quot(n));
      SymbolDigit(n % Radix);
      if Quot(n) == 0 {
        // |n| < 62, so the digit written last is n mod 62, which is not zero.
        assert n % Radix != 0;
      }
    }
  }

  /**
   * Every output of base_encode is a non-empty string over BASE_LIST, and only
   * zero is rendered with a leading '0'.
   */
  lemma EncodedIsCanonical(n: int)
    ensures AllDigits(Encoded(n)) && |Encoded(n)| > 0
    ensures n == 0 ==> Encoded(n) == "0"
    ensures n != 0 ==> Encoded(n)[0] != '0'
  {
    EncodeDigitsAreDigits(n);
    SymbolDigit(0);
  }

  lemma {:induction false} DigitsValueOfEncodeDigits(n: int)
    requires n >= 0
    ensures AllDigits(EncodeDigits(n)) && DigitsValue(EncodeDigits(n)) == n
  {
    EncodeDigitsAreDigits(n);
    if n != 0 {
      var s := EncodeDigits(n);
      DigitsValueOfEncodeDigits(n / Radix);
      assert s[..|s| - 1] == EncodeDigits(n / Radix);
      SymbolDigit(n % Radix);
    }
  }

  /** Round trip: for every n >= 0, base_decode(base_encode(n)) == n. */
  lemma DecodeEncode(n: int)
    requires n >= 0
    ensures BaseDecode(Encoded(n)) == Some(n)
  {
    if n == 0 {
      SymbolDigit(0);
      var s := Encoded(0);
      assert s[..0] == [];
      assert DigitsValue(s) == 0;
    } else {
      DigitsValueOfEncodeDigits(n);
    }
  }

  /** A base-62 numeral as base_encode writes it: "0", or digits without a leading '0'. */
  predicate Canonical(s: string) {
    AllDigits(s) && |s| > 0 && (s[0] == '0' ==> s == "0")
  }

  lemma {:induction false} LeadingDigitPositive(s: string)
    requires AllDigits(s) && |s| > 0 && s[0] != '0'
    ensures DigitsValue(s) > 0
  {
    if |s| == 1 {
      assert s[..0] == [];
    } else {
      LeadingDigitPositive(s[..|s| - 1]);
    }
  }

  /** The other direction: base_encode(base_decode(s)) == s for every canonical numeral. */
  lemma {:induction false} EncodeDecode(s: string)
    requires Canonical(s)
    ensures Encoded(DigitsValue(s)) == s
  {
    if s == "0" {
      assert s[..0] == [];
      BaseListSymbols();
    } else {
      EncodeDigitsOfValue(s);
    }
  }

  /** One turn of base_encode's loop, read backwards: n = q * 62 + d writes the digits of q, then symbol d. */
  lemma EncodeStep(n: int, q: int, d: int)
    requires q >= 0 && 0 <= d < Radix && n == q * Radix + d && n > 0
    ensures EncodeDigits(n) == EncodeDigits(q) + [BaseList[d]]
  {
    assert n / Radix == q && n % Radix == d;
  }

  lemma AllDigitsPrefix(s: string)
    requires AllDigits(s) && |s| > 0
    ensures AllDigits(s[..|s| - 1])
  {
    var p := s[..|s| - 1];
    forall i | 0 <= i < |p|
      ensures IsDigit(p[i])
    {
      assert p[i] == s[i];
    }
  }

  /** The value of a numeral without a leading '0': positive, and the rest's value shifted plus the last digit. */
  lemma ValueLastDigit(s: string)
    requires AllDigits(s) && |s| > 0 && s[0] != '0'
    ensures AllDigits(s[..|s| - 1])
    ensures DigitsValue(s) > 0
    ensures DigitsValue(s) == DigitsValue(s[..|s| - 1]) * Radix + DigitValue(s[|s| - 1])
  {
    AllDigitsPrefix(s);
    LeadingDigitPositive(s);
  }

  /** Splits off the last digit: the encoding of the rest, then the digit. */
  lemma EncodeLastDigit(s: string)
    requires AllDigits(s) && |s| > 0 && s[0] != '0'
    ensures AllDigits(s[..|s| - 1])
    ensures EncodeDigits(DigitsValue(s)) == EncodeDigits(DigitsValue(s[..|s| - 1])) + [s[|s| - 1]]
  {
    ValueLastDigit(s);
    EncodeStep(DigitsValue(s), DigitsValue(s[..|s| - 1]), DigitValue(s[|s| - 1]));
    DigitSymbol(s[|s| - 1]);
  }

  lemma {:induction false} EncodeDigitsOfValue(s: string)
    requires AllDigits(s) && |s| > 0 && s[0] != '0'
    ensures EncodeDigits(DigitsValue(s)) == s
  {
    var p, c := s[..|s| - 1], s[|s| - 1];
    EncodeLastDigit(s);
    if p == [] {
      assert EncodeDigits(DigitsValue(p)) == [];
    } else {
      assert p[0] == s[0];
      EncodeDigitsOfValue(p);
    }
    assert p + [c] == s;
  }
}
