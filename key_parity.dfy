/**
 * Parity tagging of generated API keys (`generate_key` and `check_parity` in
 * apps/core/helpers.py). The random HMAC-SHA1 digest is an input: `digest` is the
 * 40-digit lower-case hexdigest that generate_key computes from a fresh UUID.
 */
module KeyParity {
  import opened Wrappers

  const HexDigits: string := "0123456789abcdef"

  /** What `hexdigest()` of a SHA-1 HMAC produces: 40 lower-case hex digits. */
  predicate IsHexDigest(s: string) {
    |s| == 40 && forall i :: 0 <= i < |s| ==> s[i] in HexDigits
  }

  /** int(c, 16) for one character; None stands for the ValueError on a non-hex character. */
  function HexValue(c: char): (r: Option<int>)
    ensures r.Some? ==> 0 <= r.value < 16
    ensures c in HexDigits ==> r.Some? && HexDigits[r.value] == c
    ensures 'A' <= c <= 'F' ==> r.Some? && HexDigits[r.value] == (c as int + 32) as char
    ensures r.None? <==> c !in HexDigits && !('A' <= c <= 'F')
  {
    if '0' <= c <= '9' then Some(c as int - 48)
    else if 'a' <= c <= 'f' then Some(c as int - 97 + 10)
    else if 'A' <= c <= 'F' then Some(c as int - 65 + 10)
    else None
  }

  /** '{0:x}'.format(v) for a single hex digit. */
  function HexSymbol(v: int): (c: char)
    requires 0 <= v < 16
    ensures c in HexDigits && HexValue(c) == Some(v)
  {
    assert HexDigits[v] == (if v < 10 then (48 + v) as char else (97 + v - 10) as char);
    if v < 10 then (48 + v) as char else (97 + v - 10) as char
  }

  /**
   * check_parity: True when the last hex digit of the key is even. None stands for the
   * IndexError on an empty key and the ValueError on a non-hex last character.
   */
  function CheckParity(key: string): (r: Option<bool>)
    ensures r.Some? <==> |key| > 0 && HexValue(key[|key| - 1]).Some?
    ensures r.Some? ==> (r.value <==> HexValue(key[|key| - 1]).value % 2 == 0)
  {
    if |key| == 0 then None
    else match HexValue(key[|key| - 1])
      case None => None
      case Some(last) =>
        LowBit(last);
        Some(((last as bv4) & 1) == 0)
  }

  lemma LowBit(v: int)
    requires 0 <= v < 16
    ensures (((v as bv4) & 1) == 0) <==> v % 2 == 0
    ensures (((v as bv4) & 0xE) as int) == v - v % 2
    ensures (((v as bv4) | 1) as int) == v - v % 2 + 1
  {
  }

  /**
   * The last digit's value with its low bit forced: cleared (`last &= 0b1110`)
   * for even parity, set (`last |= 0b1`) for odd. The three high bits stay.
   */
  function ForceParity(last: int, even: bool): (v: int)
    requires 0 <= last < 16
    ensures 0 <= v < 16
    ensures v % 2 == 0 <==> even
    ensures v / 2 == last / 2
  {
    LowBit(last);
    if even then ((last as bv4) & 0xE) as int else ((last as bv4) | 1) as int
  }

  /** Replacing the last digit of a digest by another hex digit keeps it a digest. */
  lemma ReplaceLast(digest: string, c: char)
    requires IsHexDigest(digest) && c in HexDigits
    ensures var key := digest[..|digest| - 1] + [c];
      IsHexDigest(key) && key[..|key| - 1] == digest[..|digest| - 1] && key[|key| - 1] == c
  {
    var key := digest[..|digest| - 1] + [c];
    assert key[..|key| - 1] == digest[..|digest| - 1];
    forall i | 0 <= i < |key|
      ensures key[i] in HexDigits
    {
      if i < |key| - 1 {
        assert key[i] == digest[i];
      }
    }
  }

  /**
   * generate_key: the digest, with the parity of its last hex digit forced
   * to even when `parity` is True, or to odd when it is False.
   */
  function GenerateKey(digest: string, parity: Option<bool>): (key: string)
    requires IsHexDigest(digest)
    ensures IsHexDigest(key)
    ensures key[..|key| - 1] == digest[..|digest| - 1]
    ensures parity.None? ==> key == digest
    ensures parity.Some? ==> CheckParity(key) == Some(parity.value)
  {
    match parity
    case None => digest
    case Some(even) =>
      var c := HexSymbol(ForceParity(HexValue(digest[|digest| - 1]).value, even));
      ReplaceLast(digest, c);
      digest[..|digest| - 1] + [c]
  }
}
