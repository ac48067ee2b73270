/**
 * `sanitize_text` in apps/core/helpers.py: drops every code point below 33
 * (ALL_CONTROL_CHARACTERS: the C0 controls and the space) from a text, keeping None as None.
 */
module Sanitize {
  import opened Wrappers

  /** A code point that ALL_CONTROL_CHARACTERS maps to None, i.e. deletes. */
  predicate IsControl(c: char) {
    (c as int) < 33
  }

  /** str.translate(ALL_CONTROL_CHARACTERS) */
  function StripControl(s: string): (r: string)
    ensures |r| <= |s|
    ensures forall i :: 0 <= i < |r| ==> !IsControl(r[i])
  {
    if s == [] then []
    else
      var rest := StripControl(s[1..]);
      if IsControl(s[0]) then rest else [s[0]] + rest
  }

  /**
   * sanitize_text on a text that is None or already a str: None stays None; otherwise
   * the result has no control character left, keeps every other character as often as
   * the text has it, and sanitizing it again changes nothing.
   */
  function SanitizeText(text: Option<string>): (r: Option<string>)
    ensures r.None? <==> text.None?
    ensures r.Some? ==> r.value == StripControl(text.value)
    ensures r.Some? ==> forall i :: 0 <= i < |r.value| ==> !IsControl(r.value[i])
    ensures r.Some? ==> forall c :: !IsControl(c) ==> multiset(r.value)[c] == multiset(text.value)[c]
    ensures r.Some? ==> StripControl(r.value) == r.value
  {
    match text
    case None => None
    case Some(s) =>
      var t := StripControl(s);
      forall c | !IsControl(c)
        ensures multiset(t)[c] == multiset(s)[c]
      {
        StripControlKeepsOthers(s, c);
      }
      StripControlKeepsClean(t);
      Some(t)
  }

  /** Stripping distributes over concatenation: the kept characters stay in their order. */
  lemma {:induction false} StripControlConcat(a: string, b: string)
    ensures StripControl(a + b) == StripControl(a) + StripControl(b)
  {
    if a != [] {
      var ab := a + b;
      assert ab[0] == a[0] && ab[1..] == a[1..] + b;
      var head := if IsControl(a[0]) then [] else [a[0]];
      assert StripControl(ab) == head + StripControl(ab[1..]);
      StripControlConcat(a[1..], b);
      assert head + (StripControl(a[1..]) + StripControl(b)) == (head + StripControl(a[1..])) + StripControl(b);
    } else {
      assert a + b == b;
    }
  }

  /** Every other character is kept, as often as it occurs. */
  lemma {:induction false} StripControlKeepsOthers(s: string, c: char)
    requires !IsControl(c)
    ensures multiset(StripControl(s))[c] == multiset(s)[c]
  {
    if s != [] {
      assert s == [s[0]] + s[1..];
      StripControlKeepsOthers(s[1..], c);
    }
  }

  /** A text without control characters passes through unchanged. */
  lemma {:induction false} StripControlKeepsClean(s: string)
    requires forall i :: 0 <= i < |s| ==> !IsControl(s[i])
    ensures StripControl(s) == s
  {
    if s != [] {
      StripControlKeepsClean(s[1..]);
    }
  }

  /** sanitize_text is idempotent. */
  lemma SanitizeIdempotent(text: Option<string>)
    ensures SanitizeText(SanitizeText(text)) == SanitizeText(text)
  {
  }
}
