/**
 * `glob` in apps/core/helpers.py: match a subject against a pattern in which '*' stands
 * for any run of characters. The pattern is split at its stars; the first piece must
 * start the subject, the last must end it, and the pieces between are searched for
 * left to right, each search continuing after the previous find.
 */
module Glob {
  import opened Wrappers

  /** str.startswith */
  predicate StartsWith(s: string, p: string) {
    |p| <= |s| && s[..|p|] == p
  }

  /** str.endswith */
  predicate EndsWith(s: string, p: string) {
    |p| <= |s| && s[|s| - |p|..] == p
  }

  /** str.startswith is the prefix relation. */
  lemma StartsWithIsPrefix(s: string, p: string)
    ensures StartsWith(s, p) <==> p <= s
  {
  }

  /** str.endswith holds exactly when the text is something followed by the suffix. */
  lemma EndsWithIsSuffix(s: string, p: string)
    ensures EndsWith(s, p) <==> exists head :: s == head + p
  {
    if EndsWith(s, p) {
      assert s == s[..|s| - |p|] + p;
    }
    if exists head :: s == head + p {
      var head :| s == head + p;
      assert s[|s| - |p|..] == p;
    }
  }

  /** `m` occurs in `t` starting at index i. */
  predicate OccursAt(m: string, t: string, i: int) {
    0 <= i && i + |m| <= |t| && t[i..i + |m|] == m
  }

  /** `t` ends with `m`, and that last occurrence starts at or after index k. */
  predicate EndsAfter(t: string, k: int, m: string) {
    k + |m| <= |t| && EndsWith(t, m)
  }

  /** The first index at or after `from` where `m` occurs in `t`. */
  function FindFrom(m: string, t: string, from: nat): (r: Option<nat>)
    ensures r.Some? ==> from <= r.value && r.value + |m| <= |t|
    decreases |t| - from
  {
    if from + |m| > |t| then None
    else if OccursAt(m, t, from) then Some(from)
    else FindFrom(m, t, from + 1)
  }

  /** What FindFrom reports is an occurrence. */
  lemma {:induction false} FindFromOccurs(m: string, t: string, from: nat)
    ensures FindFrom(m, t, from).Some? ==> OccursAt(m, t, FindFrom(m, t, from).value)
    decreases |t| - from
  {
    if from + |m| <= |t| && t[from..from + |m|] != m {
      FindFromOccurs(m, t, from + 1);
    }
  }

  /** str.index: the first occurrence of `m` in `t`; None where `m not in t`. */
  function Find(m: string, t: string): (r: Option<nat>)
    ensures r.Some? ==> OccursAt(m, t, r.value)
  {
    FindFromOccurs(m, t, 0);
    FindFrom(m, t, 0)
  }

  /** No occurrence of `m` at or after `from` comes before the one FindFrom reports. */
  lemma {:induction false} FindFromIsFirst(m: string, t: string, from: nat, i: int)
    requires from <= i && OccursAt(m, t, i)
    ensures FindFrom(m, t, from).Some? && FindFrom(m, t, from).value <= i
    decreases |t| - from
  {
    if from + |m| <= |t| && t[from..from + |m|] != m {
      FindFromIsFirst(m, t, from + 1, i);
    }
  }

  /** No occurrence of `m` in `t` comes before the one Find reports, and when it reports none there is none. */
  lemma FindIsFirst(m: string, t: string, i: int)
    requires OccursAt(m, t, i)
    ensures Find(m, t).Some? && Find(m, t).value <= i
  {
    FindFromIsFirst(m, t, 0, i);
  }

  /** Looking for `m` in what is left of `t` after `off` characters is looking from `off` on. */
  lemma FindInSuffix(m: string, t: string, off: nat)
    requires off <= |t|
    ensures var f, g := Find(m, t[off..]), FindFrom(m, t, off);
            f.Some? == g.Some? && (f.Some? ==> g.value == off + f.value)
  {
    var f, g := Find(m, t[off..]), FindFrom(m, t, off);
    if f.Some? {
      FoundInSuffix(m, t, off, f.value);
    }
    if g.Some? {
      FindFromOccurs(m, t, off);
      FoundAfter(m, t, off, g.value);
    }
  }

  lemma FoundInSuffix(m: string, t: string, off: nat, a: nat)
    requires off <= |t| && OccursAt(m, t[off..], a)
    ensures FindFrom(m, t, off).Some? && FindFrom(m, t, off).value <= off + a
  {
    assert t[off..][a..a + |m|] == t[off + a..off + a + |m|];
    FindFromIsFirst(m, t, off, off + a);
  }

  lemma FoundAfter(m: string, t: string, off: nat, b: nat)
    requires off <= b && OccursAt(m, t, b)
    ensures Find(m, t[off..]).Some? && off + Find(m, t[off..]).value <= b
  {
    assert t[off..][b - off..b - off + |m|] == t[b..b + |m|];
    FindIsFirst(m, t[off..], b - off);
  }

  /** The pieces joined back with '*' between them. */
  function Join(parts: seq<string>): string
    requires |parts| >= 1
  {
    if |parts| == 1 then parts[0] else parts[0] + "*" + Join(parts[1..])
  }

  /** str.split('*'): the pieces between the stars, one more than there are stars (SplitJoin). */
  function Split(s: string): (parts: seq<string>)
    ensures |parts| >= 1
    decreases |s|
  {
    match Find("*", s)
    case None => [s]
    case Some(i) => [s[..i]] + Split(s[i + 1..])
  }

  /** A star at index j is an occurrence of "*" there. */
  lemma StarAt(s: string, j: int)
    requires 0 <= j < |s|
    ensures s[j] == '*' <==> OccursAt("*", s, j)
  {
    assert s[j..j + 1] == [s[j]];
  }

  /** Before the first star Find reports, and anywhere when it reports none, there is no star. */
  lemma NoStarBefore(s: string, i: int)
    requires 0 <= i <= |s|
    requires match Find("*", s) case None => true case Some(f) => i <= f
    ensures '*' !in s[..i]
  {
    forall j | 0 <= j < i ensures s[..i][j] != '*' {
      assert s[..i][j] == s[j];
      StarAt(s, j);
      if s[j] == '*' {
        FindIsFirst("*", s, j);
      }
    }
  }

  /** Joining the pieces with '*' gives the pattern back. */
  lemma {:induction false} SplitJoin(s: string)
    ensures Join(Split(s)) == s
    decreases |s|
  {
    match Find("*", s)
    case None =>
    case Some(i) =>
      StarAt(s, i);
      var rest := Split(s[i + 1..]);
      SplitJoin(s[i + 1..]);
      assert Split(s)[1..] == rest;
      assert s == s[..i] + "*" + s[i + 1..];
  }

  /** No piece holds a star. */
  lemma {:induction false} SplitPieces(s: string)
    ensures forall k :: 0 <= k < |Split(s)| ==> '*' !in Split(s)[k]
    decreases |s|
  {
    match Find("*", s)
    case None =>
      NoStarBefore(s, |s|);
      assert s[..|s|] == s;
    case Some(i) =>
      NoStarBefore(s, i);
      SplitPieces(s[i + 1..]);
      var parts := Split(s);
      assert forall k :: 1 <= k < |parts| ==> parts[k] == Split(s[i + 1..])[k - 1];
  }

  /** The pattern is a single piece exactly when it has no star. */
  lemma SplitSingle(s: string)
    ensures '*' !in s <==> Split(s) == [s]
  {
    match Find("*", s)
    case None =>
      NoStarBefore(s, |s|);
      assert s[..|s|] == s;
    case Some(i) =>
      StarAt(s, i);
      assert |Split(s)[0]| == i;
  }

  /**
   * Where the left-to-right search for the pieces ms[lo..hi] in `t`, starting at index
   * `from`, stops: each piece is found at its first occurrence after the previous find,
   * and the search goes on after it. None when some piece is not found.
   */
  function Consumed(ms: seq<string>, lo: nat, hi: nat, t: string, from: nat): (r: Option<nat>)
    requires hi <= |ms|
    ensures r.Some? ==> from <= r.value
    decreases hi - lo
  {
    if lo >= hi then Some(from)
    else match FindFrom(ms[lo], t, from)
      case None => None
      case Some(a) => Consumed(ms, lo + 1, hi, t, a + |ms[lo]|)
  }

  /**
   * The meaning of a pattern: with no star it is the subject itself; otherwise the
   * subject is the first piece, then the middle pieces in order with anything between
   * them, then the last piece.
   */
  ghost predicate Matches(pattern: string, subj: string) {
    var parts := Split(pattern);
    if |parts| == 1 then subj == pattern
    else StartsWith(subj, parts[0]) && Floating(parts, 1, subj, |parts[0]|)
  }

  /**
   * The pieces ms[lo..] appear in `t` from index `from` on, in order and without
   * overlapping, the last one ending `t`.
   */
  ghost predicate Floating(ms: seq<string>, lo: nat, t: string, from: int)
    requires lo < |ms|
    decreases |ms| - lo
  {
    if lo == |ms| - 1 then EndsAfter(t, from, ms[lo])
    else exists i :: from <= i && OccursAt(ms[lo], t, i) && Floating(ms, lo + 1, t, i + |ms[lo]|)
  }

  /** What glob computes, as its source is written. */
  predicate GlobAsWritten(pattern: string, subj: string) {
    if pattern == "" then subj == pattern
    else if pattern == "*" then true
    else
      var parts := Split(pattern);
      if |parts| == 1 then subj == pattern
      else
        var leading, trailing := StartsWith(pattern, "*"), EndsWith(pattern, "*");
        && (leading || StartsWith(subj, parts[0]))
        // the middle loop runs over parts[0 .. len(parts) - 3], from the start of subj
        && match Consumed(parts, 0, |parts| - 2, subj, 0)
           case None => false
           case Some(k) => trailing || EndsAfter(subj, k, parts[|parts| - 1])
  }

  /**
   * glob, as written. GlobAsWritten agrees with the meaning of the pattern on the simple
   * cases (AsWrittenFacts) and accepts every subject the pattern matches
   * (AsWrittenComplete), but not only those (GlobAcceptsSkippedPiece, GlobAcceptsOverlap).
   */
  method Glob(pattern: string, subj: string) returns (r: bool)
    ensures r == GlobAsWritten(pattern, subj)
  {
    if pattern == "" {
      return subj == pattern;
    }
    if pattern == "*" {
      return true;
    }
    var parts := Split(pattern);
    if |parts| == 1 {
      return subj == pattern;
    }
    var leadingGlob := StartsWith(pattern, "*");
    var trailingGlob := EndsWith(pattern, "*");
    if !leadingGlob && !StartsWith(subj, parts[0]) {
      return false;
    }
    var s := subj;
    ghost var off := 0;
    for i := 0 to |parts| - 2
      invariant Consumed(parts, 0, i, subj, 0) == Some(off) && off <= |subj| && s == subj[off..]
    {
      var part := parts[i];
      var idx := Find(part, s);
      ConsumedStep(parts, 0, i, subj, 0, off, s);
      if idx.None? {
        ConsumedNoneLonger(parts, 0, i + 1, |parts| - 2, subj, 0);
        return false;
      }
      s := s[idx.value + |part|..];
      off := off + idx.value + |part|;
    }
    EndsWithSuffix(subj, off, parts[|parts| - 1]);
    return trailingGlob || EndsWith(s, parts[|parts| - 1]);
  }

  /** What glob computes with its middle loop over parts[1 .. len(parts) - 2], after the first piece. */
  predicate GlobFixed(pattern: string, subj: string) {
    if pattern == "" then subj == pattern
    else if pattern == "*" then true
    else
      var parts := Split(pattern);
      if |parts| == 1 then subj == pattern
      else
        var leading, trailing := StartsWith(pattern, "*"), EndsWith(pattern, "*");
        && (leading || StartsWith(subj, parts[0]))
        && |parts[0]| <= |subj|
        && match Consumed(parts, 1, |parts| - 1, subj, |parts[0]|)
           case None => false
           case Some(k) => trailing || EndsAfter(subj, k, parts[|parts| - 1])
  }

  /**
   * glob with the middle loop corrected: the search for the middle pieces starts after
   * the first piece, and every middle piece is searched for. GlobFixed accepts exactly
   * the subjects the pattern matches (FixedIsExact).
   */
  method GlobCorrected(pattern: string, subj: string) returns (r: bool)
    ensures r == GlobFixed(pattern, subj)
  {
    if pattern == "" {
      return subj == pattern;
    }
    if pattern == "*" {
      return true;
    }
    var parts := Split(pattern);
    if |parts| == 1 {
      return subj == pattern;
    }
    var leadingGlob := StartsWith(pattern, "*");
    var trailingGlob := EndsWith(pattern, "*");
    if !leadingGlob && !StartsWith(subj, parts[0]) {
      return false;
    }
    assert leadingGlob ==> parts[0] == "" by {
      if leadingGlob { LeadingStar(pattern); }
    }
    var s := subj[|parts[0]|..];
    ghost var off := |parts[0]|;
    for i := 1 to |parts| - 1
      invariant Consumed(parts, 1, i, subj, |parts[0]|) == Some(off) && off <= |subj| && s == subj[off..]
    {
      var part := parts[i];
      var idx := Find(part, s);
      ConsumedStep(parts, 1, i, subj, |parts[0]|, off, s);
      if idx.None? {
        ConsumedNoneLonger(parts, 1, i + 1, |parts| - 1, subj, |parts[0]|);
        return false;
      }
      s := s[idx.value + |part|..];
      off := off + idx.value + |part|;
    }
    EndsWithSuffix(subj, off, parts[|parts| - 1]);
    return trailingGlob || EndsWith(s, parts[|parts| - 1]);
  }

  // ---- lemmas about splitting ----

  lemma LeadingStar(pattern: string)
    requires StartsWith(pattern, "*")
    ensures Split(pattern)[0] == ""
  {
    assert OccursAt("*", pattern, 0);
  }

  lemma {:induction false} TrailingStar(pattern: string)
    requires EndsWith(pattern, "*")
    ensures Split(pattern)[|Split(pattern)| - 1] == ""
    decreases |pattern|
  {
    var n := |pattern|;
    assert OccursAt("*", pattern, n - 1) by { assert pattern[n - 1..n] == pattern[n - 1..]; }
    FindIsFirst("*", pattern, n - 1);
    var i := Find("*", pattern).value;
    var rest := pattern[i + 1..];
    assert Split(pattern) == [pattern[..i]] + Split(rest);
    if i + 1 == n {
      assert rest == "";
    } else {
      assert EndsWith(rest, "*") by { assert rest[|rest| - 1..] == pattern[n - 1..]; }
      TrailingStar(rest);
    }
  }

  /** Splitting at the first star. */
  lemma SplitAt(s: string, i: nat)
    requires i < |s| && s[i] == '*' && '*' !in s[..i]
    ensures Split(s) == [s[..i]] + Split(s[i + 1..])
  {
    StarAt(s, i);
    FindIsFirst("*", s, i);
    var j := Find("*", s).value;
    assert j == i by {
      StarAt(s, j);
    }
  }

  /** A pattern that splits into one piece is that piece. */
  lemma OnePiece(pattern: string)
    requires |Split(pattern)| == 1
    ensures Split(pattern) == [pattern]
  {
    SplitJoin(pattern);
    assert Join(Split(pattern)) == Split(pattern)[0];
  }

  /** "*" splits into two empty pieces. */
  lemma StarSplit()
    ensures Split("*") == ["", ""]
  {
    assert OccursAt("*", "*", 0);
    FindIsFirst("*", "*", 0);
    assert "*"[1..] == "";
    assert Split("") == [""];
  }

  // ---- lemmas about the left-to-right search ----

  /** `t[k..]` ends with `m` exactly when `t` does and that occurrence starts at or after k. */
  lemma EndsWithSuffix(t: string, k: nat, m: string)
    requires k <= |t|
    ensures EndsWith(t[k..], m) <==> EndsAfter(t, k, m)
  {
    if k + |m| <= |t| {
      assert t[k..][|t| - k - |m|..] == t[|t| - |m|..];
    }
  }

  /** A search that starts inside `t` stops inside it. */
  lemma {:induction false} ConsumedBound(ms: seq<string>, lo: nat, hi: nat, t: string, from: nat)
    requires hi <= |ms| && from <= |t| && Consumed(ms, lo, hi, t, from).Some?
    ensures Consumed(ms, lo, hi, t, from).value <= |t|
    decreases hi - lo
  {
    if lo < hi {
      var a := FindFrom(ms[lo], t, from).value;
      ConsumedBound(ms, lo + 1, hi, t, a + |ms[lo]|);
    }
  }

  /** With no piece left to look for, the search stops where it starts. */
  lemma ConsumedNone(ms: seq<string>, lo: nat, hi: nat, t: string, from: nat)
    requires hi <= lo && hi <= |ms|
    ensures Consumed(ms, lo, hi, t, from) == Some(from)
  {
  }

  /** A search that succeeds found the first piece and went on after it. */
  lemma ConsumedFirst(ms: seq<string>, lo: nat, hi: nat, t: string, from: nat)
    requires lo < hi <= |ms| && Consumed(ms, lo, hi, t, from).Some?
    ensures FindFrom(ms[lo], t, from).Some?
    ensures Consumed(ms, lo, hi, t, from) == Consumed(ms, lo + 1, hi, t, FindFrom(ms[lo], t, from).value + |ms[lo]|)
  {
  }

  /** One step of the search: the first piece is found at `a`, the rest are searched for after it. */
  lemma ConsumedCons(ms: seq<string>, lo: nat, hi: nat, t: string, from: nat, a: nat)
    requires lo < hi <= |ms| && FindFrom(ms[lo], t, from) == Some(a)
    ensures Consumed(ms, lo, hi, t, from) == Consumed(ms, lo + 1, hi, t, a + |ms[lo]|)
  {
  }

  /** Searching for one more piece continues where the search for the others stopped. */
  lemma {:induction false} ConsumedSnoc(ms: seq<string>, lo: nat, hi: nat, t: string, from: nat)
    requires lo <= hi < |ms|
    ensures Consumed(ms, lo, hi + 1, t, from) ==
              match Consumed(ms, lo, hi, t, from)
              case None => None
              case Some(k) =>
                (match FindFrom(ms[hi], t, k)
                 case None => None
                 case Some(a) => Some(a + |ms[hi]|))
    decreases hi - lo
  {
    if lo < hi {
      var f := FindFrom(ms[lo], t, from);
      if f.Some? {
        var next := f.value + |ms[lo]|;
        ConsumedSnoc(ms, lo + 1, hi, t, next);
        assert Consumed(ms, lo, hi + 1, t, from) == Consumed(ms, lo + 1, hi + 1, t, next);
        assert Consumed(ms, lo, hi, t, from) == Consumed(ms, lo + 1, hi, t, next);
      } else {
        assert Consumed(ms, lo, hi + 1, t, from) == None == Consumed(ms, lo, hi, t, from);
      }
    } else {
      assert Consumed(ms, lo, hi, t, from) == Some(from);
      ConsumedOne(ms, hi, t, from);
    }
  }

  /** Searching for a single piece. */
  lemma ConsumedOne(ms: seq<string>, lo: nat, t: string, from: nat)
    requires lo < |ms|
    ensures Consumed(ms, lo, lo + 1, t, from) ==
              match FindFrom(ms[lo], t, from)
              case None => None
              case Some(a) => Some(a + |ms[lo]|)
  {
    var f := FindFrom(ms[lo], t, from);
    if f.Some? {
      assert Consumed(ms, lo, lo + 1, t, from) == Consumed(ms, lo + 1, lo + 1, t, f.value + |ms[lo]|);
    }
  }

  /**
   * One more piece of the search, the i-th, looked for in `s`, what the pieces before it
   * left of `t`.
   */
  lemma ConsumedStep(ms: seq<string>, lo: nat, i: nat, t: string, from: nat, off: nat, s: string)
    requires lo <= i < |ms| && Consumed(ms, lo, i, t, from) == Some(off) && off <= |t| && s == t[off..]
    ensures var f := Find(ms[i], s);
            && Consumed(ms, lo, i + 1, t, from) == (if f.None? then None else Some(off + f.value + |ms[i]|))
            && (f.Some? ==> s[f.value + |ms[i]|..] == t[off + f.value + |ms[i]|..])
  {
    ConsumedSnoc(ms, lo, i, t, from);
    FindInSuffix(ms[i], t, off);
    var f := Find(ms[i], s);
    if f.Some? {
      var d := f.value + |ms[i]|;
      assert s[d..] == t[off + d..];
    }
  }

  /** If a search for some of the pieces fails, the search for more of them fails. */
  lemma ConsumedNoneLonger(ms: seq<string>, lo: nat, j: nat, k: nat, t: string, from: nat)
    requires lo <= j <= k <= |ms| && Consumed(ms, lo, j, t, from).None?
    ensures Consumed(ms, lo, k, t, from).None?
  {
    if Consumed(ms, lo, k, t, from).Some? {
      ConsumedShorter(ms, lo, j, k, t, from);
    }
  }

  /** Searching for fewer of the pieces stops no later than searching for all of them. */
  lemma {:induction false} ConsumedShorter(ms: seq<string>, lo: nat, j: nat, hi: nat, t: string, from: nat)
    requires lo <= j <= hi <= |ms| && Consumed(ms, lo, hi, t, from).Some?
    ensures Consumed(ms, lo, j, t, from).Some?
    ensures Consumed(ms, lo, j, t, from).value <= Consumed(ms, lo, hi, t, from).value
    decreases j - lo
  {
    if lo < j {
      var a := FindFrom(ms[lo], t, from).value;
      ConsumedShorter(ms, lo + 1, j, hi, t, a + |ms[lo]|);
    }
  }

  /** A later start finds the same occurrence or a later one, never none. */
  lemma FindFromLater(m: string, t: string, x: nat, y: nat)
    requires x <= y && FindFrom(m, t, y).Some?
    ensures FindFrom(m, t, x).Some? && FindFrom(m, t, x).value <= FindFrom(m, t, y).value
  {
    FindFromOccurs(m, t, y);
    FindFromIsFirst(m, t, x, FindFrom(m, t, y).value);
  }

  /** Starting the search later never lets it stop earlier. */
  lemma {:induction false} ConsumedLater(ms: seq<string>, lo: nat, hi: nat, t: string, x: nat, y: nat)
    requires hi <= |ms| && x <= y && Consumed(ms, lo, hi, t, y).Some?
    ensures Consumed(ms, lo, hi, t, x).Some?
    ensures Consumed(ms, lo, hi, t, x).value <= Consumed(ms, lo, hi, t, y).value
    decreases hi - lo
  {
    if lo < hi {
      var m := ms[lo];
      ConsumedFirst(ms, lo, hi, t, y);
      FindFromLater(m, t, x, y);
      var a, b := FindFrom(m, t, x).value, FindFrom(m, t, y).value;
      ConsumedCons(ms, lo, hi, t, x, a);
      ConsumedLater(ms, lo + 1, hi, t, a + |m|, b + |m|);
    } else {
      ConsumedNone(ms, lo, hi, t, x);
      ConsumedNone(ms, lo, hi, t, y);
    }
  }

  /** Where more than one piece floats, the first one has a place. */
  lemma FloatingFirst(ms: seq<string>, lo: nat, t: string, from: int) returns (i: int)
    requires lo < |ms| - 1 && Floating(ms, lo, t, from)
    ensures from <= i && OccursAt(ms[lo], t, i) && Floating(ms, lo + 1, t, i + |ms[lo]|)
  {
    i :| from <= i && OccursAt(ms[lo], t, i) && Floating(ms, lo + 1, t, i + |ms[lo]|);
  }

  /** The greedy search decides the floating pieces exactly. */
  lemma FloatingIsGreedy(ms: seq<string>, lo: nat, t: string, from: nat)
    requires lo < |ms|
    ensures Floating(ms, lo, t, from) <==>
              var c := Consumed(ms, lo, |ms| - 1, t, from);
              c.Some? && EndsAfter(t, c.value, ms[|ms| - 1])
  {
    if Floating(ms, lo, t, from) {
      FloatingToGreedy(ms, lo, t, from);
    }
    var c := Consumed(ms, lo, |ms| - 1, t, from);
    if c.Some? && EndsAfter(t, c.value, ms[|ms| - 1]) {
      GreedyToFloating(ms, lo, t, from);
    }
  }

  /** Wherever the pieces can be placed, the greedy search finds them, no later. */
  lemma {:induction false} FloatingToGreedy(ms: seq<string>, lo: nat, t: string, from: nat)
    requires lo < |ms| && Floating(ms, lo, t, from)
    ensures var c := Consumed(ms, lo, |ms| - 1, t, from);
            c.Some? && EndsAfter(t, c.value, ms[|ms| - 1])
    decreases |ms| - lo, 1
  {
    if lo < |ms| - 1 {
      FloatingToGreedyStep(ms, lo, t, from);
    } else {
      assert Consumed(ms, lo, |ms| - 1, t, from) == Some(from);
    }
  }

  /**
   * The inductive step of FloatingToGreedy: the first piece's first occurrence is no
   * later than its place, and from there the others are found no later either.
   */
  lemma {:induction false} FloatingToGreedyStep(ms: seq<string>, lo: nat, t: string, from: nat)
    requires lo < |ms| - 1 && Floating(ms, lo, t, from)
    ensures var c := Consumed(ms, lo, |ms| - 1, t, from);
            c.Some? && EndsAfter(t, c.value, ms[|ms| - 1])
    decreases |ms| - lo, 0
  {
    var m, n := ms[lo], |ms| - 1;
    var i := FloatingFirst(ms, lo, t, from);
    FloatingToGreedy(ms, lo + 1, t, i + |m|);
    var c1 := Consumed(ms, lo + 1, n, t, i + |m|);
    assert c1.Some? && EndsAfter(t, c1.value, ms[n]);
    FirstFindNoLater(ms, lo, n, t, from, i);
    var c := Consumed(ms, lo, n, t, from);
    assert c.Some? && c.value <= c1.value;
  }

  /**
   * If the first piece occurs at i and the others are found after it, the search that
   * takes the first occurrence of the first piece succeeds and stops no later.
   */
  lemma FirstFindNoLater(ms: seq<string>, lo: nat, hi: nat, t: string, from: nat, i: nat)
    requires lo < hi <= |ms| && from <= i && OccursAt(ms[lo], t, i)
    requires Consumed(ms, lo + 1, hi, t, i + |ms[lo]|).Some?
    ensures Consumed(ms, lo, hi, t, from).Some?
    ensures Consumed(ms, lo, hi, t, from).value <= Consumed(ms, lo + 1, hi, t, i + |ms[lo]|).value
  {
    var m := ms[lo];
    FindFromIsFirst(m, t, from, i);
    var a := FindFrom(m, t, from).value;
    ConsumedLater(ms, lo + 1, hi, t, a + |m|, i + |m|);
    ConsumedCons(ms, lo, hi, t, from, a);
  }

  /** Where the greedy search succeeds, its finds are a placement of the pieces. */
  lemma {:induction false} GreedyToFloating(ms: seq<string>, lo: nat, t: string, from: nat)
    requires lo < |ms|
    requires var c := Consumed(ms, lo, |ms| - 1, t, from);
             c.Some? && EndsAfter(t, c.value, ms[|ms| - 1])
    ensures Floating(ms, lo, t, from)
    decreases |ms| - lo
  {
    if lo < |ms| - 1 {
      var m := ms[lo];
      var a := FindFrom(m, t, from).value;
      FindFromOccurs(m, t, from);
      GreedyToFloating(ms, lo + 1, t, a + |m|);
      assert OccursAt(m, t, a) && Floating(ms, lo + 1, t, a + |m|);
    }
  }

  /** The corrected search accepts exactly the matching subjects. */
  lemma FixedIsExact(pattern: string, subj: string)
    ensures GlobFixed(pattern, subj) <==> Matches(pattern, subj)
  {
    var parts := Split(pattern);
    if pattern == "" {
      assert parts == [""];
    } else if pattern == "*" {
      StarSplit();
    } else if |parts| == 1 {
      OnePiece(pattern);
    } else {
      var n := |parts|;
      if StartsWith(pattern, "*") { LeadingStar(pattern); }
      if EndsWith(pattern, "*") { TrailingStar(pattern); }
      FloatingIsGreedy(parts, 1, subj, |parts[0]|);
      if |parts[0]| <= |subj| && Consumed(parts, 1, n - 1, subj, |parts[0]|).Some? {
        ConsumedBound(parts, 1, n - 1, subj, |parts[0]|);
      }
    }
  }

  /** glob as written accepts every subject that the pattern matches. */
  lemma AsWrittenComplete(pattern: string, subj: string)
    requires Matches(pattern, subj)
    ensures GlobAsWritten(pattern, subj)
  {
    var parts := Split(pattern);
    if pattern == "" {
      assert parts == [""];
    } else if pattern != "*" && |parts| > 1 {
      var n := |parts|;
      assert StartsWith(subj, parts[0]) && Floating(parts, 1, subj, |parts[0]|);
      FloatingIsGreedy(parts, 1, subj, |parts[0]|);
      var c := Consumed(parts, 1, n - 1, subj, |parts[0]|);
      assert c.Some? && EndsAfter(subj, c.value, parts[n - 1]);
      assert OccursAt(parts[0], subj, 0);
      FindFromIsFirst(parts[0], subj, 0, 0);
      assert Consumed(parts, 0, n - 1, subj, 0) == c;
      ConsumedShorter(parts, 0, n - 2, n - 1, subj, 0);
    }
  }

  /** The simple cases of glob as written. */
  lemma AsWrittenFacts(pattern: string, subj: string)
    ensures pattern == "" ==> (GlobAsWritten(pattern, subj) <==> subj == "")
    ensures pattern == "*" ==> GlobAsWritten(pattern, subj)
    ensures '*' !in pattern ==> (GlobAsWritten(pattern, subj) <==> subj == pattern)
    ensures GlobAsWritten(pattern, subj) && '*' in pattern && !StartsWith(pattern, "*") ==>
              StartsWith(subj, Split(pattern)[0])
    ensures GlobAsWritten(pattern, subj) && '*' in pattern && !EndsWith(pattern, "*") ==>
              EndsWith(subj, Split(pattern)[|Split(pattern)| - 1])
    ensures '*' in pattern ==> |Split(pattern)| >= 2
    // the last piece is checked on the subject trimmed after the middle search
    ensures GlobAsWritten(pattern, subj) && '*' in pattern && !EndsWith(pattern, "*") ==>
              var parts := Split(pattern);
              var k := Consumed(parts, 0, |parts| - 2, subj, 0);
              k.Some? && k.value <= |subj| && EndsWith(subj[k.value..], parts[|parts| - 1])
  {
    SplitSingle(pattern);
    if |Split(pattern)| == 1 {
      OnePiece(pattern);
    }
    var parts := Split(pattern);
    if GlobAsWritten(pattern, subj) && '*' in pattern && !EndsWith(pattern, "*") {
      var k := Consumed(parts, 0, |parts| - 2, subj, 0);
      ConsumedBound(parts, 0, |parts| - 2, subj, 0);
      EndsWithSuffix(subj, k.value, parts[|parts| - 1]);
    }
  }

  /**
   * glob as written searches for the first piece again instead of the middle piece
   * "b", so "a*b*c" accepts "ac", which has no "b".
   */
  lemma GlobAcceptsSkippedPiece()
    ensures GlobAsWritten("a*b*c", "ac") && !Matches("a*b*c", "ac")
  {
    SplitThreePieces();
    var parts := Split("a*b*c");
    assert FindFrom("a", "ac", 0) == Some(0) by { assert OccursAt("a", "ac", 0); }
    assert Consumed(parts, 0, 1, "ac", 0) == Some(1);
    // "b" occurs nowhere in "ac"
    assert "ac"[1..2] == "c";
  }

  lemma SplitThreePieces()
    ensures Split("a*b*c") == ["a", "b", "c"]
  {
    SplitSingle("c");
    assert "b*c"[..1] == "b" && "b*c"[2..] == "c";
    SplitAt("b*c", 1);
    assert Split("b*c") == ["b", "c"];
    assert "a*b*c"[..1] == "a" && "a*b*c"[2..] == "b*c";
    SplitAt("a*b*c", 1);
  }

  /**
   * glob as written checks the first and the last piece against the whole subject, so
   * with one star they may overlap: "ab*ba" accepts "aba".
   */
  lemma GlobAcceptsOverlap()
    ensures GlobAsWritten("ab*ba", "aba") && !Matches("ab*ba", "aba")
  {
    var parts := Split("ab*ba");
    assert parts == ["ab", "ba"] by {
      assert "ab*ba"[..2] == "ab" && "ab*ba"[3..] == "ba";
      SplitAt("ab*ba", 2);
      SplitSingle("ba");
    }
    assert "aba"[1..] == "ba";
  }
}
