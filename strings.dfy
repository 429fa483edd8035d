/** The two functions of Go's `strings` package that the section walk relies on,
    `strings.TrimSpace` and `strings.Contains`. A string is a sequence of code
    points; for valid UTF-8 input Go's byte-level operations agree with these. */
module Strings {

  /** Go's `unicode.IsSpace`: the Latin-1 spaces (tab, newline, vertical tab,
      form feed, carriage return, space, U+0085, U+00A0) and the other code
      points of Unicode's White_Space property. */
  predicate IsSpace(c: char) {
    var u := c as int;
    || (0x09 <= u <= 0x0D) || u == 0x20 || u == 0x85 || u == 0xA0
    || u == 0x1680 || (0x2000 <= u <= 0x200A) || u == 0x2028 || u == 0x2029
    || u == 0x202F || u == 0x205F || u == 0x3000
  }

  ghost predicate AllSpace(s: string) {
    forall k :: 0 <= k < |s| ==> IsSpace(s[k])
  }

  /** The length of the longest all-space prefix of `s` (LeadingSpaceSpec). */
  function LeadingSpace(s: string): (n: nat)
    ensures n <= |s|
  {
    if s == [] || !IsSpace(s[0]) then 0 else 1 + LeadingSpace(s[1..])
  }

  lemma {:induction false} LeadingSpaceSpec(s: string)
    ensures forall k :: 0 <= k < LeadingSpace(s) ==> IsSpace(s[k])
    ensures LeadingSpace(s) < |s| ==> !IsSpace(s[LeadingSpace(s)])
  {
    if s != [] && IsSpace(s[0]) {
      LeadingSpaceSpec(s[1..]);
      forall k | 1 <= k < LeadingSpace(s) ensures IsSpace(s[k]) {
        assert s[k] == s[1..][k - 1];
      }
    }
  }

  /** The length of the longest all-space suffix of `s` (TrailingSpaceSpec). */
  function TrailingSpace(s: string): (n: nat)
    ensures n <= |s|
  {
    if s == [] || !IsSpace(s[|s| - 1]) then 0 else 1 + TrailingSpace(s[..|s| - 1])
  }

  lemma {:induction false} TrailingSpaceSpec(s: string)
    ensures forall k :: |s| - TrailingSpace(s) <= k < |s| ==> IsSpace(s[k])
    ensures TrailingSpace(s) < |s| ==> !IsSpace(s[|s| - 1 - TrailingSpace(s)])
  {
    if s != [] && IsSpace(s[|s| - 1]) {
      var t := s[..|s| - 1];
      TrailingSpaceSpec(t);
      forall k | |s| - TrailingSpace(s) <= k < |s| - 1 ensures IsSpace(s[k]) {
        assert s[k] == t[k];
      }
      if TrailingSpace(s) < |s| {
        assert s[|s| - 1 - TrailingSpace(s)] == t[|t| - 1 - TrailingSpace(t)];
      }
    }
  }

  /** `r` is the slice of `s` starting at `i` with only white space around it. */
  ghost predicate SliceBetweenSpace(s: string, r: string, i: int) {
    && 0 <= i <= |s| - |r| && r == s[i..i + |r|]
    && AllSpace(s[..i]) && AllSpace(s[i + |r|..])
  }

  /** `strings.TrimSpace`: `s` without its leading and trailing white space
      (TrimSpaceSpec). */
  function TrimSpace(s: string): (r: string)
    ensures |r| <= |s|
  {
    var i := LeadingSpace(s);
    var j := TrailingSpace(s[i..]);
    s[i..|s| - j]
  }

  /** The trimmed string is the slice of `s` that is left once every space
      at either end is dropped: only white space surrounds it in `s`, it is
      empty exactly when `s` is all space, and otherwise it begins and ends
      with a non-space. */
  lemma TrimSpaceSpec(s: string)
    ensures TrimSpace(s) == [] <==> AllSpace(s)
    ensures TrimSpace(s) != [] ==> !IsSpace(TrimSpace(s)[0]) && !IsSpace(TrimSpace(s)[|TrimSpace(s)| - 1])
    ensures exists i :: SliceBetweenSpace(s, TrimSpace(s), i)
  {
    var i := LeadingSpace(s);
    var j := TrailingSpace(s[i..]);
    assert TrimSpace(s) == s[i..|s| - j];
    SpaceCountsFacts(s, i, j);
    SliceFacts(s, i, j);
  }

  /** What the two space counts of TrimSpace say about the ends of `s`. */
  lemma SpaceCountsFacts(s: string, i: nat, j: nat)
    requires i == LeadingSpace(s) && j == TrailingSpace(s[i..])
    ensures i <= |s| && AllSpace(s[..i]) && (i < |s| ==> !IsSpace(s[i]))
    ensures j <= |s| - i && AllSpace(s[|s| - j..]) && (j < |s| - i ==> !IsSpace(s[|s| - 1 - j]))
  {
    LeadingSpaceSpec(s);
    var t := s[i..];
    TrailingSpaceSpec(t);
    assert AllSpace(s[..i]);
    assert s[|s| - j..] == t[|t| - j..];
    assert j < |t| ==> s[|s| - 1 - j] == t[|t| - 1 - j];
  }

  /** What the two space counts of TrimSpace tell about the slice between them. */
  lemma SliceFacts(s: string, i: nat, j: nat)
    requires i <= |s| && AllSpace(s[..i]) && (i < |s| ==> !IsSpace(s[i]))
    requires j <= |s| - i && AllSpace(s[|s| - j..]) && (j < |s| - i ==> !IsSpace(s[|s| - 1 - j]))
    ensures s[i..|s| - j] == [] <==> AllSpace(s)
    ensures s[i..|s| - j] != [] ==> !IsSpace(s[i]) && !IsSpace(s[|s| - j - 1])
    ensures SliceBetweenSpace(s, s[i..|s| - j], i)
  {
    if i < |s| {
      assert !AllSpace(s) by { assert !IsSpace(s[i]); }
    } else {
      assert s[..i] == s;
    }
  }

  /** `substr` occurs in `s` at position `i`. */
  predicate OccursAt(s: string, substr: string, i: int) {
    0 <= i <= |s| - |substr| && s[i..i + |substr|] == substr
  }

  /** `strings.Contains`: whether `substr` occurs in `s` as a contiguous run
      (ContainsIsOccurrence); the empty string occurs in every string. */
  function Contains(s: string, substr: string): (found: bool)
    ensures |substr| > |s| ==> !found
    decreases |s|
  {
    if substr <= s then true
    else if s == [] then false
    else Contains(s[1..], substr)
  }

  lemma {:induction false} ContainsIsOccurrence(s: string, substr: string)
    ensures Contains(s, substr) <==> exists i :: OccursAt(s, substr, i)
    decreases |s|
  {
    if substr <= s {
      assert OccursAt(s, substr, 0);
    } else if s == [] {
      assert forall i :: !OccursAt(s, substr, i);
    } else {
      ContainsIsOccurrence(s[1..], substr);
      ContainsStep(s, substr);
    }
  }

  lemma ContainsStep(s: string, substr: string)
    requires s != [] && !(substr <= s)
    ensures (exists i :: OccursAt(s, substr, i)) <==> (exists i :: OccursAt(s[1..], substr, i))
  {
    assert !OccursAt(s, substr, 0) by {
      if |substr| <= |s| { assert s[..|substr|] == s[0..|substr|]; }
    }
    forall i | OccursAt(s, substr, i) ensures OccursAt(s[1..], substr, i - 1) {
      assert s[1..][i - 1..i - 1 + |substr|] == s[i..i + |substr|];
    }
    forall i | OccursAt(s[1..], substr, i) ensures OccursAt(s, substr, i + 1) {
      assert s[1..][i..i + |substr|] == s[i + 1..i + 1 + |substr|];
    }
  }
}
