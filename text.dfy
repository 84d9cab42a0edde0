/**
 * The string operations of Python that the classifier uses: `str.split` with a
 * literal separator, `startswith`, `lower` and `strip`.
 */
module Text {
  import opened Wrappers

  // ---------------------------------------------------------------------------
  // Searching and splitting
  // ---------------------------------------------------------------------------

  /** `sep` occurs in `s` starting at index `k`. */
  predicate OccursAt(s: string, sep: string, k: nat)
  {
    k + |sep| <= |s| && s[k..k + |sep|] == sep
  }

  predicate Occurs(s: string, sep: string)
  {
    exists k: nat | k <= |s| :: OccursAt(s, sep, k)
  }

  lemma OccursShift(s: string, sep: string, k: nat)
    requires |s| > 0
    ensures OccursAt(s[1..], sep, k) <==> OccursAt(s, sep, k + 1)
  {
    if k + 1 + |sep| <= |s| {
      assert s[1..][k..k + |sep|] == s[k + 1..k + 1 + |sep|];
    }
  }

  /** The leftmost occurrence of `sep` in `s`, as `str.find` gives it. */
  function Find(s: string, sep: string): (r: Option<nat>)
    requires |sep| > 0
    ensures r.Some? ==> OccursAt(s, sep, r.value)
    ensures r.Some? ==> forall j: nat :: j < r.value ==> !OccursAt(s, sep, j)
    ensures r.None? <==> !Occurs(s, sep)
    decreases |s|
  {
    if |s| < |sep| then
      None
    else if sep <= s then
      assert OccursAt(s, sep, 0);
      Some(0)
    else
      assert !OccursAt(s, sep, 0);
      match Find(s[1..], sep)
      case None =>
        assert forall k: nat :: !OccursAt(s, sep, k) by {
          forall k: nat ensures !OccursAt(s, sep, k) {
            if k > 0 { OccursShift(s, sep, k - 1); }
          }
        }
        None
      case Some(k) =>
        OccursShift(s, sep, k);
        assert forall j: nat :: j < k + 1 ==> !OccursAt(s, sep, j) by {
          forall j: nat | j < k + 1 ensures !OccursAt(s, sep, j) {
            if j > 0 { OccursShift(s, sep, j - 1); }
          }
        }
        Some(k + 1)
  }

  /** Python's `s.split(sep)` for a non-empty literal separator. */
  function Split(s: string, sep: string): (parts: seq<string>)
    requires |sep| > 0
    ensures |parts| >= 1
    decreases |s|
  {
    match Find(s, sep)
    case None => [s]
    case Some(k) => [s[..k]] + Split(s[k + |sep|..], sep)
  }

  /** Python's `sep.join(parts)`. */
  function Join(parts: seq<string>, sep: string): string
  {
    if |parts| == 0 then ""
    else if |parts| == 1 then parts[0]
    else parts[0] + sep + Join(parts[1..], sep)
  }

  /** Splitting loses nothing: joining the parts back gives the original string. */
  lemma {:induction false} SplitJoin(s: string, sep: string)
    requires |sep| > 0
    ensures Join(Split(s, sep), sep) == s
    decreases |s|
  {
    match Find(s, sep)
    case None =>
    case Some(k) =>
      var rest := s[k + |sep|..];
      var tail := Split(rest, sep);
      SplitJoin(rest, sep);
      assert Split(s, sep) == [s[..k]] + tail;
      assert ([s[..k]] + tail)[1..] == tail;
      assert Join(Split(s, sep), sep) == s[..k] + sep + Join(tail, sep);
      assert s == s[..k] + sep + rest;
  }

  /** No part of a split contains the separator. */
  lemma {:induction false} SplitPartsFree(s: string, sep: string)
    requires |sep| > 0
    ensures forall p :: p in Split(s, sep) ==> !Occurs(p, sep)
    decreases |s|
  {
    match Find(s, sep)
    case None =>
    case Some(k) =>
      var head := s[..k];
      SplitPartsFree(s[k + |sep|..], sep);
      forall j: nat | j <= |head| && OccursAt(head, sep, j) ensures false {
        assert head[j..j + |sep|] == s[j..j + |sep|];
        assert OccursAt(s, sep, j);
      }
      assert Split(s, sep) == [head] + Split(s[k + |sep|..], sep);
  }

  /** A string without the separator is not split at all. */
  lemma SplitWithout(s: string, sep: string)
    requires |sep| > 0 && !Occurs(s, sep)
    ensures Split(s, sep) == [s]
  {
  }

  /** A one-character separator that does not occur in `s` leaves it whole. */
  lemma SplitNoChar(s: string, c: char)
    requires c !in s
    ensures Split(s, [c]) == [s]
  {
    forall k: nat | k + 1 <= |s| ensures !OccursAt(s, [c], k) {
      assert s[k..k + 1][0] == s[k];
    }
    SplitWithout(s, [c]);
  }

  /** Splitting at a one-character separator cuts at its first occurrence. */
  lemma SplitAtChar(a: string, c: char, b: string)
    requires c !in a
    ensures Split(a + [c] + b, [c]) == [a] + Split(b, [c])
  {
    var s := a + [c] + b;
    assert s[|a|..|a| + 1] == [c];
    assert OccursAt(s, [c], |a|);
    forall j: nat | j < |a| ensures !OccursAt(s, [c], j) {
      assert s[j..j + 1][0] == s[j] == a[j];
    }
    var f := Find(s, [c]);
    assert f.value == |a|;
    assert s[..|a|] == a;
    assert s[|a| + 1..] == b;
  }

  // ---------------------------------------------------------------------------
  // Prefixes
  // ---------------------------------------------------------------------------

  /** Python's `s.startswith(prefix)`. */
  predicate StartsWith(s: string, prefix: string)
  {
    prefix <= s
  }

  /** Drop one leading infinitive marker `"to "`, as `if w.startswith("to "): w = w[3:]` does. */
  function DropTo(s: string): (r: string)
    ensures |s| - 3 <= |r| <= |s|
  {
    if StartsWith(s, "to ") then s[3..] else s
  }

  /** Dropping the marker removes at most three characters, and only from the front. */
  lemma DropToSuffix(s: string)
    ensures |s| - 3 <= |DropTo(s)| <= |s|
    ensures DropTo(s) == s[|s| - |DropTo(s)|..]
    ensures |DropTo(s)| < |s| <==> StartsWith(s, "to ")
  {
  }

  lemma DropToUnchanged(s: string)
    requires !StartsWith(s, "to ")
    ensures DropTo(s) == s
  {
  }

  // ---------------------------------------------------------------------------
  // Letter case
  // ---------------------------------------------------------------------------

  /** The upper-case letters `lower` maps: ASCII A-Z and the Latin-1 letters U+00C0-U+00DE except U+00D7. */
  predicate IsUpper(c: char)
  {
    ('A' <= c <= 'Z') || ('\U{C0}' <= c <= '\U{DE}' && c != '\U{D7}')
  }

  function LowerChar(c: char): (d: char)
    ensures !IsUpper(d)
    ensures !IsUpper(c) ==> d == c
  {
    if IsUpper(c) then (c as int + 32) as char else c
  }

  function Lower(s: string): (r: string)
  {
    seq(|s|, i requires 0 <= i < |s| => LowerChar(s[i]))
  }

  predicate IsLower(s: string)
  {
    forall i :: 0 <= i < |s| ==> !IsUpper(s[i])
  }

  lemma LowerIsLower(s: string)
    ensures IsLower(Lower(s))
  {
  }

  lemma LowerUnchanged(s: string)
    requires IsLower(s)
    ensures Lower(s) == s
  {
  }

  // ---------------------------------------------------------------------------
  // Whitespace
  // ---------------------------------------------------------------------------

  /** The characters Python 2's `unicode.strip()` removes. */
  predicate IsSpace(c: char)
  {
    || c == ' '
    || '\t' <= c <= '\r'
    || '\U{1C}' <= c <= '\U{1F}'
    || c == '\U{85}' || c == '\U{A0}' || c == '\U{1680}' || c == '\U{180E}'
    || '\U{2000}' <= c <= '\U{200A}'
    || c == '\U{2028}' || c == '\U{2029}' || c == '\U{202F}' || c == '\U{205F}' || c == '\U{3000}'
  }

  function StripLeft(s: string): (r: string)
    ensures |r| <= |s|
    ensures r == [] || !IsSpace(r[0])
  {
    if |s| > 0 && IsSpace(s[0]) then StripLeft(s[1..]) else s
  }

  function StripRight(s: string): (r: string)
    ensures |r| <= |s|
    ensures r == [] || !IsSpace(r[|r| - 1])
  {
    if |s| > 0 && IsSpace(s[|s| - 1]) then StripRight(s[..|s| - 1]) else s
  }

  /** Python's `s.strip()`: white space removed from both ends. */
  function Strip(s: string): (r: string)
  {
    StripRight(StripLeft(s))
  }

  predicate IsStripped(s: string)
  {
    s == [] || (!IsSpace(s[0]) && !IsSpace(s[|s| - 1]))
  }

  lemma {:induction false} StripLeftRemovesSpace(s: string)
    ensures StripLeft(s) == s[|s| - |StripLeft(s)|..]
    ensures forall i :: 0 <= i < |s| - |StripLeft(s)| ==> IsSpace(s[i])
    decreases |s|
  {
    if |s| > 0 && IsSpace(s[0]) {
      StripLeftRemovesSpace(s[1..]);
      forall i | 1 <= i < |s| - |StripLeft(s)| ensures IsSpace(s[i]) {
        assert s[1..][i - 1] == s[i];
      }
    }
  }

  lemma {:induction false} StripRightRemovesSpace(s: string)
    ensures StripRight(s) == s[..|StripRight(s)|]
    ensures forall i :: |StripRight(s)| <= i < |s| ==> IsSpace(s[i])
    decreases |s|
  {
    if |s| > 0 && IsSpace(s[|s| - 1]) {
      StripRightRemovesSpace(s[..|s| - 1]);
      forall i | |StripRight(s)| <= i < |s| - 1 ensures IsSpace(s[i]) {
        assert s[..|s| - 1][i] == s[i];
      }
    }
  }

  /** `strip` removes only white space, from both ends, and leaves a stripped string. */
  lemma StripSpec(s: string)
    ensures IsStripped(Strip(s))
    ensures exists i, j ::
              && 0 <= i <= j <= |s|
              && Strip(s) == s[i..j]
              && (forall k :: 0 <= k < i ==> IsSpace(s[k]))
              && (forall k :: j <= k < |s| ==> IsSpace(s[k]))
  {
    var l := StripLeft(s);
    var r := StripRight(l);
    StripLeftRemovesSpace(s);
    StripRightRemovesSpace(l);
    var i := |s| - |l|;
    var j := i + |r|;
    assert r == s[i..j];
    forall k | j <= k < |s| ensures IsSpace(s[k]) {
      assert l[k - i] == s[k];
    }
    if r != [] {
      assert r[0] == l[0];
    }
  }

  /** Stripping a stripped string changes nothing. */
  lemma StripUnchanged(s: string)
    requires IsStripped(s)
    ensures Strip(s) == s
  {
  }
}
