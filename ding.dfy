/**
 * `readDingDictionary`: the reader for the Ding gloss format, one line at a
 * time. A line is `left :: right`; each half is a `|`-separated list of
 * parallel groups; each group, once cleaned of annotations, is a
 * `;`-separated list of synonyms.
 */
module Ding {
  import opened Wrappers
  import opened Text
  import opened Lexicons

  // ---------------------------------------------------------------------------
  // The noise pattern `to_remove`
  // ---------------------------------------------------------------------------

  /** The literal alternatives of the pattern, in the order it lists them. */
  const Literals: seq<string> :=
    ["ich/er/sie", "ist/war", "du ", "you ", "he/she", "I/he/she", "has/had", "would ", "sb.", "sth.", "jdm.", "etw."]

  /** Length of the first literal in `lits` that `s` starts with, 0 when none does. */
  function LiteralMatch(s: string, lits: seq<string>): (n: nat)
    ensures n <= |s|
    ensures n > 0 ==> exists k :: 0 <= k < |lits| && lits[k] == s[..n]
  {
    if lits == [] then 0
    else if |lits[0]| > 0 && StartsWith(s, lits[0]) then |lits[0]|
    else
      var n := LiteralMatch(s, lits[1..]);
      assert n > 0 ==> exists k :: 0 <= k < |lits| && lits[k] == s[..n] by {
        if n > 0 {
          var k :| 0 <= k < |lits[1..]| && lits[1..][k] == s[..n];
          assert lits[k + 1] == s[..n];
        }
      }
      n
  }

  /** `lit` is a non-empty literal that `s` starts with. */
  predicate LiteralAt(s: string, lit: string)
  {
    |lit| > 0 && StartsWith(s, lit)
  }

  /**
   * The alternation tries the literals in order: the match is the first one
   * that `s` starts with, and there is none exactly when no literal fits.
   */
  lemma {:induction false} LiteralMatchFirst(s: string, lits: seq<string>)
    ensures LiteralMatch(s, lits) == 0 <==> forall k :: 0 <= k < |lits| ==> !LiteralAt(s, lits[k])
    ensures LiteralMatch(s, lits) > 0 ==>
      exists k :: 0 <= k < |lits| && LiteralAt(s, lits[k]) && LiteralMatch(s, lits) == |lits[k]|
                  && forall j :: 0 <= j < k ==> !LiteralAt(s, lits[j])
    decreases |lits|
  {
    if lits != [] && !LiteralAt(s, lits[0]) {
      var rest := lits[1..];
      LiteralMatchFirst(s, rest);
      assert LiteralMatch(s, lits) == LiteralMatch(s, rest);
      if LiteralMatch(s, lits) > 0 {
        var k :| 0 <= k < |rest| && LiteralAt(s, rest[k]) && LiteralMatch(s, rest) == |rest[k]|
                 && forall j :: 0 <= j < k ==> !LiteralAt(s, rest[j]);
        assert lits[k + 1] == rest[k];
        forall j | 0 <= j < k + 1 ensures !LiteralAt(s, lits[j]) {
          if j > 0 {
            assert lits[j] == rest[j - 1];
          }
        }
      } else {
        forall k | 0 <= k < |lits| ensures !LiteralAt(s, lits[k]) {
          if k > 0 {
            assert lits[k] == rest[k - 1];
          }
        }
      }
    } else if lits != [] {
      assert LiteralMatch(s, lits) == |lits[0]|;
    }
  }

  /**
   * `e` is where the lazy `.+?` of a bracketed group opened at `s[0]` and matched
   * as far as `s[1..j]` stops: the first closing character at index 2 or later,
   * with no newline between `j` and it.
   */
  ghost predicate LazyEnd(s: string, j: nat, close: char, e: nat)
  {
    j <= e < |s| && e >= 2 && s[e] == close
    && forall m :: j <= m < e ==> s[m] != '\n' && !(m >= 2 && s[m] == close)
  }

  /**
   * `\{.+?\}` and its two siblings, with `s[0]` the opening bracket and `s[1..j]`
   * already matched by `.+?`: the length of the shortest match, 0 when there is
   * none (`.` matches any character but a newline).
   */
  function LazyClose(s: string, j: nat, close: char): (n: nat)
    requires 1 <= j <= |s|
    ensures n == 0 || (j < n <= |s| && s[n - 1] == close)
    ensures n > 0 ==> LazyEnd(s, j, close, n - 1)
    ensures n == 0 ==> forall e :: !LazyEnd(s, j, close, e)
    decreases |s| - j
  {
    if j == |s| then 0
    else if j >= 2 && s[j] == close then j + 1
    else if s[j] == '\n' then 0
    else LazyEndShift(s, j, close); LazyClose(s, j + 1, close)
  }

  /** Past a character that neither closes nor stops the group, the group ends where it ends one step later. */
  lemma LazyEndShift(s: string, j: nat, close: char)
    requires 1 <= j < |s| && s[j] != '\n' && !(j >= 2 && s[j] == close)
    ensures forall e :: LazyEnd(s, j, close, e) <==> LazyEnd(s, j + 1, close, e)
  {
  }

  /** The characters of the class `[a-zA-Z0-9_\.]`. */
  predicate IsTagChar(c: char)
  {
    ('a' <= c <= 'z') || ('A' <= c <= 'Z') || ('0' <= c <= '9') || c == '_' || c == '.'
  }

  /** `e` is the first `/` at index 2 or later, with only tag characters between `j` and it. */
  ghost predicate SlashEnd(s: string, j: nat, e: nat)
  {
    j <= e < |s| && e >= 2 && s[e] == '/'
    && forall m :: j <= m < e ==> IsTagChar(s[m]) && !(m >= 2 && s[m] == '/')
  }

  /** `\/[a-zA-Z0-9_\.]+?\/` with `s[0] == '/'` and `s[1..j]` already matched. */
  function SlashClose(s: string, j: nat): (n: nat)
    requires 1 <= j <= |s|
    ensures n == 0 || (j < n <= |s| && s[n - 1] == '/')
    ensures n > 0 ==> SlashEnd(s, j, n - 1)
    ensures n == 0 ==> forall e :: !SlashEnd(s, j, e)
    decreases |s| - j
  {
    if j == |s| then 0
    else if j >= 2 && s[j] == '/' then j + 1
    else if !IsTagChar(s[j]) then 0
    else SlashEndShift(s, j); SlashClose(s, j + 1)
  }

  /** Past a tag character that does not close the tag, the tag ends where it ends one step later. */
  lemma SlashEndShift(s: string, j: nat)
    requires 1 <= j < |s| && IsTagChar(s[j]) && !(j >= 2 && s[j] == '/')
    ensures forall e :: SlashEnd(s, j, e) <==> SlashEnd(s, j + 1, e)
  {
  }

  /** Length of the match of `to_remove` at the start of `s`, 0 when it does not match there. */
  function MatchLength(s: string): (n: nat)
    ensures n <= |s|
  {
    if s == [] then 0
    else
      var lit := LiteralMatch(s, Literals);
      if lit > 0 then lit
      else if s[0] == '{' then LazyClose(s, 1, '}')
      else if s[0] == '(' then LazyClose(s, 1, ')')
      else if s[0] == '[' then LazyClose(s, 1, ']')
      else if s[0] == '/' then SlashClose(s, 1)
      else 0
  }

  /** `to_remove.sub('', s)`: every match, scanning left to right, is deleted. */
  function Clean(s: string): (r: string)
    ensures |r| <= |s|
    decreases |s|
  {
    if s == [] then []
    else
      var n := MatchLength(s);
      if n > 0 then Clean(s[n..]) else [s[0]] + Clean(s[1..])
  }

  /** The characters without which no alternative of the pattern can match. */
  predicate IsNoiseChar(c: char)
  {
    c == '{' || c == '(' || c == '[' || c == '/' || c == ' ' || c == '.'
  }

  /** Some character of `w` is a noise character. */
  predicate HasNoise(w: string)
  {
    |w| > 0 && (IsNoiseChar(w[0]) || HasNoise(w[1..]))
  }

  lemma {:induction false} NoiseCharAt(w: string)
    requires HasNoise(w)
    ensures exists j :: 0 <= j < |w| && IsNoiseChar(w[j])
  {
    if !IsNoiseChar(w[0]) {
      NoiseCharAt(w[1..]);
      var j :| 0 <= j < |w[1..]| && IsNoiseChar(w[1..][j]);
      assert w[j + 1] == w[1..][j];
    }
  }

  lemma {:induction false} LiteralsNeedNoise(s: string, lits: seq<string>)
    requires forall i :: 0 <= i < |s| ==> !IsNoiseChar(s[i])
    requires forall lit :: lit in lits ==> HasNoise(lit)
    ensures LiteralMatch(s, lits) == 0
  {
    if lits != [] {
      if |lits[0]| > 0 && StartsWith(s, lits[0]) {
        NoiseCharAt(lits[0]);
      } else {
        LiteralsNeedNoise(s, lits[1..]);
      }
    }
  }

  lemma EveryLiteralHasNoise()
    ensures forall lit :: lit in Literals ==> HasNoise(lit)
  {
  }

  /** Text with no bracket, slash, space or full stop is left as it is. */
  lemma {:induction false} CleanPlain(s: string)
    requires forall i :: 0 <= i < |s| ==> !IsNoiseChar(s[i])
    ensures Clean(s) == s
    decreases |s|
  {
    if s != [] {
      EveryLiteralHasNoise();
      LiteralsNeedNoise(s, Literals);
      assert MatchLength(s) == 0;
      CleanPlain(s[1..]);
      assert s == [s[0]] + s[1..];
    }
  }

  // ---------------------------------------------------------------------------
  // Normalisation
  // ---------------------------------------------------------------------------

  /** `w.lower().strip()`, then drop one leading `"to "`. */
  function Normalize(w: string): (r: string)
    ensures |Strip(Lower(w))| - 3 <= |r| <= |Strip(Lower(w))|
  {
    DropTo(Strip(Lower(w)))
  }

  /** Normalising removes at most three characters besides the surrounding white space, and only from the front. */
  lemma NormalizeSuffix(w: string)
    ensures Normalize(w) == Strip(Lower(w))[|Strip(Lower(w))| - |Normalize(w)|..]
  {
    DropToSuffix(Strip(Lower(w)));
  }

  /** A lower-case, stripped word without a `"to "` prefix is left alone. */
  lemma NormalizeUnchanged(w: string)
    requires IsLower(w) && IsStripped(w) && !StartsWith(w, "to ")
    ensures Normalize(w) == w
  {
    LowerUnchanged(w);
    StripUnchanged(w);
  }

  lemma NormalizeStripped(w: string)
    requires IsLower(w) && IsStripped(w)
    ensures Normalize(w) == DropTo(w)
  {
    LowerUnchanged(w);
    StripUnchanged(w);
  }

  /** `Normalize` applied `n` times. */
  function Repeat(w: string, n: nat): string
    decreases n
  {
    if n == 0 then w else Repeat(Normalize(w), n - 1)
  }

  // ---------------------------------------------------------------------------
  // The pairs of one line, in the order the loops visit them
  // ---------------------------------------------------------------------------

  /**
   * The innermost loop: `left_word` is normalised again on every pass, so the
   * left word of the pairing with the j-th right synonym is normalised j + 1 times.
   */
  function SynonymPairs(left: string, rights: seq<string>): seq<Pair>
    decreases |rights|
  {
    if rights == [] then []
    else
      var l := Normalize(left);
      [(l, Normalize(rights[0]))] + SynonymPairs(l, rights[1..])
  }

  function GroupPairs(lefts: seq<string>, rights: seq<string>): seq<Pair>
  {
    if lefts == [] then [] else SynonymPairs(lefts[0], rights) + GroupPairs(lefts[1..], rights)
  }

  /** Group i of the left half is paired only with group i of the right half. */
  function GroupsPairs(leftGroups: seq<string>, rightGroups: seq<string>): seq<Pair>
    requires |leftGroups| == |rightGroups|
  {
    if leftGroups == [] then []
    else
      GroupPairs(Split(Clean(leftGroups[0]), ";"), Split(Clean(rightGroups[0]), ";"))
      + GroupsPairs(leftGroups[1..], rightGroups[1..])
  }

  datatype DingError =
    | NotTwoHalves(line: string)       // `assert len(parts) == 2, line`
    | GroupCountMismatch(line: string) // `assert len(left_words) == len(right_words), line`

  /** A comment or blank line, once stripped. */
  predicate Skipped(s: string)
  {
    StartsWith(s, "#") || s == ""
  }

  /** The pairs one line yields, or the assertion it fails. */
  function LinePairs(raw: string): Result<seq<Pair>, DingError>
  {
    var line := Strip(raw);
    if Skipped(line) then Ok([])
    else
      var parts := Split(line, "::");
      if |parts| != 2 then Err(NotTwoHalves(line))
      else
        var leftGroups := Split(parts[0], "|");
        var rightGroups := Split(parts[1], "|");
        if |leftGroups| != |rightGroups| then Err(GroupCountMismatch(line))
        else Ok(GroupsPairs(leftGroups, rightGroups))
  }

  /** The pairs of a whole file, or the first failed assertion. */
  function FilePairs(lines: seq<string>): Result<seq<Pair>, DingError>
  {
    if lines == [] then Ok([])
    else
      match LinePairs(lines[0])
      case Err(e) => Err(e)
      case Ok(ps) =>
        match FilePairs(lines[1..])
        case Err(e) => Err(e)
        case Ok(qs) => Ok(ps + qs)
  }

  /** Adding the pairs of a successful parse; a failure stays a failure. */
  function Ingest(lex: Lexicon, parsed: Result<seq<Pair>, DingError>, invert: bool): Result<Lexicon, DingError>
  {
    match parsed
    case Err(e) => Err(e)
    case Ok(ps) => Ok(AddPairs(lex, ps, invert))
  }

  // ---------------------------------------------------------------------------
  // Which pairs these are
  // ---------------------------------------------------------------------------

  /** The j-th pairing of a left synonym uses the left word normalised j + 1 times. */
  lemma {:induction false} SynonymPairsAt(left: string, rights: seq<string>)
    ensures |SynonymPairs(left, rights)| == |rights|
    ensures forall j {:trigger SynonymPairs(left, rights)[j]} :: 0 <= j < |rights| ==>
      SynonymPairs(left, rights)[j] == (Repeat(left, j + 1), Normalize(rights[j]))
    decreases |rights|
  {
    if rights != [] {
      var l := Normalize(left);
      SynonymPairsAt(l, rights[1..]);
      forall j | 1 <= j < |rights| ensures SynonymPairs(left, rights)[j] == (Repeat(left, j + 1), Normalize(rights[j])) {
        assert SynonymPairs(left, rights)[j] == SynonymPairs(l, rights[1..])[j - 1];
        assert rights[1..][j - 1] == rights[j];
      }
    }
  }

  /** A word normalised twice can lose two `"to "` prefixes: `"to to go"` pairs first as `"to go"`, then as `"go"`. */
  lemma NormalizeTwoRights(left: string, r1: string, r2: string)
    ensures SynonymPairs(left, [r1, r2]) == [(Normalize(left), Normalize(r1)), (Normalize(Normalize(left)), Normalize(r2))]
  {
    var l := Normalize(left);
    assert [r1, r2][1..] == [r2];
    assert SynonymPairs(l, [r2]) == [(Normalize(l), Normalize(r2))] + SynonymPairs(Normalize(l), []);
  }

  lemma NormalizeToToGo()
    ensures Normalize("to to go") == "to go" && Normalize("to go") == "go"
  {
    NormalizeStripped("to to go");
    NormalizeStripped("to go");
  }

  lemma NormalizeGehenLaufen()
    ensures Normalize("gehen") == "gehen" && Normalize("laufen") == "laufen"
  {
    NormalizeUnchanged("gehen");
    NormalizeUnchanged("laufen");
  }

  lemma RepeatedNormalization()
    ensures SynonymPairs("to to go", ["gehen", "laufen"]) == [("to go", "gehen"), ("go", "laufen")]
  {
    NormalizeTwoRights("to to go", "gehen", "laufen");
    NormalizeToToGo();
    NormalizeGehenLaufen();
  }

  /** The pairs of one left synonym are its pairings with each right synonym. */
  lemma SynonymPairsMembers(left: string, rights: seq<string>, p: Pair)
    ensures p in SynonymPairs(left, rights) <==>
      exists b :: 0 <= b < |rights| && p == (Repeat(left, b + 1), Normalize(rights[b]))
  {
    SynonymPairsAt(left, rights);
    var ps := SynonymPairs(left, rights);
    if p in ps {
      var b :| 0 <= b < |ps| && ps[b] == p;
      assert p == (Repeat(left, b + 1), Normalize(rights[b]));
    }
    if exists b :: 0 <= b < |rights| && p == (Repeat(left, b + 1), Normalize(rights[b])) {
      var b :| 0 <= b < |rights| && p == (Repeat(left, b + 1), Normalize(rights[b]));
      assert ps[b] == p;
    }
  }

  /** Within a group, every left synonym is paired with every right synonym, and with nothing else. */
  lemma {:induction false} GroupPairsMembers(lefts: seq<string>, rights: seq<string>, p: Pair)
    ensures p in GroupPairs(lefts, rights) <==>
      exists a, b :: 0 <= a < |lefts| && 0 <= b < |rights| && p == (Repeat(lefts[a], b + 1), Normalize(rights[b]))
  {
    if lefts != [] {
      var rest := lefts[1..];
      assert GroupPairs(lefts, rights) == SynonymPairs(lefts[0], rights) + GroupPairs(rest, rights);
      GroupPairsMembers(rest, rights, p);
      SynonymPairsMembers(lefts[0], rights, p);
      if p in GroupPairs(rest, rights) {
        var a, b :| 0 <= a < |rest| && 0 <= b < |rights| && p == (Repeat(rest[a], b + 1), Normalize(rights[b]));
        assert lefts[a + 1] == rest[a];
      }
      if exists a, b :: 0 <= a < |lefts| && 0 <= b < |rights| && p == (Repeat(lefts[a], b + 1), Normalize(rights[b])) {
        var a, b :| 0 <= a < |lefts| && 0 <= b < |rights| && p == (Repeat(lefts[a], b + 1), Normalize(rights[b]));
        if a > 0 {
          assert rest[a - 1] == lefts[a];
        }
      }
    }
  }

  /** Pairs are formed only within one group index, never across groups. */
  lemma {:induction false} GroupsPairsMembers(leftGroups: seq<string>, rightGroups: seq<string>, p: Pair)
    requires |leftGroups| == |rightGroups|
    ensures p in GroupsPairs(leftGroups, rightGroups) <==>
      exists i :: 0 <= i < |leftGroups| && p in GroupPairs(Split(Clean(leftGroups[i]), ";"), Split(Clean(rightGroups[i]), ";"))
  {
    if leftGroups != [] {
      GroupsPairsMembers(leftGroups[1..], rightGroups[1..], p);
      if p in GroupsPairs(leftGroups[1..], rightGroups[1..]) {
        var i :| 0 <= i < |leftGroups[1..]|
          && p in GroupPairs(Split(Clean(leftGroups[1..][i]), ";"), Split(Clean(rightGroups[1..][i]), ";"));
        assert leftGroups[i + 1] == leftGroups[1..][i] && rightGroups[i + 1] == rightGroups[1..][i];
      }
      if exists i :: 0 <= i < |leftGroups| && p in GroupPairs(Split(Clean(leftGroups[i]), ";"), Split(Clean(rightGroups[i]), ";")) {
        var i :| 0 <= i < |leftGroups| && p in GroupPairs(Split(Clean(leftGroups[i]), ";"), Split(Clean(rightGroups[i]), ";"));
        if i > 0 {
          assert leftGroups[1..][i - 1] == leftGroups[i] && rightGroups[1..][i - 1] == rightGroups[i];
        }
      }
    }
  }

  /**
   * A line that is neither blank nor a comment fails exactly when it does not
   * split into two `::` halves or its halves have different group counts.
   */
  lemma LineFailures(raw: string)
    ensures LinePairs(raw).Err? <==>
      && !Skipped(Strip(raw))
      && (|Split(Strip(raw), "::")| != 2
          || |Split(Split(Strip(raw), "::")[0], "|")| != |Split(Split(Strip(raw), "::")[1], "|")|)
  {
  }

  /**
   * An accepted line is consumed whole: it is exactly two halves around one
   * `::`, neither containing another `::`, and the halves are exactly their
   * groups joined by `|`, the same number on each side.
   */
  lemma AcceptedLineIsWhole(raw: string)
    requires LinePairs(raw).Ok? && !Skipped(Strip(raw))
    ensures exists left, right ::
      && Strip(raw) == left + "::" + right
      && !Occurs(left, "::") && !Occurs(right, "::")
      && Join(Split(left, "|"), "|") == left && Join(Split(right, "|"), "|") == right
      && |Split(left, "|")| == |Split(right, "|")|
  {
    var line := Strip(raw);
    var parts := Split(line, "::");
    SplitJoin(line, "::");
    SplitPartsFree(line, "::");
    assert parts[1..] == [parts[1]];
    assert Join(parts, "::") == parts[0] + "::" + parts[1];
    SplitJoin(parts[0], "|");
    SplitJoin(parts[1], "|");
    assert parts[0] in parts && parts[1] in parts;
  }

  /** A file fails exactly when one of its lines fails. */
  lemma {:induction false} FileFailures(lines: seq<string>)
    ensures FilePairs(lines).Err? <==> exists k :: 0 <= k < |lines| && LinePairs(lines[k]).Err?
  {
    if lines != [] {
      FileFailures(lines[1..]);
      if exists k :: 0 <= k < |lines[1..]| && LinePairs(lines[1..][k]).Err? {
        var k :| 0 <= k < |lines[1..]| && LinePairs(lines[1..][k]).Err?;
        assert lines[k + 1] == lines[1..][k];
      }
      if exists k :: 0 <= k < |lines| && LinePairs(lines[k]).Err? {
        var k :| 0 <= k < |lines| && LinePairs(lines[k]).Err?;
        if k > 0 {
          assert lines[1..][k - 1] == lines[k];
        }
      }
    }
  }

  /** After a line that parses, a file's error is the error of the remaining lines. */
  lemma FileErrorSkipsOk(lines: seq<string>)
    requires lines != [] && LinePairs(lines[0]).Ok? && FilePairs(lines).Err?
    ensures FilePairs(lines[1..]).Err? && FilePairs(lines).error == FilePairs(lines[1..]).error
  {
  }

  /** A first failing line of the remaining lines is a first failing line of the file. */
  lemma FirstFailureShift(lines: seq<string>, k: nat, e: DingError)
    requires lines != [] && LinePairs(lines[0]).Ok? && k < |lines| - 1
    requires LinePairs(lines[1..][k]) == Err(e) && forall j :: 0 <= j < k ==> LinePairs(lines[1..][j]).Ok?
    ensures LinePairs(lines[k + 1]) == Err(e) && forall j :: 0 <= j < k + 1 ==> LinePairs(lines[j]).Ok?
  {
    assert lines[k + 1] == lines[1..][k];
    forall j | 0 <= j < k + 1 ensures LinePairs(lines[j]).Ok? {
      if j > 0 {
        assert lines[j] == lines[1..][j - 1];
      }
    }
  }

  /** The error a file reports is that of its first failing line. */
  lemma {:induction false} FileErrorIsFirst(lines: seq<string>)
    requires FilePairs(lines).Err?
    ensures exists k :: 0 <= k < |lines| && LinePairs(lines[k]) == Err(FilePairs(lines).error)
                        && forall j :: 0 <= j < k ==> LinePairs(lines[j]).Ok?
  {
    var e := FilePairs(lines).error;
    if LinePairs(lines[0]).Ok? {
      var rest := lines[1..];
      FileErrorSkipsOk(lines);
      FileErrorIsFirst(rest);
      var k :| 0 <= k < |rest| && LinePairs(rest[k]) == Err(e) && forall j :: 0 <= j < k ==> LinePairs(rest[j]).Ok?;
      FirstFailureShift(lines, k, e);
    } else {
      assert LinePairs(lines[0]) == Err(e);
    }
  }

  /** The pairs of a file that parses are the pairs of its lines. */
  lemma {:induction false} FilePairsMembers(lines: seq<string>, p: Pair)
    requires FilePairs(lines).Ok?
    ensures p in FilePairs(lines).value <==>
      exists k :: 0 <= k < |lines| && LinePairs(lines[k]).Ok? && p in LinePairs(lines[k]).value
  {
    if lines != [] {
      FilePairsMembers(lines[1..], p);
      if exists k :: 0 <= k < |lines[1..]| && LinePairs(lines[1..][k]).Ok? && p in LinePairs(lines[1..][k]).value {
        var k :| 0 <= k < |lines[1..]| && LinePairs(lines[1..][k]).Ok? && p in LinePairs(lines[1..][k]).value;
        assert lines[k + 1] == lines[1..][k];
      }
      if exists k :: 0 <= k < |lines| && LinePairs(lines[k]).Ok? && p in LinePairs(lines[k]).value {
        var k :| 0 <= k < |lines| && LinePairs(lines[k]).Ok? && p in LinePairs(lines[k]).value;
        if k > 0 {
          assert lines[1..][k - 1] == lines[k];
        }
      }
    }
  }

  // ---------------------------------------------------------------------------
  // The reader
  // ---------------------------------------------------------------------------

  // The unfolding of each level at the position a loop has reached.

  lemma SynonymStep(left: string, rights: seq<string>, b: nat)
    requires b < |rights|
    ensures SynonymPairs(left, rights[b..]) ==
      [(Normalize(left), Normalize(rights[b]))] + SynonymPairs(Normalize(left), rights[b + 1..])
  {
    assert rights[b..][1..] == rights[b + 1..];
  }

  lemma GroupStep(lefts: seq<string>, rights: seq<string>, a: nat)
    requires a < |lefts|
    ensures GroupPairs(lefts[a..], rights) == SynonymPairs(lefts[a], rights) + GroupPairs(lefts[a + 1..], rights)
  {
    assert lefts[a..][1..] == lefts[a + 1..];
  }

  lemma GroupsStep(leftGroups: seq<string>, rightGroups: seq<string>, i: nat)
    requires |leftGroups| == |rightGroups| && i < |leftGroups|
    ensures GroupsPairs(leftGroups[i..], rightGroups[i..]) ==
      GroupPairs(Split(Clean(leftGroups[i]), ";"), Split(Clean(rightGroups[i]), ";"))
      + GroupsPairs(leftGroups[i + 1..], rightGroups[i + 1..])
  {
    assert leftGroups[i..][1..] == leftGroups[i + 1..];
    assert rightGroups[i..][1..] == rightGroups[i + 1..];
  }

  lemma FileStep(lex: Lexicon, lines: seq<string>, k: nat, invert: bool)
    requires k < |lines|
    ensures LinePairs(lines[k]).Err? ==> Ingest(lex, FilePairs(lines[k..]), invert) == Err(LinePairs(lines[k]).error)
    ensures LinePairs(lines[k]).Ok? ==>
      Ingest(lex, FilePairs(lines[k..]), invert)
      == Ingest(AddPairs(lex, LinePairs(lines[k]).value, invert), FilePairs(lines[k + 1..]), invert)
  {
    assert lines[k..][1..] == lines[k + 1..];
    match LinePairs(lines[k])
    case Err(e) =>
    case Ok(ps) =>
      match FilePairs(lines[k + 1..])
      case Err(e) =>
      case Ok(qs) => AddPairsAppend(lex, ps, qs, invert);
  }

  /**
   * The innermost loop: pair one left synonym with every right synonym,
   * normalising `left_word` again before each pairing.
   */
  method PairSynonyms(lex: Lexicon, left: string, rights: seq<string>, invert: bool) returns (out: Lexicon)
    ensures out == AddPairs(lex, SynonymPairs(left, rights), invert)
  {
    var dictionary, leftWords, rightWords := lex.dictionary, lex.leftWords, lex.rightWords;
    var leftWord := left;
    for b := 0 to |rights|
      invariant AddPairs(Lexicon(dictionary, leftWords, rightWords), SynonymPairs(leftWord, rights[b..]), invert)
                == AddPairs(lex, SynonymPairs(left, rights), invert)
    {
      SynonymStep(leftWord, rights, b);
      ghost var before := Lexicon(dictionary, leftWords, rightWords);
      ghost var todo := SynonymPairs(Normalize(leftWord), rights[b + 1..]);
      leftWord := Strip(Lower(leftWord));
      if StartsWith(leftWord, "to ") {
        leftWord := leftWord[3..];
      }
      var rightWord := Strip(Lower(rights[b]));
      if StartsWith(rightWord, "to ") {
        rightWord := rightWord[3..];
      }
      AddPairsCons(before, (leftWord, rightWord), todo, invert);
      if invert {
        leftWords := leftWords + {rightWord};
        rightWords := rightWords + {leftWord};
        dictionary := dictionary + {Key(rightWord, leftWord)};
      } else {
        leftWords := leftWords + {leftWord};
        rightWords := rightWords + {rightWord};
        dictionary := dictionary + {Key(leftWord, rightWord)};
      }
      assert Lexicon(dictionary, leftWords, rightWords) == Insert(before, (leftWord, rightWord), invert);
    }
    assert rights[|rights|..] == [];
    out := Lexicon(dictionary, leftWords, rightWords);
  }

  /** The loop over the left synonyms of one cleaned group; the right group is split anew for each. */
  method PairGroup(lex: Lexicon, leftGroup: string, rightGroup: string, invert: bool) returns (out: Lexicon)
    ensures out == AddPairs(lex, GroupPairs(Split(leftGroup, ";"), Split(rightGroup, ";")), invert)
  {
    var lefts := Split(leftGroup, ";");
    ghost var synonyms := Split(rightGroup, ";");
    out := lex;
    for a := 0 to |lefts|
      invariant AddPairs(out, GroupPairs(lefts[a..], synonyms), invert) == AddPairs(lex, GroupPairs(lefts, synonyms), invert)
    {
      GroupStep(lefts, synonyms, a);
      AddPairsAppend(out, SynonymPairs(lefts[a], synonyms), GroupPairs(lefts[a + 1..], synonyms), invert);
      var rights := Split(rightGroup, ";");
      out := PairSynonyms(out, lefts[a], rights, invert);
    }
    assert lefts[|lefts|..] == [];
  }

  /**
   * One line of the file: strip it, skip it if blank or a comment, check the
   * two assertions, then clean each group in place and pair its synonyms.
   */
  method ReadLine(lex: Lexicon, raw: string, invert: bool) returns (r: Result<Lexicon, DingError>)
    ensures r == Ingest(lex, LinePairs(raw), invert)
  {
    var line := Strip(raw);
    if StartsWith(line, "#") || line == "" {
      return Ok(lex);
    }
    var parts := Split(line, "::");
    if |parts| != 2 {
      return Err(NotTwoHalves(line));
    }
    var leftGroups := Split(parts[0], "|");
    var rightGroups := Split(parts[1], "|");
    if |leftGroups| != |rightGroups| {
      return Err(GroupCountMismatch(line));
    }
    ghost var lg, rg := leftGroups, rightGroups;
    ghost var target := AddPairs(lex, GroupsPairs(lg, rg), invert);
    var out := lex;
    for i := 0 to |leftGroups|
      invariant |leftGroups| == |rightGroups| == |lg| == |rg|
      invariant leftGroups[i..] == lg[i..] && rightGroups[i..] == rg[i..]
      invariant AddPairs(out, GroupsPairs(lg[i..], rg[i..]), invert) == target
    {
      GroupsStep(lg, rg, i);
      assert leftGroups[i] == lg[i] && rightGroups[i] == rg[i] by {
        assert leftGroups[i..][0] == lg[i..][0] && rightGroups[i..][0] == rg[i..][0];
      }
      leftGroups := leftGroups[i := Clean(leftGroups[i])];
      rightGroups := rightGroups[i := Clean(rightGroups[i])];
      AddPairsAppend(out, GroupPairs(Split(leftGroups[i], ";"), Split(rightGroups[i], ";")),
                     GroupsPairs(lg[i + 1..], rg[i + 1..]), invert);
      out := PairGroup(out, leftGroups[i], rightGroups[i], invert);
      assert leftGroups[i + 1..] == lg[i + 1..] && rightGroups[i + 1..] == rg[i + 1..] by {
        assert leftGroups[i + 1..] == leftGroups[i..][1..];
        assert rightGroups[i + 1..] == rightGroups[i..][1..];
      }
    }
    assert lg[|lg|..] == [] && rg[|rg|..] == [];
    return Ok(out);
  }

  /**
   * The whole file: every line is read in turn; the first failed assertion
   * aborts the reader, so no partial dictionary is returned.
   */
  method ReadDing(lines: seq<string>, invert: bool) returns (r: Result<Lexicon, DingError>)
    ensures r == Ingest(Empty, FilePairs(lines), invert)
    ensures r.Err? <==> exists k :: 0 <= k < |lines| && LinePairs(lines[k]).Err?
  {
    FileFailures(lines);
    var lex := Empty;
    for k := 0 to |lines|
      invariant Ingest(lex, FilePairs(lines[k..]), invert) == Ingest(Empty, FilePairs(lines), invert)
    {
      FileStep(lex, lines, k, invert);
      var res := ReadLine(lex, lines[k], invert);
      if res.Err? {
        return Err(res.error);
      }
      lex := res.value;
    }
    assert lines[|lines|..] == [];
    return Ok(lex);
  }

  // ---------------------------------------------------------------------------
  // Properties of the reader's result
  // ---------------------------------------------------------------------------

  /**
   * Reading inverted fails exactly when reading plain fails, with the same
   * error; otherwise it gives the plain result with the two vocabularies
   * exchanged and the two sides of every key swapped.
   */
  lemma InvertSwapsSides(lines: seq<string>)
    ensures Ingest(Empty, FilePairs(lines), true).Err? <==> Ingest(Empty, FilePairs(lines), false).Err?
    ensures FilePairs(lines).Err? ==>
      Ingest(Empty, FilePairs(lines), true) == Ingest(Empty, FilePairs(lines), false) == Err(FilePairs(lines).error)
    ensures FilePairs(lines).Ok? ==>
      var inverted, plain := Ingest(Empty, FilePairs(lines), true).value, Ingest(Empty, FilePairs(lines), false).value;
      && inverted.leftWords == plain.rightWords
      && inverted.rightWords == plain.leftWords
      && (forall k :: k in inverted.dictionary <==> exists p :: p in FilePairs(lines).value && k == Key(p.1, p.0))
      && (forall k :: k in plain.dictionary <==> exists p :: p in FilePairs(lines).value && k == Key(p.0, p.1))
  {
    if FilePairs(lines).Ok? {
      var ps := FilePairs(lines).value;
      AddPairsClosed(Empty, ps, true);
      AddPairsClosed(Empty, ps, false);
      UnionEmpty(FromPairs(Swapped(ps)));
      UnionEmpty(FromPairs(ps));
      SwappedExchangesSides(ps);
    }
  }

  /** Every key the reader adds has its left word in the left vocabulary and its right word in the right one. */
  lemma ReadConsistent(lines: seq<string>, invert: bool)
    requires FilePairs(lines).Ok?
    ensures Consistent(Ingest(Empty, FilePairs(lines), invert).value)
  {
    var ps := OrientedAll(FilePairs(lines).value, invert);
    AddPairsClosed(Empty, FilePairs(lines).value, invert);
    FromPairsConsistent(ps);
    UnionEmpty(FromPairs(ps));
  }

  /** `p` pairs the left synonym `a` with the right synonym `b`, the left word normalised `b + 1` times. */
  ghost predicate InGroup(lefts: seq<string>, rights: seq<string>, p: Pair)
  {
    exists a, b :: 0 <= a < |lefts| && 0 <= b < |rights| && p == (Repeat(lefts[a], b + 1), Normalize(rights[b]))
  }

  /** `p` pairs synonyms of the same group `i` of the two halves. */
  ghost predicate FromSameGroup(leftGroups: seq<string>, rightGroups: seq<string>, p: Pair)
    requires |leftGroups| == |rightGroups|
  {
    exists i :: 0 <= i < |leftGroups| && InGroup(Split(Clean(leftGroups[i]), ";"), Split(Clean(rightGroups[i]), ";"), p)
  }

  /** Every synonym combination within a group is added, and no pair is formed across groups. */
  lemma GroupsPairsSynonyms(leftGroups: seq<string>, rightGroups: seq<string>, p: Pair)
    requires |leftGroups| == |rightGroups|
    ensures p in GroupsPairs(leftGroups, rightGroups) <==> FromSameGroup(leftGroups, rightGroups, p)
  {
    GroupsPairsMembers(leftGroups, rightGroups, p);
    forall i | 0 <= i < |leftGroups|
      ensures p in GroupPairs(Split(Clean(leftGroups[i]), ";"), Split(Clean(rightGroups[i]), ";"))
          <==> InGroup(Split(Clean(leftGroups[i]), ";"), Split(Clean(rightGroups[i]), ";"), p)
    {
      GroupPairsMembers(Split(Clean(leftGroups[i]), ";"), Split(Clean(rightGroups[i]), ";"), p);
    }
  }

  /** The same for a whole accepted line, with its two halves split into groups. */
  lemma LinePairsMembers(raw: string, p: Pair)
    requires LinePairs(raw).Ok? && !Skipped(Strip(raw))
    ensures
      var parts := Split(Strip(raw), "::");
      && |parts| == 2
      && |Split(parts[0], "|")| == |Split(parts[1], "|")|
      && (p in LinePairs(raw).value <==> FromSameGroup(Split(parts[0], "|"), Split(parts[1], "|"), p))
  {
    var parts := Split(Strip(raw), "::");
    GroupsPairsSynonyms(Split(parts[0], "|"), Split(parts[1], "|"), p);
  }
}
