/**
 * The classification and scoring loop: each input line `english \t german
 * [\t gold]` is looked up in the aggregated dictionary, predicted cognate (1)
 * or false friend (0), written out with its original fields, and scored
 * against the gold label when there is one.
 */
module Classifier {
  import opened Wrappers
  import opened Text
  import opened Lexicons

  const Cognate: int := 1
  const FalseFriend: int := 0

  // ---------------------------------------------------------------------------
  // Decimal integers: Python 2's `int(text)` and `unicode(n)`
  // ---------------------------------------------------------------------------

  predicate IsDigit(c: char)
  {
    '0' <= c <= '9'
  }

  predicate AllDigits(s: string)
  {
    |s| > 0 && forall i :: 0 <= i < |s| ==> IsDigit(s[i])
  }

  function DigitValue(c: char): nat
    requires IsDigit(c)
  {
    c as int - '0' as int
  }

  function DigitsValue(s: string): nat
    requires forall i :: 0 <= i < |s| ==> IsDigit(s[i])
  {
    if s == [] then 0 else DigitsValue(s[..|s| - 1]) * 10 + DigitValue(s[|s| - 1])
  }

  /**
   * `int(text)`: surrounding white space, an optional sign, white space again
   * after the sign, and decimal digits; anything else is a `ValueError`.
   */
  function ParseInt(text: string): Option<int>
  {
    var t := Strip(text);
    if |t| > 0 && (t[0] == '-' || t[0] == '+') then
      var digits := StripLeft(t[1..]);
      if AllDigits(digits) then
        var magnitude: int := DigitsValue(digits);
        Some(if t[0] == '-' then -magnitude else magnitude)
      else None
    else if AllDigits(t) then Some(DigitsValue(t) as int)
    else None
  }

  function NatText(n: nat): (s: string)
    ensures AllDigits(s)
  {
    if n < 10 then [('0' as int + n) as char] else NatText(n / 10) + [('0' as int + n % 10) as char]
  }

  /** `unicode(n)` for an integer. */
  function IntText(n: int): string
  {
    if n < 0 then "-" + NatText(-n) else NatText(n)
  }

  lemma {:induction false} NatTextValue(n: nat)
    ensures DigitsValue(NatText(n)) == n
  {
    if n >= 10 {
      NatTextValue(n / 10);
      var s := NatText(n);
      assert s[..|s| - 1] == NatText(n / 10);
    }
  }

  /** The label written to the output parses back to the prediction. */
  lemma ParseIntText(n: int)
    ensures ParseInt(IntText(n)) == Some(n)
  {
    var s := IntText(n);
    assert IsStripped(s);
    StripUnchanged(s);
    if n < 0 {
      NatTextValue(-n);
      assert s[1..] == NatText(-n);
      assert StripLeft(s[1..]) == s[1..];
    } else {
      NatTextValue(n);
    }
  }

  // ---------------------------------------------------------------------------
  // One input line
  // ---------------------------------------------------------------------------

  /** The fields of an input line as written; `gold` is present when the line has a third field. */
  datatype InputPair = InputPair(english: string, german: string, gold: Option<int>)

  datatype InputError =
    | BadFieldCount(line: string)  // `assert len(parts) <= 3 and len(parts) >= 2`
    | BadGold(field: string)       // `int(parts[2])` raises

  /** A blank line is skipped (`None`); otherwise the line must have two or three tab-separated fields. */
  function ParseLine(raw: string): Result<Option<InputPair>, InputError>
  {
    var line := Strip(raw);
    if line == "" then Ok(None)
    else
      var parts := Split(line, "\t");
      if !(|parts| <= 3 && |parts| >= 2) then Err(BadFieldCount(line))
      else if |parts| == 2 then Ok(Some(InputPair(parts[0], parts[1], None)))
      else
        match ParseInt(parts[2])
        case None => Err(BadGold(parts[2]))
        case Some(g) => Ok(Some(InputPair(parts[0], parts[1], Some(g))))
  }

  /** The fields of a parsed line are those of the stripped line, which they rejoin. */
  lemma ParseLineFields(raw: string)
    requires ParseLine(raw).Ok? && ParseLine(raw).value.Some?
    ensures
      var p, parts := ParseLine(raw).value.value, Split(Strip(raw), "\t");
      && 2 <= |parts| <= 3
      && p.english == parts[0] && p.german == parts[1]
      && (p.gold.Some? <==> |parts| == 3)
      && Join(parts, "\t") == Strip(raw)
  {
    SplitJoin(Strip(raw), "\t");
  }

  /** A line is skipped exactly when it is blank once stripped. */
  lemma ParseLineBlank(raw: string)
    ensures ParseLine(raw) == Ok(None) <==> Strip(raw) == ""
  {
  }

  /**
   * The decision for one pair, given the English word with its `"to "`
   * already dropped: a key in the dictionary is a cognate; otherwise the
   * fallback, when enabled, calls it a cognate if neither word is known.
   */
  function Predict(lex: Lexicon, fallback: bool, english: string, german: string): (prediction: int)
    ensures prediction == Cognate || prediction == FalseFriend
  {
    if Key(english, german) in lex.dictionary then Cognate
    else if fallback && english !in lex.leftWords && german !in lex.rightWords then Cognate
    else FalseFriend
  }

  /** The line written for a pair: its original two fields and the label. */
  function OutputLine(english: string, german: string, prediction: int): string
  {
    english + "\t" + german + "\t" + IntText(prediction) + "\n"
  }

  // ---------------------------------------------------------------------------
  // What the loop computes
  // ---------------------------------------------------------------------------

  datatype Classified = Classified(pair: InputPair, prediction: int)

  /**
   * The pair of a parsed line with its prediction. The English field is looked up without its `"to "`; the fields themselves
   * are kept for the output.
   */
  function ClassifyPair(lex: Lexicon, fallback: bool, p: InputPair): (c: Classified)
    ensures c.pair == p
    ensures c.prediction == Cognate || c.prediction == FalseFriend
    ensures c.prediction == Cognate <==>
      Key(DropTo(p.english), p.german) in lex.dictionary
      || (fallback && DropTo(p.english) !in lex.leftWords && p.german !in lex.rightWords)
  {
    Classified(p, Predict(lex, fallback, DropTo(p.english), p.german))
  }

  /** The pairs classified before the first bad line, and that line's error if there is one. */
  function ClassifyLines(lex: Lexicon, fallback: bool, lines: seq<string>): (seq<Classified>, Option<InputError>)
  {
    if lines == [] then ([], None)
    else
      var (done, failure) := ClassifyLines(lex, fallback, lines[..|lines| - 1]);
      if failure.Some? then (done, failure)
      else
        match ParseLine(lines[|lines| - 1])
        case Err(e) => (done, Some(e))
        case Ok(None) => (done, None)
        case Ok(Some(p)) => (done + [ClassifyPair(lex, fallback, p)], None)
  }

  predicate HasGold(c: Classified) { c.pair.gold.Some? }
  predicate IsCorrect(c: Classified) { c.pair.gold == Some(c.prediction) }
  /** `classified_c_as_ff`: a wrong prediction of false friend. */
  predicate IsCognateAsFalseFriend(c: Classified) { HasGold(c) && !IsCorrect(c) && c.prediction == FalseFriend }
  /** `classified_ff_as_c`: any other wrong prediction. */
  predicate IsFalseFriendAsCognate(c: Classified) { HasGold(c) && !IsCorrect(c) && c.prediction != FalseFriend }

  function CountGold(cs: seq<Classified>): nat
  {
    if cs == [] then 0 else CountGold(cs[..|cs| - 1]) + (if HasGold(cs[|cs| - 1]) then 1 else 0)
  }

  function CountCorrect(cs: seq<Classified>): nat
  {
    if cs == [] then 0 else CountCorrect(cs[..|cs| - 1]) + (if IsCorrect(cs[|cs| - 1]) then 1 else 0)
  }

  function CountCognateAsFalseFriend(cs: seq<Classified>): nat
  {
    if cs == [] then 0 else CountCognateAsFalseFriend(cs[..|cs| - 1]) + (if IsCognateAsFalseFriend(cs[|cs| - 1]) then 1 else 0)
  }

  function CountFalseFriendAsCognate(cs: seq<Classified>): nat
  {
    if cs == [] then 0 else CountFalseFriendAsCognate(cs[..|cs| - 1]) + (if IsFalseFriendAsCognate(cs[|cs| - 1]) then 1 else 0)
  }

  function Outputs(cs: seq<Classified>): seq<string>
  {
    if cs == [] then [] else Outputs(cs[..|cs| - 1]) + [OutputLine(cs[|cs| - 1].pair.english, cs[|cs| - 1].pair.german, cs[|cs| - 1].prediction)]
  }

  /** The counters the program prints and the lines it writes. */
  datatype Report = Report(
    pairs: nat,
    goldPairs: nat,
    goldCorrect: nat,
    cognateAsFalseFriend: nat,
    falseFriendAsCognate: nat,
    output: seq<string>)

  /** A completed run, or the error that aborted it with the lines written until then. */
  datatype Outcome = Completed(report: Report) | Aborted(error: InputError, written: seq<string>)

  function Expected(lex: Lexicon, fallback: bool, lines: seq<string>): Outcome
  {
    var (done, failure) := ClassifyLines(lex, fallback, lines);
    if failure.Some? then Aborted(failure.value, Outputs(done))
    else Completed(Report(|done|, CountGold(done), CountCorrect(done),
                          CountCognateAsFalseFriend(done), CountFalseFriendAsCognate(done), Outputs(done)))
  }

  // ---------------------------------------------------------------------------
  // Properties
  // ---------------------------------------------------------------------------

  /** A pair found in the dictionary is a cognate whatever the fallback flag says. */
  lemma FoundIsCognate(lex: Lexicon, fallback: bool, english: string, german: string)
    requires Key(english, german) in lex.dictionary
    ensures Predict(lex, fallback, english, german) == Cognate
  {
  }

  /** A pair not found is a cognate exactly when the fallback is on and neither word is in its vocabulary. */
  lemma NotFoundRule(lex: Lexicon, fallback: bool, english: string, german: string)
    requires Key(english, german) !in lex.dictionary
    ensures Predict(lex, fallback, english, german) == Cognate <==>
      fallback && english !in lex.leftWords && german !in lex.rightWords
  {
  }

  /** Turning the fallback on only ever turns false friends into cognates. */
  lemma FallbackOnlyAddsCognates(lex: Lexicon, english: string, german: string)
    ensures Predict(lex, false, english, german) == Cognate ==> Predict(lex, true, english, german) == Cognate
  {
  }

  /** Every scored pair is counted exactly once: as correct or as one of the two kinds of error. */
  lemma {:induction false} ScoreBalance(cs: seq<Classified>)
    ensures CountCorrect(cs) + CountCognateAsFalseFriend(cs) + CountFalseFriendAsCognate(cs) == CountGold(cs)
    ensures CountGold(cs) <= |cs|
  {
    if cs != [] {
      ScoreBalance(cs[..|cs| - 1]);
    }
  }

  /** The k-th output line carries the original, unstripped fields of the k-th pair. */
  lemma {:induction false} OutputsAt(cs: seq<Classified>)
    ensures |Outputs(cs)| == |cs|
    ensures forall k :: 0 <= k < |cs| ==>
      Outputs(cs)[k] == cs[k].pair.english + "\t" + cs[k].pair.german + "\t" + IntText(cs[k].prediction) + "\n"
  {
    if cs != [] {
      OutputsAt(cs[..|cs| - 1]);
    }
  }

  /** A blank line changes neither the counters nor the output. */
  lemma BlankLineIgnored(lex: Lexicon, fallback: bool, lines: seq<string>, blank: string)
    requires Strip(blank) == ""
    ensures ClassifyLines(lex, fallback, lines + [blank]) == ClassifyLines(lex, fallback, lines)
  {
    assert (lines + [blank])[..|lines|] == lines;
  }

  /** A non-blank line with fewer than two or more than three fields aborts the run. */
  lemma BadLineIsFatal(lex: Lexicon, fallback: bool, lines: seq<string>, bad: string)
    requires Strip(bad) != "" && (|Split(Strip(bad), "\t")| < 2 || |Split(Strip(bad), "\t")| > 3)
    ensures ClassifyLines(lex, fallback, lines + [bad]).1.Some?
    ensures Expected(lex, fallback, lines + [bad]).Aborted?
  {
    assert (lines + [bad])[..|lines|] == lines;
  }

  /** Lines after the one that aborted the run are never read. */
  lemma {:induction false} AbortIsFinal(lex: Lexicon, fallback: bool, lines: seq<string>, more: seq<string>)
    requires ClassifyLines(lex, fallback, lines).1.Some?
    ensures ClassifyLines(lex, fallback, lines + more) == ClassifyLines(lex, fallback, lines)
    decreases |more|
  {
    if more != [] {
      var init := more[..|more| - 1];
      AbortIsFinal(lex, fallback, lines, init);
      assert (lines + more)[..|lines + more| - 1] == lines + init;
    } else {
      assert lines + more == lines;
    }
  }

  /** How the line at `k` extends the classification of the lines before it. */
  lemma ClassifyStep(lex: Lexicon, fallback: bool, lines: seq<string>, k: nat)
    requires k < |lines| && ClassifyLines(lex, fallback, lines[..k]).1.None?
    ensures ParseLine(lines[k]).Err? ==>
      ClassifyLines(lex, fallback, lines[..k + 1]) == (ClassifyLines(lex, fallback, lines[..k]).0, Some(ParseLine(lines[k]).error))
    ensures ParseLine(lines[k]) == Ok(None) ==>
      ClassifyLines(lex, fallback, lines[..k + 1]) == ClassifyLines(lex, fallback, lines[..k])
    ensures ParseLine(lines[k]).Ok? && ParseLine(lines[k]).value.Some? ==>
      ClassifyLines(lex, fallback, lines[..k + 1])
      == (ClassifyLines(lex, fallback, lines[..k]).0 + [ClassifyPair(lex, fallback, ParseLine(lines[k]).value.value)], None)
  {
    assert lines[..k + 1][..k] == lines[..k];
  }

  /** Appending a classified pair adds its own contribution to each counter and one output line. */
  lemma CountsStep(cs: seq<Classified>, c: Classified)
    ensures CountGold(cs + [c]) == CountGold(cs) + (if HasGold(c) then 1 else 0)
    ensures CountCorrect(cs + [c]) == CountCorrect(cs) + (if IsCorrect(c) then 1 else 0)
    ensures CountCognateAsFalseFriend(cs + [c]) == CountCognateAsFalseFriend(cs) + (if IsCognateAsFalseFriend(c) then 1 else 0)
    ensures CountFalseFriendAsCognate(cs + [c]) == CountFalseFriendAsCognate(cs) + (if IsFalseFriendAsCognate(c) then 1 else 0)
    ensures Outputs(cs + [c]) == Outputs(cs) + [OutputLine(c.pair.english, c.pair.german, c.prediction)]
  {
    assert (cs + [c])[..|cs|] == cs;
  }

  /** When the line at `k` aborts the run, the whole input ends as the prefix through `k` does. */
  lemma AbortEnds(lex: Lexicon, fallback: bool, lines: seq<string>, k: nat)
    requires k < |lines| && ClassifyLines(lex, fallback, lines[..k + 1]).1.Some?
    ensures ClassifyLines(lex, fallback, lines) == ClassifyLines(lex, fallback, lines[..k + 1])
  {
    AbortIsFinal(lex, fallback, lines[..k + 1], lines[k + 1..]);
    assert lines[..k + 1] + lines[k + 1..] == lines;
  }

  // ---------------------------------------------------------------------------
  // Worked examples
  // ---------------------------------------------------------------------------

  const HandLexicon: Lexicon := Lexicon({"hand\thand"}, {"hand"}, {"hand"})

  /** With the fallback on, a pair of two unknown words is a cognate; a known German word makes it a false friend. */
  lemma FallbackExamples()
    ensures Predict(HandLexicon, true, "arm", "arm") == Cognate
    ensures Predict(HandLexicon, true, "arm", "hand") == FalseFriend
    ensures Predict(HandLexicon, false, "arm", "arm") == FalseFriend
  {
    assert Key("arm", "arm") != "hand\thand";
    assert Key("arm", "hand") != "hand\thand";
  }

  /** Three tab-free fields joined by tabs split back into those fields. */
  lemma {:induction false} SplitThreeFields(english: string, german: string, gold: string)
    requires '\t' !in english && '\t' !in german && '\t' !in gold
    ensures Split(english + "\t" + german + "\t" + gold, "\t") == [english, german, gold]
  {
    assert "\t" == ['\t'];
    assert english + "\t" + german + "\t" + gold == english + ['\t'] + (german + ['\t'] + gold);
    SplitAtChar(english, '\t', german + ['\t'] + gold);
    SplitAtChar(german, '\t', gold);
    SplitNoChar(gold, '\t');
  }

  /** Two tab-free fields joined by a tab split back into those fields. */
  lemma {:induction false} SplitTwoFields(english: string, german: string)
    requires '\t' !in english && '\t' !in german
    ensures Split(english + "\t" + german, "\t") == [english, german]
  {
    assert "\t" == ['\t'];
    SplitAtChar(english, '\t', german);
    SplitNoChar(german, '\t');
  }

  /** A line of tab-free fields that starts and ends with a non-space parses to those fields. */
  lemma ParseGoldLine(english: string, german: string, gold: string, g: int)
    requires |english| > 0 && !IsSpace(english[0])
    requires |gold| > 0 && !IsSpace(gold[|gold| - 1])
    requires '\t' !in english && '\t' !in german && '\t' !in gold
    requires ParseInt(gold) == Some(g)
    ensures ParseLine(english + "\t" + german + "\t" + gold) == Ok(Some(InputPair(english, german, Some(g))))
  {
    var line := english + "\t" + german + "\t" + gold;
    assert line[0] == english[0] && line[|line| - 1] == gold[|gold| - 1];
    assert IsStripped(line);
    StripUnchanged(line);
    SplitThreeFields(english, german, gold);
  }

  lemma ParseIntDigit(d: char)
    requires IsDigit(d)
    ensures ParseInt([d]) == Some(d as int - '0' as int)
  {
    var t := [d];
    assert IsStripped(t);
    StripUnchanged(t);
    assert AllDigits(t);
    assert t[..|t| - 1] == [];
    assert DigitsValue(t) == DigitValue(d);
  }

  /** A sign may be followed by white space: `int(u"- 7") == -7`. */
  lemma ParseIntSpacedSign(d: char)
    requires IsDigit(d)
    ensures ParseInt(['-', ' ', d]) == Some(-(DigitValue(d) as int))
  {
    var t := ['-', ' ', d];
    assert IsStripped(t);
    StripUnchanged(t);
    assert t[1..] == [' ', d] && [' ', d][1..] == [d];
    assert StripLeft(t[1..]) == [d];
    assert [d][..0] == [];
    assert DigitsValue([d]) == DigitValue(d);
  }

  /** A line of two tab-free fields that starts and ends with a non-space parses to those fields. */
  lemma ParsePairLine(english: string, german: string)
    requires |english| > 0 && !IsSpace(english[0])
    requires |german| > 0 && !IsSpace(german[|german| - 1])
    requires '\t' !in english && '\t' !in german
    ensures ParseLine(english + "\t" + german) == Ok(Some(InputPair(english, german, None)))
  {
    var line := english + "\t" + german;
    assert line[0] == english[0] && line[|line| - 1] == german[|german| - 1];
    assert IsStripped(line);
    StripUnchanged(line);
    SplitTwoFields(english, german);
  }

  /** The classification of a single line. */
  lemma ClassifyOne(lex: Lexicon, fallback: bool, line: string, p: InputPair)
    requires ParseLine(line) == Ok(Some(p))
    ensures ClassifyLines(lex, fallback, [line]) == ([ClassifyPair(lex, fallback, p)], None)
  {
    assert [line][..0] == [];
    assert ClassifyLines(lex, fallback, [line][..0]) == ([], None);
    ClassifyStep(lex, fallback, [line], 0);
    assert [line][0] == line;
    assert ParseLine([line][0]).value.value == p;
    assert ClassifyLines(lex, fallback, [line][..1]) == ([] + [ClassifyPair(lex, fallback, p)], None);
    assert [line][..1] == [line];
    var c := ClassifyPair(lex, fallback, p);
    assert [] + [c] == [c];
    assert ClassifyLines(lex, fallback, [line]) == ([] + [c], None);
  }

  const MilkLexicon: Lexicon := Lexicon({"milk\tmilch", "bread\tbrot"}, {"milk", "bread"}, {"milch", "brot"})

  /** The classification of a two-line input. */
  lemma ClassifyTwo(lex: Lexicon, fallback: bool, first: string, second: string, p: InputPair, q: InputPair)
    requires ParseLine(first) == Ok(Some(p)) && ParseLine(second) == Ok(Some(q))
    ensures ClassifyLines(lex, fallback, [first, second]) == ([ClassifyPair(lex, fallback, p), ClassifyPair(lex, fallback, q)], None)
  {
    var lines := [first, second];
    ClassifyOne(lex, fallback, first, p);
    assert lines[..1] == [first];
    ClassifyStep(lex, fallback, lines, 1);
    assert lines[..2] == lines;
    assert [ClassifyPair(lex, fallback, p)] + [ClassifyPair(lex, fallback, q)] == [ClassifyPair(lex, fallback, p), ClassifyPair(lex, fallback, q)];
  }

  lemma MilkGiftParses(milk: string, gift: string)
    requires milk == "milk\tmilch\t1" && gift == "gift\tgift\t0"
    ensures ParseLine(milk) == Ok(Some(InputPair("milk", "milch", Some(1))))
    ensures ParseLine(gift) == Ok(Some(InputPair("gift", "gift", Some(0))))
  {
    ParseIntDigit('1');
    ParseIntDigit('0');
    assert milk == "milk" + "\t" + "milch" + "\t" + "1";
    assert gift == "gift" + "\t" + "gift" + "\t" + "0";
    ParseGoldLine("milk", "milch", "1", 1);
    ParseGoldLine("gift", "gift", "0", 0);
  }

  lemma MilkGiftClassified(milk: string, gift: string)
    requires milk == "milk\tmilch\t1" && gift == "gift\tgift\t0"
    ensures ClassifyLines(MilkLexicon, false, [milk, gift])
      == ([Classified(InputPair("milk", "milch", Some(1)), Cognate), Classified(InputPair("gift", "gift", Some(0)), FalseFriend)], None)
  {
    var p := InputPair("milk", "milch", Some(1));
    var q := InputPair("gift", "gift", Some(0));
    MilkGiftParses(milk, gift);
    ClassifyTwo(MilkLexicon, false, milk, gift, p, q);
    MilkIsCognate(p);
    GiftIsFalseFriend(q);
  }

  lemma MilkIsCognate(p: InputPair)
    requires p == InputPair("milk", "milch", Some(1))
    ensures ClassifyPair(MilkLexicon, false, p) == Classified(p, Cognate)
  {
    assert "milk"[0] != "to "[0];
    DropToUnchanged("milk");
    assert Key("milk", "milch") == "milk\tmilch";
  }

  lemma GiftIsFalseFriend(q: InputPair)
    requires q == InputPair("gift", "gift", Some(0))
    ensures ClassifyPair(MilkLexicon, false, q) == Classified(q, FalseFriend)
  {
    assert "gift"[0] != "to "[0];
    DropToUnchanged("gift");
    assert |Key("gift", "gift")| == 9;
  }

  /** Two correctly predicted gold pairs. */
  lemma TwoCorrect(c: Classified, d: Classified)
    requires IsCorrect(c) && IsCorrect(d)
    ensures CountGold([c, d]) == 2 && CountCorrect([c, d]) == 2
    ensures CountCognateAsFalseFriend([c, d]) == 0 && CountFalseFriendAsCognate([c, d]) == 0
    ensures Outputs([c, d]) == [OutputLine(c.pair.english, c.pair.german, c.prediction), OutputLine(d.pair.english, d.pair.german, d.prediction)]
  {
    var done := [c, d];
    assert done[..1] == [c] && [c][..0] == [];
    assert HasGold(c) && HasGold(d);
    assert !IsCognateAsFalseFriend(c) && !IsCognateAsFalseFriend(d);
    assert !IsFalseFriendAsCognate(c) && !IsFalseFriendAsCognate(d);
    assert CountGold([c]) == 1 && CountCorrect([c]) == 1;
    assert CountFalseFriendAsCognate([c]) == CountFalseFriendAsCognate([]) + 0;
    assert CountCognateAsFalseFriend([c]) == CountCognateAsFalseFriend([]) + 0;
    assert CountGold(done) == CountGold([c]) + 1;
    assert CountCorrect(done) == CountCorrect([c]) + 1;
    assert CountFalseFriendAsCognate(done) == CountFalseFriendAsCognate([c]) + 0;
    assert CountCognateAsFalseFriend(done) == CountCognateAsFalseFriend([c]) + 0;
    var o := OutputLine(c.pair.english, c.pair.german, c.prediction);
    assert Outputs([c]) == [] + [o] == [o];
    assert Outputs(done) == Outputs([c]) + [OutputLine(d.pair.english, d.pair.german, d.prediction)];
  }

  /** Both gold labels of the milk / gift input are matched: two of two correct, no confusion. */
  lemma MilkGiftScenario(milk: string, gift: string)
    requires milk == "milk\tmilch\t1" && gift == "gift\tgift\t0"
    ensures Expected(MilkLexicon, false, [milk, gift])
      == Completed(Report(2, 2, 2, 0, 0, ["milk" + "\t" + "milch" + "\t" + "1" + "\n", "gift" + "\t" + "gift" + "\t" + "0" + "\n"]))
  {
    var c := Classified(InputPair("milk", "milch", Some(1)), Cognate);
    var d := Classified(InputPair("gift", "gift", Some(0)), FalseFriend);
    MilkGiftClassified(milk, gift);
    TwoCorrect(c, d);
    assert IntText(1) == "1" && IntText(0) == "0";
  }

  /** `"to eat"` is looked up as `"eat"`, yet the output keeps `"to eat"`. */
  lemma ToEatParses()
    ensures ParseLine("to eat\tessen") == Ok(Some(InputPair("to eat", "essen", None)))
  {
    assert "to eat\tessen" == "to eat" + "\t" + "essen";
    ParsePairLine("to eat", "essen");
  }

  lemma ToEatPredicted(lex: Lexicon)
    requires Key("eat", "essen") in lex.dictionary
    ensures ClassifyPair(lex, false, InputPair("to eat", "essen", None)) == Classified(InputPair("to eat", "essen", None), Cognate)
  {
    assert DropTo("to eat") == "eat";
  }

  /** The outcome of a one-line input. */
  lemma ExpectedOne(lex: Lexicon, fallback: bool, line: string, p: InputPair)
    requires ParseLine(line) == Ok(Some(p)) && p.gold.None?
    ensures Expected(lex, fallback, [line])
      == Completed(Report(1, 0, 0, 0, 0, [OutputLine(p.english, p.german, ClassifyPair(lex, fallback, p).prediction)]))
  {
    ClassifyOne(lex, fallback, line, p);
    var c := ClassifyPair(lex, fallback, p);
    var done := [c];
    assert done[..0] == [];
    assert !HasGold(c) && !IsCorrect(c);
    assert CountGold(done) == 0 && CountCorrect(done) == 0;
    assert CountCognateAsFalseFriend(done) == 0;
    assert !IsFalseFriendAsCognate(done[0]);
    assert CountFalseFriendAsCognate(done) == CountFalseFriendAsCognate([]) + 0;
    var o := OutputLine(p.english, p.german, c.prediction);
    assert [] + [o] == [o];
    assert Outputs(done) == [o];
  }

  lemma ToEatExample(lex: Lexicon, line: string)
    requires Key("eat", "essen") in lex.dictionary
    requires line == "to eat\tessen"
    ensures Expected(lex, false, [line]) == Completed(Report(1, 0, 0, 0, 0, ["to eat" + "\t" + "essen" + "\t" + "1" + "\n"]))
  {
    var p := InputPair("to eat", "essen", None);
    ToEatParses();
    ToEatPredicted(lex);
    ExpectedOne(lex, false, line, p);
    assert IntText(1) == "1";
  }

  // ---------------------------------------------------------------------------
  // The loop
  // ---------------------------------------------------------------------------

  /**
   * One pass of the loop body before the counters: strip the line, skip it
   * when blank, split it at tabs, check the field count, predict from the
   * English field without its `"to "`, and parse the gold label.
   */
  method ReadLine(lex: Lexicon, fallback: bool, raw: string) returns (r: Result<Option<Classified>, InputError>)
    ensures r.Err? <==> ParseLine(raw).Err?
    ensures r.Err? ==> r.error == ParseLine(raw).error
    ensures r == Ok(None) <==> Strip(raw) == ""
    ensures r.Ok? && r.value.Some? ==>
      ParseLine(raw) == Ok(Some(r.value.value.pair))
      && r.value.value == ClassifyPair(lex, fallback, r.value.value.pair)
  {
    var line := Strip(raw);
    if line == "" {
      return Ok(None);
    }
    var parts := Split(line, "\t");
    if !(|parts| <= 3 && |parts| >= 2) {
      return Err(BadFieldCount(line));
    }
    var english := parts[0];
    if StartsWith(english, "to ") {
      english := english[3..];
    }
    var german := parts[1];
    var prediction := Predict(lex, fallback, english, german);
    var gold: Option<int> := None;
    if |parts| == 3 {
      var solution := ParseInt(parts[2]);
      if solution.None? {
        return Err(BadGold(parts[2]));
      }
      gold := solution;
    }
    return Ok(Some(Classified(InputPair(parts[0], parts[1], gold), prediction)));
  }

  /**
   * Reads the input lines in order, classifies each, appends its output line
   * and updates the five counters; the first malformed line aborts the run.
   */
  method Classify(lex: Lexicon, fallback: bool, lines: seq<string>) returns (outcome: Outcome)
    ensures outcome == Expected(lex, fallback, lines)
    ensures outcome.Completed? ==>
      && outcome.report.goldCorrect + outcome.report.cognateAsFalseFriend + outcome.report.falseFriendAsCognate
         == outcome.report.goldPairs
      && outcome.report.goldPairs <= outcome.report.pairs
      && |outcome.report.output| == outcome.report.pairs
  {
    var pairs, goldPairs, goldCorrect, cognateAsFalseFriend, falseFriendAsCognate := 0, 0, 0, 0, 0;
    var output: seq<string> := [];
    ghost var done: seq<Classified> := [];
    for k := 0 to |lines|
      invariant ClassifyLines(lex, fallback, lines[..k]) == (done, None)
      invariant pairs == |done| && goldPairs == CountGold(done) && goldCorrect == CountCorrect(done)
      invariant cognateAsFalseFriend == CountCognateAsFalseFriend(done)
      invariant falseFriendAsCognate == CountFalseFriendAsCognate(done)
      invariant output == Outputs(done)
    {
      ClassifyStep(lex, fallback, lines, k);
      var read := ReadLine(lex, fallback, lines[k]);
      if read.Err? {
        AbortEnds(lex, fallback, lines, k);
        return Aborted(read.error, output);
      }
      if read.value.None? {
        continue;
      }
      var c := read.value.value;
      pairs := pairs + 1;
      if c.pair.gold.Some? {
        goldPairs := goldPairs + 1;
        if c.prediction == c.pair.gold.value {
          goldCorrect := goldCorrect + 1;
        } else if c.prediction == FalseFriend {
          cognateAsFalseFriend := cognateAsFalseFriend + 1;
        } else {
          falseFriendAsCognate := falseFriendAsCognate + 1;
        }
      }
      output := output + [OutputLine(c.pair.english, c.pair.german, c.prediction)];
      CountsStep(done, c);
      done := done + [c];
    }
    assert lines[..|lines|] == lines;
    ScoreBalance(done);
    OutputsAt(done);
    return Completed(Report(pairs, goldPairs, goldCorrect, cognateAsFalseFriend, falseFriendAsCognate, output));
  }
}
