# English–German cognate classifier, modelled in Dafny

`classifier.py` decides, for each English–German word pair it reads, whether the two words are
cognates (label `1`) or false friends (label `0`). It loads up to three bilingual dictionaries:
the FreeDict English–German lexicon and the FreeDict German–English lexicon, both in TEI XML, and
the Ding German–English gloss file. Each loader yields a set of `english \t german` lookup keys
and the English and German vocabularies. These are unioned into one aggregate. The program then
streams the input pairs. A pair whose key is in the aggregate is a cognate. A pair whose key is
missing is a false friend, unless `--fallback-missing-cognate` is set and neither word is in its
vocabulary. It writes one output line per pair and counts the predictions against the gold labels
when a third column carries them.

The model has these modules:

- `Text` (`text.dfy`) has Python's `split` with a literal separator, `join`, `startswith`,
  `lower` and `strip`, and the `"to "` drop.
- `Lexicons` (`lexicon.dfy`) has the dictionary/vocabulary triple, how a pair enters it (with or
  without inversion), its closed form as a set comprehension, union, and the consistency
  invariant.
- `FreeDict` (`freedict.dfy`) is `readFreeDictDictionary` over an abstract tree of
  entries / senses / citations.
- `Ding` (`ding.dfy`) is `readDingDictionary`. It implements the `to_remove` regular expression
  and keeps the source's loop structure. That includes the re-normalisation of `left_word` on
  every pass of the innermost loop.
- `Aggregation` (`aggregate.dfy`) is the three module-level sets as a class, `addAll`, the
  source-selection check, and the loading of the selected sources in their fixed order.
- `Classifier` (`classifier.dfy`) is the input loop:
  - line parsing;
  - the prediction rule;
  - the five counters;
  - the output lines;
  - Python 2 `int()` and `unicode()` on integers.
- `Pipeline` (`pipeline.dfy`) loads, then classifies.

Each loop of the source is a `method` with a `while`/`for` loop: `ReadFreeDict`, `PairSynonyms`,
`PairGroup`, `ReadLine`, `ReadDing` and `Classify`. Each is proved equal to a recursive
specification function. `Load`, which has no loop, is proved equal to the non-recursive
specification function `Aggregation.Loaded`. The body of the classification loop is split in two.
`Classifier.ReadLine` strips, splits, checks, predicts and parses one input line, and is proved to
agree with `ParseLine` and `ClassifyPair`. `Classify` then updates the counters and the output.
Lemmas then prove the properties of those functions.

File reading, XML parsing and printing are not modelled:

- a dictionary or input file is a `seq<string>` of its lines;
- a TEI document is a `seq<FreeDict.Entry>`;
- the output file is the `seq<string>` of lines written;
- the console messages are dropped. The "Read N entries" count at `classifier.py:122` is the size of the loaded `dictionary` set, and the counts printed after classification are fields of `Classifier.Report`.

A fatal `assert` or `raise` in the source becomes an `Err`/`Aborted`/`Failed` value. Most of these
carry the offending line. `Classifier.BadGold` carries the gold field that `int()` rejected.
`Aggregation.NoDictionarySelected` carries nothing.

The fallback test at `classifier.py:150` sees `english` after the `"to "` drop at lines 142-143.
So `Classifier.Predict` receives the dropped form.

## Model

| member | source | states |
|---|---|---|
| Text.Split | classifier.py:58-61 | Python's `s.split(sep)`: the pieces between successive leftmost occurrences of `sep`, at least one piece. |
| Text.Find | classifier.py:58 | Finds the leftmost occurrence of the separator, and reports none exactly when there is none; this is the cut `split` makes. |
| Text.SplitJoin | classifier.py:58-61 | Joining the parts of `s.split(sep)` with `sep` gives back `s`. |
| Text.SplitPartsFree | classifier.py:58-61 | No part of a split contains the separator. |
| Text.SplitAtChar | classifier.py:136 | Splitting at a one-character separator cuts at its first occurrence. |
| Text.Lower | classifier.py:22 | `lower()`, character by character, over the modelled upper-case letters. |
| Text.Strip | classifier.py:54 | Python 2's `unicode.strip()`: white space removed from both ends. |
| Text.DropTo | classifier.py:23-24 | Dropping a leading `"to "` leaves a word at most three characters shorter. |
| Text.DropToSuffix | classifier.py:23-24 | Dropping the leading `"to "` removes at most three characters, and only from the front. It shortens the word exactly when the word starts with `"to "`. |
| Text.LowerIsLower | classifier.py:22 | `lower()` leaves no upper-case letter of the modelled set. |
| Text.LowerUnchanged | classifier.py:22 | `lower()` leaves a lower-case word unchanged. |
| Text.StripSpec | classifier.py:54 | `strip()` gives a stripped infix of its argument, and removes only white space, from both ends. |
| Text.StripUnchanged | classifier.py:133 | `strip()` of a stripped string is the string itself. |
| Lexicons.Insert | classifier.py:35-42 | One pair's three `add` calls: the lexicon gains exactly the key and the two words of the pair, with the sides swapped when inverting. |
| Lexicons.Union | classifier.py:102-106 | `addAll`: a key or word is in the result exactly when it is in one of the two lexicons. |
| Lexicons.AddPairs | classifier.py:35-42 | Adds the pairs in order. Each pair adds its key and its two words, with the sides swapped when inverting. |
| Lexicons.FromPairs | classifier.py:35-42 | The lexicon of a sequence of pairs, all at once: the keys, English words and German words of the pairs. |
| Lexicons.Swapped | classifier.py:35-38 | Inversion swaps the two sides of every pair, position by position. |
| Lexicons.AddPairsAppend | classifier.py:18-42 | Adding pairs in two batches is the same as adding them all at once. |
| Lexicons.AddPairsClosed | classifier.py:35-42 | Adding pairs one by one is the union with the set-comprehension lexicon of the oriented pairs. |
| Lexicons.FromPairsConsistent | classifier.py:35-42 | A lexicon built from pairs is consistent: every key joins a left word and a right word of its vocabularies. Every pair's key and both its words are present. |
| Lexicons.UnionConsistent | classifier.py:102-106 | The union of two consistent lexicons is consistent. |
| Lexicons.UnionCommutes | classifier.py:102-106 | Union does not depend on the order of its operands. |
| Lexicons.UnionAssociates | classifier.py:102-106 | Union is associative. |
| Lexicons.SwappedExchangesSides | classifier.py:35-42 | The inverted lexicon has the vocabularies exchanged, and its keys are exactly `right \t left` for the pairs. |
| FreeDict.Normalize | classifier.py:22-24 | A FreeDict word is lower-cased and loses at most three characters. |
| FreeDict.NormalizeUnchanged | classifier.py:22-24 | Normalising an already lower-case word without `"to "` is a no-op. |
| FreeDict.EntriesPairs | classifier.py:18-33 | The normalised `(orth, quote)` pairs of a document: entries, senses and citations in order, skipping an entry without `orth` and a citation without `quote`. |
| FreeDict.EntriesPairsMembers | classifier.py:18-33 | A pair comes from an entry with an `orth` form and from one of its citations with a `quote`. This holds in both directions. |
| FreeDict.EntriesPairsAppend | classifier.py:18 | The entries of a document contribute independently, in order. |
| FreeDict.OrthlessEntryIgnored | classifier.py:19-21 | An entry without an `orth` form contributes nothing. |
| FreeDict.ReadFreeDict | classifier.py:9-44 | The nested loops produce exactly the lexicon of the specified pairs, oriented by `invert`. |
| FreeDict.InvertSwapsSides | classifier.py:35-42 | Reading inverted equals reading plain with the sides swapped. |
| FreeDict.ReadConsistent | classifier.py:35-42 | The FreeDict lexicon is consistent. |
| Ding.MatchLength | classifier.py:50 | The length of the `to_remove` match at the start of a string: a literal alternative, a lazy bracketed group, or a slash-delimited tag, 0 when none matches. |
| Ding.LiteralMatchFirst | classifier.py:50 | The literal alternatives are tried in order. The match is the first literal the string starts with, and there is none exactly when no literal fits. |
| Ding.LiteralMatch | classifier.py:50 | A match of the literal alternatives of `to_remove` is one of them, taken as a prefix. |
| Ding.LazyClose | classifier.py:50 | A lazy bracketed match ends at the first closing character after at least one other character, with no newline before it. There is no match exactly when no such closing character exists. |
| Ding.SlashClose | classifier.py:50 | A slash tag ends at the first `/` after at least one tag character, with only tag characters before it. There is no match exactly when no such `/` exists. |
| Ding.Clean | classifier.py:64-65 | Removing the annotations never lengthens a group. |
| Ding.CleanPlain | classifier.py:50-65 | A group with no bracket, slash, space or full stop is unchanged. |
| Ding.Normalize | classifier.py:68-73 | A Ding word is `strip(lower(w))`, less at most three characters. |
| Ding.NormalizeSuffix | classifier.py:68-73 | Normalising drops characters only from the front of the stripped, lower-cased word. |
| Ding.NormalizeUnchanged | classifier.py:68-73 | Normalising a stripped, lower-case word without `"to "` is a no-op. |
| Ding.SynonymPairs | classifier.py:67-73 | The pairs of one left synonym, one per right synonym in order. The left word is normalised again before each pairing. |
| Ding.GroupPairs | classifier.py:66-73 | The synonym pairs of each left synonym of a group, in order. |
| Ding.GroupsPairs | classifier.py:63-73 | The group pairs of each group index, after cleaning and splitting groups at `;`. |
| Ding.LinePairs | classifier.py:54-62 | A comment or blank line gives no pairs. A line that is not two `::` halves, or whose halves have different `\|`-group counts, is an error. Any other line gives its group pairs. |
| Ding.FilePairs | classifier.py:53-62 | The pairs of all lines in order, or the error of the first failing line. |
| Ding.SynonymPairsAt | classifier.py:66-73 | Its j-th right synonym pairs with the left synonym normalised j + 1 times, because `left_word` is re-normalised each pass. |
| Ding.RepeatedNormalization | classifier.py:66-70 | `to to go` paired with `gehen; laufen` gives `(to go, gehen)` and `(go, laufen)`. |
| Ding.SynonymPairsMembers | classifier.py:67-73 | The pairs of one left synonym are exactly its pairings with each right synonym. |
| Ding.GroupPairsMembers | classifier.py:66-73 | Within one group, the pairs are the full cross product of left and right synonyms. |
| Ding.GroupsPairsSynonyms | classifier.py:63-73 | A pair comes from group i of the left half and group i of the right half for the same i, never across groups. |
| Ding.LineFailures | classifier.py:54-62 | A line fails exactly when it is not a comment or blank and either does not split into two halves at `::` or has unequal `\|`-group counts. |
| Ding.AcceptedLineIsWhole | classifier.py:58-62 | An accepted line is `left :: right`, with no further `::`, whose groups rejoin to the halves and pair off one to one. |
| Ding.LinePairsMembers | classifier.py:58-73 | The pairs of an accepted line are exactly the same-group synonym pairs. |
| Ding.FileFailures | classifier.py:53-62 | A file fails exactly when one of its lines fails. |
| Ding.FileErrorIsFirst | classifier.py:53-62 | The error reported is that of the first failing line. |
| Ding.FilePairsMembers | classifier.py:53-82 | The pairs of a file are those of its lines. |
| Ding.PairSynonyms | classifier.py:66-82 | The inner loops, with `left_word` overwritten in place, add exactly the specified synonym pairs. |
| Ding.PairGroup | classifier.py:66-82 | One group adds exactly the specified group pairs. |
| Ding.ReadLine | classifier.py:54-82 | A line either adds exactly its pairs or fails with the assertion the source makes. |
| Ding.ReadDing | classifier.py:46-84 | The file loop yields the lexicon of all pairs, or fails exactly when some line fails. |
| Ding.InvertSwapsSides | classifier.py:75-82 | Inverted reading fails exactly when plain reading does. Otherwise it swaps the vocabularies and keys. |
| Ding.ReadConsistent | classifier.py:75-82 | The Ding lexicon is consistent. |
| Aggregation.Aggregate.AddAll | classifier.py:102-106 | The three sets become their union with the source's sets. |
| Aggregation.Aggregate.constructor | classifier.py:98-100 | The aggregate starts empty. |
| Aggregation.Loaded | classifier.py:95-120 | With no source selected, the configuration error. With a failing Ding file selected, its error. Otherwise the union of the selected sources, the German-English FreeDict and Ding read inverted. |
| Aggregation.LoadFailures | classifier.py:95-120 | Loading fails exactly when no source is selected, or when the Ding source is selected and has a bad line. With no source selected the error is the configuration error. |
| Aggregation.LoadedMembers | classifier.py:109-120 | A key or word is in the aggregate exactly when a selected source has it, whatever the loading order. |
| Aggregation.LoadedConsistent | classifier.py:109-120 | The aggregate is consistent. |
| Aggregation.Load | classifier.py:95-120 | It checks the selection before any reading, adds the selected sources in order, and yields the specified aggregate or error. |
| Classifier.ParseInt | classifier.py:157 | Python 2's `int()`: strips white space, takes an optional sign with white space after it, then ASCII decimal digits, and otherwise fails. |
| Classifier.ParseIntSpacedSign | classifier.py:157 | A gold field `- 7` is accepted as -7. |
| Classifier.ParseLine | classifier.py:133-157 | The stripped line, when blank, is skipped. Otherwise its tab-separated fields must number two or three, and a third field must parse as an integer. |
| Classifier.ParseLineFields | classifier.py:133-157 | A parsed line's English and German fields are the first two fields of the stripped line. It has a gold label exactly when there are three fields, and the fields rejoin to the stripped line. |
| Classifier.ParseLineBlank | classifier.py:133-135 | A line is skipped exactly when it is blank once stripped. |
| Classifier.ClassifyPair | classifier.py:141-153 | A parsed pair keeps its original fields. Its prediction is cognate exactly when the key of the English word without `"to "` and the German word is in the dictionary, or the fallback is on and neither of those words is known. |
| Classifier.Predict | classifier.py:147-153 | A prediction is always either cognate or false friend. |
| Classifier.FoundIsCognate | classifier.py:147-148 | A pair in the dictionary is a cognate whatever the fallback flag. |
| Classifier.NotFoundRule | classifier.py:149-153 | A missing pair is a cognate exactly when the fallback is on and neither word is in its vocabulary. |
| Classifier.FallbackOnlyAddsCognates | classifier.py:150-153 | Turning the fallback on can only turn false friends into cognates. |
| Classifier.OutputLine | classifier.py:166-171 | The output line: the original English field, a tab, the German field, a tab, the label's decimal text and a newline. |
| Classifier.IntText | classifier.py:170 | `unicode(n)`: the decimal text of an integer, with `-` when negative. |
| Classifier.NatText | classifier.py:170 | The decimal text of a number is non-empty digits. |
| Classifier.ParseIntText | classifier.py:157-170 | `int(unicode(n)) == n`: the written label parses back to the prediction. |
| Classifier.ClassifyLines | classifier.py:132-164 | The classified pairs of the lines before the first bad line, and that line's error if there is one. Blank lines are skipped. |
| Classifier.Expected | classifier.py:124-171 | The report the loop computes: the pair count, the four gold counts and the output lines. Or, after a bad line, its error with the output lines written before it. |
| Classifier.ScoreBalance | classifier.py:155-164 | Every gold pair is counted once, as correct or as one of the two errors, and gold pairs never exceed pairs. |
| Classifier.OutputsAt | classifier.py:166-171 | The k-th output line is the k-th pair's original English field, its German field and its label, tab-separated. |
| Classifier.BlankLineIgnored | classifier.py:133-135 | A blank line changes no counter and no output. |
| Classifier.BadLineIsFatal | classifier.py:136-137 | A line with fewer than two or more than three fields aborts the run. |
| Classifier.AbortIsFinal | classifier.py:137-157 | Lines after an aborting line are never read. |
| Classifier.FallbackExamples | classifier.py:147-153 | Worked example: with the fallback on, `arm/arm` against vocabularies `{hand}` is a cognate, `arm/hand` is a false friend, and with the fallback off `arm/arm` is a false friend. |
| Classifier.MilkGiftScenario | classifier.py:132-171 | Worked example: `milk/milch/1` and `gift/gift/0` against `{milk/milch, bread/brot}` score 2 of 2 with no confusion. |
| Classifier.ToEatExample | classifier.py:141-171 | Worked example: `to eat/essen` is looked up as `eat`, and the output keeps `to eat`. |
| Classifier.ReadLine | classifier.py:133-157 | One line of input: it is skipped exactly when blank once stripped, and it fails exactly when `ParseLine` does, with the same error. Otherwise it yields the parsed pair with the prediction `ClassifyPair` assigns. |
| Classifier.Classify | classifier.py:124-171 | The loop yields the specified report, or aborts with its error and the lines written so far. When complete, correct + both errors = gold pairs <= pairs = number of output lines. |
| Pipeline.RunExpected | classifier.py:95-171 | A run fails with a load error exactly when loading fails, and then writes no output. A completed run's scores balance: correct + both errors = gold pairs <= pairs = number of output lines. |
| Pipeline.Run | classifier.py:95-171 | The run is loading then classification. A dictionary error writes no output. |
| Pipeline.BadDingLineWritesNothing | classifier.py:59-130 | A malformed Ding line aborts the run before the output file receives a line. |
| Pipeline.NoSourceFails | classifier.py:95-96 | Without a selected source the run fails with the configuration error. |

## Left out

- Command-line parsing and the fixed file paths (`classifier.py:86-93`, `classifier.py:111-120`) are not modelled. The selection flags become `Aggregation.Config`, and the file contents become `Aggregation.Sources`.
- File I/O, UTF-8 decoding, and the XML parsing and namespace lookup (`classifier.py:10-12`, `classifier.py:19`, `classifier.py:26-28`) are not modelled. A document is the sequence of its entries. An `orth` or `quote` element is present or absent, and its text is a string.
- The console messages (`classifier.py:110-122`, `classifier.py:173-177`) are not modelled, nor is the precision as a floating-point ratio. The counters are kept as naturals in `Classifier.Report`, where the source keeps two of them as floats.
- The model does not cover an `orth` or `quote` element whose text is empty. ElementTree gives such text as `None`, where `.lower()` would raise.
- Text.Lower: case mapping covers ASCII and the Latin-1 letters U+00C0–U+00DE except U+00D7. It does not cover the full Unicode mapping of Python 2's `unicode.lower()`.
- Text.Strip: white space is the set of characters Python 2's `unicode.strip()` removes up to U+3000. It is written out character by character, not taken from the Unicode database.
- Classifier.ParseInt: non-ASCII decimal digits are not modelled. Python 2's `int()` accepts them in a unicode string, and the model rejects them. The model does follow CPython's handling of white space: around the text, and between the sign and the digits.
- The checks at `classifier.py:59`, `classifier.py:62` and `classifier.py:137` are Python `assert` statements, which `python -O` removes. The model treats them as always enabled.
- The output file is opened before the input is read, in the source. On an abort the lines written so far remain. The model returns them in `Classifier.Outcome.Aborted`, but does not model a partially flushed file.
