/**
 * `readFreeDictDictionary`: the reader for FreeDict TEI dictionaries, over an
 * abstract entry tree in place of the XML document. An entry has an optional
 * `form/orth` child and a list of `sense` children; a sense holds `cit`
 * children, each with an optional `quote`.
 */
module FreeDict {
  import opened Wrappers
  import opened Text
  import opened Lexicons

  datatype Cit = Cit(quote: Option<string>)
  datatype Sense = Sense(cits: seq<Cit>)
  datatype Entry = Entry(orth: Option<string>, senses: seq<Sense>)

  /** Lower-case the word, then drop one leading `"to "`. */
  function Normalize(w: string): (r: string)
    ensures |w| - 3 <= |r| <= |w|
    ensures IsLower(r)
  {
    LowerIsLower(w);
    DropTo(Lower(w))
  }

  /** A word that is already lower-case and has no `"to "` prefix is left alone. */
  lemma NormalizeUnchanged(w: string)
    requires IsLower(w) && !StartsWith(w, "to ")
    ensures Normalize(w) == w
  {
    LowerUnchanged(w);
  }

  // ---------------------------------------------------------------------------
  // The pairs an entry tree yields, in the order the loops visit them
  // ---------------------------------------------------------------------------

  function CitPairs(left: string, cits: seq<Cit>): seq<Pair>
  {
    if cits == [] then []
    else (match cits[0].quote
          case None => []
          case Some(q) => [(left, Normalize(q))]) + CitPairs(left, cits[1..])
  }

  function SensePairs(left: string, senses: seq<Sense>): seq<Pair>
  {
    if senses == [] then [] else CitPairs(left, senses[0].cits) + SensePairs(left, senses[1..])
  }

  function EntryPairs(e: Entry): seq<Pair>
  {
    match e.orth
    case None => []
    case Some(o) => SensePairs(Normalize(o), e.senses)
  }

  function EntriesPairs(entries: seq<Entry>): seq<Pair>
  {
    if entries == [] then [] else EntryPairs(entries[0]) + EntriesPairs(entries[1..])
  }

  // ---------------------------------------------------------------------------
  // Which pairs these are
  // ---------------------------------------------------------------------------

  /** A quoted cit gives one pair; a cit without a quote gives none, and the others are still read. */
  lemma {:induction false} CitPairsMembers(left: string, cits: seq<Cit>, p: Pair)
    ensures p in CitPairs(left, cits) <==>
      exists c :: 0 <= c < |cits| && cits[c].quote.Some? && p == (left, Normalize(cits[c].quote.value))
  {
    if cits != [] {
      CitPairsMembers(left, cits[1..], p);
      if p in CitPairs(left, cits[1..]) {
        var c :| 0 <= c < |cits[1..]| && cits[1..][c].quote.Some? && p == (left, Normalize(cits[1..][c].quote.value));
        assert cits[c + 1] == cits[1..][c];
      }
      if exists c :: 0 <= c < |cits| && cits[c].quote.Some? && p == (left, Normalize(cits[c].quote.value)) {
        var c :| 0 <= c < |cits| && cits[c].quote.Some? && p == (left, Normalize(cits[c].quote.value));
        if c > 0 {
          assert cits[1..][c - 1] == cits[c];
        }
      }
    }
  }

  lemma {:induction false} SensePairsMembers(left: string, senses: seq<Sense>, p: Pair)
    ensures p in SensePairs(left, senses) <==>
      exists s, c :: 0 <= s < |senses| && 0 <= c < |senses[s].cits|
        && senses[s].cits[c].quote.Some? && p == (left, Normalize(senses[s].cits[c].quote.value))
  {
    if senses != [] {
      SensePairsMembers(left, senses[1..], p);
      CitPairsMembers(left, senses[0].cits, p);
      if p in SensePairs(left, senses[1..]) {
        var s, c :| 0 <= s < |senses[1..]| && 0 <= c < |senses[1..][s].cits|
          && senses[1..][s].cits[c].quote.Some? && p == (left, Normalize(senses[1..][s].cits[c].quote.value));
        assert senses[s + 1] == senses[1..][s];
      }
      if exists s, c ::
           && 0 <= s < |senses| && 0 <= c < |senses[s].cits|
           && senses[s].cits[c].quote.Some? && p == (left, Normalize(senses[s].cits[c].quote.value))
      {
        var s, c :| 0 <= s < |senses| && 0 <= c < |senses[s].cits|
          && senses[s].cits[c].quote.Some? && p == (left, Normalize(senses[s].cits[c].quote.value));
        if s > 0 {
          assert senses[1..][s - 1] == senses[s];
        }
      }
    }
  }

  /**
   * The pairs of a FreeDict document are exactly the (orth, quote) combinations
   * of each entry that has an orth, over all its senses and all its quoted cits;
   * an entry without an orth contributes nothing.
   */
  lemma {:induction false} EntriesPairsMembers(entries: seq<Entry>, p: Pair)
    ensures p in EntriesPairs(entries) <==>
      exists i, s, c :: 0 <= i < |entries| && entries[i].orth.Some?
        && 0 <= s < |entries[i].senses| && 0 <= c < |entries[i].senses[s].cits|
        && entries[i].senses[s].cits[c].quote.Some?
        && p == (Normalize(entries[i].orth.value), Normalize(entries[i].senses[s].cits[c].quote.value))
  {
    if entries != [] {
      var e := entries[0];
      EntriesPairsMembers(entries[1..], p);
      if e.orth.Some? {
        SensePairsMembers(Normalize(e.orth.value), e.senses, p);
      }
      if p in EntriesPairs(entries[1..]) {
        var i, s, c :| 0 <= i < |entries[1..]| && entries[1..][i].orth.Some?
          && 0 <= s < |entries[1..][i].senses| && 0 <= c < |entries[1..][i].senses[s].cits|
          && entries[1..][i].senses[s].cits[c].quote.Some?
          && p == (Normalize(entries[1..][i].orth.value), Normalize(entries[1..][i].senses[s].cits[c].quote.value));
        assert entries[i + 1] == entries[1..][i];
      }
      if exists i, s, c ::
           && 0 <= i < |entries| && entries[i].orth.Some?
           && 0 <= s < |entries[i].senses| && 0 <= c < |entries[i].senses[s].cits|
           && entries[i].senses[s].cits[c].quote.Some?
           && p == (Normalize(entries[i].orth.value), Normalize(entries[i].senses[s].cits[c].quote.value))
      {
        var i, s, c :| 0 <= i < |entries| && entries[i].orth.Some?
          && 0 <= s < |entries[i].senses| && 0 <= c < |entries[i].senses[s].cits|
          && entries[i].senses[s].cits[c].quote.Some?
          && p == (Normalize(entries[i].orth.value), Normalize(entries[i].senses[s].cits[c].quote.value));
        if i > 0 {
          assert entries[1..][i - 1] == entries[i];
        }
      }
    }
  }

  lemma {:induction false} EntriesPairsAppend(a: seq<Entry>, b: seq<Entry>)
    ensures EntriesPairs(a + b) == EntriesPairs(a) + EntriesPairs(b)
  {
    if a == [] {
      assert a + b == b;
    } else {
      assert (a + b)[1..] == a[1..] + b;
      EntriesPairsAppend(a[1..], b);
    }
  }

  /** An entry without an orth can be dropped from the document without changing the pairs. */
  lemma OrthlessEntryIgnored(before: seq<Entry>, senses: seq<Sense>, after: seq<Entry>)
    ensures EntriesPairs(before + [Entry(None, senses)] + after) == EntriesPairs(before + after)
  {
    var skipped := Entry(None, senses);
    assert EntriesPairs([skipped] + after) == EntriesPairs(after) by {
      assert ([skipped] + after)[1..] == after;
    }
    calc {
      EntriesPairs(before + [skipped] + after);
      { assert before + [skipped] + after == before + ([skipped] + after); }
      EntriesPairs(before + ([skipped] + after));
      { EntriesPairsAppend(before, [skipped] + after); }
      EntriesPairs(before) + EntriesPairs([skipped] + after);
      EntriesPairs(before) + EntriesPairs(after);
      { EntriesPairsAppend(before, after); }
      EntriesPairs(before + after);
    }
  }

  // The unfolding of each level at the position a loop has reached.

  lemma CitStep(left: string, cits: seq<Cit>, c: nat)
    requires c < |cits|
    ensures CitPairs(left, cits[c..]) ==
      (if cits[c].quote.None? then [] else [(left, Normalize(cits[c].quote.value))]) + CitPairs(left, cits[c + 1..])
  {
    assert cits[c..][1..] == cits[c + 1..];
  }

  lemma SenseStep(left: string, senses: seq<Sense>, s: nat)
    requires s < |senses|
    ensures SensePairs(left, senses[s..]) == CitPairs(left, senses[s].cits) + SensePairs(left, senses[s + 1..])
  {
    assert senses[s..][1..] == senses[s + 1..];
  }

  lemma EntryStep(entries: seq<Entry>, i: nat)
    requires i < |entries|
    ensures EntriesPairs(entries[i..]) == EntryPairs(entries[i]) + EntriesPairs(entries[i + 1..])
  {
    assert entries[i..][1..] == entries[i + 1..];
  }

  // ---------------------------------------------------------------------------
  // The reader
  // ---------------------------------------------------------------------------

  /**
   * Walks the entries, senses and cits as the three nested loops do and adds
   * every (orth, quote) pair to the dictionary and the two vocabularies, with
   * the sides exchanged when `invert` is set.
   */
  method ReadFreeDict(entries: seq<Entry>, invert: bool) returns (lex: Lexicon)
    ensures lex == AddPairs(Empty, EntriesPairs(entries), invert)
    ensures lex == FromPairs(OrientedAll(EntriesPairs(entries), invert))
  {
    ghost var target := AddPairs(Empty, EntriesPairs(entries), invert);
    var dictionary: set<string> := {};
    var leftWords: set<string> := {};
    var rightWords: set<string> := {};
    for i := 0 to |entries|
      invariant AddPairs(Lexicon(dictionary, leftWords, rightWords), EntriesPairs(entries[i..]), invert) == target
    {
      EntryStep(entries, i);
      ghost var later := EntriesPairs(entries[i + 1..]);
      var entry := entries[i];
      if entry.orth.None? {
        assert [] + later == later;
        continue;
      }
      var left := Lower(entry.orth.value);
      if StartsWith(left, "to ") {
        left := left[3..];
      }
      assert left == Normalize(entry.orth.value);
      AddPairsAppend(Lexicon(dictionary, leftWords, rightWords), SensePairs(left, entry.senses), later, invert);
      for s := 0 to |entry.senses|
        invariant AddPairs(AddPairs(Lexicon(dictionary, leftWords, rightWords), SensePairs(left, entry.senses[s..]), invert), later, invert) == target
      {
        SenseStep(left, entry.senses, s);
        var sense := entry.senses[s];
        ghost var rest := SensePairs(left, entry.senses[s + 1..]);
        AddPairsAppend(Lexicon(dictionary, leftWords, rightWords), CitPairs(left, sense.cits), rest, invert);
        for c := 0 to |sense.cits|
          invariant AddPairs(AddPairs(AddPairs(Lexicon(dictionary, leftWords, rightWords), CitPairs(left, sense.cits[c..]), invert), rest, invert), later, invert) == target
        {
          CitStep(left, sense.cits, c);
          var cit := sense.cits[c];
          if cit.quote.None? {
            assert CitPairs(left, sense.cits[c..]) == CitPairs(left, sense.cits[c + 1..]);
            continue;
          }
          var right := Lower(cit.quote.value);
          if StartsWith(right, "to ") {
            right := right[3..];
          }
          ghost var before := Lexicon(dictionary, leftWords, rightWords);
          AddPairsCons(before, (left, right), CitPairs(left, sense.cits[c + 1..]), invert);
          if invert {
            dictionary := dictionary + {Key(right, left)};
            leftWords := leftWords + {right};
            rightWords := rightWords + {left};
          } else {
            dictionary := dictionary + {Key(left, right)};
            leftWords := leftWords + {left};
            rightWords := rightWords + {right};
          }
          assert Lexicon(dictionary, leftWords, rightWords) == Insert(before, (left, right), invert);
        }
        assert sense.cits[|sense.cits|..] == [];
      }
      assert entry.senses[|entry.senses|..] == [];
      assert SensePairs(left, entry.senses[|entry.senses|..]) == [];
    }
    assert entries[|entries|..] == [];
    lex := Lexicon(dictionary, leftWords, rightWords);
    AddPairsClosed(Empty, EntriesPairs(entries), invert);
    UnionEmpty(FromPairs(OrientedAll(EntriesPairs(entries), invert)));
  }

  // ---------------------------------------------------------------------------
  // Properties of the reader's result
  // ---------------------------------------------------------------------------

  /**
   * Reading inverted gives the plain result with the two vocabularies exchanged
   * and the two sides of every key swapped.
   */
  lemma InvertSwapsSides(entries: seq<Entry>)
    ensures AddPairs(Empty, EntriesPairs(entries), true).leftWords == AddPairs(Empty, EntriesPairs(entries), false).rightWords
    ensures AddPairs(Empty, EntriesPairs(entries), true).rightWords == AddPairs(Empty, EntriesPairs(entries), false).leftWords
    ensures forall k :: k in AddPairs(Empty, EntriesPairs(entries), true).dictionary <==>
      exists p :: p in EntriesPairs(entries) && k == Key(p.1, p.0)
    ensures forall k :: k in AddPairs(Empty, EntriesPairs(entries), false).dictionary <==>
      exists p :: p in EntriesPairs(entries) && k == Key(p.0, p.1)
  {
    var ps := EntriesPairs(entries);
    AddPairsClosed(Empty, ps, true);
    AddPairsClosed(Empty, ps, false);
    SwappedExchangesSides(ps);
  }

  /** Every key the reader adds has its left word in the left vocabulary and its right word in the right one. */
  lemma ReadConsistent(entries: seq<Entry>, invert: bool)
    ensures Consistent(AddPairs(Empty, EntriesPairs(entries), invert))
  {
    var ps := OrientedAll(EntriesPairs(entries), invert);
    AddPairsClosed(Empty, EntriesPairs(entries), invert);
    FromPairsConsistent(ps);
    UnionEmpty(FromPairs(ps));
  }
}
