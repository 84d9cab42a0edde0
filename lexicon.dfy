/**
 * The triple every dictionary reader returns: the set of lookup keys
 * `left + "\t" + right` and the two vocabularies, built from the word pairs a
 * reader finds, optionally with the two sides exchanged.
 */
module Lexicons {

  /** A (left word, right word) pair as a reader finds it, before any inversion. */
  type Pair = (string, string)

  /** The lookup key the program stores for a pair. */
  function Key(left: string, right: string): string
  {
    left + "\t" + right
  }

  datatype Lexicon = Lexicon(dictionary: set<string>, leftWords: set<string>, rightWords: set<string>)

  const Empty: Lexicon := Lexicon({}, {}, {})

  /** The pair with its sides exchanged when `invert` is set. */
  function Oriented(p: Pair, invert: bool): Pair
  {
    if invert then (p.1, p.0) else p
  }

  /** The three `add` calls a reader makes for one pair. */
  function Insert(lex: Lexicon, p: Pair, invert: bool): (r: Lexicon)
    ensures r == Union(lex, FromPairs([Oriented(p, invert)]))
  {
    var (l, r) := Oriented(p, invert);
    Lexicon(lex.dictionary + {Key(l, r)}, lex.leftWords + {l}, lex.rightWords + {r})
  }

  /** Inserting the pairs one after another, in order. */
  function AddPairs(lex: Lexicon, ps: seq<Pair>, invert: bool): Lexicon
    decreases |ps|
  {
    if ps == [] then lex else AddPairs(Insert(lex, ps[0], invert), ps[1..], invert)
  }

  /** The lexicon a list of pairs describes, independently of insertion order. */
  function FromPairs(ps: seq<Pair>): Lexicon
  {
    Lexicon(set p | p in ps :: Key(p.0, p.1), set p | p in ps :: p.0, set p | p in ps :: p.1)
  }

  function Swapped(ps: seq<Pair>): (r: seq<Pair>)
    ensures |r| == |ps|
    ensures forall i :: 0 <= i < |ps| ==> r[i] == (ps[i].1, ps[i].0)
  {
    if ps == [] then [] else [(ps[0].1, ps[0].0)] + Swapped(ps[1..])
  }

  /** `addAll`: the element-wise union of two lexicons. */
  function Union(a: Lexicon, b: Lexicon): (r: Lexicon)
    ensures forall k :: k in r.dictionary <==> k in a.dictionary || k in b.dictionary
    ensures forall w :: w in r.leftWords <==> w in a.leftWords || w in b.leftWords
    ensures forall w :: w in r.rightWords <==> w in a.rightWords || w in b.rightWords
  {
    Lexicon(a.dictionary + b.dictionary, a.leftWords + b.leftWords, a.rightWords + b.rightWords)
  }

  lemma AddPairsCons(lex: Lexicon, p: Pair, rest: seq<Pair>, invert: bool)
    ensures AddPairs(lex, [p] + rest, invert) == AddPairs(Insert(lex, p, invert), rest, invert)
  {
    assert ([p] + rest)[1..] == rest;
  }

  lemma UnionEmpty(lex: Lexicon)
    ensures Union(Empty, lex) == lex
  {
  }

  lemma {:induction false} AddPairsAppend(lex: Lexicon, a: seq<Pair>, b: seq<Pair>, invert: bool)
    ensures AddPairs(lex, a + b, invert) == AddPairs(AddPairs(lex, a, invert), b, invert)
    decreases |a|
  {
    if a != [] {
      assert (a + b)[0] == a[0];
      assert (a + b)[1..] == a[1..] + b;
      AddPairsAppend(Insert(lex, a[0], invert), a[1..], b, invert);
    } else {
      assert a + b == b;
    }
  }

  lemma FromPairsCons(q: Pair, rest: seq<Pair>)
    ensures FromPairs([q] + rest) == Insert(FromPairs(rest), q, false)
  {
    var qs := [q] + rest;
    assert forall p :: p in qs <==> p == q || p in rest;
    assert FromPairs(qs).dictionary == FromPairs(rest).dictionary + {Key(q.0, q.1)};
    assert FromPairs(qs).leftWords == FromPairs(rest).leftWords + {q.0};
    assert FromPairs(qs).rightWords == FromPairs(rest).rightWords + {q.1};
  }

  /** The pairs as they are inserted: swapped when `invert` is set. */
  function OrientedAll(ps: seq<Pair>, invert: bool): seq<Pair>
  {
    if invert then Swapped(ps) else ps
  }

  lemma OrientedAllCons(ps: seq<Pair>, invert: bool)
    requires ps != []
    ensures OrientedAll(ps, invert) == [Oriented(ps[0], invert)] + OrientedAll(ps[1..], invert)
  {
  }

  lemma InsertUnion(lex: Lexicon, other: Lexicon, q: Pair)
    ensures Union(Insert(lex, q, false), other) == Union(lex, Insert(other, q, false))
  {
  }

  /**
   * Inserting pairs one by one adds exactly their keys and words: with `invert`
   * every pair enters with its sides exchanged.
   */
  lemma {:induction false} AddPairsClosed(lex: Lexicon, ps: seq<Pair>, invert: bool)
    ensures AddPairs(lex, ps, invert) == Union(lex, FromPairs(OrientedAll(ps, invert)))
    decreases |ps|
  {
    if ps == [] {
      assert OrientedAll(ps, invert) == [];
      assert FromPairs([]) == Empty;
    } else {
      var rest := OrientedAll(ps[1..], invert);
      var q := Oriented(ps[0], invert);
      var lex1 := Insert(lex, ps[0], invert);
      calc {
        AddPairs(lex, ps, invert);
        AddPairs(lex1, ps[1..], invert);
        { AddPairsClosed(lex1, ps[1..], invert); }
        Union(lex1, FromPairs(rest));
        { assert lex1 == Insert(lex, q, false); InsertUnion(lex, FromPairs(rest), q); }
        Union(lex, Insert(FromPairs(rest), q, false));
        { FromPairsCons(q, rest); }
        Union(lex, FromPairs([q] + rest));
        { OrientedAllCons(ps, invert); }
        Union(lex, FromPairs(OrientedAll(ps, invert)));
      }
    }
  }

  /** Every key stands for a pair whose two words are in the two vocabularies. */
  ghost predicate Consistent(lex: Lexicon)
  {
    forall k :: k in lex.dictionary ==>
      exists l, r :: k == Key(l, r) && l in lex.leftWords && r in lex.rightWords
  }

  lemma FromPairsConsistent(ps: seq<Pair>)
    ensures Consistent(FromPairs(ps))
    ensures forall p :: p in ps ==>
      Key(p.0, p.1) in FromPairs(ps).dictionary && p.0 in FromPairs(ps).leftWords && p.1 in FromPairs(ps).rightWords
  {
    var lex := FromPairs(ps);
    forall k | k in lex.dictionary
      ensures exists l, r :: k == Key(l, r) && l in lex.leftWords && r in lex.rightWords
    {
      var p :| p in ps && k == Key(p.0, p.1);
      assert p.0 in lex.leftWords && p.1 in lex.rightWords;
    }
  }

  lemma UnionConsistent(a: Lexicon, b: Lexicon)
    requires Consistent(a) && Consistent(b)
    ensures Consistent(Union(a, b))
  {
    var u := Union(a, b);
    forall k | k in u.dictionary
      ensures exists l, r :: k == Key(l, r) && l in u.leftWords && r in u.rightWords
    {
      if k in a.dictionary {
        var l, r :| k == Key(l, r) && l in a.leftWords && r in a.rightWords;
      } else {
        var l, r :| k == Key(l, r) && l in b.leftWords && r in b.rightWords;
      }
    }
  }

  /** Union is independent of the order the sources are added in. */
  lemma UnionCommutes(a: Lexicon, b: Lexicon)
    ensures Union(a, b) == Union(b, a)
  {
  }

  lemma UnionAssociates(a: Lexicon, b: Lexicon, c: Lexicon)
    ensures Union(Union(a, b), c) == Union(a, Union(b, c))
  {
  }

  /**
   * The inverted lexicon of a list of pairs is the plain one with its two
   * vocabularies exchanged and the two sides of every key swapped.
   */
  lemma SwappedExchangesSides(ps: seq<Pair>)
    ensures FromPairs(Swapped(ps)).leftWords == FromPairs(ps).rightWords
    ensures FromPairs(Swapped(ps)).rightWords == FromPairs(ps).leftWords
    ensures forall k :: k in FromPairs(Swapped(ps)).dictionary <==> exists p :: p in ps && k == Key(p.1, p.0)
    ensures forall k :: k in FromPairs(ps).dictionary <==> exists p :: p in ps && k == Key(p.0, p.1)
  {
    var qs := Swapped(ps);
    assert forall p :: p in qs <==> (p.1, p.0) in ps by {
      forall p ensures p in qs <==> (p.1, p.0) in ps {
        if p in qs {
          var i :| 0 <= i < |qs| && qs[i] == p;
          assert ps[i] == (p.1, p.0);
        }
        if (p.1, p.0) in ps {
          var i :| 0 <= i < |ps| && ps[i] == (p.1, p.0);
          assert qs[i] == p;
        }
      }
    }
    forall k | k in FromPairs(qs).dictionary ensures exists p :: p in ps && k == Key(p.1, p.0) {
      var q :| q in qs && k == Key(q.0, q.1);
      assert (q.1, q.0) in ps;
    }
    forall k | (exists p :: p in ps && k == Key(p.1, p.0)) ensures k in FromPairs(qs).dictionary {
      var p :| p in ps && k == Key(p.1, p.0);
      assert (p.1, p.0) in qs;
    }
    forall w | w in FromPairs(ps).rightWords ensures w in FromPairs(qs).leftWords {
      var p :| p in ps && w == p.1;
      assert (p.1, p.0) in qs;
    }
    forall w | w in FromPairs(ps).leftWords ensures w in FromPairs(qs).rightWords {
      var p :| p in ps && w == p.0;
      assert (p.1, p.0) in qs;
    }
  }
}
