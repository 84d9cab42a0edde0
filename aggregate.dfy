/**
 * The accumulating dictionary and vocabularies that every selected source is
 * unioned into, and the loading of the selected sources in their fixed order.
 */
module Aggregation {
  import opened Wrappers
  import opened Lexicons
  import FreeDict
  import Ding

  /** The three module-level sets the sources are added to. */
  class Aggregate {
    var dictionary: set<string>
    var englishWords: set<string>
    var germanWords: set<string>

    constructor ()
      ensures Contents() == Empty
    {
      dictionary, englishWords, germanWords := {}, {}, {};
    }

    function Contents(): Lexicon
      reads this
    {
      Lexicon(dictionary, englishWords, germanWords)
    }

    /** `addAll`: updates each set with the matching set of `source`. */
    method AddAll(source: Lexicon)
      modifies this
      ensures Contents() == Union(old(Contents()), source)
    {
      dictionary := dictionary + source.dictionary;
      englishWords := englishWords + source.leftWords;
      germanWords := germanWords + source.rightWords;
    }
  }

  /** Which sources to load, and whether the classifier falls back to cognate. */
  datatype Config = Config(fallbackCognate: bool, freedictEnDe: bool, freedictDeEn: bool, ding: bool)

  /** The contents of the three dictionary files. */
  datatype Sources = Sources(enDe: seq<FreeDict.Entry>, deEn: seq<FreeDict.Entry>, ding: seq<string>)

  datatype LoadError =
    | NoDictionarySelected                  // "Must at least load specify one dictionary"
    | BadDictionaryLine(error: Ding.DingError)

  predicate AnySelected(config: Config)
  {
    config.freedictEnDe || config.freedictDeEn || config.ding
  }

  /** What each source contributes: the English-German FreeDict as is, the other two inverted. */
  function EnDeLexicon(sources: Sources): Lexicon
  {
    AddPairs(Empty, FreeDict.EntriesPairs(sources.enDe), false)
  }

  function DeEnLexicon(sources: Sources): Lexicon
  {
    AddPairs(Empty, FreeDict.EntriesPairs(sources.deEn), true)
  }

  function DingLexicon(sources: Sources): Result<Lexicon, Ding.DingError>
  {
    Ding.Ingest(Empty, Ding.FilePairs(sources.ding), true)
  }

  function Selected(on: bool, lex: Lexicon): Lexicon
  {
    if on then lex else Empty
  }

  /** The aggregated lexicon, or the error that stops the run before classification. */
  function Loaded(config: Config, sources: Sources): Result<Lexicon, LoadError>
  {
    if !AnySelected(config) then Err(NoDictionarySelected)
    else if config.ding && DingLexicon(sources).Err? then Err(BadDictionaryLine(DingLexicon(sources).error))
    else
      var d := if config.ding then DingLexicon(sources).value else Empty;
      Ok(Union(Union(Selected(config.freedictEnDe, EnDeLexicon(sources)), Selected(config.freedictDeEn, DeEnLexicon(sources))), d))
  }

  lemma UnionEmptyRight(lex: Lexicon)
    ensures Union(lex, Empty) == lex
  {
  }

  /** Loading fails exactly when no source is selected or the selected Ding file has a bad line. */
  lemma LoadFailures(config: Config, sources: Sources)
    ensures Loaded(config, sources).Err? <==>
      !AnySelected(config) || (config.ding && exists k :: 0 <= k < |sources.ding| && Ding.LinePairs(sources.ding[k]).Err?)
    ensures !AnySelected(config) ==> Loaded(config, sources) == Err(NoDictionarySelected)
  {
    Ding.FileFailures(sources.ding);
  }

  /**
   * The order the sources are added in does not matter: a key or word is in
   * the aggregate exactly when one of the selected sources has it.
   */
  lemma LoadedMembers(config: Config, sources: Sources)
    requires Loaded(config, sources).Ok?
    ensures forall k :: k in Loaded(config, sources).value.dictionary <==>
      (config.freedictEnDe && k in EnDeLexicon(sources).dictionary) ||
      (config.freedictDeEn && k in DeEnLexicon(sources).dictionary) ||
      (config.ding && k in DingLexicon(sources).value.dictionary)
    ensures forall w :: w in Loaded(config, sources).value.leftWords <==>
      (config.freedictEnDe && w in EnDeLexicon(sources).leftWords) ||
      (config.freedictDeEn && w in DeEnLexicon(sources).leftWords) ||
      (config.ding && w in DingLexicon(sources).value.leftWords)
    ensures forall w :: w in Loaded(config, sources).value.rightWords <==>
      (config.freedictEnDe && w in EnDeLexicon(sources).rightWords) ||
      (config.freedictDeEn && w in DeEnLexicon(sources).rightWords) ||
      (config.ding && w in DingLexicon(sources).value.rightWords)
  {
  }

  /** Every key of the aggregate joins an English word and a German word of its vocabularies. */
  lemma LoadedConsistent(config: Config, sources: Sources)
    requires Loaded(config, sources).Ok?
    ensures Consistent(Loaded(config, sources).value)
  {
    FreeDict.ReadConsistent(sources.enDe, false);
    FreeDict.ReadConsistent(sources.deEn, true);
    assert Consistent(Empty);
    var a := Selected(config.freedictEnDe, EnDeLexicon(sources));
    var b := Selected(config.freedictDeEn, DeEnLexicon(sources));
    UnionConsistent(a, b);
    if config.ding {
      Ding.ReadConsistent(sources.ding, true);
      UnionConsistent(Union(a, b), DingLexicon(sources).value);
    } else {
      UnionConsistent(Union(a, b), Empty);
    }
  }

  /**
   * Checks the selection, then reads and adds the selected sources in the
   * fixed order English-German FreeDict, German-English FreeDict, Ding.
   */
  method Load(config: Config, sources: Sources) returns (r: Result<Aggregate, LoadError>)
    ensures r.Ok? <==> Loaded(config, sources).Ok?
    ensures r.Err? ==> r.error == Loaded(config, sources).error
    ensures r.Ok? ==> fresh(r.value) && r.value.Contents() == Loaded(config, sources).value
  {
    if !config.freedictEnDe && !config.freedictDeEn && !config.ding {
      return Err(NoDictionarySelected);
    }
    var aggregate := new Aggregate();
    ghost var a := Selected(config.freedictEnDe, EnDeLexicon(sources));
    ghost var b := Selected(config.freedictDeEn, DeEnLexicon(sources));
    if config.freedictEnDe {
      var lex := FreeDict.ReadFreeDict(sources.enDe, false);
      aggregate.AddAll(lex);
      UnionEmpty(lex);
    }
    assert aggregate.Contents() == a;
    if config.freedictDeEn {
      var lex := FreeDict.ReadFreeDict(sources.deEn, true);
      aggregate.AddAll(lex);
    } else {
      UnionEmptyRight(a);
    }
    assert aggregate.Contents() == Union(a, b);
    if config.ding {
      var read := Ding.ReadDing(sources.ding, true);
      if read.Err? {
        return Err(BadDictionaryLine(read.error));
      }
      aggregate.AddAll(read.value);
    } else {
      UnionEmptyRight(Union(a, b));
    }
    return Ok(aggregate);
  }
}
