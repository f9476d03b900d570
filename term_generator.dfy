/**
 * The term extraction of `TermGenerator.py`: the class that turns tokenised sentences and their
 * named-entity annotations into the term list, the term flags and the term occurrences, and
 * then numbers the distinct terms.
 */
module TermGeneration {

  import opened Wrappers
  import opened Text
  import opened TermSpec

  /** An entry of `entities` after postprocessing: `(term_id, entity_type)`. */
  datatype EntityRow = EntityRow(termId: int, entityType: Option<string>)

  /** An entry of `term_in_sentence` after postprocessing: `(doc_id, sen_id, term_id)`. */
  datatype IndexedOccurrence = IndexedOccurrence(docId: int, senId: int, termId: int)

  /** A row handed to the term table: `(term_id, term_text, is_entity)`. */
  datatype TermRow = TermRow(termId: int, text: string, isEntity: bool)

  /**
   * The document ids kept by the constructor: a non-zero `num_distinct_documents` keeps that
   * many from the front (a negative one drops that many from the end, as a Python slice does),
   * and 0 keeps all of them.
   */
  function LimitDocuments(ids: seq<int>, n: int): (r: seq<int>)
    ensures r <= ids
    ensures n == 0 ==> r == ids
    ensures n > 0 ==> |r| == if n < |ids| then n else |ids|
  {
    if n != 0 then PyPrefix(ids, n) else ids
  }

  /** The term records are consistent: flags exist for exactly the terms, and occurrences name terms. */
  predicate Consistent(st: TermState)
  {
    && st.termIsEntity.Keys == Elems(st.terms)
    && forall o :: o in st.termInSentence ==> o.text in st.termIsEntity
  }

  lemma ElemsAppendTexts(terms: seq<string>, kept: seq<Emission>)
    ensures Elems(terms + Texts(kept)) == Elems(terms) + (set e | e in kept :: e.text)
  {
    forall x | x in (set e | e in kept :: e.text) ensures x in Elems(terms + Texts(kept)) {
      var j :| 0 <= j < |kept| && kept[j].text == x;
      assert (terms + Texts(kept))[|terms| + j] == x;
    }
  }

  /** A run of `add_token` calls keeps the term records consistent. */
  lemma AddAllConsistent(st: TermState, p: Policy, docId: int, senId: int, es: seq<Emission>)
    requires Consistent(st)
    ensures Consistent(AddAll(st, p, docId, senId, es))
  {
    var kept := Kept(p, es);
    var r := AddAll(st, p, docId, senId, es);
    AddAllTerms(st, p, docId, senId, es);
    AddAllFlagKeys(st, p, docId, senId, es);
    ElemsAppendTexts(st.terms, kept);
    assert r.termIsEntity.Keys == Elems(r.terms);
    AddAllOccurrences(st, p, docId, senId, es);
    forall o | o in r.termInSentence ensures o.text in r.termIsEntity {
      if o !in st.termInSentence {
        var e :| e in kept && o == TermOccurrence(docId, senId, e.text);
      }
    }
  }

  /** What processing a list of sentences adds, given the entity dictionary. */
  function SentencesAdded(st: TermState, p: Policy, dict: map<(int, int), seq<Entity>>,
                          sentences: seq<Sentence>): TermState
  {
    if |sentences| == 0 then st
    else
      var s := sentences[|sentences| - 1];
      AddAll(SentencesAdded(st, p, dict, sentences[..|sentences| - 1]), p, s.docId, s.senId, SentenceEmissions(dict, s))
  }

  /** Processing one more sentence applies its emissions to the state after the earlier ones. */
  lemma SentencesAddedStep(st: TermState, p: Policy, dict: map<(int, int), seq<Entity>>, sentences: seq<Sentence>, i: nat)
    requires i < |sentences|
    ensures SentencesAdded(st, p, dict, sentences[..i + 1])
         == AddAll(SentencesAdded(st, p, dict, sentences[..i]), p, sentences[i].docId, sentences[i].senId,
                   SentenceEmissions(dict, sentences[i]))
  {
    assert sentences[..i + 1][..i] == sentences[..i];
  }

  /**
   * Sentences without an entry in the entity dictionary are processed exactly as when
   * entities are not replaced at all.
   */
  lemma {:induction false} ReplacedWithoutEntities(st: TermState, p: Policy, dict: map<(int, int), seq<Entity>>,
                                                    sentences: seq<Sentence>)
    requires forall s :: s in sentences ==> (s.docId, s.senId) !in dict
    ensures SentencesAdded(st, p, dict, sentences) == SentencesAdded(st, p, map[], sentences)
  {
    if |sentences| > 0 {
      var s := sentences[|sentences| - 1];
      ReplacedWithoutEntities(st, p, dict, sentences[..|sentences| - 1]);
      assert SentenceEmissions(dict, s) == Plains(s.tokens);
    }
  }

  /** Processing sentences keeps the term records consistent. */
  lemma {:induction false} SentencesConsistent(st: TermState, p: Policy, dict: map<(int, int), seq<Entity>>,
                                               sentences: seq<Sentence>)
    requires Consistent(st)
    ensures Consistent(SentencesAdded(st, p, dict, sentences))
  {
    if |sentences| > 0 {
      var s := sentences[|sentences| - 1];
      SentencesConsistent(st, p, dict, sentences[..|sentences| - 1]);
      AddAllConsistent(SentencesAdded(st, p, dict, sentences[..|sentences| - 1]), p, s.docId, s.senId,
                       SentenceEmissions(dict, s));
    }
  }

  // ---------------------------------------------------------------------------------------
  // postprocessing

  /** `{term: i for i, term in enumerate(terms)}`, with `order` the iteration order of the set. */
  function TermIds(order: seq<string>): map<string, int>
    requires NoDup(order)
  {
    map i | 0 <= i < |order| :: order[i] := i
  }

  /** `term_id` numbers the distinct terms: a bijection onto `0 .. n-1`. */
  lemma TermIdsBijection(order: seq<string>)
    requires NoDup(order)
    ensures TermIds(order).Keys == Elems(order)
    ensures |Elems(order)| == |order|
    ensures forall t :: t in TermIds(order) ==> 0 <= TermIds(order)[t] < |order| && order[TermIds(order)[t]] == t
    ensures forall i :: 0 <= i < |order| ==> order[i] in TermIds(order) && TermIds(order)[order[i]] == i
    ensures forall t, u :: t in TermIds(order) && u in TermIds(order) && TermIds(order)[t] == TermIds(order)[u] ==> t == u
  {
    DistinctElems(order);
    var ids := TermIds(order);
    forall t | t in ids ensures 0 <= ids[t] < |order| && order[ids[t]] == t {
      var i :| 0 <= i < |order| && order[i] == t;
    }
  }

  /** A map that numbers its keys without repetition. */
  predicate Injective(ids: map<string, int>)
  {
    forall t, u :: t in ids && u in ids && ids[t] == ids[u] ==> t == u
  }

  /** `[(term_id[k], v[1]) for k, v in term_is_entity.items() if v[0]]`, as a set. */
  function EntityRows(flags: map<string, EntityFlag>, ids: map<string, int>): set<EntityRow>
    requires flags.Keys <= ids.Keys
  {
    set t | t in flags && flags[t].isEntity :: EntityRow(ids[t], flags[t].entityType)
  }

  /** `entities` holds the id of a term exactly when the last flag recorded for the term is true. */
  lemma EntityRowsExact(flags: map<string, EntityFlag>, ids: map<string, int>, t: string)
    requires flags.Keys <= ids.Keys && Injective(ids) && t in flags
    ensures (exists r :: r in EntityRows(flags, ids) && r.termId == ids[t]) <==> flags[t].isEntity
    ensures flags[t].isEntity ==> EntityRow(ids[t], flags[t].entityType) in EntityRows(flags, ids)
  {
    if exists r :: r in EntityRows(flags, ids) && r.termId == ids[t] {
      var r :| r in EntityRows(flags, ids) && r.termId == ids[t];
      var u :| u in flags && flags[u].isEntity && r == EntityRow(ids[u], flags[u].entityType);
      assert u == t;
    }
    if flags[t].isEntity {
      assert EntityRow(ids[t], flags[t].entityType) in EntityRows(flags, ids);
    }
  }

  /** `term_in_sentence` with each text replaced by its term id. */
  function Remap(occurrences: set<TermOccurrence>, ids: map<string, int>): set<IndexedOccurrence>
    requires forall o :: o in occurrences ==> o.text in ids
  {
    set o | o in occurrences :: IndexedOccurrence(o.docId, o.senId, ids[o.text])
  }

  /** The remapping keeps `(doc_id, sen_id)` and loses nothing: it can be read back through the ids. */
  lemma RemapExact(occurrences: set<TermOccurrence>, ids: map<string, int>, o: TermOccurrence)
    requires forall x :: x in occurrences ==> x.text in ids
    requires Injective(ids) && o.text in ids
    ensures o in occurrences <==> IndexedOccurrence(o.docId, o.senId, ids[o.text]) in Remap(occurrences, ids)
  {
    if IndexedOccurrence(o.docId, o.senId, ids[o.text]) in Remap(occurrences, ids) {
      var x :| x in occurrences && IndexedOccurrence(x.docId, x.senId, ids[x.text]) == IndexedOccurrence(o.docId, o.senId, ids[o.text]);
      assert x.text == o.text;
    }
  }

  /** Every remapped occurrence comes from an occurrence of a term with that id. */
  lemma RemapMembers(occurrences: set<TermOccurrence>, ids: map<string, int>, r: IndexedOccurrence)
    requires forall x :: x in occurrences ==> x.text in ids
    requires r in Remap(occurrences, ids)
    ensures exists t :: t in ids && ids[t] == r.termId && TermOccurrence(r.docId, r.senId, t) in occurrences
  {
    var x :| x in occurrences && r == IndexedOccurrence(x.docId, x.senId, ids[x.text]);
    assert TermOccurrence(r.docId, r.senId, x.text) == x;
  }

  // ---------------------------------------------------------------------------------------
  // push_terms

  /**
   * The rows `push_terms` hands to the term table, or None when there are no terms (it then
   * returns 0 without pushing). Each term's text is cut to `max_term_length` characters.
   */
  function PushTermRows(ids: map<string, int>, flags: map<string, EntityFlag>, maxTermLength: int): (r: Option<set<TermRow>>)
    requires ids.Keys <= flags.Keys
    ensures r.None? <==> |ids| == 0
    ensures r.Some? ==> forall t :: t in ids ==> TermRow(ids[t], PyPrefix(t, maxTermLength), flags[t].isEntity) in r.value
  {
    if |ids| == 0 then None
    else Some(set t | t in ids :: TermRow(ids[t], PyPrefix(t, maxTermLength), flags[t].isEntity))
  }

  /** Each pushed text is the start of a term, at most `max_term_length` characters long. */
  lemma PushedTextsTruncated(ids: map<string, int>, flags: map<string, EntityFlag>, maxTermLength: int, row: TermRow)
    requires ids.Keys <= flags.Keys && maxTermLength >= 0
    requires PushTermRows(ids, flags, maxTermLength).Some? && row in PushTermRows(ids, flags, maxTermLength).value
    ensures exists t :: t in ids && ids[t] == row.termId && row.text <= t
    ensures |row.text| <= maxTermLength
  {
    var t :| t in ids && row == TermRow(ids[t], PyPrefix(t, maxTermLength), flags[t].isEntity);
  }

  // ---------------------------------------------------------------------------------------
  // The class

  class TermGenerator {
    var removeStopwords: bool
    var stopwords: set<string>
    var removedCounter: nat
    var maxTermLength: int
    var firstDistinctDocuments: seq<int>
    var occurrenceDict: map<(int, int), seq<Entity>>
    var terms: seq<string>
    var termIsEntity: map<string, EntityFlag>
    var termInSentence: set<TermOccurrence>
    // Set by postprocessing, which in the source retypes `terms`, `term_in_sentence` and `entities`.
    var distinctTerms: set<string>
    var termId: map<string, int>
    var entities: set<EntityRow>
    var indexedOccurrences: set<IndexedOccurrence>

    ghost function State(): TermState
      reads this`terms, this`termIsEntity, this`termInSentence, this`removedCounter
    {
      TermState(terms, termIsEntity, termInSentence, removedCounter)
    }

    function Policy(): Policy
      reads this`removeStopwords, this`stopwords
    {
      TermSpec.Policy(removeStopwords, stopwords)
    }

    /** Every list in the entity dictionary is non-empty, so `process_document` can pop its first entity. */
    ghost predicate Valid()
      reads this
    {
      && Consistent(State())
      && forall key :: key in occurrenceDict ==> |occurrenceDict[key]| > 0
    }

    /**
     * `__init__` without the database and NLP setup: the document ids are read from the
     * document table by the caller, and the library stopwords are a parameter.
     */
    constructor(documentIds: seq<int>, numDistinctDocuments: int, removeStopwords: bool,
                libraryStopwords: set<string>, customStopwords: seq<string>, maxTermLength: int)
      ensures firstDistinctDocuments == LimitDocuments(documentIds, numDistinctDocuments)
      ensures this.removeStopwords == removeStopwords && this.maxTermLength == maxTermLength
      ensures stopwords == libraryStopwords + Elems(customStopwords)
      ensures State() == TermState([], map[], {}, 0) && occurrenceDict == map[]
      ensures Valid()
    {
      firstDistinctDocuments := LimitDocuments(documentIds, numDistinctDocuments);
      this.removeStopwords := removeStopwords;
      this.maxTermLength := maxTermLength;
      occurrenceDict := map[];
      terms, termIsEntity, termInSentence := [], map[], {};
      distinctTerms, termId, entities, indexedOccurrences := {}, map[], {}, {};
      removedCounter := 0;
      stopwords := libraryStopwords;
      new;
      for i := 0 to |customStopwords|
        invariant stopwords == libraryStopwords + Elems(customStopwords[..i])
        invariant State() == TermState([], map[], {}, 0) && occurrenceDict == map[]
        invariant firstDistinctDocuments == LimitDocuments(documentIds, numDistinctDocuments)
        invariant this.removeStopwords == removeStopwords && this.maxTermLength == maxTermLength
      {
        assert customStopwords[..i + 1] == customStopwords[..i] + [customStopwords[i]];
        stopwords := stopwords + {customStopwords[i]};
      }
      assert customStopwords[..|customStopwords|] == customStopwords;
    }

    /**
     * `add_token`: a stopword (when they are removed) only counts; any other text is appended
     * to the terms, its flag is overwritten, and its occurrence in the sentence is recorded.
     */
    method AddToken(docId: int, senId: int, text: string, isEntity: bool, entityType: Option<string>)
      requires Valid()
      modifies this`terms, this`termIsEntity, this`termInSentence, this`removedCounter
      ensures Valid()
      ensures State() == Add(old(State()), Policy(), docId, senId, Emission(text, isEntity, entityType))
      ensures removeStopwords && text in stopwords ==>
                removedCounter == old(removedCounter) + 1 && terms == old(terms)
                && termIsEntity == old(termIsEntity) && termInSentence == old(termInSentence)
      ensures !(removeStopwords && text in stopwords) ==>
                && terms == old(terms) + [text]
                && termIsEntity == old(termIsEntity)[text := EntityFlag(isEntity, entityType)]
                && termInSentence == old(termInSentence) + {TermOccurrence(docId, senId, text)}
                && removedCounter == old(removedCounter)
    {
      if removeStopwords && text in stopwords {
        removedCounter := removedCounter + 1;
        return;
      }
      assert Elems(terms + [text]) == Elems(terms) + {text};
      terms := terms + [text];
      termIsEntity := termIsEntity[text := EntityFlag(isEntity, entityType)];
      termInSentence := termInSentence + {TermOccurrence(docId, senId, text)};
    }

    /** `replace_procedure` without the query: groups the fetched entities by `(doc_id, sen_id)` in two passes. */
    method ReplaceProcedure(occurring: seq<Entity>)
      requires Valid()
      modifies this`occurrenceDict
      ensures Valid()
      ensures occurrenceDict.Keys == old(occurrenceDict).Keys + KeysOf(occurring)
      ensures forall key :: key in KeysOf(occurring) ==> occurrenceDict[key] == EntitiesAt(occurring, key)
      ensures forall key :: key in old(occurrenceDict) && key !in KeysOf(occurring) ==>
                occurrenceDict[key] == old(occurrenceDict)[key]
    {
      ghost var d0 := occurrenceDict;
      GroupByKey(occurring);
      GroupsNonEmpty(d0, occurrenceDict, occurring);
    }

    /** The two passes of `replace_procedure`: an empty list per key, then every entity appended to its key's list. */
    method GroupByKey(occurring: seq<Entity>)
      modifies this`occurrenceDict
      ensures occurrenceDict.Keys == old(occurrenceDict).Keys + KeysOf(occurring)
      ensures forall key :: key in KeysOf(occurring) ==> occurrenceDict[key] == EntitiesAt(occurring, key)
      ensures forall key :: key in old(occurrenceDict) && key !in KeysOf(occurring) ==>
                occurrenceDict[key] == old(occurrenceDict)[key]
    {
      ghost var d0 := occurrenceDict;
      for i := 0 to |occurring|
        invariant occurrenceDict.Keys == d0.Keys + KeysOf(occurring[..i])
        invariant forall key :: key in KeysOf(occurring[..i]) ==> occurrenceDict[key] == []
        invariant forall key :: key in d0 && key !in KeysOf(occurring[..i]) ==> occurrenceDict[key] == d0[key]
      {
        KeysOfSnoc(occurring, i);
        occurrenceDict := occurrenceDict[Key(occurring[i]) := []];
      }
      assert occurring[..|occurring|] == occurring;
      for i := 0 to |occurring|
        invariant occurrenceDict.Keys == d0.Keys + KeysOf(occurring)
        invariant forall key :: key in KeysOf(occurring) ==> occurrenceDict[key] == EntitiesAt(occurring[..i], key)
        invariant forall key :: key in d0 && key !in KeysOf(occurring) ==> occurrenceDict[key] == d0[key]
      {
        var key := Key(occurring[i]);
        assert key in KeysOf(occurring);
        EntitiesAtSnoc(occurring, i);
        occurrenceDict := occurrenceDict[key := occurrenceDict[key] + [occurring[i]]];
      }
    }

    /** `add_token` with the default arguments for every token of a sentence. */
    method AddPlainTokens(s: Sentence)
      requires Valid()
      modifies this`terms, this`termIsEntity, this`termInSentence, this`removedCounter
      ensures Valid()
      ensures State() == AddAll(old(State()), Policy(), s.docId, s.senId, Plains(s.tokens))
    {
      ghost var st0 := State();
      for i := 0 to |s.tokens|
        invariant State() == AddAll(st0, Policy(), s.docId, s.senId, Plains(s.tokens[..i]))
        invariant Valid()
      {
        assert Plains(s.tokens[..i + 1]) == Plains(s.tokens[..i]) + [Plain(s.tokens[i])];
        AddAllSnoc(st0, Policy(), s.docId, s.senId, Plains(s.tokens[..i]), Plain(s.tokens[i]));
        AddToken(s.docId, s.senId, s.tokens[i].text, false, None);
      }
      assert s.tokens[..|s.tokens|] == s.tokens;
    }

    /**
     * `process_document`: walks the tokens against the sentence's entities sorted by start,
     * replacing each entity's covered tokens by its text.
     */
    method ProcessDocument(s: Sentence)
      requires Valid() && (s.docId, s.senId) in occurrenceDict
      modifies this`terms, this`termIsEntity, this`termInSentence, this`removedCounter
      ensures Valid()
      ensures State() == AddAll(old(State()), Policy(), s.docId, s.senId, SentenceEmissions(occurrenceDict, s))
    {
      ghost var st0 := State();
      var currentEntities := SortByStart(occurrenceDict[(s.docId, s.senId)]);
      ghost var sorted := currentEntities;
      var currentEl := currentEntities[0];
      currentEntities := currentEntities[1..];
      var reachedEnd := false;
      ghost var w := Walker([], 0, false);
      for i := 0 to |s.tokens|
        invariant w == Walk(sorted, s.tokens, i)
        invariant WalkerAt(sorted, w, currentEl, currentEntities, reachedEnd)
        invariant State() == AddAll(st0, Policy(), s.docId, s.senId, w.emitted)
        invariant Valid()
      {
        currentEl, currentEntities, reachedEnd, w := AdvanceWalk(s, i, sorted, st0, w, currentEl, currentEntities, reachedEnd);
      }
    }

    /** The token loop of `process_document` after `i` tokens, one token further. */
    method AdvanceWalk(s: Sentence, i: nat, ghost sorted: seq<Entity>, ghost st0: TermState, ghost w: Walker,
                       currentEl: Entity, currentEntities: seq<Entity>, reachedEnd: bool)
      returns (el: Entity, rest: seq<Entity>, ended: bool, ghost next: Walker)
      requires |sorted| > 0 && i < |s.tokens| && w == Walk(sorted, s.tokens, i)
      requires WalkerAt(sorted, w, currentEl, currentEntities, reachedEnd)
      requires State() == AddAll(st0, Policy(), s.docId, s.senId, w.emitted) && Valid()
      modifies this`terms, this`termIsEntity, this`termInSentence, this`removedCounter
      ensures Valid()
      ensures next == Walk(sorted, s.tokens, i + 1)
      ensures WalkerAt(sorted, next, el, rest, ended)
      ensures State() == AddAll(st0, Policy(), s.docId, s.senId, next.emitted)
    {
      WalkStep(sorted, s.tokens, i);
      ghost var added;
      el, rest, ended, next, added := WalkToken(s, s.tokens[i], sorted, w, currentEl, currentEntities, reachedEnd);
      AddAllAppend(st0, Policy(), s.docId, s.senId, w.emitted, added);
    }

    /** One pass of the token loop of `process_document`. */
    method WalkToken(s: Sentence, token: Token, ghost sorted: seq<Entity>, ghost w: Walker,
                     currentEl: Entity, currentEntities: seq<Entity>, reachedEnd: bool)
      returns (el: Entity, rest: seq<Entity>, ended: bool, ghost next: Walker, ghost added: seq<Emission>)
      requires WalkerAt(sorted, w, currentEl, currentEntities, reachedEnd) && Valid()
      modifies this`terms, this`termIsEntity, this`termInSentence, this`removedCounter
      ensures Valid()
      ensures next == TokenStep(sorted, w, token) && WalkerAt(sorted, next, el, rest, ended)
      ensures next.emitted == w.emitted + added
      ensures State() == AddAll(old(State()), Policy(), s.docId, s.senId, added)
    {
      el, rest, ended := currentEl, currentEntities, reachedEnd;
      var currentStart, currentEnd := currentEl.startSen, currentEl.endSen;
      if token.idx < currentStart || reachedEnd {
        AddToken(s.docId, s.senId, token.text, false, None);
        added := [Plain(token)];
        assert [Plain(token)][..0] == [];
      } else if currentStart <= token.idx < currentEnd {
        added := [];
      } else {
        AddEntityAndToken(s, currentEl, token);
        added := [Emit(currentEl), Plain(token)];
        if |currentEntities| > 0 {
          el := currentEntities[0];
          rest := currentEntities[1..];
          DropFirst(sorted, w.current + 1);
        } else {
          ended := true;
        }
      }
      next := TokenStep(sorted, w, token);
    }

    /**
     * The last branch of the token loop: the entity text (its `normalized` form for a date,
     * its `normalized_label` otherwise) with its class, then the token that ended the span.
     */
    method AddEntityAndToken(s: Sentence, currentEl: Entity, token: Token)
      requires Valid()
      modifies this`terms, this`termIsEntity, this`termInSentence, this`removedCounter
      ensures Valid()
      ensures State() == AddAll(old(State()), Policy(), s.docId, s.senId, [Emit(currentEl), Plain(token)])
    {
      var currentEntityText;
      if currentEl.neClass == "DAT" {
        currentEntityText := currentEl.normalized;
      } else {
        currentEntityText := currentEl.normalizedLabel;
      }
      ghost var st0 := State();
      AddToken(s.docId, s.senId, currentEntityText, true, Some(currentEl.neClass));
      AddAllSnoc(st0, Policy(), s.docId, s.senId, [], Emit(currentEl));
      assert [] + [Emit(currentEl)] == [Emit(currentEl)];
      AddToken(s.docId, s.senId, token.text, false, None);
      AddAllSnoc(st0, Policy(), s.docId, s.senId, [Emit(currentEl)], Plain(token));
      assert [Emit(currentEl)] + [Plain(token)] == [Emit(currentEl), Plain(token)];
    }

    /** `process_replaced`: sentences with entities go through the walk, the others are added token by token. */
    method ProcessReplaced(sentences: seq<Sentence>)
      requires Valid()
      modifies this`terms, this`termIsEntity, this`termInSentence, this`removedCounter
      ensures State() == SentencesAdded(old(State()), Policy(), occurrenceDict, sentences)
      ensures Valid()
    {
      ghost var st0 := State();
      for i := 0 to |sentences|
        invariant State() == SentencesAdded(st0, Policy(), occurrenceDict, sentences[..i])
        invariant Valid()
      {
        var s := sentences[i];
        SentencesAddedStep(st0, Policy(), occurrenceDict, sentences, i);
        if (s.docId, s.senId) in occurrenceDict {
          ProcessDocument(s);
        } else {
          AddPlainTokens(s);
        }
      }
      assert sentences[..|sentences|] == sentences;
    }

    /** `process_unreplaced`: every token of every sentence is added as a plain token. */
    method ProcessUnreplaced(sentences: seq<Sentence>)
      requires Valid()
      modifies this`terms, this`termIsEntity, this`termInSentence, this`removedCounter
      ensures State() == SentencesAdded(old(State()), Policy(), map[], sentences)
      ensures Valid()
    {
      ghost var st0 := State();
      for i := 0 to |sentences|
        invariant State() == SentencesAdded(st0, Policy(), map[], sentences[..i])
        invariant Valid()
      {
        SentencesAddedStep(st0, Policy(), map[], sentences, i);
        AddPlainTokens(sentences[i]);
      }
      assert sentences[..|sentences|] == sentences;
    }

    /**
     * `postprocessing`: numbers the distinct terms in the iteration order `order` of
     * `set(terms)`, then lists the entity terms and the occurrences by id.
     */
    method Postprocessing(order: seq<string>)
      requires Valid() && NoDup(order) && Elems(order) == Elems(terms)
      modifies this`distinctTerms, this`termId, this`entities, this`indexedOccurrences
      ensures distinctTerms == Elems(terms) && termId == TermIds(order)
      ensures entities == EntityRows(termIsEntity, termId)
      ensures indexedOccurrences == Remap(termInSentence, termId)
      ensures termId.Keys == distinctTerms && Injective(termId)
      ensures forall t :: t in termId ==> 0 <= termId[t] < |distinctTerms|
      ensures Valid()
    {
      TermIdsBijection(order);
      distinctTerms := Elems(terms);
      termId := TermIds(order);
      entities := EntityRows(termIsEntity, termId);
      indexedOccurrences := Remap(termInSentence, termId);
    }
  }

  /** Grouping entities into a dictionary of non-empty lists keeps every list non-empty. */
  lemma GroupsNonEmpty(d0: map<(int, int), seq<Entity>>, d: map<(int, int), seq<Entity>>, occurring: seq<Entity>)
    requires forall key :: key in d0 ==> |d0[key]| > 0
    requires d.Keys == d0.Keys + KeysOf(occurring)
    requires forall key :: key in KeysOf(occurring) ==> d[key] == EntitiesAt(occurring, key)
    requires forall key :: key in d0 && key !in KeysOf(occurring) ==> d[key] == d0[key]
    ensures forall key :: key in d ==> |d[key]| > 0
  {
    forall key | key in KeysOf(occurring) ensures |d[key]| > 0 {
      EntitiesAtMembers(occurring, key);
    }
  }

  /** The walk stands at `current` and the popped list holds the entities after it. */
  predicate WalkerAt(sorted: seq<Entity>, w: Walker, currentEl: Entity, currentEntities: seq<Entity>, reachedEnd: bool)
  {
    && w.current < |sorted| && w.reachedEnd == reachedEnd
    && currentEl == sorted[w.current] && currentEntities == sorted[w.current + 1..]
  }

  lemma DropFirst<T>(s: seq<T>, k: nat)
    requires k < |s|
    ensures s[k..][0] == s[k] && s[k..][1..] == s[k + 1..]
  {
  }

  lemma WalkStep(sorted: seq<Entity>, tokens: seq<Token>, i: nat)
    requires |sorted| > 0 && i < |tokens|
    ensures Walk(sorted, tokens, i + 1) == TokenStep(sorted, Walk(sorted, tokens, i), tokens[i])
  {
  }

  lemma KeysOfSnoc(es: seq<Entity>, i: nat)
    requires i < |es|
    ensures KeysOf(es[..i + 1]) == KeysOf(es[..i]) + {Key(es[i])}
  {
    assert es[..i + 1] == es[..i] + [es[i]];
  }

  lemma EntitiesAtSnoc(es: seq<Entity>, i: nat)
    requires i < |es|
    ensures forall key :: EntitiesAt(es[..i + 1], key) == EntitiesAt(es[..i], key) + if Key(es[i]) == key then [es[i]] else []
  {
    assert es[..i + 1][..i] == es[..i];
  }
}
