/**
 * Value-level specification of the term extraction in `TermGenerator.py`: what one
 * `add_token` call does to the term records, the entity grouping of `replace_procedure`,
 * and the token walk of `process_document`.
 */
module TermSpec {

  import opened Wrappers

  /** A spaCy token: its character offset in the sentence and its text. */
  datatype Token = Token(idx: int, text: string)

  /** A named-entity annotation of a sentence, with its character span `[startSen, endSen)`. */
  datatype Entity = Entity(docId: int, senId: int, startSen: int, endSen: int,
                           neClass: string, normalized: string, normalizedLabel: string)

  /** A sentence with its tokens, as the tokenizer hands them over. */
  datatype Sentence = Sentence(docId: int, senId: int, tokens: seq<Token>)

  /** The arguments of one `add_token` call besides the sentence. */
  datatype Emission = Emission(text: string, isEntity: bool, entityType: Option<string>)

  /** A value of `term_is_entity`: `(is_entity, entity_type)`. */
  datatype EntityFlag = EntityFlag(isEntity: bool, entityType: Option<string>)

  /** An entry of `term_in_sentence` before postprocessing: `(doc_id, sen_id, text)`. */
  datatype TermOccurrence = TermOccurrence(docId: int, senId: int, text: string)

  /** The term records `add_token` maintains. */
  datatype TermState = TermState(terms: seq<string>, termIsEntity: map<string, EntityFlag>,
                                 termInSentence: set<TermOccurrence>, removedCounter: nat)

  /** Whether stopwords are removed, and which. */
  datatype Policy = Policy(removeStopwords: bool, stopwords: set<string>)

  predicate Removed(p: Policy, text: string)
  {
    p.removeStopwords && text in p.stopwords
  }

  function Flag(e: Emission): EntityFlag
  {
    EntityFlag(e.isEntity, e.entityType)
  }

  /** One `add_token` call. */
  function Add(st: TermState, p: Policy, docId: int, senId: int, e: Emission): TermState
  {
    if Removed(p, e.text) then st.(removedCounter := st.removedCounter + 1)
    else TermState(st.terms + [e.text], st.termIsEntity[e.text := Flag(e)],
                   st.termInSentence + {TermOccurrence(docId, senId, e.text)}, st.removedCounter)
  }

  /** `add_token` called for each emission in turn, all in one sentence. */
  function AddAll(st: TermState, p: Policy, docId: int, senId: int, es: seq<Emission>): TermState
  {
    if |es| == 0 then st else Add(AddAll(st, p, docId, senId, es[..|es| - 1]), p, docId, senId, es[|es| - 1])
  }

  lemma AddAllSnoc(st: TermState, p: Policy, docId: int, senId: int, es: seq<Emission>, e: Emission)
    ensures AddAll(st, p, docId, senId, es + [e]) == Add(AddAll(st, p, docId, senId, es), p, docId, senId, e)
  {
    assert (es + [e])[..|es|] == es;
  }

  lemma {:induction false} AddAllAppend(st: TermState, p: Policy, docId: int, senId: int, es: seq<Emission>, more: seq<Emission>)
    ensures AddAll(st, p, docId, senId, es + more) == AddAll(AddAll(st, p, docId, senId, es), p, docId, senId, more)
    decreases |more|
  {
    if |more| == 0 {
      assert es + more == es;
    } else {
      var init := more[..|more| - 1];
      AddAllAppend(st, p, docId, senId, es, init);
      assert (es + more)[..|es + more| - 1] == es + init;
    }
  }

  /** The emissions that survive stopword removal. */
  function Kept(p: Policy, es: seq<Emission>): (r: seq<Emission>)
    ensures |r| <= |es|
    ensures forall e :: e in r ==> e in es && !Removed(p, e.text)
  {
    if |es| == 0 then []
    else Kept(p, es[..|es| - 1]) + (if Removed(p, es[|es| - 1].text) then [] else [es[|es| - 1]])
  }

  function Texts(es: seq<Emission>): (r: seq<string>)
    ensures |r| == |es| && forall i :: 0 <= i < |es| ==> r[i] == es[i].text
  {
    seq(|es|, i requires 0 <= i < |es| => es[i].text)
  }

  /** Position `j` holds the last emission with its text. */
  predicate LastWith(es: seq<Emission>, j: int)
    requires 0 <= j < |es|
  {
    forall j' :: j < j' < |es| ==> es[j'].text != es[j].text
  }

  /** A run of `add_token` calls appends the kept texts to `terms` in order; each removed one only counts. */
  lemma {:induction false} AddAllTerms(st: TermState, p: Policy, docId: int, senId: int, es: seq<Emission>)
    ensures AddAll(st, p, docId, senId, es).terms == st.terms + Texts(Kept(p, es))
    ensures AddAll(st, p, docId, senId, es).removedCounter == st.removedCounter + (|es| - |Kept(p, es)|)
  {
    if |es| > 0 {
      var init, e := es[..|es| - 1], es[|es| - 1];
      AddAllTerms(st, p, docId, senId, init);
      if !Removed(p, e.text) {
        assert Texts(Kept(p, es)) == Texts(Kept(p, init)) + [e.text];
      }
    }
  }

  /** Every kept text is recorded as occurring in the sentence, and nothing else is. */
  lemma {:induction false} AddAllOccurrences(st: TermState, p: Policy, docId: int, senId: int, es: seq<Emission>)
    ensures AddAll(st, p, docId, senId, es).termInSentence
         == st.termInSentence + (set e | e in Kept(p, es) :: TermOccurrence(docId, senId, e.text))
  {
    if |es| > 0 {
      var init, e := es[..|es| - 1], es[|es| - 1];
      AddAllOccurrences(st, p, docId, senId, init);
      var k0 := Kept(p, init);
      if !Removed(p, e.text) {
        assert Kept(p, es) == k0 + [e];
        assert (set x | x in k0 + [e] :: TermOccurrence(docId, senId, x.text))
            == (set x | x in k0 :: TermOccurrence(docId, senId, x.text)) + {TermOccurrence(docId, senId, e.text)};
      }
    }
  }

  /** The flag keys grow by the kept texts, and the flags of texts not kept stay as they were. */
  lemma AddAllFlagKeys(st: TermState, p: Policy, docId: int, senId: int, es: seq<Emission>)
    ensures var m := AddAll(st, p, docId, senId, es).termIsEntity;
            && m.Keys == st.termIsEntity.Keys + (set e | e in Kept(p, es) :: e.text)
            && forall t :: t in st.termIsEntity && (forall e :: e in Kept(p, es) ==> e.text != t) ==> m[t] == st.termIsEntity[t]
  {
    AddAllFlagDomain(st, p, docId, senId, es);
    AddAllFlagsUntouched(st, p, docId, senId, es);
  }

  lemma {:induction false} AddAllFlagDomain(st: TermState, p: Policy, docId: int, senId: int, es: seq<Emission>)
    ensures AddAll(st, p, docId, senId, es).termIsEntity.Keys == st.termIsEntity.Keys + (set e | e in Kept(p, es) :: e.text)
  {
    if |es| > 0 {
      var init, e := es[..|es| - 1], es[|es| - 1];
      AddAllFlagDomain(st, p, docId, senId, init);
      var k0 := Kept(p, init);
      if !Removed(p, e.text) {
        assert Kept(p, es) == k0 + [e];
        assert (set x | x in k0 + [e] :: x.text) == (set x | x in k0 :: x.text) + {e.text};
      } else {
        assert Kept(p, es) == k0;
      }
    }
  }

  lemma {:induction false} AddAllFlagsUntouched(st: TermState, p: Policy, docId: int, senId: int, es: seq<Emission>)
    ensures var m := AddAll(st, p, docId, senId, es).termIsEntity;
            forall t :: t in st.termIsEntity && (forall e :: e in Kept(p, es) ==> e.text != t) ==> t in m && m[t] == st.termIsEntity[t]
  {
    if |es| > 0 {
      var init, e := es[..|es| - 1], es[|es| - 1];
      AddAllFlagsUntouched(st, p, docId, senId, init);
      var k0 := Kept(p, init);
      if !Removed(p, e.text) {
        assert Kept(p, es) == k0 + [e];
        assert forall x :: x in k0 ==> x in Kept(p, es);
      } else {
        assert Kept(p, es) == k0;
      }
    }
  }

  lemma LastWithInit(kept: seq<Emission>, j: nat)
    requires j < |kept| - 1 && LastWith(kept, j)
    ensures LastWith(kept[..|kept| - 1], j)
  {
    var k0 := kept[..|kept| - 1];
    forall j' | j < j' < |k0| ensures k0[j'].text != k0[j].text {
      assert kept[j'] == k0[j'];
    }
  }

  /** Every text in `kept` maps in `m` to the flag of its last emission in `kept`. */
  predicate LastFlags(m: map<string, EntityFlag>, kept: seq<Emission>)
  {
    forall j :: 0 <= j < |kept| && LastWith(kept, j) ==> kept[j].text in m && m[kept[j].text] == Flag(kept[j])
  }

  lemma LastFlagsSnoc(m0: map<string, EntityFlag>, k0: seq<Emission>, e: Emission)
    requires LastFlags(m0, k0)
    ensures LastFlags(m0[e.text := Flag(e)], k0 + [e])
  {
    var kept := k0 + [e];
    var m := m0[e.text := Flag(e)];
    forall j | 0 <= j < |kept| && LastWith(kept, j)
      ensures kept[j].text in m && m[kept[j].text] == Flag(kept[j])
    {
      if j < |k0| {
        assert kept[..|kept| - 1] == k0;
        LastWithInit(kept, j);
        assert kept[j] == k0[j];
        assert kept[|k0|] == e;
      }
    }
  }

  /** The flag of each kept text is the one of its last kept emission: the last write wins. */
  lemma {:induction false} AddAllLastFlag(st: TermState, p: Policy, docId: int, senId: int, es: seq<Emission>)
    ensures LastFlags(AddAll(st, p, docId, senId, es).termIsEntity, Kept(p, es))
  {
    if |es| > 0 {
      var init, e := es[..|es| - 1], es[|es| - 1];
      AddAllLastFlag(st, p, docId, senId, init);
      if !Removed(p, e.text) {
        assert Kept(p, es) == Kept(p, init) + [e];
        LastFlagsSnoc(AddAll(st, p, docId, senId, init).termIsEntity, Kept(p, init), e);
      } else {
        assert Kept(p, es) == Kept(p, init);
        assert AddAll(st, p, docId, senId, es).termIsEntity == AddAll(st, p, docId, senId, init).termIsEntity;
      }
    }
  }

  /** `add_token` with the default arguments: a plain, non-entity token. */
  function Plain(t: Token): Emission
  {
    Emission(t.text, false, None)
  }

  function Plains(tokens: seq<Token>): (r: seq<Emission>)
    ensures |r| == |tokens| && forall i :: 0 <= i < |tokens| ==> r[i] == Plain(tokens[i])
  {
    seq(|tokens|, i requires 0 <= i < |tokens| => Plain(tokens[i]))
  }

  /** The text added for an entity: `normalized` for dates (`DAT`), `normalized_label` otherwise. */
  function EntityText(e: Entity): string
  {
    if e.neClass == "DAT" then e.normalized else e.normalizedLabel
  }

  function Emit(e: Entity): Emission
  {
    Emission(EntityText(e), true, Some(e.neClass))
  }

  function Emits(es: seq<Entity>): (r: seq<Emission>)
    ensures |r| == |es| && forall i :: 0 <= i < |es| ==> r[i] == Emit(es[i])
  {
    seq(|es|, i requires 0 <= i < |es| => Emit(es[i]))
  }

  // ---------------------------------------------------------------------------------------
  // Entities sorted by start, as `sorted(…, key=lambda k: k['start_sen'])`

  predicate SortedByStart(es: seq<Entity>)
  {
    forall i, j :: 0 <= i < j < |es| ==> es[i].startSen <= es[j].startSen
  }

  /** Inserts after every entity with a start not above `x`'s, which keeps the sort stable. */
  function InsertByStart(x: Entity, es: seq<Entity>): (r: seq<Entity>)
    ensures multiset(r) == multiset(es) + multiset{x}
    ensures |r| == |es| + 1
  {
    if |es| == 0 then [x]
    else if x.startSen < es[0].startSen then [x] + es
    else
      assert es == [es[0]] + es[1..];
      [es[0]] + InsertByStart(x, es[1..])
  }

  /** A lower bound of `x` and of every entity of `es` bounds the result of the insertion. */
  lemma {:induction false} InsertByStartBound(x: Entity, es: seq<Entity>, b: int)
    requires b <= x.startSen && forall i :: 0 <= i < |es| ==> b <= es[i].startSen
    ensures forall i :: 0 <= i < |InsertByStart(x, es)| ==> b <= InsertByStart(x, es)[i].startSen
  {
    if |es| > 0 && x.startSen >= es[0].startSen {
      InsertByStartBound(x, es[1..], b);
    }
  }

  /** An entity that starts no later than every entity of a sorted sequence can go in front. */
  lemma ConsSortedByStart(e: Entity, es: seq<Entity>)
    requires SortedByStart(es) && forall i :: 0 <= i < |es| ==> e.startSen <= es[i].startSen
    ensures SortedByStart([e] + es)
  {
    var r := [e] + es;
    forall i, j | 0 <= i < j < |r| ensures r[i].startSen <= r[j].startSen {
      assert r[j] == es[j - 1];
      if i > 0 {
        assert r[i] == es[i - 1];
      }
    }
  }

  /** Inserting into a sequence sorted by start keeps it sorted by start. */
  lemma {:induction false} InsertByStartSorted(x: Entity, es: seq<Entity>)
    requires SortedByStart(es)
    ensures SortedByStart(InsertByStart(x, es))
  {
    if |es| == 0 {
    } else if x.startSen < es[0].startSen {
      ConsSortedByStart(x, es);
    } else {
      InsertByStartSorted(x, es[1..]);
      InsertByStartBound(x, es[1..], es[0].startSen);
      ConsSortedByStart(es[0], InsertByStart(x, es[1..]));
    }
  }

  /** Python's stable `sorted` by `start_sen`: ordered, and the same entities. */
  function SortByStart(es: seq<Entity>): (r: seq<Entity>)
    ensures SortedByStart(r) && multiset(r) == multiset(es)
    ensures |r| == |es|
  {
    if |es| == 0 then []
    else
      assert es == es[..|es| - 1] + [es[|es| - 1]];
      assert multiset(es) == multiset(es[..|es| - 1]) + multiset{es[|es| - 1]};
      var sorted := SortByStart(es[..|es| - 1]);
      InsertByStartSorted(es[|es| - 1], sorted);
      InsertByStart(es[|es| - 1], sorted)
  }

  // ---------------------------------------------------------------------------------------
  // The token walk of process_document

  /**
   * Where the walk stands: what it has emitted, the index of `current_el` in the sorted
   * entities, and `reached_end`.
   */
  datatype Walker = Walker(emitted: seq<Emission>, current: nat, reachedEnd: bool)

  /** One pass of the token loop. */
  function TokenStep(sorted: seq<Entity>, w: Walker, t: Token): (r: Walker)
    requires w.current < |sorted|
    ensures r.current < |sorted|
  {
    var el := sorted[w.current];
    if t.idx < el.startSen || w.reachedEnd then w.(emitted := w.emitted + [Plain(t)])
    else if el.startSen <= t.idx < el.endSen then w
    else if w.current + 1 < |sorted| then Walker(w.emitted + [Emit(el), Plain(t)], w.current + 1, false)
    else Walker(w.emitted + [Emit(el), Plain(t)], w.current, true)
  }

  /** The walk over the first `i` tokens, starting at the first entity. */
  function Walk(sorted: seq<Entity>, tokens: seq<Token>, i: nat): (r: Walker)
    requires |sorted| > 0 && i <= |tokens|
    ensures r.current < |sorted|
  {
    if i == 0 then Walker([], 0, false) else TokenStep(sorted, Walk(sorted, tokens, i - 1), tokens[i - 1])
  }

  /** How many entities the walk has emitted. */
  function Consumed(w: Walker): nat
  {
    w.current + if w.reachedEnd then 1 else 0
  }

  function EntityEmissions(es: seq<Emission>): seq<Emission>
  {
    if |es| == 0 then []
    else EntityEmissions(es[..|es| - 1]) + if es[|es| - 1].isEntity then [es[|es| - 1]] else []
  }

  lemma EntityEmissionsAppend(es: seq<Emission>, more: seq<Emission>)
    ensures EntityEmissions(es + more) == EntityEmissions(es) + EntityEmissions(more)
    decreases |more|
  {
    if |more| == 0 {
      assert es + more == es;
    } else {
      var init := more[..|more| - 1];
      EntityEmissionsAppend(es, init);
      assert (es + more)[..|es + more| - 1] == es + init;
    }
  }

  lemma EntityEmissionsSingle(e: Emission)
    ensures EntityEmissions([e]) == if e.isEntity then [e] else []
  {
    assert [e][..0] == [];
  }

  /** Invariant of the walk relating the emissions to the entity counter. */
  predicate WalkInvariant(sorted: seq<Entity>, w: Walker)
  {
    && Consumed(w) <= |sorted|
    && (w.reachedEnd ==> w.current == |sorted| - 1)
    && EntityEmissions(w.emitted) == Emits(sorted[..Consumed(w)])
  }

  lemma StepKeepsInvariant(sorted: seq<Entity>, w: Walker, t: Token)
    requires w.current < |sorted| && WalkInvariant(sorted, w)
    ensures WalkInvariant(sorted, TokenStep(sorted, w, t))
  {
    var el := sorted[w.current];
    if t.idx < el.startSen || w.reachedEnd {
      EntityEmissionsAppend(w.emitted, [Plain(t)]);
      EntityEmissionsSingle(Plain(t));
    } else if el.startSen <= t.idx < el.endSen {
    } else {
      EmitStepEntities(sorted, w, t);
    }
  }

  /** The step that closes an entity emits it and the token: one more entity is consumed. */
  lemma EmitStepEntities(sorted: seq<Entity>, w: Walker, t: Token)
    requires w.current < |sorted| && WalkInvariant(sorted, w) && !w.reachedEnd
    ensures EntityEmissions(w.emitted + [Emit(sorted[w.current]), Plain(t)])
         == Emits(sorted[..Consumed(w) + 1])
  {
    var el, n := sorted[w.current], Consumed(w);
    var pair := [Emit(el), Plain(t)];
    EntityEmissionsAppend(w.emitted, pair);
    EntityEmissionsPair(Emit(el), Plain(t));
    assert sorted[..n + 1] == sorted[..n] + [el];
    EmitsSnoc(sorted[..n], el);
  }

  lemma EntityEmissionsPair(e: Emission, p: Emission)
    requires e.isEntity && !p.isEntity
    ensures EntityEmissions([e, p]) == [e]
  {
    assert [e, p][..1] == [e];
    EntityEmissionsSingle(e);
  }

  lemma EmitsSnoc(es: seq<Entity>, e: Entity)
    ensures Emits(es + [e]) == Emits(es) + [Emit(e)]
  {
    var l, r := Emits(es + [e]), Emits(es) + [Emit(e)];
    assert |l| == |r|;
    forall i | 0 <= i < |l| ensures l[i] == r[i] {
      if i < |es| {
        assert (es + [e])[i] == es[i];
      }
    }
  }

  /**
   * Entities are emitted in ascending start order, each at most once: the entity emissions of
   * the walk are exactly the first `Consumed` sorted entities.
   */
  lemma {:induction false} WalkEntities(sorted: seq<Entity>, tokens: seq<Token>, i: nat)
    requires |sorted| > 0 && i <= |tokens|
    ensures WalkInvariant(sorted, Walk(sorted, tokens, i))
  {
    if i > 0 {
      WalkEntities(sorted, tokens, i - 1);
      StepKeepsInvariant(sorted, Walk(sorted, tokens, i - 1), tokens[i - 1]);
    }
  }

  /** Token `t` lies at or past both ends of the span of `e`. */
  predicate PastSpan(t: Token, e: Entity)
  {
    t.idx >= e.startSen && t.idx >= e.endSen
  }

  /** A pass emits at most one entity: the current one, at a token past its span. */
  lemma StepConsumes(sorted: seq<Entity>, w: Walker, t: Token)
    requires w.current < |sorted| && WalkInvariant(sorted, w)
    ensures var r := TokenStep(sorted, w, t);
            && (Consumed(r) == Consumed(w) || Consumed(r) == Consumed(w) + 1)
            && (Consumed(r) == Consumed(w) + 1 ==> Consumed(w) == w.current && PastSpan(t, sorted[w.current]))
  {
  }

  /** Some token among the first `i` lies past the span of `e`. */
  predicate Spanned(tokens: seq<Token>, i: nat, e: Entity)
    requires i <= |tokens|
  {
    exists k :: 0 <= k < i && PastSpan(tokens[k], e)
  }

  /** Each of the first `n` sorted entities has a token among the first `i` past its span. */
  predicate EmittedPastSpan(sorted: seq<Entity>, tokens: seq<Token>, i: nat, n: nat)
    requires n <= |sorted| && i <= |tokens|
  {
    forall j :: 0 <= j < n ==> Spanned(tokens, i, sorted[j])
  }

  lemma PastSpanMoreTokens(sorted: seq<Entity>, tokens: seq<Token>, i: nat, n: nat)
    requires n <= |sorted| && i < |tokens| && EmittedPastSpan(sorted, tokens, i, n)
    ensures EmittedPastSpan(sorted, tokens, i + 1, n)
  {
    forall j | 0 <= j < n ensures Spanned(tokens, i + 1, sorted[j]) {
      var k :| 0 <= k < i && PastSpan(tokens[k], sorted[j]);
    }
  }

  lemma PastSpanMoreEntities(sorted: seq<Entity>, tokens: seq<Token>, i: nat, n: nat)
    requires n < |sorted| && i < |tokens| && EmittedPastSpan(sorted, tokens, i + 1, n)
    requires PastSpan(tokens[i], sorted[n])
    ensures EmittedPastSpan(sorted, tokens, i + 1, n + 1)
  {
    assert Spanned(tokens, i + 1, sorted[n]);
  }

  /** Each emitted entity was emitted at a token lying at or past both ends of its span. */
  lemma {:induction false} WalkEmitsAfterSpan(sorted: seq<Entity>, tokens: seq<Token>, i: nat)
    requires |sorted| > 0 && i <= |tokens|
    ensures Consumed(Walk(sorted, tokens, i)) <= |sorted|
    ensures EmittedPastSpan(sorted, tokens, i, Consumed(Walk(sorted, tokens, i)))
  {
    WalkEntities(sorted, tokens, i);
    if i > 0 {
      WalkEmitsAfterSpan(sorted, tokens, i - 1);
      var w0 := Walk(sorted, tokens, i - 1);
      WalkEntities(sorted, tokens, i - 1);
      StepConsumes(sorted, w0, tokens[i - 1]);
      var n0 := Consumed(w0);
      PastSpanMoreTokens(sorted, tokens, i - 1, n0);
      if Consumed(Walk(sorted, tokens, i)) != n0 {
        PastSpanMoreEntities(sorted, tokens, i - 1, n0);
      }
    }
  }

  /** Once the last entity is emitted, every later token is added as a plain token. */
  lemma {:induction false} WalkAfterEnd(sorted: seq<Entity>, tokens: seq<Token>, i: nat, j: nat)
    requires |sorted| > 0 && i <= j <= |tokens|
    requires Walk(sorted, tokens, i).reachedEnd
    ensures Walk(sorted, tokens, j).reachedEnd
    ensures Walk(sorted, tokens, j).emitted == Walk(sorted, tokens, i).emitted + Plains(tokens[i..j])
  {
    if j > i {
      WalkAfterEnd(sorted, tokens, i, j - 1);
      assert Plains(tokens[i..j]) == Plains(tokens[i..j - 1]) + [Plain(tokens[j - 1])];
    } else {
      assert Plains(tokens[i..j]) == [];
    }
  }

  /** Tokens that all lie before the first entity's start are all added as plain tokens. */
  lemma {:induction false} WalkBeforeFirst(sorted: seq<Entity>, tokens: seq<Token>, i: nat)
    requires |sorted| > 0 && i <= |tokens|
    requires forall k :: 0 <= k < i ==> tokens[k].idx < sorted[0].startSen
    ensures Walk(sorted, tokens, i) == Walker(Plains(tokens[..i]), 0, false)
  {
    if i > 0 {
      WalkBeforeFirst(sorted, tokens, i - 1);
      assert Plains(tokens[..i]) == Plains(tokens[..i - 1]) + [Plain(tokens[i - 1])];
    } else {
      assert Plains(tokens[..0]) == [];
    }
  }

  /** What `process_document` or its fallback adds for one sentence, given the entity dictionary. */
  function SentenceEmissions(dict: map<(int, int), seq<Entity>>, s: Sentence): seq<Emission>
  {
    var key := (s.docId, s.senId);
    if key in dict && |dict[key]| > 0
    then Walk(SortByStart(dict[key]), s.tokens, |s.tokens|).emitted
    else Plains(s.tokens)
  }

  // ---------------------------------------------------------------------------------------
  // replace_procedure

  function Key(e: Entity): (int, int)
  {
    (e.docId, e.senId)
  }

  function KeysOf(es: seq<Entity>): set<(int, int)>
  {
    set e | e in es :: Key(e)
  }

  /** The entities of one `(doc_id, sen_id)` key, in their original order. */
  function EntitiesAt(es: seq<Entity>, key: (int, int)): seq<Entity>
  {
    if |es| == 0 then []
    else EntitiesAt(es[..|es| - 1], key) + if Key(es[|es| - 1]) == key then [es[|es| - 1]] else []
  }

  lemma {:induction false} EntitiesAtMembers(es: seq<Entity>, key: (int, int))
    ensures forall e :: e in EntitiesAt(es, key) <==> e in es && Key(e) == key
    ensures key in KeysOf(es) <==> |EntitiesAt(es, key)| > 0
  {
    if |es| > 0 {
      var init := es[..|es| - 1];
      EntitiesAtMembers(init, key);
      assert es == init + [es[|es| - 1]];
      assert KeysOf(es) == KeysOf(init) + {Key(es[|es| - 1])};
    }
  }
}
