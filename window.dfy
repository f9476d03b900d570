/**
 * What one hyperedge is made of: the window queries that HyperedgeGenerator.py issues for
 * every anchor sentence, and the tagging of their results with an edge id. The SQL queries
 * are modelled as filters over in-memory copies of the term-occurrence and sentence tables.
 */
module Window {
  import opened Text

  /** One row of the term-occurrence table. */
  datatype Occurrence = Occurrence(doc: int, sen: int, term: int)

  /** One row of the sentence table; every such row anchors one hyperedge. */
  datatype SentenceKey = SentenceKey(doc: int, sen: int)

  /** A term of a window together with its sentence offset from the anchor. */
  datatype TermPos = TermPos(term: int, pos: int)

  /** A contributing sentence together with its offset from the anchor. */
  datatype SentencePos = SentencePos(doc: int, sen: int, pos: int)

  /** Rows of the hyperedge, hyperedge-document and hyperedge-sentence tables. */
  datatype TermRow = TermRow(edge: int, term: int, pos: int)
  datatype DocRow = DocRow(edge: int, doc: int)
  datatype SentenceRow = SentenceRow(edge: int, doc: int, sen: int, pos: int)

  /**
   * The read-only tables the generator queries: term occurrences, the terms flagged
   * `is_entity`, and the sentence table.
   */
  datatype Corpus = Corpus(occurrences: seq<Occurrence>, entityTerms: set<int>, sentences: seq<SentenceKey>)

  /** The `BETWEEN s - w AND s + w` condition, restricted to the anchor's document. */
  predicate InWindow(anchor: SentenceKey, w: int, doc: int, sen: int)
  {
    doc == anchor.doc && anchor.sen - w <= sen <= anchor.sen + w
  }

  /** The WHERE clause of the occurrence query, with the entity join when `entitiesOnly`. */
  predicate Selects(o: Occurrence, anchor: SentenceKey, w: int, entitiesOnly: bool, entityTerms: set<int>)
  {
    InWindow(anchor, w, o.doc, o.sen) && (!entitiesOnly || o.term in entityTerms)
  }

  /** The rows `(term_id, sentence_id - s)` of the occurrence query, in table order. */
  function OccurrenceQuery(occs: seq<Occurrence>, anchor: SentenceKey, w: int, entitiesOnly: bool,
                           entityTerms: set<int>): seq<TermPos>
  {
    if occs == [] then []
    else
      (if Selects(occs[0], anchor, w, entitiesOnly, entityTerms)
       then [TermPos(occs[0].term, occs[0].sen - anchor.sen)] else [])
      + OccurrenceQuery(occs[1..], anchor, w, entitiesOnly, entityTerms)
  }

  /** The term part of one hyperedge: the set of the occurrence query's rows. */
  function WindowTerms(c: Corpus, anchor: SentenceKey, w: int, entitiesOnly: bool): set<TermPos>
  {
    Elems(OccurrenceQuery(c.occurrences, anchor, w, entitiesOnly, c.entityTerms))
  }

  lemma {:induction false} OccurrenceQueryMembership(occs: seq<Occurrence>, anchor: SentenceKey, w: int,
                                                    entitiesOnly: bool, entityTerms: set<int>, p: TermPos)
    ensures p in OccurrenceQuery(occs, anchor, w, entitiesOnly, entityTerms) <==>
            exists o :: o in occs && Selects(o, anchor, w, entitiesOnly, entityTerms) &&
                        p == TermPos(o.term, o.sen - anchor.sen)
  {
    if occs != [] {
      OccurrenceQueryMembership(occs[1..], anchor, w, entitiesOnly, entityTerms, p);
      var o0 := occs[0];
      if exists o :: o in occs && Selects(o, anchor, w, entitiesOnly, entityTerms) &&
                     p == TermPos(o.term, o.sen - anchor.sen) {
        var o :| o in occs && Selects(o, anchor, w, entitiesOnly, entityTerms) &&
                 p == TermPos(o.term, o.sen - anchor.sen);
        if o != o0 {
          assert o in occs[1..];
        }
      }
    }
  }

  /**
   * A pair `(t, pos)` is in the hyperedge of anchor `(d, s)` exactly when some occurrence
   * `(d, s', t)` of the same document lies in the window, with `pos = s' - s`; with
   * `entitiesOnly` the term must moreover be an entity.
   */
  lemma WindowTermsMembership(c: Corpus, anchor: SentenceKey, w: int, entitiesOnly: bool, p: TermPos)
    ensures p in WindowTerms(c, anchor, w, entitiesOnly) <==>
            exists o :: o in c.occurrences && o.doc == anchor.doc &&
                        anchor.sen - w <= o.sen <= anchor.sen + w &&
                        (!entitiesOnly || o.term in c.entityTerms) &&
                        p == TermPos(o.term, o.sen - anchor.sen)
  {
    OccurrenceQueryMembership(c.occurrences, anchor, w, entitiesOnly, c.entityTerms, p);
  }

  /** Every offset of a hyperedge lies within the window: `|pos| <= w`. */
  lemma WindowTermsBounded(c: Corpus, anchor: SentenceKey, w: int, entitiesOnly: bool)
    ensures forall p :: p in WindowTerms(c, anchor, w, entitiesOnly) ==> -w <= p.pos <= w
  {
    forall p | p in WindowTerms(c, anchor, w, entitiesOnly)
      ensures -w <= p.pos <= w
    {
      WindowTermsMembership(c, anchor, w, entitiesOnly, p);
    }
  }

  /**
   * The entities-only hyperedge is the unfiltered hyperedge of the same anchor restricted
   * to entity terms; in particular it is a subset of it.
   */
  lemma EntitiesOnlyRestricts(c: Corpus, anchor: SentenceKey, w: int)
    ensures WindowTerms(c, anchor, w, true) ==
            set p | p in WindowTerms(c, anchor, w, false) && p.term in c.entityTerms
    ensures WindowTerms(c, anchor, w, true) <= WindowTerms(c, anchor, w, false)
  {
    forall p
      ensures p in WindowTerms(c, anchor, w, true) <==>
              p in WindowTerms(c, anchor, w, false) && p.term in c.entityTerms
    {
      WindowTermsMembership(c, anchor, w, true, p);
      WindowTermsMembership(c, anchor, w, false, p);
    }
  }

  /** `SELECT DISTINCT`: the first occurrence of every element, in order. */
  function Distinct<T(==)>(s: seq<T>): (r: seq<T>)
    ensures NoDup(r)
    ensures Elems(r) == Elems(s)
  {
    if s == [] then []
    else
      var d := Distinct(s[..|s| - 1]);
      assert s == s[..|s| - 1] + [s[|s| - 1]];
      assert Elems(s) == Elems(s[..|s| - 1]) + {s[|s| - 1]};
      if s[|s| - 1] in d then d else d + [s[|s| - 1]]
  }

  /** The rows `(document_id, sentence_id, sentence_id - s)` of the sentence query, before DISTINCT. */
  function SentenceQuery(table: seq<SentenceKey>, anchor: SentenceKey, w: int): seq<SentencePos>
  {
    if table == [] then []
    else
      (if InWindow(anchor, w, table[0].doc, table[0].sen)
       then [SentencePos(table[0].doc, table[0].sen, table[0].sen - anchor.sen)] else [])
      + SentenceQuery(table[1..], anchor, w)
  }

  /** The sentence part of one hyperedge. */
  function WindowSentences(c: Corpus, anchor: SentenceKey, w: int): seq<SentencePos>
  {
    Distinct(SentenceQuery(c.sentences, anchor, w))
  }

  lemma {:induction false} SentenceQueryMembership(table: seq<SentenceKey>, anchor: SentenceKey, w: int,
                                                  x: SentencePos)
    ensures x in SentenceQuery(table, anchor, w) <==>
            exists k :: k in table && InWindow(anchor, w, k.doc, k.sen) &&
                        x == SentencePos(k.doc, k.sen, k.sen - anchor.sen)
  {
    if table != [] {
      SentenceQueryMembership(table[1..], anchor, w, x);
      if exists k :: k in table && InWindow(anchor, w, k.doc, k.sen) &&
                     x == SentencePos(k.doc, k.sen, k.sen - anchor.sen) {
        var k :| k in table && InWindow(anchor, w, k.doc, k.sen) &&
                 x == SentencePos(k.doc, k.sen, k.sen - anchor.sen);
        if k != table[0] {
          assert k in table[1..];
        }
      }
    }
  }

  /**
   * The sentence rows of a hyperedge are distinct, and a triple `(d, s', pos)` is among them
   * exactly when `(d, s')` is a sentence of the anchor's document inside the window and
   * `pos = s' - s`.
   */
  lemma WindowSentencesMembership(c: Corpus, anchor: SentenceKey, w: int, x: SentencePos)
    ensures NoDup(WindowSentences(c, anchor, w))
    ensures x in WindowSentences(c, anchor, w) <==>
            exists k :: k in c.sentences && k.doc == anchor.doc &&
                        anchor.sen - w <= k.sen <= anchor.sen + w &&
                        x == SentencePos(k.doc, k.sen, k.sen - anchor.sen)
  {
    SentenceQueryMembership(c.sentences, anchor, w, x);
    assert x in WindowSentences(c, anchor, w) <==> x in Elems(SentenceQuery(c.sentences, anchor, w));
  }

  /** Tags every pair of a window with the edge id `e`. */
  function TagTerms(e: int, pairs: set<TermPos>): set<TermRow>
  {
    set p | p in pairs :: TermRow(e, p.term, p.pos)
  }

  /** Tags every contributing sentence of a window with the edge id `e`. */
  function TagSentences(e: int, ts: seq<SentencePos>): (r: seq<SentenceRow>)
    ensures |r| == |ts|
    ensures forall i :: 0 <= i < |ts| ==> r[i] == SentenceRow(e, ts[i].doc, ts[i].sen, ts[i].pos)
  {
    if ts == [] then [] else [SentenceRow(e, ts[0].doc, ts[0].sen, ts[0].pos)] + TagSentences(e, ts[1..])
  }

  /** Document rows of consecutive edges numbered from `start`. */
  function TagDocuments(start: int, docs: seq<int>): (r: seq<DocRow>)
    ensures |r| == |docs|
    ensures forall i :: 0 <= i < |docs| ==> r[i] == DocRow(start + i, docs[i])
  {
    seq(|docs|, i requires 0 <= i < |docs| => DocRow(start + i, docs[i]))
  }

  /** Term rows of consecutive edges numbered from `start`. */
  function TaggedTermSet(start: int, edges: seq<set<TermPos>>): set<TermRow>
    decreases edges
  {
    if edges == [] then {} else TagTerms(start, edges[0]) + TaggedTermSet(start + 1, edges[1..])
  }

  /** Sentence rows of consecutive edges numbered from `start`, edge after edge. */
  function TaggedSentenceRows(start: int, edges: seq<seq<SentencePos>>): seq<SentenceRow>
    decreases edges
  {
    if edges == [] then [] else TagSentences(start, edges[0]) + TaggedSentenceRows(start + 1, edges[1..])
  }

  /**
   * Numbering is independent of how the edges are split into batches: tagging `a + b` from
   * `start` is tagging `a` from `start` and then `b` from `start + |a|`.
   */
  lemma {:induction false} TagDocumentsSplit(start: int, a: seq<int>, b: seq<int>)
    ensures TagDocuments(start, a + b) == TagDocuments(start, a) + TagDocuments(start + |a|, b)
  {
    var whole, left, right := TagDocuments(start, a + b), TagDocuments(start, a), TagDocuments(start + |a|, b);
    forall i | 0 <= i < |whole|
      ensures whole[i] == (left + right)[i]
    {
      if i >= |a| {
        assert (a + b)[i] == b[i - |a|];
      }
    }
  }

  lemma {:induction false} TaggedTermSetSplit(start: int, a: seq<set<TermPos>>, b: seq<set<TermPos>>)
    ensures TaggedTermSet(start, a + b) == TaggedTermSet(start, a) + TaggedTermSet(start + |a|, b)
    decreases a
  {
    if a != [] {
      TaggedTermSetSplit(start + 1, a[1..], b);
      assert (a + b)[1..] == a[1..] + b;
    } else {
      assert a + b == b;
    }
  }

  lemma {:induction false} TaggedSentenceRowsSplit(start: int, a: seq<seq<SentencePos>>, b: seq<seq<SentencePos>>)
    ensures TaggedSentenceRows(start, a + b) == TaggedSentenceRows(start, a) + TaggedSentenceRows(start + |a|, b)
    decreases a
  {
    if a != [] {
      TaggedSentenceRowsSplit(start + 1, a[1..], b);
      assert (a + b)[1..] == a[1..] + b;
    } else {
      assert a + b == b;
    }
  }

  lemma TaggedTermSetOne(start: int, pairs: set<TermPos>)
    ensures TaggedTermSet(start, [pairs]) == TagTerms(start, pairs)
  {
    assert [pairs][1..] == [];
  }

  lemma TaggedSentenceRowsOne(start: int, triples: seq<SentencePos>)
    ensures TaggedSentenceRows(start, [triples]) == TagSentences(start, triples)
  {
    assert [triples][1..] == [];
    assert TagSentences(start, triples) + [] == TagSentences(start, triples);
  }

  /** A term row belongs to the tagged edges exactly when it carries the id of the edge holding its pair. */
  lemma {:induction false} TaggedTermSetMembership(start: int, edges: seq<set<TermPos>>, r: TermRow)
    ensures r in TaggedTermSet(start, edges) <==>
            exists i :: 0 <= i < |edges| && r.edge == start + i && TermPos(r.term, r.pos) in edges[i]
    decreases edges
  {
    if edges != [] {
      TaggedTermSetMembership(start + 1, edges[1..], r);
      if r in TagTerms(start, edges[0]) {
        assert 0 < |edges| && r.edge == start + 0 && TermPos(r.term, r.pos) in edges[0];
      }
      if exists i :: 0 <= i < |edges| && r.edge == start + i && TermPos(r.term, r.pos) in edges[i] {
        var i :| 0 <= i < |edges| && r.edge == start + i && TermPos(r.term, r.pos) in edges[i];
        if i > 0 {
          assert edges[1..][i - 1] == edges[i];
        }
      }
    }
  }

  /** The term rows of consecutive edges numbered from `start` carry ids `start..start + |edges| - 1`. */
  lemma TaggedTermSetRange(start: int, edges: seq<set<TermPos>>)
    ensures forall r :: r in TaggedTermSet(start, edges) ==> start <= r.edge < start + |edges|
  {
    forall r | r in TaggedTermSet(start, edges) ensures start <= r.edge < start + |edges| {
      TaggedTermSetMembership(start, edges, r);
    }
  }

  /** Document rows of consecutive edges repeat nothing and carry ids `start..start + |docs| - 1`. */
  lemma TagDocumentsRange(start: int, docs: seq<int>)
    ensures NoDup(TagDocuments(start, docs))
    ensures forall r :: r in TagDocuments(start, docs) ==> start <= r.edge < start + |docs|
  {
    var rows := TagDocuments(start, docs);
    forall i, j | 0 <= i < j < |rows| ensures rows[i] != rows[j] {
      assert rows[i].edge == start + i && rows[j].edge == start + j;
    }
  }

  /** The sentences of a window without repetitions give sentence rows without repetitions, all of edge `e`. */
  lemma TagSentencesRange(e: int, ts: seq<SentencePos>)
    requires NoDup(ts)
    ensures NoDup(TagSentences(e, ts))
    ensures forall r :: r in TagSentences(e, ts) ==> r.edge == e
  {
    var rows := TagSentences(e, ts);
    forall i, j | 0 <= i < j < |rows| ensures rows[i] != rows[j] {
      assert ts[i] != ts[j];
    }
  }

  /**
   * Sentence rows of consecutive edges numbered from `start`, each window without
   * repetitions, repeat nothing and carry ids `start..start + |edges| - 1`.
   */
  lemma {:induction false} TaggedSentenceRowsRange(start: int, edges: seq<seq<SentencePos>>)
    requires forall i :: 0 <= i < |edges| ==> NoDup(edges[i])
    ensures NoDup(TaggedSentenceRows(start, edges))
    ensures forall r :: r in TaggedSentenceRows(start, edges) ==> start <= r.edge < start + |edges|
    decreases edges
  {
    if edges != [] {
      assert forall i :: 0 <= i < |edges[1..]| ==> edges[1..][i] == edges[i + 1];
      TaggedSentenceRowsRange(start + 1, edges[1..]);
      TagSentencesRange(start, edges[0]);
      NoDupAppend(TagSentences(start, edges[0]), TaggedSentenceRows(start + 1, edges[1..]));
    }
  }

  /** The term parts of the hyperedges of a sequence of anchors. */
  function TermWindows(c: Corpus, anchors: seq<SentenceKey>, w: int, entitiesOnly: bool): (r: seq<set<TermPos>>)
    ensures |r| == |anchors|
    ensures forall i :: 0 <= i < |anchors| ==> r[i] == WindowTerms(c, anchors[i], w, entitiesOnly)
  {
    seq(|anchors|, i requires 0 <= i < |anchors| => WindowTerms(c, anchors[i], w, entitiesOnly))
  }

  /** The sentence parts of the hyperedges of a sequence of anchors. */
  function SentenceWindows(c: Corpus, anchors: seq<SentenceKey>, w: int): (r: seq<seq<SentencePos>>)
    ensures |r| == |anchors|
    ensures forall i :: 0 <= i < |anchors| ==> r[i] == WindowSentences(c, anchors[i], w)
  {
    seq(|anchors|, i requires 0 <= i < |anchors| => WindowSentences(c, anchors[i], w))
  }

  /** The document of every anchor. */
  function AnchorDocuments(anchors: seq<SentenceKey>): (r: seq<int>)
    ensures |r| == |anchors|
    ensures forall i :: 0 <= i < |anchors| ==> r[i] == anchors[i].doc
  {
    seq(|anchors|, i requires 0 <= i < |anchors| => anchors[i].doc)
  }

  lemma WindowsSnoc(c: Corpus, anchors: seq<SentenceKey>, i: int, w: int, entitiesOnly: bool)
    requires 0 <= i < |anchors|
    ensures TermWindows(c, anchors[..i + 1], w, entitiesOnly)
         == TermWindows(c, anchors[..i], w, entitiesOnly) + [WindowTerms(c, anchors[i], w, entitiesOnly)]
    ensures SentenceWindows(c, anchors[..i + 1], w) == SentenceWindows(c, anchors[..i], w) + [WindowSentences(c, anchors[i], w)]
    ensures AnchorDocuments(anchors[..i + 1]) == AnchorDocuments(anchors[..i]) + [anchors[i].doc]
  {
  }
}
