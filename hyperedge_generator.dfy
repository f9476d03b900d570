/**
 * The hyperedge construction pipeline of HyperedgeGenerator.py: one hyperedge per anchor
 * sentence, buffered in three correlated lists, numbered from a running counter when a batch
 * is flushed, and handed to the three hyperedge tables in bulk.
 *
 * The database is replaced by the read-only `Corpus` (occurrence, term and sentence tables),
 * a catalogue of existing table names, and three set-valued hyperedge tables.
 */
module HyperedgeGeneration {
  import opened Text
  import opened Window

  /**
   * A slot of the `hyperedge` buffer. The source first stores the set of `(term_id, pos)`
   * pairs of a window there and `prepare_data` later overwrites the slot with tagged rows.
   */
  datatype EdgeTerms = PendingTerms(pairs: set<TermPos>) | TaggedTerms(rows: seq<TermRow>)

  /** A slot of the `hyperedge_sentence` buffer. */
  datatype EdgeSentences = PendingSentences(triples: seq<SentencePos>) | TaggedSentences(rows: seq<SentenceRow>)

  /** A slot of the `hyperedge_document` buffer. */
  datatype EdgeDocument = PendingDocument(doc: int) | TaggedDocument(row: DocRow)

  /** Names of the hyperedge, hyperedge-document and hyperedge-sentence tables. */
  datatype TableNames = TableNames(hyperedges: string, documents: string, sentences: string)

  /** The exceptions `create_edges_naively` can raise. */
  datatype RunError =
    | ZeroDivision         // `i % int(len(sentences)/5)` with fewer than five anchors
    | UnboundLoopVariable  // the final progress message reads `i` when there was no anchor

  datatype RunOutcome = Completed | Failed(error: RunError)

  predicate AllPending(hs: seq<EdgeTerms>, ss: seq<EdgeSentences>, ds: seq<EdgeDocument>)
  {
    && (forall i :: 0 <= i < |hs| ==> hs[i].PendingTerms?)
    && (forall i :: 0 <= i < |ss| ==> ss[i].PendingSentences?)
    && (forall i :: 0 <= i < |ds| ==> ds[i].PendingDocument?)
  }

  function PairsOf(hs: seq<EdgeTerms>): (r: seq<set<TermPos>>)
    requires forall i :: 0 <= i < |hs| ==> hs[i].PendingTerms?
    ensures |r| == |hs| && forall i :: 0 <= i < |hs| ==> r[i] == hs[i].pairs
  {
    seq(|hs|, i requires 0 <= i < |hs| => hs[i].pairs)
  }

  function TriplesOf(ss: seq<EdgeSentences>): (r: seq<seq<SentencePos>>)
    requires forall i :: 0 <= i < |ss| ==> ss[i].PendingSentences?
    ensures |r| == |ss| && forall i :: 0 <= i < |ss| ==> r[i] == ss[i].triples
  {
    seq(|ss|, i requires 0 <= i < |ss| => ss[i].triples)
  }

  function DocsOf(ds: seq<EdgeDocument>): (r: seq<int>)
    requires forall i :: 0 <= i < |ds| ==> ds[i].PendingDocument?
    ensures |r| == |ds| && forall i :: 0 <= i < |ds| ==> r[i] == ds[i].doc
  {
    seq(|ds|, i requires 0 <= i < |ds| => ds[i].doc)
  }

  function DocRowsOf(ds: seq<EdgeDocument>): (r: seq<DocRow>)
    requires forall i :: 0 <= i < |ds| ==> ds[i].TaggedDocument?
    ensures |r| == |ds| && forall i :: 0 <= i < |ds| ==> r[i] == ds[i].row
  {
    seq(|ds|, i requires 0 <= i < |ds| => ds[i].row)
  }

  /** The distinct edge ids of a hyperedge table. */
  function EdgeIds(table: set<TermRow>): set<int>
  {
    set r | r in table :: r.edge
  }

  /** The first id of a run: `max(1, COUNT(DISTINCT edge_id))`. */
  function StartId(distinctIds: nat): int
  {
    if distinctIds < 1 then 1 else distinctIds
  }

  /** The ids `1..n`. */
  function IdRange(n: nat): (r: set<int>)
    ensures forall i :: i in r <==> 1 <= i <= n
    ensures |r| == n
  {
    if n == 0 then {} else IdRange(n - 1) + {n}
  }

  /**
   * The first id is 1 on an empty table. On a table whose edges are numbered `1..n` with
   * `n >= 1`, the first new id is `n` itself, an id the table already holds.
   */
  lemma StartIdOnResume(table: set<TermRow>, n: nat)
    requires EdgeIds(table) == IdRange(n)
    ensures n == 0 ==> StartId(|EdgeIds(table)|) == 1
    ensures n >= 1 ==> StartId(|EdgeIds(table)|) == n && StartId(|EdgeIds(table)|) in EdgeIds(table)
  {
  }

  /**
   * The `insert_into_table` stub: a bulk insert of rows whose key is the whole row. Any
   * duplicate key, within the batch or against the table, fails the whole statement with
   * result 0; otherwise the rows are added and the result is 1.
   */
  function InsertRows<T(==)>(table: set<T>, values: seq<T>): (int, set<T>)
  {
    if NoDup(values) && Elems(values) !! table then (1, table + Elems(values)) else (0, table)
  }

  /** `[(edge_id, el[0], el[1]) for el in edge]`: the pairs of a set, in some order, tagged with `e`. */
  method TagEdge(e: int, pairs: set<TermPos>) returns (rows: seq<TermRow>)
    ensures Elems(rows) == TagTerms(e, pairs)
    ensures NoDup(rows)
    ensures |rows| == |pairs|
  {
    rows := [];
    var rest := pairs;
    while rest != {}
      invariant rest <= pairs
      invariant Elems(rows) == TagTerms(e, pairs - rest)
      invariant NoDup(rows)
      invariant |rows| == |pairs - rest|
      decreases |rest|
    {
      var p :| p in rest;
      assert TermRow(e, p.term, p.pos) !in Elems(rows);
      assert TagTerms(e, (pairs - rest) + {p}) == TagTerms(e, pairs - rest) + {TermRow(e, p.term, p.pos)};
      assert pairs - (rest - {p}) == (pairs - rest) + {p};
      rows := rows + [TermRow(e, p.term, p.pos)];
      rest := rest - {p};
    }
  }

  /** `after` is `before` with more rows appended. */
  predicate Extends<T(==)>(before: seq<T>, after: seq<T>)
  {
    |before| <= |after| && after[..|before|] == before
  }

  lemma ExtendsElems<T>(before: seq<T>, after: seq<T>)
    requires Extends(before, after)
    ensures Elems(after) == Elems(before) + Elems(after[|before|..])
  {
    assert after == before + after[|before|..];
  }

  lemma AppendSlices<T>(a: seq<T>, b: seq<T>)
    ensures (a + b)[..|a|] == a && (a + b)[|a|..] == b
  {
  }

  /** The flushes made while the loop runs, `c` of them, when `p` edges were pending at the start. */
  function InLoopFlushes(p: nat, k: nat, c: nat): (r: seq<nat>)
    ensures |r| == c
  {
    if c == 0 then [] else [p + k] + seq(c - 1, _ => k)
  }

  /**
   * Sizes of the flushes of a run over `n >= 1` anchors with `k = n / 5 >= 1` and `p` edges
   * pending at the start: one flush before every anchor `i` with `i != 0` and `i % k == 0`,
   * then a final flush of what is left.
   */
  function FlushSizes(p: nat, n: nat, k: nat): seq<nat>
    requires n >= 1 && k >= 1
  {
    var c := (n - 1) / k;
    InLoopFlushes(p, k, c) + [if c == 0 then p + n else n - c * k]
  }

  function Sum(s: seq<nat>): nat
  {
    if s == [] then 0 else s[0] + Sum(s[1..])
  }

  lemma {:induction false} SumAppend(a: seq<nat>, b: seq<nat>)
    ensures Sum(a + b) == Sum(a) + Sum(b)
  {
    if a != [] {
      SumAppend(a[1..], b);
      assert (a + b)[1..] == a[1..] + b;
    } else {
      assert a + b == b;
    }
  }

  lemma {:induction false} SumConstant(m: nat, k: nat)
    ensures Sum(seq(m, _ => k)) == m * k
  {
    if m > 0 {
      SumConstant(m - 1, k);
      assert seq(m, _ => k)[1..] == seq(m - 1, _ => k);
    }
  }

  lemma DivBounds(n: nat, k: nat, c: nat)
    requires k >= 1 && c == (n - 1) / k && n >= 1
    ensures c * k < n <= (c + 1) * k
  {
    var q, r := (n - 1) / k, (n - 1) % k;
    assert n - 1 == q * k + r && 0 <= r < k;
    assert (c + 1) * k == c * k + k;
  }

  /**
   * Starting from empty buffers, every flush of a run carries exactly `k = n / 5` edges
   * except the last, which carries between 1 and `k`; together they carry all `n` edges.
   */
  lemma FlushSizesShape(n: nat)
    requires n >= 5
    ensures var sizes := FlushSizes(0, n, n / 5);
            && |sizes| >= 1
            && (forall j :: 0 <= j < |sizes| - 1 ==> sizes[j] == n / 5)
            && 1 <= sizes[|sizes| - 1] <= n / 5
            && Sum(sizes) == n
  {
    var k := n / 5;
    var c := (n - 1) / k;
    DivBounds(n, k, c);
    assert c >= 1;
    FlushSizesSplit(n, k, c);
  }

  /** `FlushSizes` from empty buffers with `c >= 1` flush points: `c` full batches and the rest. */
  lemma FlushSizesSplit(n: nat, k: nat, c: nat)
    requires k >= 1 && c >= 1 && n >= 1 && c == (n - 1) / k && c * k < n <= (c + 1) * k
    ensures var sizes := FlushSizes(0, n, k);
            && |sizes| == c + 1
            && (forall j :: 0 <= j < c ==> sizes[j] == k)
            && 1 <= sizes[c] <= k
            && Sum(sizes) == n
  {
    var full, last := seq(c, _ => k), n - c * k;
    assert InLoopFlushes(0, k, c) == full;
    var sizes := FlushSizes(0, n, k);
    assert sizes == full + [last];
    forall j | 0 <= j < c
      ensures sizes[j] == k
    {
      assert sizes[j] == full[j];
    }
    SumConstant(c, k);
    SumAppend(full, [last]);
    assert Sum([last]) == last + Sum([]);
  }

  lemma InLoopFlushesStep(p: nat, k: nat, c: nat)
    ensures InLoopFlushes(p, k, c + 1) == InLoopFlushes(p, k, c) + [if c == 0 then p + k else k]
  {
    if c > 0 {
      assert seq(c, _ => k) == seq(c - 1, _ => k) + [k];
    }
  }

  lemma {:induction false} MulSign(a: int, k: int)
    requires k >= 1
    ensures a >= 1 ==> a * k >= k
    ensures a <= 0 ==> a * k <= 0
    decreases if a >= 0 then a else -a
  {
    if a > 1 {
      MulSign(a - 1, k);
      assert a * k == (a - 1) * k + k;
    } else if a < 0 {
      MulSign(a + 1, k);
      assert a * k == (a + 1) * k - k;
    }
  }

  lemma DivModUnique(x: int, k: int, q: int, r: int)
    requires k >= 1 && x == q * k + r && 0 <= r < k
    ensures x / k == q && x % k == r
  {
    var q', r' := x / k, x % k;
    assert x == q' * k + r' && 0 <= r' < k;
    MulSign(q - q', k);
    MulSign(q' - q, k);
    assert (q - q') * k == r' - r;
    assert (q' - q) * k == r - r';
  }

  /** Between two flush points, `i % k == 0` holds exactly at the next multiple of `k`. */
  lemma FlushPoint(i: int, c: nat, k: nat)
    requires k >= 1 && c * k < i <= (c + 1) * k
    ensures (i % k == 0) <==> (i == (c + 1) * k)
  {
    var q, r := i / k, i % k;
    assert i == q * k + r && 0 <= r < k;
    MulSign(q - c, k);
    MulSign(q - c - 1, k);
    assert (q - c) * k == q * k - c * k;
    assert (q - c - 1) * k == q * k - (c + 1) * k;
    DivModUnique((c + 1) * k, k, c + 1, 0);
  }

  /**
   * The buffers after `prepare_data` of a batch whose windows were `pairs`, `triples` and
   * `docs`: slot `i` holds the rows of edge `start + i`.
   */
  predicate TaggedBatch(start: int, pairs: seq<set<TermPos>>, triples: seq<seq<SentencePos>>, docs: seq<int>,
                        terms: seq<EdgeTerms>, sentences: seq<EdgeSentences>, documents: seq<EdgeDocument>)
  {
    && |terms| == |sentences| == |documents| == |pairs| == |triples| == |docs|
    && (forall i :: 0 <= i < |terms| ==>
          terms[i].TaggedTerms? && NoDup(terms[i].rows) && Elems(terms[i].rows) == TagTerms(start + i, pairs[i]))
    && (forall i :: 0 <= i < |documents| ==> documents[i] == TaggedDocument(DocRow(start + i, docs[i])))
    && (forall i :: 0 <= i < |sentences| ==> sentences[i] == TaggedSentences(TagSentences(start + i, triples[i])))
  }

  lemma TaggedBatchStep(start: int, pairs: seq<set<TermPos>>, triples: seq<seq<SentencePos>>, docs: seq<int>, i: int,
                        terms: seq<EdgeTerms>, sentences: seq<EdgeSentences>, documents: seq<EdgeDocument>,
                        rows: seq<TermRow>)
    requires 0 <= i < |pairs| == |triples| == |docs|
    requires TaggedBatch(start, pairs[..i], triples[..i], docs[..i], terms, sentences, documents)
    requires NoDup(rows) && Elems(rows) == TagTerms(start + i, pairs[i])
    ensures TaggedBatch(start, pairs[..i + 1], triples[..i + 1], docs[..i + 1],
                        terms + [TaggedTerms(rows)], sentences + [TaggedSentences(TagSentences(start + i, triples[i]))],
                        documents + [TaggedDocument(DocRow(start + i, docs[i]))])
  {
  }

  lemma TermRowsStep(start: int, pairs: seq<set<TermPos>>, i: int, done: seq<TermRow>, rows: seq<TermRow>)
    requires 0 <= i < |pairs|
    requires Elems(done) == TaggedTermSet(start, pairs[..i])
    requires Elems(rows) == TagTerms(start + i, pairs[i])
    ensures Elems(done + rows) == TaggedTermSet(start, pairs[..i + 1])
  {
    var before := pairs[..i];
    assert pairs[..i + 1] == before + [pairs[i]];
    TaggedTermSetSplit(start, before, [pairs[i]]);
    TaggedTermSetOne(start + i, pairs[i]);
    assert Elems(done + rows) == Elems(done) + Elems(rows);
  }

  /** The term rows of edge `start + i` repeat nothing and share no row with those of the earlier edges. */
  lemma TermRowsNoDup(start: int, pairs: seq<set<TermPos>>, i: int, done: seq<TermRow>, rows: seq<TermRow>)
    requires 0 <= i < |pairs|
    requires NoDup(done) && Elems(done) == TaggedTermSet(start, pairs[..i])
    requires NoDup(rows) && Elems(rows) == TagTerms(start + i, pairs[i])
    ensures NoDup(done + rows)
  {
    TaggedTermSetRange(start, pairs[..i]);
    forall y | y in rows ensures y.edge == start + i {
      assert y in Elems(rows);
    }
    forall x | x in done ensures x.edge < start + i {
      assert x in Elems(done);
    }
    NoDupAppend(done, rows);
  }

  lemma SentenceRowsStep(start: int, triples: seq<seq<SentencePos>>, i: int)
    requires 0 <= i < |triples|
    ensures TaggedSentenceRows(start, triples[..i + 1])
         == TaggedSentenceRows(start, triples[..i]) + TagSentences(start + i, triples[i])
  {
    var before := triples[..i];
    assert triples[..i + 1] == before + [triples[i]];
    TaggedSentenceRowsSplit(start, before, [triples[i]]);
    TaggedSentenceRowsOne(start + i, triples[i]);
  }

  lemma DocRowsTagged(start: int, docs: seq<int>, documents: seq<EdgeDocument>)
    requires |documents| == |docs|
    requires forall i :: 0 <= i < |documents| ==> documents[i] == TaggedDocument(DocRow(start + i, docs[i]))
    ensures (forall i :: 0 <= i < |documents| ==> documents[i].TaggedDocument?) &&
            DocRowsOf(documents) == TagDocuments(start, docs)
  {
  }

  /**
   * The loop of `prepare_data` on the buffer contents: edge `i` gets id `start + i`, its
   * term rows (in set order) and sentence rows are also collected across the batch.
   */
  method TagBuffers(start: int, pairs: seq<set<TermPos>>, triples: seq<seq<SentencePos>>, docs: seq<int>)
    returns (terms: seq<EdgeTerms>, sentences: seq<EdgeSentences>, documents: seq<EdgeDocument>,
             termRows: seq<TermRow>, sentenceRows: seq<SentenceRow>)
    requires |pairs| == |triples| == |docs|
    ensures TaggedBatch(start, pairs, triples, docs, terms, sentences, documents)
    ensures Elems(termRows) == TaggedTermSet(start, pairs) && NoDup(termRows)
    ensures sentenceRows == TaggedSentenceRows(start, triples)
    ensures (forall i :: 0 <= i < |documents| ==> documents[i].TaggedDocument?) &&
            DocRowsOf(documents) == TagDocuments(start, docs)
  {
    terms, sentences, documents := [], [], [];
    termRows, sentenceRows := [], [];
    var n := |pairs|;
    var i := 0;
    while i < n
      invariant 0 <= i <= n
      invariant TaggedBatch(start, pairs[..i], triples[..i], docs[..i], terms, sentences, documents)
      invariant Elems(termRows) == TaggedTermSet(start, pairs[..i]) && NoDup(termRows)
      invariant sentenceRows == TaggedSentenceRows(start, triples[..i])
    {
      var rows := TagEdge(start + i, pairs[i]);
      var tagged := TagSentences(start + i, triples[i]);
      TermRowsStep(start, pairs, i, termRows, rows);
      TermRowsNoDup(start, pairs, i, termRows, rows);
      SentenceRowsStep(start, triples, i);
      TaggedBatchStep(start, pairs, triples, docs, i, terms, sentences, documents, rows);
      terms := terms + [TaggedTerms(rows)];
      termRows := termRows + rows;
      documents := documents + [TaggedDocument(DocRow(start + i, docs[i]))];
      sentences := sentences + [TaggedSentences(tagged)];
      sentenceRows := sentenceRows + tagged;
      i := i + 1;
    }
    assert pairs[..i] == pairs;
    assert triples[..i] == triples;
    assert docs[..i] == docs;
    DocRowsTagged(start, docs, documents);
  }

  /**
   * The rows handed to the tables since a run began: those of the first `f` edges of the run,
   * numbered from `start`.
   */
  predicate TermLedger(start: int, before: seq<TermRow>, after: seq<TermRow>, edges: seq<set<TermPos>>, f: nat)
  {
    f <= |edges| && Extends(before, after) && Elems(after[|before|..]) == TaggedTermSet(start, edges[..f])
  }

  predicate DocumentLedger(start: int, before: seq<DocRow>, after: seq<DocRow>, docs: seq<int>, f: nat)
  {
    && f <= |docs| && |after| == |before| + f && after[..|before|] == before
    && forall i :: 0 <= i < f ==> after[|before| + i] == DocRow(start + i, docs[i])
  }

  predicate SentenceLedger(start: int, before: seq<SentenceRow>, after: seq<SentenceRow>,
                           edges: seq<seq<SentencePos>>, f: nat)
  {
    f <= |edges| && after == before + TaggedSentenceRows(start, edges[..f])
  }

  /** A flush of the pending edges `f..` completes the ledger. */
  lemma TermLedgerFlush(start: int, before: seq<TermRow>, mid: seq<TermRow>, after: seq<TermRow>,
                        edges: seq<set<TermPos>>, f: nat)
    requires TermLedger(start, before, mid, edges, f)
    requires TermLedger(start + f, mid, after, edges[f..], |edges| - f)
    ensures TermLedger(start, before, after, edges, |edges|)
  {
    assert edges[f..][..|edges| - f] == edges[f..];
    assert after[..|before|] == mid[..|before|];
    assert after[|before|..] == mid[|before|..] + after[|mid|..];
    assert edges == edges[..f] + edges[f..];
    TaggedTermSetSplit(start, edges[..f], edges[f..]);
    assert edges[..|edges|] == edges;
  }

  lemma DocumentLedgerFlush(start: int, before: seq<DocRow>, mid: seq<DocRow>, after: seq<DocRow>, docs: seq<int>, f: nat)
    requires DocumentLedger(start, before, mid, docs, f)
    requires DocumentLedger(start + f, mid, after, docs[f..], |docs| - f)
    ensures DocumentLedger(start, before, after, docs, |docs|)
  {
    assert after[..|before|] == mid[..|before|];
    forall i | 0 <= i < |docs|
      ensures after[|before| + i] == DocRow(start + i, docs[i])
    {
      if i >= f {
        assert after[|mid| + (i - f)] == DocRow(start + f + (i - f), docs[f..][i - f]);
      } else {
        assert after[|before| + i] == mid[|before| + i];
      }
    }
  }

  lemma SentenceLedgerFlush(start: int, before: seq<SentenceRow>, mid: seq<SentenceRow>, after: seq<SentenceRow>,
                            edges: seq<seq<SentencePos>>, f: nat)
    requires SentenceLedger(start, before, mid, edges, f)
    requires SentenceLedger(start + f, mid, after, edges[f..], |edges| - f)
    ensures SentenceLedger(start, before, after, edges, |edges|)
  {
    var done, rest := edges[..f], edges[f..];
    var early, late := TaggedSentenceRows(start, done), TaggedSentenceRows(start + f, rest);
    assert after == before + (early + late) by {
      assert rest[..|edges| - f] == rest;
      assert (before + early) + late == before + (early + late);
    }
    assert TaggedSentenceRows(start, edges[..|edges|]) == early + late by {
      assert done + rest == edges == edges[..|edges|];
      TaggedSentenceRowsSplit(start, done, rest);
    }
  }

  /** Appending an edge to the run leaves the ledger of the first `f` edges as it was. */
  lemma LedgersGrow(start: int, f: nat,
                    tBefore: seq<TermRow>, tAfter: seq<TermRow>, edges: seq<set<TermPos>>, e: set<TermPos>,
                    dBefore: seq<DocRow>, dAfter: seq<DocRow>, docs: seq<int>, d: int,
                    sBefore: seq<SentenceRow>, sAfter: seq<SentenceRow>, triples: seq<seq<SentencePos>>, t: seq<SentencePos>)
    requires TermLedger(start, tBefore, tAfter, edges, f)
    requires DocumentLedger(start, dBefore, dAfter, docs, f)
    requires SentenceLedger(start, sBefore, sAfter, triples, f)
    ensures TermLedger(start, tBefore, tAfter, edges + [e], f)
    ensures DocumentLedger(start, dBefore, dAfter, docs + [d], f)
    ensures SentenceLedger(start, sBefore, sAfter, triples + [t], f)
  {
    assert (edges + [e])[..f] == edges[..f];
    assert (docs + [d])[..f] == docs[..f];
    assert (triples + [t])[..f] == triples[..f];
  }

  lemma PendingGrow(hs: seq<EdgeTerms>, ss: seq<EdgeSentences>, ds: seq<EdgeDocument>,
                    edges: seq<set<TermPos>>, triples: seq<seq<SentencePos>>, docs: seq<int>, f: nat,
                    e: set<TermPos>, t: seq<SentencePos>, d: int)
    requires AllPending(hs, ss, ds) && f <= |edges| && f <= |triples| && f <= |docs|
    requires PairsOf(hs) == edges[f..] && TriplesOf(ss) == triples[f..] && DocsOf(ds) == docs[f..]
    ensures AllPending(hs + [PendingTerms(e)], ss + [PendingSentences(t)], ds + [PendingDocument(d)])
    ensures PairsOf(hs + [PendingTerms(e)]) == (edges + [e])[f..]
    ensures TriplesOf(ss + [PendingSentences(t)]) == (triples + [t])[f..]
    ensures DocsOf(ds + [PendingDocument(d)]) == (docs + [d])[f..]
  {
    assert (edges + [e])[f..] == edges[f..] + [e];
    assert (triples + [t])[f..] == triples[f..] + [t];
    assert (docs + [d])[f..] == docs[f..] + [d];
  }

  /** The pending count and flush log when the loop reaches anchor `n` after `c` flushes. */
  lemma FinalFlush(p: nat, n: nat, k: nat, c: nat)
    requires k >= 1 && n >= 1 && c * k < n <= (c + 1) * k
    ensures c == (n - 1) / k
    ensures FlushSizes(p, n, k) == InLoopFlushes(p, k, c) + [if c == 0 then p + n else n - c * k]
  {
    DivModUnique(n - 1, k, c, n - 1 - c * k);
  }

  /** The values of a generator's buffers, counter, tables and logs at one moment. */
  datatype GeneratorState = GeneratorState(
    hyperedge: seq<EdgeTerms>, hyperedgeSentence: seq<EdgeSentences>, hyperedgeDocument: seq<EdgeDocument>,
    hyperedgeId: int,
    edgeTable: set<TermRow>, documentTable: set<DocRow>, sentenceTable: set<SentenceRow>,
    handedTerms: seq<TermRow>, handedDocuments: seq<DocRow>, handedSentences: seq<SentenceRow>,
    flushLog: seq<nat>)

  /** Three equally long buffers of untagged windows. */
  predicate Buffered(s: GeneratorState)
  {
    |s.hyperedge| == |s.hyperedgeSentence| == |s.hyperedgeDocument| &&
    AllPending(s.hyperedge, s.hyperedgeSentence, s.hyperedgeDocument)
  }

  /**
   * State `t` is part-way through a run that began in state `s` and covers the edges
   * `edges`/`triples`/`docs`: the first `f` of them were numbered from `s.hyperedgeId` and
   * handed to the tables, the others are still buffered, and the counter has moved by `f`.
   */
  predicate InProgress(s: GeneratorState, t: GeneratorState,
                       edges: seq<set<TermPos>>, triples: seq<seq<SentencePos>>, docs: seq<int>, f: nat)
  {
    && Buffered(t)
    && f <= |edges| && |edges| == |triples| == |docs|
    && t.hyperedgeId == s.hyperedgeId + f
    && PairsOf(t.hyperedge) == edges[f..]
    && TriplesOf(t.hyperedgeSentence) == triples[f..]
    && DocsOf(t.hyperedgeDocument) == docs[f..]
    && TermLedger(s.hyperedgeId, s.handedTerms, t.handedTerms, edges, f)
    && DocumentLedger(s.hyperedgeId, s.handedDocuments, t.handedDocuments, docs, f)
    && SentenceLedger(s.hyperedgeId, s.handedSentences, t.handedSentences, triples, f)
  }

  /**
   * `t` follows `s` by one flush: every buffered edge numbered from `s.hyperedgeId`, handed
   * to its table by one bulk insert each, and the buffers emptied.
   */
  predicate Flushed(s: GeneratorState, t: GeneratorState)
    requires Buffered(s)
  {
    && InProgress(s, t, PairsOf(s.hyperedge), TriplesOf(s.hyperedgeSentence), DocsOf(s.hyperedgeDocument), |s.hyperedge|)
    && t.flushLog == s.flushLog + [|s.hyperedge|]
    && t.edgeTable == InsertRows(s.edgeTable, t.handedTerms[|s.handedTerms|..]).1
    && t.documentTable == InsertRows(s.documentTable, t.handedDocuments[|s.handedDocuments|..]).1
    && t.sentenceTable == InsertRows(s.sentenceTable, t.handedSentences[|s.handedSentences|..]).1
  }

  /**
   * Numbering the buffered edges, one bulk insert per table and emptying the buffers make up
   * one flush; from a fresh state every row handed to a table is stored in it.
   */
  lemma FlushedIntro(s: GeneratorState, t: GeneratorState, rows: seq<TermRow>, docRows: seq<DocRow>,
                     sentenceRows: seq<SentenceRow>)
    requires Buffered(s)
    requires t.hyperedge == [] && t.hyperedgeSentence == [] && t.hyperedgeDocument == []
    requires t.hyperedgeId == s.hyperedgeId + |s.hyperedge|
    requires t.handedTerms == s.handedTerms + rows && NoDup(rows)
    requires Elems(rows) == TaggedTermSet(s.hyperedgeId, PairsOf(s.hyperedge))
    requires t.handedDocuments == s.handedDocuments + docRows
    requires docRows == TagDocuments(s.hyperedgeId, DocsOf(s.hyperedgeDocument))
    requires t.handedSentences == s.handedSentences + sentenceRows
    requires sentenceRows == TaggedSentenceRows(s.hyperedgeId, TriplesOf(s.hyperedgeSentence))
    requires t.flushLog == s.flushLog + [|s.hyperedge|]
    requires t.edgeTable == InsertRows(s.edgeTable, rows).1
    requires t.documentTable == InsertRows(s.documentTable, docRows).1
    requires t.sentenceTable == InsertRows(s.sentenceTable, sentenceRows).1
    ensures Flushed(s, t)
    ensures StoredRun(s, t)
  {
    FlushedShape(s, t, rows, docRows, sentenceRows);
    if Fresh(s) {
      FlushStored(s, t, rows, docRows, sentenceRows);
    }
  }

  lemma FlushedShape(s: GeneratorState, t: GeneratorState, rows: seq<TermRow>, docRows: seq<DocRow>,
                     sentenceRows: seq<SentenceRow>)
    requires Buffered(s)
    requires t.hyperedge == [] && t.hyperedgeSentence == [] && t.hyperedgeDocument == []
    requires t.hyperedgeId == s.hyperedgeId + |s.hyperedge|
    requires t.handedTerms == s.handedTerms + rows
    requires Elems(rows) == TaggedTermSet(s.hyperedgeId, PairsOf(s.hyperedge))
    requires t.handedDocuments == s.handedDocuments + docRows
    requires docRows == TagDocuments(s.hyperedgeId, DocsOf(s.hyperedgeDocument))
    requires t.handedSentences == s.handedSentences + sentenceRows
    requires sentenceRows == TaggedSentenceRows(s.hyperedgeId, TriplesOf(s.hyperedgeSentence))
    requires t.flushLog == s.flushLog + [|s.hyperedge|]
    requires t.edgeTable == InsertRows(s.edgeTable, rows).1
    requires t.documentTable == InsertRows(s.documentTable, docRows).1
    requires t.sentenceTable == InsertRows(s.sentenceTable, sentenceRows).1
    ensures Flushed(s, t)
  {
    var edges, triples, docs := PairsOf(s.hyperedge), TriplesOf(s.hyperedgeSentence), DocsOf(s.hyperedgeDocument);
    TermLedgerWhole(s.hyperedgeId, s.handedTerms, rows, edges);
    DocumentLedgerWhole(s.hyperedgeId, s.handedDocuments, docs);
    SentenceLedgerWhole(s.hyperedgeId, s.handedSentences, triples);
    AppendSlices(s.handedTerms, rows);
    AppendSlices(s.handedDocuments, docRows);
    AppendSlices(s.handedSentences, sentenceRows);
    assert edges[|edges|..] == [] && triples[|triples|..] == [] && docs[|docs|..] == [];
  }

  /** Handing the rows of every edge at once completes the term ledger. */
  lemma TermLedgerWhole(start: int, before: seq<TermRow>, rows: seq<TermRow>, edges: seq<set<TermPos>>)
    requires Elems(rows) == TaggedTermSet(start, edges)
    ensures TermLedger(start, before, before + rows, edges, |edges|)
  {
    AppendSlices(before, rows);
    assert edges[..|edges|] == edges;
  }

  /** Handing one document row per edge at once completes the document ledger. */
  lemma DocumentLedgerWhole(start: int, before: seq<DocRow>, docs: seq<int>)
    ensures DocumentLedger(start, before, before + TagDocuments(start, docs), docs, |docs|)
  {
    TagDocumentsRange(start, docs);
  }

  /** Handing the sentence rows of every edge at once completes the sentence ledger. */
  lemma SentenceLedgerWhole(start: int, before: seq<SentenceRow>, triples: seq<seq<SentencePos>>)
    ensures SentenceLedger(start, before, before + TaggedSentenceRows(start, triples), triples, |triples|)
  {
    assert triples[..|triples|] == triples;
  }

  /** Every row of the three hyperedge tables carries an edge id below `n`. */
  predicate IdsBelow(s: GeneratorState, n: int)
  {
    && (forall r :: r in s.edgeTable ==> r.edge < n)
    && (forall r :: r in s.documentTable ==> r.edge < n)
    && (forall r :: r in s.sentenceTable ==> r.edge < n)
  }

  /**
   * A state from which no insert can be rejected: the tables hold no id the counter will
   * hand out, and no buffered window lists a sentence twice.
   */
  predicate Fresh(s: GeneratorState)
  {
    && Buffered(s)
    && IdsBelow(s, s.hyperedgeId)
    && forall i :: 0 <= i < |s.hyperedgeSentence| ==> NoDup(s.hyperedgeSentence[i].triples)
  }

  /** Every row handed to a table between `s` and `t` was stored in it, and nothing else was. */
  predicate Stored(s: GeneratorState, t: GeneratorState)
  {
    && Extends(s.handedTerms, t.handedTerms)
    && Extends(s.handedDocuments, t.handedDocuments)
    && Extends(s.handedSentences, t.handedSentences)
    && t.edgeTable == s.edgeTable + Elems(t.handedTerms[|s.handedTerms|..])
    && t.documentTable == s.documentTable + Elems(t.handedDocuments[|s.handedDocuments|..])
    && t.sentenceTable == s.sentenceTable + Elems(t.handedSentences[|s.handedSentences|..])
  }

  /** A run that began fresh is still fresh at `t`, and every row it handed to a table was stored. */
  predicate StoredRun(s: GeneratorState, t: GeneratorState)
  {
    Fresh(s) ==> Fresh(t) && Stored(s, t)
  }

  lemma StoredRefl(s: GeneratorState, t: GeneratorState)
    requires t.edgeTable == s.edgeTable && t.documentTable == s.documentTable && t.sentenceTable == s.sentenceTable
    requires t.handedTerms == s.handedTerms && t.handedDocuments == s.handedDocuments
    requires t.handedSentences == s.handedSentences
    ensures Stored(s, t)
  {
    assert Elems(t.handedTerms[|s.handedTerms|..]) == {};
    assert Elems(t.handedDocuments[|s.handedDocuments|..]) == {};
    assert Elems(t.handedSentences[|s.handedSentences|..]) == {};
  }

  lemma StoredTrans(s: GeneratorState, m: GeneratorState, t: GeneratorState)
    requires Stored(s, m) && Stored(m, t)
    ensures Stored(s, t)
  {
    ExtendsTrans(s.handedTerms, m.handedTerms, t.handedTerms);
    ExtendsTrans(s.handedDocuments, m.handedDocuments, t.handedDocuments);
    ExtendsTrans(s.handedSentences, m.handedSentences, t.handedSentences);
  }

  lemma ExtendsTrans<T>(a: seq<T>, b: seq<T>, c: seq<T>)
    requires Extends(a, b) && Extends(b, c)
    ensures Extends(a, c)
    ensures Elems(c[|a|..]) == Elems(b[|a|..]) + Elems(c[|b|..])
  {
    assert c[|a|..] == b[|a|..] + c[|b|..];
  }

  /**
   * A flush from a fresh state: every bulk insert succeeds, so each table gains exactly the
   * rows handed to it, and the new state is fresh again.
   */
  lemma FlushStored(s: GeneratorState, t: GeneratorState, rows: seq<TermRow>, docRows: seq<DocRow>,
                    sentenceRows: seq<SentenceRow>)
    requires Fresh(s)
    requires t.hyperedge == [] && t.hyperedgeSentence == [] && t.hyperedgeDocument == []
    requires t.hyperedgeId == s.hyperedgeId + |s.hyperedge|
    requires t.handedTerms == s.handedTerms + rows && NoDup(rows)
    requires Elems(rows) == TaggedTermSet(s.hyperedgeId, PairsOf(s.hyperedge))
    requires t.handedDocuments == s.handedDocuments + docRows
    requires docRows == TagDocuments(s.hyperedgeId, DocsOf(s.hyperedgeDocument))
    requires t.handedSentences == s.handedSentences + sentenceRows
    requires sentenceRows == TaggedSentenceRows(s.hyperedgeId, TriplesOf(s.hyperedgeSentence))
    requires t.edgeTable == InsertRows(s.edgeTable, rows).1
    requires t.documentTable == InsertRows(s.documentTable, docRows).1
    requires t.sentenceTable == InsertRows(s.sentenceTable, sentenceRows).1
    ensures Stored(s, t) && Fresh(t)
  {
    TaggedTermSetRange(s.hyperedgeId, PairsOf(s.hyperedge));
    TagDocumentsRange(s.hyperedgeId, DocsOf(s.hyperedgeDocument));
    TaggedSentenceRowsRange(s.hyperedgeId, TriplesOf(s.hyperedgeSentence));
    assert forall r :: r in rows ==> r in Elems(rows);
    assert Elems(rows) !! s.edgeTable;
    assert Elems(docRows) !! s.documentTable;
    assert Elems(sentenceRows) !! s.sentenceTable;
    AppendSlices(s.handedTerms, rows);
    AppendSlices(s.handedDocuments, docRows);
    AppendSlices(s.handedSentences, sentenceRows);
  }

  /** Buffering a window that lists no sentence twice keeps a run's state fresh and its tables as they were. */
  lemma StoredAppend(s0: GeneratorState, m: GeneratorState, t: GeneratorState, e: set<TermPos>,
                     triples: seq<SentencePos>, doc: int)
    requires Appended(m, t, e, triples, doc) && NoDup(triples)
    requires Fresh(m) && Stored(s0, m)
    ensures Fresh(t) && Stored(s0, t)
  {
    assert t.hyperedgeSentence[|m.hyperedgeSentence|].triples == triples;
  }

  lemma StoredRunTrans(s0: GeneratorState, m: GeneratorState, t: GeneratorState)
    requires StoredRun(s0, m) && StoredRun(m, t)
    ensures StoredRun(s0, t)
  {
    if Fresh(s0) {
      StoredTrans(s0, m, t);
    }
  }

  lemma StoredRunAppend(s0: GeneratorState, m: GeneratorState, t: GeneratorState, e: set<TermPos>,
                        triples: seq<SentencePos>, doc: int)
    requires Appended(m, t, e, triples, doc) && NoDup(triples) && StoredRun(s0, m)
    ensures StoredRun(s0, t)
  {
    if Fresh(s0) {
      StoredAppend(s0, m, t, e, triples, doc);
    }
  }

  /** `t` is `s` with one more window buffered. */
  predicate Appended(s: GeneratorState, t: GeneratorState, e: set<TermPos>, triples: seq<SentencePos>, doc: int)
  {
    t == s.(hyperedge := s.hyperedge + [PendingTerms(e)],
            hyperedgeSentence := s.hyperedgeSentence + [PendingSentences(triples)],
            hyperedgeDocument := s.hyperedgeDocument + [PendingDocument(doc)])
  }

  lemma InProgressStart(s: GeneratorState)
    requires Buffered(s)
    ensures InProgress(s, s, PairsOf(s.hyperedge), TriplesOf(s.hyperedgeSentence), DocsOf(s.hyperedgeDocument), 0)
  {
    assert s.handedTerms[|s.handedTerms|..] == [];
    assert s.handedDocuments + [] == s.handedDocuments;
    assert s.handedSentences + [] == s.handedSentences;
  }

  /** A flush in the middle of a run completes the ledgers up to the last buffered edge. */
  lemma InProgressFlush(s: GeneratorState, m: GeneratorState, t: GeneratorState,
                        edges: seq<set<TermPos>>, triples: seq<seq<SentencePos>>, docs: seq<int>, f: nat)
    requires InProgress(s, m, edges, triples, docs, f) && Flushed(m, t)
    ensures InProgress(s, t, edges, triples, docs, |edges|)
    ensures t.flushLog == m.flushLog + [|edges| - f]
  {
    assert |m.hyperedge| == |edges| - f;
    LedgersFlush(s.hyperedgeId, f, s.handedTerms, m.handedTerms, t.handedTerms, edges,
                 s.handedDocuments, m.handedDocuments, t.handedDocuments, docs,
                 s.handedSentences, m.handedSentences, t.handedSentences, triples);
    assert edges[|edges|..] == [] && triples[|triples|..] == [] && docs[|docs|..] == [];
  }

  /** A flush of the pending edges `f..` completes all three ledgers. */
  lemma LedgersFlush(start: int, f: nat,
                     terms: seq<TermRow>, terms': seq<TermRow>, terms'': seq<TermRow>, edges: seq<set<TermPos>>,
                     docRows: seq<DocRow>, docRows': seq<DocRow>, docRows'': seq<DocRow>, docs: seq<int>,
                     sentenceRows: seq<SentenceRow>, sentenceRows': seq<SentenceRow>, sentenceRows'': seq<SentenceRow>,
                     triples: seq<seq<SentencePos>>)
    requires TermLedger(start, terms, terms', edges, f)
    requires TermLedger(start + f, terms', terms'', edges[f..], |edges| - f)
    requires DocumentLedger(start, docRows, docRows', docs, f)
    requires DocumentLedger(start + f, docRows', docRows'', docs[f..], |docs| - f)
    requires SentenceLedger(start, sentenceRows, sentenceRows', triples, f)
    requires SentenceLedger(start + f, sentenceRows', sentenceRows'', triples[f..], |triples| - f)
    ensures TermLedger(start, terms, terms'', edges, |edges|)
    ensures DocumentLedger(start, docRows, docRows'', docs, |docs|)
    ensures SentenceLedger(start, sentenceRows, sentenceRows'', triples, |triples|)
  {
    TermLedgerFlush(start, terms, terms', terms'', edges, f);
    DocumentLedgerFlush(start, docRows, docRows', docRows'', docs, f);
    SentenceLedgerFlush(start, sentenceRows, sentenceRows', sentenceRows'', triples, f);
  }

  /** Buffering one more window extends the run by that edge. */
  lemma InProgressGrow(s: GeneratorState, m: GeneratorState, t: GeneratorState,
                       edges: seq<set<TermPos>>, triples: seq<seq<SentencePos>>, docs: seq<int>, f: nat,
                       e: set<TermPos>, tr: seq<SentencePos>, d: int)
    requires InProgress(s, m, edges, triples, docs, f) && Appended(m, t, e, tr, d)
    ensures InProgress(s, t, edges + [e], triples + [tr], docs + [d], f)
  {
    PendingGrow(m.hyperedge, m.hyperedgeSentence, m.hyperedgeDocument, edges, triples, docs, f, e, tr, d);
    LedgersGrow(s.hyperedgeId, f, s.handedTerms, t.handedTerms, edges, e, s.handedDocuments, t.handedDocuments, docs, d,
                s.handedSentences, t.handedSentences, triples, tr);
  }

  /** The edges of a run from `s0` after the first `i` anchors: what was buffered, then one window per anchor. */
  predicate Covered(s0: GeneratorState, c: Corpus, anchors: seq<SentenceKey>, i: int, w: int, entitiesOnly: bool,
                    edges: seq<set<TermPos>>, triples: seq<seq<SentencePos>>, docs: seq<int>)
  {
    && Buffered(s0) && 0 <= i <= |anchors|
    && edges == PairsOf(s0.hyperedge) + TermWindows(c, anchors[..i], w, entitiesOnly)
    && triples == TriplesOf(s0.hyperedgeSentence) + SentenceWindows(c, anchors[..i], w)
    && docs == DocsOf(s0.hyperedgeDocument) + AnchorDocuments(anchors[..i])
  }

  lemma CoveredStart(s0: GeneratorState, c: Corpus, anchors: seq<SentenceKey>, w: int, entitiesOnly: bool)
    requires Buffered(s0)
    ensures Covered(s0, c, anchors, 0, w, entitiesOnly,
                    PairsOf(s0.hyperedge), TriplesOf(s0.hyperedgeSentence), DocsOf(s0.hyperedgeDocument))
  {
    assert anchors[..0] == [];
    assert PairsOf(s0.hyperedge) + [] == PairsOf(s0.hyperedge);
    assert TriplesOf(s0.hyperedgeSentence) + [] == TriplesOf(s0.hyperedgeSentence);
    assert DocsOf(s0.hyperedgeDocument) + [] == DocsOf(s0.hyperedgeDocument);
  }

  lemma CoveredStep(s0: GeneratorState, c: Corpus, anchors: seq<SentenceKey>, i: int, w: int, entitiesOnly: bool,
                    edges: seq<set<TermPos>>, triples: seq<seq<SentencePos>>, docs: seq<int>)
    requires Covered(s0, c, anchors, i, w, entitiesOnly, edges, triples, docs) && i < |anchors|
    ensures Covered(s0, c, anchors, i + 1, w, entitiesOnly, edges + [WindowTerms(c, anchors[i], w, entitiesOnly)],
                    triples + [WindowSentences(c, anchors[i], w)], docs + [anchors[i].doc])
    ensures |edges| == |s0.hyperedge| + i
  {
    WindowsSnoc(c, anchors, i, w, entitiesOnly);
    assert edges + [WindowTerms(c, anchors[i], w, entitiesOnly)]
        == PairsOf(s0.hyperedge) + (TermWindows(c, anchors[..i], w, entitiesOnly) + [WindowTerms(c, anchors[i], w, entitiesOnly)]);
    assert triples + [WindowSentences(c, anchors[i], w)]
        == TriplesOf(s0.hyperedgeSentence) + (SentenceWindows(c, anchors[..i], w) + [WindowSentences(c, anchors[i], w)]);
    assert docs + [anchors[i].doc] == DocsOf(s0.hyperedgeDocument) + (AnchorDocuments(anchors[..i]) + [anchors[i].doc]);
  }

  lemma CoveredAll(s0: GeneratorState, c: Corpus, anchors: seq<SentenceKey>, w: int, entitiesOnly: bool,
                   edges: seq<set<TermPos>>, triples: seq<seq<SentencePos>>, docs: seq<int>)
    requires Covered(s0, c, anchors, |anchors|, w, entitiesOnly, edges, triples, docs)
    ensures edges == PairsOf(s0.hyperedge) + TermWindows(c, anchors, w, entitiesOnly)
    ensures triples == TriplesOf(s0.hyperedgeSentence) + SentenceWindows(c, anchors, w)
    ensures docs == DocsOf(s0.hyperedgeDocument) + AnchorDocuments(anchors)
    ensures |edges| == |s0.hyperedge| + |anchors|
  {
    assert anchors[..|anchors|] == anchors;
  }

  /** Loop-head bounds of `create_edges_naively` after `c` flush points: anchor `i` lies in batch `c`. */
  predicate Bounds(i: int, c: nat, k: nat)
  {
    (i == 0 && c == 0) || (i > 0 && c * k < i <= (c + 1) * k)
  }

  /** Anchor `i` is about to be buffered as part of batch `c`. */
  predicate Ready(i: int, c: nat, k: nat)
  {
    c * k <= i < (c + 1) * k
  }

  /** The flush test `i % k == 0 and i != 0` fires exactly at the end of the current batch. */
  lemma CheckBounds(i: int, c: nat, k: nat)
    requires k >= 1 && Bounds(i, c, k)
    ensures (i % k == 0 && i != 0) ==> i == (c + 1) * k && Ready(i, c + 1, k)
    ensures !(i % k == 0 && i != 0) ==> Ready(i, c, k)
  {
    if i > 0 {
      FlushPoint(i, c, k);
      assert (c + 2) * k == (c + 1) * k + k;
    }
  }

  /**
   * The state `t` reached in a run from `s0` that began with `p` buffered edges, after `c`
   * flush points with batch size `k`: when the tables exist every flush point flushed;
   * when they do not nothing was flushed and nothing but the buffers changed.
   */
  predicate RunAt(s0: GeneratorState, t: GeneratorState, p: nat, k: nat, c: nat, f: nat, present: bool,
                  edges: seq<set<TermPos>>, triples: seq<seq<SentencePos>>, docs: seq<int>)
  {
    && InProgress(s0, t, edges, triples, docs, f)
    && (present ==> f == (if c == 0 then 0 else p + c * k) && t.flushLog == s0.flushLog + InLoopFlushes(p, k, c))
    && (!present ==> f == 0 && t.flushLog == s0.flushLog)
    && (!present ==> t.edgeTable == s0.edgeTable && t.documentTable == s0.documentTable)
    && (!present ==> t.sentenceTable == s0.sentenceTable)
  }

  lemma RunStart(s0: GeneratorState, k: nat, present: bool)
    requires Buffered(s0)
    ensures RunAt(s0, s0, |s0.hyperedge|, k, 0, 0, present,
                  PairsOf(s0.hyperedge), TriplesOf(s0.hyperedgeSentence), DocsOf(s0.hyperedgeDocument))
  {
    InProgressStart(s0);
    assert s0.flushLog + [] == s0.flushLog;
  }

  /** The log of a run after one more flush point: the flush at the end of batch `c` has the size `InLoopFlushes` gives it. */
  lemma FlushLogStep(log: seq<nat>, p: nat, k: nat, c: nat, f: nat, n: nat)
    requires f == (if c == 0 then 0 else p + c * k) && n == p + (c + 1) * k
    ensures n >= f
    ensures (log + InLoopFlushes(p, k, c)) + [n - f] == log + InLoopFlushes(p, k, c + 1)
  {
    InLoopFlushesStep(p, k, c);
    assert (c + 1) * k == c * k + k;
    assert n - f == (if c == 0 then p + k else k);
  }

  /** A flush point with the tables present: the flush completes batch `c`. */
  lemma RunFlush(s0: GeneratorState, m: GeneratorState, t: GeneratorState, p: nat, k: nat, c: nat, f: nat,
                 edges: seq<set<TermPos>>, triples: seq<seq<SentencePos>>, docs: seq<int>)
    requires RunAt(s0, m, p, k, c, f, true, edges, triples, docs) && Flushed(m, t)
    requires |edges| == p + (c + 1) * k
    ensures RunAt(s0, t, p, k, c + 1, |edges|, true, edges, triples, docs)
  {
    InProgressFlush(s0, m, t, edges, triples, docs, f);
    FlushLogStep(s0.flushLog, p, k, c, f, |edges|);
  }

  lemma RunGrow(s0: GeneratorState, m: GeneratorState, t: GeneratorState, p: nat, k: nat, c: nat, f: nat,
                present: bool, edges: seq<set<TermPos>>, triples: seq<seq<SentencePos>>, docs: seq<int>,
                e: set<TermPos>, tr: seq<SentencePos>, d: int)
    requires RunAt(s0, m, p, k, c, f, present, edges, triples, docs) && Appended(m, t, e, tr, d)
    ensures RunAt(s0, t, p, k, c, f, present, edges + [e], triples + [tr], docs + [d])
  {
    InProgressGrow(s0, m, t, edges, triples, docs, f, e, tr, d);
  }

  /** After the last anchor something is still buffered, so with the tables present the final flush runs. */
  lemma RunPending(s0: GeneratorState, m: GeneratorState, p: nat, n: nat, k: nat, c: nat, f: nat,
                   edges: seq<set<TermPos>>, triples: seq<seq<SentencePos>>, docs: seq<int>)
    requires RunAt(s0, m, p, k, c, f, true, edges, triples, docs)
    requires |edges| == p + n && n >= 1 && k >= 1 && Bounds(n, c, k)
    ensures m.hyperedge != []
  {
    assert |PairsOf(m.hyperedge)| == |edges[f..]|;
  }

  lemma RunFinish(s0: GeneratorState, m: GeneratorState, t: GeneratorState, p: nat, n: nat, k: nat, c: nat, f: nat,
                  edges: seq<set<TermPos>>, triples: seq<seq<SentencePos>>, docs: seq<int>)
    requires RunAt(s0, m, p, k, c, f, true, edges, triples, docs) && Flushed(m, t)
    requires |edges| == p + n && n >= 1 && k >= 1 && Bounds(n, c, k)
    ensures InProgress(s0, t, edges, triples, docs, |edges|)
    ensures t.flushLog == s0.flushLog + FlushSizes(p, n, k)
  {
    InProgressFlush(s0, m, t, edges, triples, docs, f);
    FinalLog(s0.flushLog, m.flushLog, t.flushLog, p, n, k, c, f);
  }

  /** The last flush closes the log of batch sizes. */
  lemma FinalLog(log: seq<nat>, log': seq<nat>, log'': seq<nat>, p: nat, n: nat, k: nat, c: nat, f: nat)
    requires n >= 1 && k >= 1 && Bounds(n, c, k)
    requires f == (if c == 0 then 0 else p + c * k) && log' == log + InLoopFlushes(p, k, c)
    requires log'' == log' + [p + n - f]
    ensures log'' == log + FlushSizes(p, n, k)
  {
    FinalFlush(p, n, k, c);
    assert (log + InLoopFlushes(p, k, c)) + [p + n - f] == log + (InLoopFlushes(p, k, c) + [p + n - f]);
  }

  /** The flush test of `create_edges_naively` before buffering anchor `i`. */
  predicate Checkpoint(i: int, k: int)
    requires k >= 1
  {
    i % k == 0 && i != 0
  }

  /**
   * Everything known at the head of the loop of `create_edges_naively` after `i` of the
   * anchors, `c` checkpoints passed and the first `f` edges of the run handed to the tables.
   */
  predicate LoopState(s0: GeneratorState, t: GeneratorState, c: Corpus, anchors: seq<SentenceKey>, w: int,
                      entitiesOnly: bool, k: nat, present: bool, i: int, bc: nat, f: nat,
                      edges: seq<set<TermPos>>, triples: seq<seq<SentencePos>>, docs: seq<int>)
  {
    && Bounds(i, bc, k)
    && |edges| == |s0.hyperedge| + i
    && Covered(s0, c, anchors, i, w, entitiesOnly, edges, triples, docs)
    && RunAt(s0, t, |s0.hyperedge|, k, bc, f, present, edges, triples, docs)
  }

  lemma LoopStart(s0: GeneratorState, c: Corpus, anchors: seq<SentenceKey>, w: int, entitiesOnly: bool,
                  k: nat, present: bool)
    requires Buffered(s0)
    ensures LoopState(s0, s0, c, anchors, w, entitiesOnly, k, present, 0, 0, 0,
                      PairsOf(s0.hyperedge), TriplesOf(s0.hyperedgeSentence), DocsOf(s0.hyperedgeDocument))
  {
    RunStart(s0, k, present);
    CoveredStart(s0, c, anchors, w, entitiesOnly);
  }

  /**
   * One iteration: state `m0` at the head, `m1` after the flush the checkpoint may trigger
   * (a real flush only when the tables exist), `t` after buffering the window of anchor `i`.
   */
  lemma LoopStep(s0: GeneratorState, m0: GeneratorState, m1: GeneratorState, t: GeneratorState,
                 c: Corpus, anchors: seq<SentenceKey>, w: int, entitiesOnly: bool, k: nat, present: bool,
                 i: int, bc: nat, f: nat, edges: seq<set<TermPos>>, triples: seq<seq<SentencePos>>, docs: seq<int>)
    requires k >= 1 && i < |anchors|
    requires LoopState(s0, m0, c, anchors, w, entitiesOnly, k, present, i, bc, f, edges, triples, docs)
    requires Checkpoint(i, k) && present ==> Flushed(m0, m1)
    requires !(Checkpoint(i, k) && present) ==> m1 == m0
    requires Appended(m1, t, WindowTerms(c, anchors[i], w, entitiesOnly), WindowSentences(c, anchors[i], w), anchors[i].doc)
    ensures LoopState(s0, t, c, anchors, w, entitiesOnly, k, present, i + 1,
                      if Checkpoint(i, k) then bc + 1 else bc,
                      if Checkpoint(i, k) && present then |edges| else f,
                      edges + [WindowTerms(c, anchors[i], w, entitiesOnly)],
                      triples + [WindowSentences(c, anchors[i], w)], docs + [anchors[i].doc])
  {
    var p := |s0.hyperedge|;
    CheckBounds(i, bc, k);
    var bc' := if Checkpoint(i, k) then bc + 1 else bc;
    var f' := if Checkpoint(i, k) && present then |edges| else f;
    if Checkpoint(i, k) && present {
      RunFlush(s0, m0, m1, p, k, bc, f, edges, triples, docs);
    }
    assert RunAt(s0, m1, p, k, bc', f', present, edges, triples, docs);
    RunGrow(s0, m1, t, p, k, bc', f', present, edges, triples, docs,
            WindowTerms(c, anchors[i], w, entitiesOnly), WindowSentences(c, anchors[i], w), anchors[i].doc);
    CoveredStep(s0, c, anchors, i, w, entitiesOnly, edges, triples, docs);
  }

  /**
   * What `create_edges_naively` leaves behind when the corpus has at least five sentences,
   * starting from state `s`: every buffered window followed by one window per sentence is
   * numbered and inserted, in flushes of the sizes `FlushSizes` gives, when the three tables
   * exist; otherwise the windows are all still buffered and no table or log changed.
   */
  predicate CreatedEdges(s: GeneratorState, t: GeneratorState, c: Corpus, w: int, entitiesOnly: bool, present: bool)
    requires Buffered(s) && |c.sentences| >= 5
  {
    var edges := PairsOf(s.hyperedge) + TermWindows(c, c.sentences, w, entitiesOnly);
    var triples := TriplesOf(s.hyperedgeSentence) + SentenceWindows(c, c.sentences, w);
    var docs := DocsOf(s.hyperedgeDocument) + AnchorDocuments(c.sentences);
    if present then
      && t.hyperedge == []
      && InProgress(s, t, edges, triples, docs, |s.hyperedge| + |c.sentences|)
      && t.flushLog == s.flushLog + FlushSizes(|s.hyperedge|, |c.sentences|, |c.sentences| / 5)
    else
      && InProgress(s, t, edges, triples, docs, 0)
      && t.flushLog == s.flushLog
      && t.edgeTable == s.edgeTable && t.documentTable == s.documentTable && t.sentenceTable == s.sentenceTable
  }

  /** After the last anchor: with the tables present something is still buffered; without them the run is over. */
  lemma LoopEnd(s0: GeneratorState, m: GeneratorState, c: Corpus, w: int, entitiesOnly: bool, present: bool,
                bc: nat, f: nat, edges: seq<set<TermPos>>, triples: seq<seq<SentencePos>>, docs: seq<int>)
    requires |c.sentences| >= 5
    requires LoopState(s0, m, c, c.sentences, w, entitiesOnly, |c.sentences| / 5, present, |c.sentences|,
                       bc, f, edges, triples, docs)
    ensures present ==> m.hyperedge != []
    ensures !present ==> CreatedEdges(s0, m, c, w, entitiesOnly, present)
  {
    CoveredAll(s0, c, c.sentences, w, entitiesOnly, edges, triples, docs);
    if present {
      RunPending(s0, m, |s0.hyperedge|, |c.sentences|, |c.sentences| / 5, bc, f, edges, triples, docs);
    }
  }

  /** The final flush of a run with the tables present hands every edge of the run to the tables. */
  lemma LoopClose(s0: GeneratorState, m: GeneratorState, t: GeneratorState, c: Corpus, w: int, entitiesOnly: bool,
                  bc: nat, f: nat, edges: seq<set<TermPos>>, triples: seq<seq<SentencePos>>, docs: seq<int>)
    requires |c.sentences| >= 5
    requires LoopState(s0, m, c, c.sentences, w, entitiesOnly, |c.sentences| / 5, true, |c.sentences|,
                       bc, f, edges, triples, docs)
    requires Flushed(m, t)
    ensures CreatedEdges(s0, t, c, w, entitiesOnly, true)
  {
    CoveredAll(s0, c, c.sentences, w, entitiesOnly, edges, triples, docs);
    RunFinish(s0, m, t, |s0.hyperedge|, |c.sentences|, |c.sentences| / 5, bc, f, edges, triples, docs);
    CreatedEdgesIntro(s0, t, c, w, entitiesOnly, edges, triples, docs);
  }

  /** A run with the tables present is over once every edge of the corpus has been flushed in the expected sizes. */
  lemma CreatedEdgesIntro(s: GeneratorState, t: GeneratorState, c: Corpus, w: int, entitiesOnly: bool,
                          edges: seq<set<TermPos>>, triples: seq<seq<SentencePos>>, docs: seq<int>)
    requires Buffered(s) && |c.sentences| >= 5
    requires edges == PairsOf(s.hyperedge) + TermWindows(c, c.sentences, w, entitiesOnly)
    requires triples == TriplesOf(s.hyperedgeSentence) + SentenceWindows(c, c.sentences, w)
    requires docs == DocsOf(s.hyperedgeDocument) + AnchorDocuments(c.sentences)
    requires |edges| == |s.hyperedge| + |c.sentences|
    requires InProgress(s, t, edges, triples, docs, |edges|)
    requires t.flushLog == s.flushLog + FlushSizes(|s.hyperedge|, |c.sentences|, |c.sentences| / 5)
    ensures CreatedEdges(s, t, c, w, entitiesOnly, true)
  {
    assert |PairsOf(t.hyperedge)| == |edges[|edges|..]| == 0;
  }

  /**
   * The three tables after a run over the corpus from `s` with the tables present: each
   * holds its old rows and the rows of every edge of the run, numbered from `s.hyperedgeId`.
   */
  predicate FilledTables(s: GeneratorState, t: GeneratorState, c: Corpus, w: int, entitiesOnly: bool)
    requires Buffered(s)
  {
    var edges := PairsOf(s.hyperedge) + TermWindows(c, c.sentences, w, entitiesOnly);
    var triples := TriplesOf(s.hyperedgeSentence) + SentenceWindows(c, c.sentences, w);
    var docs := DocsOf(s.hyperedgeDocument) + AnchorDocuments(c.sentences);
    && t.edgeTable == s.edgeTable + TaggedTermSet(s.hyperedgeId, edges)
    && t.documentTable == s.documentTable + Elems(TagDocuments(s.hyperedgeId, docs))
    && t.sentenceTable == s.sentenceTable + Elems(TaggedSentenceRows(s.hyperedgeId, triples))
  }

  /** A run that handed every edge to the tables, and whose inserts all succeeded, filled the tables with them. */
  lemma RunStored(s: GeneratorState, t: GeneratorState, c: Corpus, w: int, entitiesOnly: bool)
    requires Buffered(s) && |c.sentences| >= 5
    requires CreatedEdges(s, t, c, w, entitiesOnly, true) && Stored(s, t)
    ensures FilledTables(s, t, c, w, entitiesOnly)
  {
    var edges := PairsOf(s.hyperedge) + TermWindows(c, c.sentences, w, entitiesOnly);
    var triples := TriplesOf(s.hyperedgeSentence) + SentenceWindows(c, c.sentences, w);
    var docs := DocsOf(s.hyperedgeDocument) + AnchorDocuments(c.sentences);
    var n := |s.hyperedge| + |c.sentences|;
    assert InProgress(s, t, edges, triples, docs, n);
    assert edges[..n] == edges && triples[..n] == triples && docs[..n] == docs;
    assert t.handedDocuments[|s.handedDocuments|..] == TagDocuments(s.hyperedgeId, docs);
    assert t.handedSentences[|s.handedSentences|..] == TaggedSentenceRows(s.hyperedgeId, triples);
  }

  class HyperedgeGenerator {
    const windowSize: int
    const entitiesOnly: bool
    const corpus: Corpus
    const names: TableNames
    /** Names of the tables that exist in the database. */
    const catalogue: set<string>

    /** The hyperedge, hyperedge-document and hyperedge-sentence tables. */
    var edgeTable: set<TermRow>
    var documentTable: set<DocRow>
    var sentenceTable: set<SentenceRow>

    var hyperedge: seq<EdgeTerms>
    var hyperedgeSentence: seq<EdgeSentences>
    var hyperedgeDocument: seq<EdgeDocument>
    var allHyperedges: seq<TermRow>
    var allHyperedgeSentences: seq<SentenceRow>
    var hyperedgeId: int

    /** Every row handed to a bulk insert of each table, whether it was accepted or not. */
    ghost var handedTerms: seq<TermRow>
    ghost var handedDocuments: seq<DocRow>
    ghost var handedSentences: seq<SentenceRow>
    /** The number of edges carried by every flush that reached the tables. */
    ghost var flushLog: seq<nat>

    /** Between public calls the three buffers are equally long and hold untagged windows. */
    ghost predicate Valid()
      reads this
    {
      Buffered(State()) && allHyperedges == [] && allHyperedgeSentences == []
    }

    ghost function State(): GeneratorState
      reads this
    {
      GeneratorState(hyperedge, hyperedgeSentence, hyperedgeDocument, hyperedgeId,
                     edgeTable, documentTable, sentenceTable,
                     handedTerms, handedDocuments, handedSentences, flushLog)
    }

    predicate TablesPresent()
    {
      names.hyperedges in catalogue && names.sentences in catalogue && names.documents in catalogue
    }

    /**
     * `__init__`: empty buffers and the counter set from the number of distinct edge ids.
     * The source cannot construct a generator when the hyperedge table is missing.
     */
    constructor (windowSize: int, entitiesOnly: bool, corpus: Corpus, names: TableNames, catalogue: set<string>,
                 edgeTable: set<TermRow>, documentTable: set<DocRow>, sentenceTable: set<SentenceRow>)
      requires names.hyperedges in catalogue
      ensures Valid()
      ensures this.windowSize == windowSize && this.entitiesOnly == entitiesOnly && this.corpus == corpus
      ensures this.names == names && this.catalogue == catalogue
      ensures this.edgeTable == edgeTable && this.documentTable == documentTable
      ensures this.sentenceTable == sentenceTable
      ensures hyperedge == [] && hyperedgeSentence == [] && hyperedgeDocument == []
      ensures hyperedgeId == StartId(|EdgeIds(edgeTable)|)
      ensures handedTerms == [] && handedDocuments == [] && handedSentences == [] && flushLog == []
    {
      this.windowSize := windowSize;
      this.entitiesOnly := entitiesOnly;
      this.corpus := corpus;
      this.names := names;
      this.catalogue := catalogue;
      this.edgeTable := edgeTable;
      this.documentTable := documentTable;
      this.sentenceTable := sentenceTable;
      hyperedge, hyperedgeSentence, hyperedgeDocument := [], [], [];
      allHyperedges, allHyperedgeSentences := [], [];
      hyperedgeId := StartId(|EdgeIds(edgeTable)|);
      handedTerms, handedDocuments, handedSentences, flushLog := [], [], [], [];
    }

    /** Appends the window of one anchor to each of the three buffers. */
    method GenerateEverythingFromSentence(anchor: SentenceKey)
      requires Valid()
      modifies this`hyperedge, this`hyperedgeSentence, this`hyperedgeDocument
      ensures Valid()
      ensures hyperedge == old(hyperedge) + [PendingTerms(WindowTerms(corpus, anchor, windowSize, entitiesOnly))]
      ensures hyperedgeSentence == old(hyperedgeSentence) + [PendingSentences(WindowSentences(corpus, anchor, windowSize))]
      ensures hyperedgeDocument == old(hyperedgeDocument) + [PendingDocument(anchor.doc)]
      ensures Appended(old(State()), State(), WindowTerms(corpus, anchor, windowSize, entitiesOnly),
                       WindowSentences(corpus, anchor, windowSize), anchor.doc)
    {
      hyperedge := hyperedge + [PendingTerms(WindowTerms(corpus, anchor, windowSize, entitiesOnly))];
      hyperedgeSentence := hyperedgeSentence + [PendingSentences(WindowSentences(corpus, anchor, windowSize))];
      hyperedgeDocument := hyperedgeDocument + [PendingDocument(anchor.doc)];
    }

    /**
     * `prepare_data`: tags buffered edge `i` with id `start + i` in all three buffers,
     * collects the term and sentence rows in edge order, and advances the counter past the batch.
     */
    method PrepareData()
      requires Valid()
      modifies this`hyperedge, this`hyperedgeSentence, this`hyperedgeDocument
      modifies this`allHyperedges, this`allHyperedgeSentences, this`hyperedgeId
      ensures hyperedgeId == old(hyperedgeId) + |old(hyperedge)|
      ensures TaggedBatch(old(hyperedgeId), PairsOf(old(hyperedge)), TriplesOf(old(hyperedgeSentence)),
                          DocsOf(old(hyperedgeDocument)), hyperedge, hyperedgeSentence, hyperedgeDocument)
      ensures Elems(allHyperedges) == TaggedTermSet(old(hyperedgeId), PairsOf(old(hyperedge))) && NoDup(allHyperedges)
      ensures allHyperedgeSentences == TaggedSentenceRows(old(hyperedgeId), TriplesOf(old(hyperedgeSentence)))
      ensures (forall i :: 0 <= i < |hyperedgeDocument| ==> hyperedgeDocument[i].TaggedDocument?) &&
              DocRowsOf(hyperedgeDocument) == TagDocuments(old(hyperedgeId), DocsOf(old(hyperedgeDocument)))
    {
      var n := |hyperedge|;
      hyperedge, hyperedgeSentence, hyperedgeDocument, allHyperedges, allHyperedgeSentences :=
        TagBuffers(hyperedgeId, PairsOf(hyperedge), TriplesOf(hyperedgeSentence), DocsOf(hyperedgeDocument));
      hyperedgeId := hyperedgeId + n;
    }

    /** `insert_data`: one bulk insert per table, in the order terms, documents, sentences. */
    method InsertData()
      requires forall i :: 0 <= i < |hyperedgeDocument| ==> hyperedgeDocument[i].TaggedDocument?
      modifies this`edgeTable, this`documentTable, this`sentenceTable
      modifies this`handedTerms, this`handedDocuments, this`handedSentences
      ensures edgeTable == InsertRows(old(edgeTable), allHyperedges).1
      ensures documentTable == InsertRows(old(documentTable), DocRowsOf(hyperedgeDocument)).1
      ensures sentenceTable == InsertRows(old(sentenceTable), allHyperedgeSentences).1
      ensures handedTerms == old(handedTerms) + allHyperedges
      ensures handedDocuments == old(handedDocuments) + DocRowsOf(hyperedgeDocument)
      ensures handedSentences == old(handedSentences) + allHyperedgeSentences
    {
      var inserted := InsertRows(edgeTable, allHyperedges);
      edgeTable := inserted.1;
      handedTerms := handedTerms + allHyperedges;
      var documentRows := DocRowsOf(hyperedgeDocument);
      var insertedDocuments := InsertRows(documentTable, documentRows);
      documentTable := insertedDocuments.1;
      handedDocuments := handedDocuments + documentRows;
      var insertedSentences := InsertRows(sentenceTable, allHyperedgeSentences);
      sentenceTable := insertedSentences.1;
      handedSentences := handedSentences + allHyperedgeSentences;
    }

    /**
     * `insert_edges_naively`: when one of the three tables is missing nothing changes and the
     * result is false (the source returns 0); otherwise the buffered edges are numbered,
     * inserted, and all five buffers are emptied.
     */
    method InsertEdgesNaively() returns (flushed: bool)
      requires Valid()
      modifies this
      ensures Valid()
      ensures flushed == TablesPresent()
      ensures !flushed ==> unchanged(this)
      ensures flushed ==> Flushed(old(State()), State())
      ensures StoredRun(old(State()), State())
    {
      if !TablesPresent() {
        StoredRefl(State(), State());
        return false;
      }
      Flush();
      return true;
    }

    /** The tagging, insertion and clearing `insert_edges_naively` does once all three tables exist. */
    method Flush()
      requires Valid()
      modifies this`hyperedge, this`hyperedgeSentence, this`hyperedgeDocument
      modifies this`allHyperedges, this`allHyperedgeSentences, this`hyperedgeId
      modifies this`edgeTable, this`documentTable, this`sentenceTable
      modifies this`handedTerms, this`handedDocuments, this`handedSentences, this`flushLog
      ensures Valid()
      ensures Flushed(old(State()), State())
      ensures StoredRun(old(State()), State())
    {
      ghost var before := State();
      PrepareData();
      ghost var rows, docRows, sentenceRows := allHyperedges, DocRowsOf(hyperedgeDocument), allHyperedgeSentences;
      ghost var id := hyperedgeId;
      assert id == before.hyperedgeId + |before.hyperedge|;
      InsertData();
      ghost var tables := (edgeTable, documentTable, sentenceTable);
      ghost var handed := (handedTerms, handedDocuments, handedSentences);
      assert tables == (InsertRows(before.edgeTable, rows).1, InsertRows(before.documentTable, docRows).1,
                        InsertRows(before.sentenceTable, sentenceRows).1);
      assert handed == (before.handedTerms + rows, before.handedDocuments + docRows, before.handedSentences + sentenceRows);
      flushLog := flushLog + [|before.hyperedge|];
      ResetBuffers();
      FlushedIntro(before, State(), rows, docRows, sentenceRows);
    }

    /** Empties the five buffers. */
    method ResetBuffers()
      modifies this`hyperedge, this`hyperedgeSentence, this`hyperedgeDocument
      modifies this`allHyperedges, this`allHyperedgeSentences
      ensures Valid()
      ensures hyperedge == [] && hyperedgeSentence == [] && hyperedgeDocument == []
    {
      hyperedge, allHyperedges, hyperedgeDocument, hyperedgeSentence, allHyperedgeSentences := [], [], [], [], [];
    }

    /** The test at the head of each pass of `create_edges_naively`: a flush before every anchor whose index is a positive multiple of `k`. */
    method CheckpointFlush(i: nat, k: nat)
      requires Valid() && k >= 1
      modifies this
      ensures Valid()
      ensures Checkpoint(i, k) && TablesPresent() ==> Flushed(old(State()), State())
      ensures !(Checkpoint(i, k) && TablesPresent()) ==> State() == old(State())
      ensures StoredRun(old(State()), State())
    {
      if i % k == 0 && i != 0 {
        var flushed := InsertEdgesNaively();
      } else {
        StoredRefl(State(), State());
      }
    }

    /**
     * One pass of the `for` loop of `create_edges_naively`: a flush when anchor `i` is a
     * checkpoint, then the window of anchor `i` is buffered. The ghost parameters describe the
     * run so far and the ghost results the run after this pass. (The run state is compared with
     * `true` in the loop contracts so that it is checked as one formula, not conjunct by conjunct.)
     */
    method Visit(i: nat, k: nat, ghost s0: GeneratorState, ghost bc: nat, ghost f: nat,
                 ghost edges: seq<set<TermPos>>, ghost triples: seq<seq<SentencePos>>, ghost docs: seq<int>)
      returns (ghost bc': nat, ghost f': nat, ghost edges': seq<set<TermPos>>, ghost triples': seq<seq<SentencePos>>,
               ghost docs': seq<int>)
      requires Valid() && k >= 1 && i < |corpus.sentences|
      requires LoopState(s0, State(), corpus, corpus.sentences, windowSize, entitiesOnly, k, TablesPresent(),
                         i, bc, f, edges, triples, docs) == true
      requires StoredRun(s0, State()) == true
      modifies this
      ensures Valid()
      ensures LoopState(s0, State(), corpus, corpus.sentences, windowSize, entitiesOnly, k, TablesPresent(), i + 1,
                        bc', f', edges', triples', docs')
      ensures StoredRun(s0, State())
    {
      ghost var m0 := State();
      CheckpointFlush(i, k);
      StoredRunTrans(s0, m0, State());
      ghost var m1 := State();
      GenerateEverythingFromSentence(corpus.sentences[i]);
      WindowSentencesMembership(corpus, corpus.sentences[i], windowSize, SentencePos(0, 0, 0));
      StoredRunAppend(s0, m1, State(), WindowTerms(corpus, corpus.sentences[i], windowSize, entitiesOnly),
                      WindowSentences(corpus, corpus.sentences[i], windowSize), corpus.sentences[i].doc);
      LoopStep(s0, m0, m1, State(), corpus, corpus.sentences, windowSize, entitiesOnly, k, TablesPresent(),
               i, bc, f, edges, triples, docs);
      bc', f' := if Checkpoint(i, k) then bc + 1 else bc, if Checkpoint(i, k) && TablesPresent() then |edges| else f;
      edges', triples', docs' := edges + [WindowTerms(corpus, corpus.sentences[i], windowSize, entitiesOnly)],
        triples + [WindowSentences(corpus, corpus.sentences[i], windowSize)], docs + [corpus.sentences[i].doc];
    }

    /** The `for` loop of `create_edges_naively`: every anchor in order, flushing at each checkpoint. */
    method BatchAnchors(k: nat) returns (ghost c: nat, ghost f: nat, ghost edges: seq<set<TermPos>>,
                                          ghost triples: seq<seq<SentencePos>>, ghost docs: seq<int>)
      requires Valid() && k >= 1
      modifies this
      ensures Valid()
      ensures LoopState(old(State()), State(), corpus, corpus.sentences, windowSize, entitiesOnly, k, TablesPresent(),
                        |corpus.sentences|, c, f, edges, triples, docs)
      ensures StoredRun(old(State()), State())
    {
      var anchors := corpus.sentences;
      ghost var s0 := State();
      StoredRefl(s0, s0);
      edges, triples, docs := PairsOf(hyperedge), TriplesOf(hyperedgeSentence), DocsOf(hyperedgeDocument);
      c, f := 0, 0;
      LoopStart(s0, corpus, anchors, windowSize, entitiesOnly, k, TablesPresent());
      var i := 0;
      while i < |anchors|
        invariant 0 <= i <= |anchors| && Valid()
        invariant LoopState(s0, State(), corpus, anchors, windowSize, entitiesOnly, k, TablesPresent(), i, c, f, edges, triples, docs) == true
        invariant StoredRun(s0, State()) == true
      {
        c, f, edges, triples, docs := Visit(i, k, s0, c, f, edges, triples, docs);
        i := i + 1;
      }
    }

    /**
     * `create_edges_naively` over the sentences of the corpus: one hyperedge per anchor, with
     * a flush before every anchor whose index is a positive multiple of `k = n / 5`, and a final
     * flush of whatever is left. With fewer than five anchors the first modulo divides by zero;
     * with none, the final flush reads an unbound loop index when something is still pending.
     */
    method CreateEdgesNaively() returns (outcome: RunOutcome)
      requires Valid()
      modifies this
      ensures Valid()
      ensures |corpus.sentences| == 0 ==>
                unchanged(this) && outcome == (if old(hyperedge) == [] then Completed else Failed(UnboundLoopVariable))
      ensures 1 <= |corpus.sentences| < 5 ==> unchanged(this) && outcome == Failed(ZeroDivision)
      ensures |corpus.sentences| >= 5 ==>
                outcome == Completed && CreatedEdges(old(State()), State(), corpus, windowSize, entitiesOnly, TablesPresent())
      ensures |corpus.sentences| >= 5 && TablesPresent() && Fresh(old(State())) ==>
                FilledTables(old(State()), State(), corpus, windowSize, entitiesOnly)
    {
      var anchors := corpus.sentences;
      var n := |anchors|;
      if n == 0 {
        if hyperedge != [] {
          return Failed(UnboundLoopVariable);
        }
        return Completed;
      }
      var k := n / 5;
      if k == 0 {
        return Failed(ZeroDivision);
      }
      ghost var s0 := State();
      ghost var c, f, edges, triples, docs := BatchAnchors(k);
      LoopEnd(s0, State(), corpus, windowSize, entitiesOnly, TablesPresent(), c, f, edges, triples, docs);
      if hyperedge != [] {
        ghost var m := State();
        var flushed := InsertEdgesNaively();
        if flushed {
          LoopClose(s0, m, State(), corpus, windowSize, entitiesOnly, c, f, edges, triples, docs);
          if Fresh(s0) {
            StoredTrans(s0, m, State());
            RunStored(s0, State(), corpus, windowSize, entitiesOnly);
          }
        }
      }
      return Completed;
    }
  }
}
