/**
 * `GenerateDyadicSQL.py`: the dyadic projection done by the database, one
 * `CREATE TABLE … AS SELECT` self-join per entity hyperedge table.
 */
module DyadicSql {

  import opened Text
  import opened DyadicGraph

  /** A row of the table the query creates: `(edge_id, source_id, target_id, pos)`. */
  datatype DyadicPosRow = DyadicPosRow(edgeId: int, source: int, target: int, pos: int)

  lemma EntityFields(tail: string)
    ensures Split("entity_" + tail, '_') == ["entity"] + Split(tail, '_')
  {
    var rest := "_" + tail;
    assert "entity_" + tail == "entity" + rest;
    SplitPrefix("entity", rest, '_');
    assert rest[0] == '_' && rest[1..] == tail;
    assert "entity" + "" == "entity";
  }

  /** The table filter: starts with `entity_`, its second `_`-field is all digits, ends with `hyperedges`. */
  predicate IsEntityHyperedgeTable(name: string)
    ensures IsEntityHyperedgeTable(name) ==> |Split(name, '_')| >= 2 && Split(name, '_')[0] == "entity"
  {
    && StartsWith(name, "entity_")
    && (assert name == "entity_" + name[7..]; EntityFields(name[7..]); IsDigits(Split(name, '_')[1]))
    && EndsWith(name, "hyperedges")
  }

  /** The dyadic table name: field 0, `_`, field 1, `_dyadic`. */
  function DyadicName(name: string): string
    requires |Split(name, '_')| >= 2
  {
    Split(name, '_')[0] + "_" + Split(name, '_')[1] + "_dyadic"
  }

  /** The name of the index created on a dyadic table. */
  function IndexName(dyadic: string): string
  {
    dyadic + "_edge_id"
  }

  lemma WindowTableFields(w: nat, suffix: string)
    requires '_' !in suffix
    ensures Split("entity_" + NatToString(w) + "_" + suffix, '_') == ["entity", NatToString(w), suffix]
  {
    var d := NatToString(w);
    assert '_' !in d by {
      forall i | 0 <= i < |d| ensures d[i] != '_' {
        assert IsDigit(d[i]);
      }
    }
    var fields := ["entity", d, suffix];
    assert Join(fields[1..], '_') == d + "_" + suffix by {
      assert fields[1..][1..] == [suffix];
    }
    assert Join(fields, '_') == "entity_" + d + "_" + suffix;
    SplitJoin(fields, '_');
  }

  lemma SuffixOfConcat(a: string, b: string, k: nat)
    requires k <= |b|
    ensures (a + b)[|a + b| - k..] == b[|b| - k..]
  {
  }

  /** The hyperedge table of window `w` made by the schema module is selected; its dyadic table is `entity_{w}_dyadic`. */
  lemma WindowTableSelected(w: nat)
    ensures var name := "entity_" + NatToString(w) + "_hyperedges";
            IsEntityHyperedgeTable(name) && DyadicName(name) == "entity_" + NatToString(w) + "_dyadic"
  {
    var d := NatToString(w);
    var name := "entity_" + d + "_hyperedges";
    WindowTableFields(w, "hyperedges");
    assert name == "entity_" + (d + "_hyperedges");
    assert name[..7] == "entity_";
    assert name == ("entity_" + d + "_") + "hyperedges";
    SuffixOfConcat("entity_" + d + "_", "hyperedges", 10);
  }

  /** The document and sentence tables of a window are not selected. */
  lemma WindowSideTablesSkipped(w: nat)
    ensures !IsEntityHyperedgeTable("entity_" + NatToString(w) + "_hyperedge_document")
    ensures !IsEntityHyperedgeTable("entity_" + NatToString(w) + "_hyperedge_sentences")
  {
    var d := NatToString(w);
    SuffixOfConcat("entity_" + d, "_hyperedge_document", 10);
    SuffixOfConcat("entity_" + d, "_hyperedge_sentences", 10);
  }

  /** A full-graph table is never selected. */
  lemma FullTablesSkipped(tail: string)
    ensures !IsEntityHyperedgeTable("full_" + tail)
  {
    var name := "full_" + tail;
    if |name| >= 7 {
      assert name[0] == 'f';
      assert name[..7][0] == 'f';
    }
  }

  function Abs(x: int): int
  {
    if x < 0 then -x else x
  }

  /**
   * The `SELECT` of the query: every two rows `eh1`, `eh2` of the same edge with different
   * term ids give `(edge_id, eh1.term_id, eh2.term_id, |eh1.pos - eh2.pos|)`. Read as a set.
   */
  function SelfJoin(t: seq<HyperedgeRow>): set<DyadicPosRow>
  {
    set i, j | 0 <= i < |t| && 0 <= j < |t| && t[i].edgeId == t[j].edgeId && t[i].termId != t[j].termId
      :: DyadicPosRow(t[i].edgeId, t[i].termId, t[j].termId, Abs(t[i].pos - t[j].pos))
  }

  /** No dyadic row joins a term to itself, and every distance is non-negative. */
  lemma SelfJoinNoLoops(t: seq<HyperedgeRow>)
    ensures forall d :: d in SelfJoin(t) ==> d.source != d.target && d.pos >= 0
  {
  }

  /** The dyadic table is symmetric: each row comes with its mirror, at the same distance. */
  lemma SelfJoinSymmetric(t: seq<HyperedgeRow>)
    ensures forall d: DyadicPosRow :: d in SelfJoin(t) <==> DyadicPosRow(d.edgeId, d.target, d.source, d.pos) in SelfJoin(t)
  {
    forall d | d in SelfJoin(t)
      ensures DyadicPosRow(d.edgeId, d.target, d.source, d.pos) in SelfJoin(t)
    {
      var i, j :| 0 <= i < |t| && 0 <= j < |t| && t[i].edgeId == t[j].edgeId && t[i].termId != t[j].termId
        && d == DyadicPosRow(t[i].edgeId, t[i].termId, t[j].termId, Abs(t[i].pos - t[j].pos));
      assert Abs(t[j].pos - t[i].pos) == d.pos;
    }
    forall d: DyadicPosRow | DyadicPosRow(d.edgeId, d.target, d.source, d.pos) in SelfJoin(t)
      ensures d in SelfJoin(t)
    {
      var m := DyadicPosRow(d.edgeId, d.target, d.source, d.pos);
      var i, j :| 0 <= i < |t| && 0 <= j < |t| && t[i].edgeId == t[j].edgeId && t[i].termId != t[j].termId
        && m == DyadicPosRow(t[i].edgeId, t[i].termId, t[j].termId, Abs(t[i].pos - t[j].pos));
      assert Abs(t[j].pos - t[i].pos) == d.pos;
      assert d == DyadicPosRow(t[j].edgeId, t[j].termId, t[i].termId, Abs(t[j].pos - t[i].pos));
    }
  }

  /** The term ids of the rows of edge `e`, in table order. */
  function EdgeTerms(t: seq<HyperedgeRow>, e: int): seq<int>
  {
    if |t| == 0 then []
    else EdgeTerms(t[..|t| - 1], e) + (if t[|t| - 1].edgeId == e then [t[|t| - 1].termId] else [])
  }

  lemma {:induction false} EdgeTermsMembers(t: seq<HyperedgeRow>, e: int, x: int)
    ensures x in EdgeTerms(t, e) <==> exists i :: 0 <= i < |t| && t[i].edgeId == e && t[i].termId == x
  {
    if |t| > 0 {
      var init := t[..|t| - 1];
      EdgeTermsMembers(init, e, x);
      if exists i :: 0 <= i < |t| && t[i].edgeId == e && t[i].termId == x {
        var i :| 0 <= i < |t| && t[i].edgeId == e && t[i].termId == x;
        if i < |t| - 1 {
          assert init[i] == t[i];
        }
      }
      if x in EdgeTerms(init, e) {
        var i :| 0 <= i < |init| && init[i].edgeId == e && init[i].termId == x;
        assert t[i] == init[i];
      }
    }
  }

  /** The `(edge_id, source_id, target_id)` part of the rows of edge `e`. */
  function Projected(rows: set<DyadicPosRow>, e: int): set<DyadicRow>
  {
    set d | d in rows && d.edgeId == e :: DyadicRow(e, d.source, d.target)
  }

  lemma {:induction false} MirroredMembers(id: int, ps: seq<(int, int)>, d: DyadicRow)
    ensures d in Mirrored(id, ps) <==> d.edgeId == id && ((d.source, d.target) in ps || (d.target, d.source) in ps)
  {
    if |ps| > 0 {
      var init, p := ps[..|ps| - 1], ps[|ps| - 1];
      MirroredMembers(id, init, d);
      assert ps == init + [p];
    }
  }

  lemma MirroredDistinct(id: int, ps: seq<(int, int)>)
    requires forall s, t :: 0 <= s < t < |ps| ==> ps[s] != ps[t]
    requires forall p :: p in ps ==> p.0 < p.1
    ensures NoDup(Mirrored(id, ps))
  {
    var m := Mirrored(id, ps);
    MirroredShape(id, ps);
    forall u, v | 0 <= u < v < |m|
      ensures m[u] != m[v]
    {
      var s, t := u / 2, v / 2;
      assert u == 2 * s + u % 2 && v == 2 * t + v % 2;
      assert ps[s] in ps && ps[t] in ps;
      if s == t {
        assert m[u] == DyadicRow(id, ps[s].0, ps[s].1) && m[v] == DyadicRow(id, ps[s].1, ps[s].0);
      } else {
        assert ps[s] != ps[t];
      }
    }
  }

  /** A row of edge `e` in the self-join joins two different terms of `e`, and every such pair is there. */
  lemma ProjectedMembers(t: seq<HyperedgeRow>, e: int, d: DyadicRow)
    ensures d in Projected(SelfJoin(t), e)
        <==> d.edgeId == e && d.source in EdgeTerms(t, e) && d.target in EdgeTerms(t, e) && d.source != d.target
  {
    EdgeTermsMembers(t, e, d.source);
    EdgeTermsMembers(t, e, d.target);
    if d in Projected(SelfJoin(t), e) {
      var r :| r in SelfJoin(t) && r.edgeId == e && d == DyadicRow(e, r.source, r.target);
      var i, j :| 0 <= i < |t| && 0 <= j < |t| && t[i].edgeId == t[j].edgeId && t[i].termId != t[j].termId
        && r == DyadicPosRow(t[i].edgeId, t[i].termId, t[j].termId, Abs(t[i].pos - t[j].pos));
      assert t[i].edgeId == e && t[j].edgeId == e;
    }
    if d.edgeId == e && d.source in EdgeTerms(t, e) && d.target in EdgeTerms(t, e) && d.source != d.target {
      var i :| 0 <= i < |t| && t[i].edgeId == e && t[i].termId == d.source;
      var j :| 0 <= j < |t| && t[j].edgeId == e && t[j].termId == d.target;
      var r := DyadicPosRow(t[i].edgeId, t[i].termId, t[j].termId, Abs(t[i].pos - t[j].pos));
      assert r in SelfJoin(t);
    }
  }

  /** With distinct terms, the rows `explode_hyperedge` makes are the ordered pairs of different terms. */
  lemma ExplodedMembers(h: seq<int>, e: int, d: DyadicRow)
    requires NoDup(h)
    ensures d in Mirrored(e, Pairs(Sort(h))) <==> d.edgeId == e && d.source in h && d.target in h && d.source != d.target
  {
    ExplodeDistinct(h);
    MirroredMembers(e, Pairs(Sort(h)), d);
  }

  /** With distinct terms, the rows `explode_hyperedge` makes are `k(k - 1)` different rows for `k` terms. */
  lemma ExplodedRowsCount(h: seq<int>, e: int)
    requires NoDup(h)
    ensures |Elems(Mirrored(e, Pairs(Sort(h))))| == |h| * (|h| - 1)
  {
    var ps := Pairs(Sort(h));
    ExplodeDistinct(h);
    ExplodeCounts(h, e);
    forall p | p in ps ensures p.0 < p.1 {
      assert (p.0, p.1) in ps;
    }
    MirroredDistinct(e, ps);
    DistinctElems(Mirrored(e, ps));
  }

  /**
   * The claim of the file's docstring, for one edge whose term ids are distinct: the
   * `(edge_id, source_id, target_id)` rows of the self-join are exactly the rows that
   * `explode_hyperedge` hands to the dyadic table, `k(k - 1)` of them for `k` terms.
   */
  lemma SelfJoinMatchesExplode(t: seq<HyperedgeRow>, e: int)
    requires NoDup(EdgeTerms(t, e))
    ensures Projected(SelfJoin(t), e) == Elems(Mirrored(e, Pairs(Sort(EdgeTerms(t, e)))))
    ensures |Projected(SelfJoin(t), e)| == |EdgeTerms(t, e)| * (|EdgeTerms(t, e)| - 1)
  {
    SelfJoinIsExploded(t, e);
    ExplodedRowsCount(EdgeTerms(t, e), e);
  }

  lemma SelfJoinIsExploded(t: seq<HyperedgeRow>, e: int)
    requires NoDup(EdgeTerms(t, e))
    ensures Projected(SelfJoin(t), e) == Elems(Mirrored(e, Pairs(Sort(EdgeTerms(t, e)))))
  {
    var h := EdgeTerms(t, e);
    forall d: DyadicRow
      ensures d in Projected(SelfJoin(t), e) <==> d in Elems(Mirrored(e, Pairs(Sort(h))))
    {
      ProjectedMembers(t, e, d);
      ExplodedMembers(h, e, d);
    }
  }

  /**
   * A selected table whose pass creates something: its dyadic table name is free, and so is
   * the name of its index. When only the index name is taken, the `DuplicateTable` raised by
   * `CREATE INDEX` aborts the transaction, and leaving the `with` block rolls back the
   * `CREATE TABLE` of the same pass.
   */
  predicate Created(name: string, existing: set<string>)
  {
    && IsEntityHyperedgeTable(name)
    && DyadicName(name) !in existing
    && IndexName(DyadicName(name)) !in existing
  }

  /** The dyadic tables the loop leaves behind. */
  function DyadicTables(tables: seq<string>, existing: set<string>): set<string>
  {
    set n | n in tables && Created(n, existing) :: DyadicName(n)
  }

  /** The indexes the loop leaves behind: one per dyadic table it created. */
  function DyadicIndexes(tables: seq<string>, existing: set<string>): set<string>
  {
    set n | n in tables && Created(n, existing) :: IndexName(DyadicName(n))
  }

  lemma DyadicNamesSnoc(tables: seq<string>, name: string, existing: set<string>)
    ensures DyadicTables(tables + [name], existing)
      == DyadicTables(tables, existing) + (if Created(name, existing) then {DyadicName(name)} else {})
    ensures DyadicIndexes(tables + [name], existing)
      == DyadicIndexes(tables, existing) + (if Created(name, existing) then {IndexName(DyadicName(name))} else {})
  {
  }

  /** Two dyadic tables with the same index name are the same table. */
  lemma IndexNameInjective(a: string, b: string)
    requires IndexName(a) == IndexName(b)
    ensures a == b
  {
    assert |a| == |b|;
    assert a == IndexName(a)[..|a|];
  }

  /** A dyadic table name ends in `c`, an index name in `d`: the two kinds never collide. */
  lemma NamesApart(name: string, dyadic: string)
    requires |Split(name, '_')| >= 2
    ensures DyadicName(name) != IndexName(dyadic)
  {
    var dn, ix := DyadicName(name), IndexName(dyadic);
    assert dn[|dn| - 1] == 'c' && ix[|ix| - 1] == 'd';
  }

  /** One pass of the loop: the names it adds keep the invariant of `CreateDyadicTables`. */
  lemma TableStep(prefix: seq<string>, name: string, next: seq<string>, existing: set<string>, relations: set<string>, relations': set<string>)
    requires next == prefix + [name]
    requires relations == existing + DyadicTables(prefix, existing) + DyadicIndexes(prefix, existing)
    requires !IsEntityHyperedgeTable(name) ==> relations' == relations
    requires IsEntityHyperedgeTable(name) ==>
      relations' == if DyadicName(name) !in relations && IndexName(DyadicName(name)) !in relations
                    then relations + {DyadicName(name), IndexName(DyadicName(name))}
                    else relations
    ensures relations' == existing + DyadicTables(next, existing) + DyadicIndexes(next, existing)
  {
    DyadicNamesSnoc(prefix, name, existing);
    if Created(name, existing) {
      var dyadicName, index := DyadicName(name), IndexName(DyadicName(name));
      if dyadicName in relations {
        TableAlreadyThere(prefix, name, existing);
      } else {
        IndexFollowsTable(prefix, name, existing);
      }
      CreatedStep(DyadicTables(prefix, existing), DyadicIndexes(prefix, existing), existing, relations, relations',
                  dyadicName, index);
    } else if IsEntityHyperedgeTable(name) && DyadicName(name) !in relations {
      assert IndexName(DyadicName(name)) in existing;
    }
  }

  /** The set algebra of a pass that creates a dyadic table and its index, or finds both already made by the loop. */
  lemma CreatedStep(tables: set<string>, indexes: set<string>, existing: set<string>, relations: set<string>,
                    relations': set<string>, dyadicName: string, index: string)
    requires relations == existing + tables + indexes && dyadicName !in existing && index !in existing
    requires dyadicName in relations ==> dyadicName in tables && index in indexes
    requires dyadicName !in relations ==> index !in relations
    requires relations' == if dyadicName !in relations && index !in relations then relations + {dyadicName, index} else relations
    ensures relations' == existing + (tables + {dyadicName}) + (indexes + {index})
  {
  }

  /** A dyadic table already among the relations came from an earlier table of the same loop, and so did its index. */
  lemma TableAlreadyThere(prefix: seq<string>, name: string, existing: set<string>)
    requires Created(name, existing)
    requires DyadicName(name) in existing + DyadicTables(prefix, existing) + DyadicIndexes(prefix, existing)
    ensures DyadicName(name) in DyadicTables(prefix, existing)
    ensures IndexName(DyadicName(name)) in DyadicIndexes(prefix, existing)
  {
    var dyadicName := DyadicName(name);
    if dyadicName in DyadicIndexes(prefix, existing) {
      var m :| m in prefix && Created(m, existing) && dyadicName == IndexName(DyadicName(m));
      NamesApart(name, DyadicName(m));
    }
    var m :| m in prefix && Created(m, existing) && dyadicName == DyadicName(m);
  }

  /** The loop never leaves an index behind without its dyadic table. */
  lemma IndexFollowsTable(prefix: seq<string>, name: string, existing: set<string>)
    requires Created(name, existing)
    requires DyadicName(name) !in existing + DyadicTables(prefix, existing) + DyadicIndexes(prefix, existing)
    ensures IndexName(DyadicName(name)) !in existing + DyadicTables(prefix, existing) + DyadicIndexes(prefix, existing)
  {
    var dyadicName, index := DyadicName(name), IndexName(DyadicName(name));
    if index in DyadicTables(prefix, existing) {
      var m :| m in prefix && Created(m, existing) && index == DyadicName(m);
      NamesApart(m, dyadicName);
    } else if index in DyadicIndexes(prefix, existing) {
      var m :| m in prefix && Created(m, existing) && index == IndexName(DyadicName(m));
      IndexNameInjective(dyadicName, DyadicName(m));
    }
  }

  /**
   * The loop over the tables of one database: each selected table gets its dyadic table and
   * then its index, each pass in a transaction of its own. A `DuplicateTable` from
   * `CREATE TABLE` skips the table; one from `CREATE INDEX` also undoes that pass's
   * `CREATE TABLE`. `existing` are the relation names already taken in the database.
   */
  method CreateDyadicTables(tables: seq<string>, existing: set<string>) returns (relations: set<string>)
    ensures relations == existing + DyadicTables(tables, existing) + DyadicIndexes(tables, existing)
  {
    relations := existing;
    var i := 0;
    while i < |tables|
      invariant 0 <= i <= |tables|
      invariant relations == existing + DyadicTables(tables[..i], existing) + DyadicIndexes(tables[..i], existing)
    {
      var name := tables[i];
      ghost var before := relations;
      if IsEntityHyperedgeTable(name) {
        var dyadicName := DyadicName(name);
        var index := IndexName(dyadicName);
        if dyadicName !in relations && index !in relations {
          relations := relations + {dyadicName, index};
        }
      }
      TakeOneMore(tables, i);
      TableStep(tables[..i], name, tables[..i + 1], existing, before, relations);
      i := i + 1;
    }
    assert tables[..|tables|] == tables;
  }

  /**
   * What the loop leaves for one selected table: its dyadic table exists afterwards exactly
   * when it existed before or the name of its index was free, and a dyadic table the loop
   * created always comes with its index.
   */
  lemma SelectedOutcome(tables: seq<string>, existing: set<string>, name: string)
    requires name in tables && IsEntityHyperedgeTable(name)
    ensures var relations := existing + DyadicTables(tables, existing) + DyadicIndexes(tables, existing);
      DyadicName(name) in relations <==> DyadicName(name) in existing || IndexName(DyadicName(name)) !in existing
    ensures var relations := existing + DyadicTables(tables, existing) + DyadicIndexes(tables, existing);
      DyadicName(name) in relations - existing ==> IndexName(DyadicName(name)) in relations
  {
    var dyadicName := DyadicName(name);
    if dyadicName in DyadicIndexes(tables, existing) {
      var m :| m in tables && Created(m, existing) && dyadicName == IndexName(DyadicName(m));
      NamesApart(name, DyadicName(m));
    }
    if dyadicName in DyadicTables(tables, existing) {
      var m :| m in tables && Created(m, existing) && dyadicName == DyadicName(m);
      assert IndexName(dyadicName) in DyadicIndexes(tables, existing);
    }
  }
}
