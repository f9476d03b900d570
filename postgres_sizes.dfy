/**
 * `SSDBM_figures/window_size_vs_storage/get_postgres_sizes.py`: the storage each model of one
 * window size takes, as the sum of the sizes of its tables. The database is the dictionary of
 * table sizes that the size query returned.
 */
module PostgresSizes {

  import opened Wrappers
  import opened Text
  import Schema

  /** The total size of the tables in `keys`, in no particular order. */
  ghost function SumOver(sizes: map<string, int>, keys: set<string>): int
    requires keys <= sizes.Keys
    decreases keys
  {
    if keys == {} then 0 else var k :| k in keys; sizes[k] + SumOver(sizes, keys - {k})
  }

  /** Any table of the set can be taken out first: the total does not depend on the order. */
  lemma {:induction false} SumOverRemove(sizes: map<string, int>, keys: set<string>, k: string)
    requires keys <= sizes.Keys && k in keys
    ensures SumOver(sizes, keys) == sizes[k] + SumOver(sizes, keys - {k})
    decreases keys
  {
    var j :| j in keys && SumOver(sizes, keys) == sizes[j] + SumOver(sizes, keys - {j});
    if j != k {
      SumOverRemove(sizes, keys - {j}, k);
      SumOverRemove(sizes, keys - {k}, j);
      assert keys - {j} - {k} == keys - {k} - {j};
    }
  }

  /** The total over two tables sets without common tables is the sum of their totals. */
  lemma {:induction false} SumOverUnion(sizes: map<string, int>, a: set<string>, b: set<string>)
    requires a <= sizes.Keys && b <= sizes.Keys && a !! b
    ensures SumOver(sizes, a + b) == SumOver(sizes, a) + SumOver(sizes, b)
    decreases a
  {
    if a != {} {
      var k :| k in a;
      SumOverRemove(sizes, a, k);
      SumOverRemove(sizes, a + b, k);
      assert (a + b) - {k} == (a - {k}) + b;
      SumOverUnion(sizes, a - {k}, b);
    } else {
      assert a + b == b;
    }
  }

  /** With sizes that are never negative, a larger set of tables is never smaller in total. */
  lemma {:induction false} SumOverMonotone(sizes: map<string, int>, a: set<string>, b: set<string>)
    requires b <= sizes.Keys && a <= b
    requires forall k :: k in sizes ==> sizes[k] >= 0
    ensures SumOver(sizes, a) <= SumOver(sizes, b)
  {
    SumOverUnion(sizes, a, b - a);
    assert a + (b - a) == b;
    SumOverNonNegative(sizes, b - a);
  }

  lemma {:induction false} SumOverNonNegative(sizes: map<string, int>, keys: set<string>)
    requires keys <= sizes.Keys
    requires forall k :: k in sizes ==> sizes[k] >= 0
    ensures SumOver(sizes, keys) >= 0
    decreases keys
  {
    if keys != {} {
      var k :| k in keys;
      SumOverRemove(sizes, keys, k);
      SumOverNonNegative(sizes, keys - {k});
    }
  }

  /** The total `sum_size` computes: the tables of the subset that the database has. */
  ghost function SubsetSize(tableSizes: map<string, int>, tableSubset: set<string>): int
  {
    SumOver(tableSizes, tableSizes.Keys * tableSubset)
  }

  /** The size of one table, or nothing if the database does not have it. */
  function TableSize(tableSizes: map<string, int>, name: string): (r: int)
    ensures name in tableSizes ==> r == tableSizes[name]
    ensures name !in tableSizes ==> r == 0
  {
    if name in tableSizes then tableSizes[name] else 0
  }

  /** One step of `sum_size`: the table `k` is added to the running total if it is in the subset. */
  lemma SubsetStep(sizes: map<string, int>, subset: set<string>, counted: set<string>, k: string)
    requires counted <= sizes.Keys && k in sizes && k !in counted
    ensures SumOver(sizes, (counted + {k}) * subset)
         == SumOver(sizes, counted * subset) + (if k in subset then sizes[k] else 0)
  {
    if k in subset {
      SumOverRemove(sizes, (counted + {k}) * subset, k);
      assert (counted + {k}) * subset - {k} == counted * subset;
    } else {
      assert (counted + {k}) * subset == counted * subset;
    }
  }

  /**
   * `sum_size`: walks the entries of the dictionary, in whatever order it holds them, and adds
   * up the sizes of the tables in the subset.
   */
  method SumSize(tableSizes: map<string, int>, tableSubset: set<string>) returns (result: int)
    ensures result == SubsetSize(tableSizes, tableSubset)
  {
    result := 0;
    var remaining := tableSizes.Keys;
    ghost var counted: set<string> := {};
    while remaining != {}
      invariant remaining !! counted && remaining + counted == tableSizes.Keys
      invariant result == SumOver(tableSizes, counted * tableSubset)
      decreases remaining
    {
      var k :| k in remaining;
      SubsetStep(tableSizes, tableSubset, counted, k);
      if k in tableSubset {
        result := result + tableSizes[k];
      }
      remaining := remaining - {k};
      counted := counted + {k};
    }
    assert counted == tableSizes.Keys;
  }

  /** The empty subset gives 0, and tables of the subset the database lacks add nothing. */
  lemma SubsetSizeOnlyPresent(tableSizes: map<string, int>, tableSubset: set<string>, missing: set<string>)
    requires missing !! tableSizes.Keys
    ensures SubsetSize(tableSizes, {}) == 0
    ensures SubsetSize(tableSizes, tableSubset + missing) == SubsetSize(tableSizes, tableSubset)
  {
    assert tableSizes.Keys * {} == {};
    assert tableSizes.Keys * (tableSubset + missing) == tableSizes.Keys * tableSubset;
  }

  /** The total over two subsets without common tables is the sum of their totals. */
  lemma SubsetSizeAdditive(tableSizes: map<string, int>, a: set<string>, b: set<string>)
    requires a !! b
    ensures SubsetSize(tableSizes, a + b) == SubsetSize(tableSizes, a) + SubsetSize(tableSizes, b)
  {
    assert tableSizes.Keys * (a + b) == tableSizes.Keys * a + tableSizes.Keys * b;
    SumOverUnion(tableSizes, tableSizes.Keys * a, tableSizes.Keys * b);
  }

  /** The tables every model keeps. */
  const SharedTables: set<string> := {"documents", "sentences", "terms"}

  /** The implicit model: the shared tables and the term occurrences, whatever the window. */
  const ImplicitTables: set<string> := SharedTables + {"term_occurrence"}

  /** The explicit model of window `w`: the shared tables and the `full_{w}` hyperedge tables. */
  function ExplicitTables(w: int): (r: set<string>)
    ensures r == SharedTables + Elems(Schema.GetNames(Schema.SchemaPrefix("full", w)))
  {
    var d := IntToString(w);
    var names := Schema.GetNames(Schema.SchemaPrefix("full", w));
    assert Schema.SchemaPrefix("full", w) == "full_" + d;
    assert names == ["full_" + d + "_hyperedges", "full_" + d + "_hyperedge_document", "full_" + d + "_hyperedge_sentences"];
    {"documents", "sentences", "terms",
     "full_" + d + "_hyperedges", "full_" + d + "_hyperedge_document", "full_" + d + "_hyperedge_sentences"}
  }

  /** The entity model of window `w`: the shared tables and the `entity_{w}` hyperedge tables. */
  function ExplicitEntityTables(w: int): (r: set<string>)
    ensures r == SharedTables + Elems(Schema.GetNames(Schema.SchemaPrefix("entity", w)))
  {
    var d := IntToString(w);
    var names := Schema.GetNames(Schema.SchemaPrefix("entity", w));
    assert Schema.SchemaPrefix("entity", w) == "entity_" + d;
    assert names == ["entity_" + d + "_hyperedges", "entity_" + d + "_hyperedge_document", "entity_" + d + "_hyperedge_sentences"];
    {"documents", "sentences", "terms",
     "entity_" + d + "_hyperedges", "entity_" + d + "_hyperedge_document", "entity_" + d + "_hyperedge_sentences"}
  }

  /** The dyadic model of window `w`: as the entity model, with the dyadic table for the hyperedges. */
  function DyadicEntityTables(w: int): set<string>
  {
    var d := IntToString(w);
    {"documents", "sentences", "terms",
     "entity_" + d + "_dyadic", "entity_" + d + "_hyperedge_document", "entity_" + d + "_hyperedge_sentences"}
  }

  /** No `entity_` name is one of the shared tables: they start with another letter. */
  lemma EntityNameNotShared(name: string)
    requires StartsWith(name, "entity_")
    ensures name !in SharedTables && name != "term_occurrence"
  {
    assert name[0] == 'e';
  }

  /**
   * The entity and the dyadic model of a window share every table but one: the entity model has
   * `entity_{w}_hyperedges` where the dyadic model has `entity_{w}_dyadic`.
   */
  lemma EntityAndDyadicDiffer(w: int)
    ensures ExplicitEntityTables(w) - DyadicEntityTables(w) == {"entity_" + IntToString(w) + "_hyperedges"}
    ensures DyadicEntityTables(w) - ExplicitEntityTables(w) == {"entity_" + IntToString(w) + "_dyadic"}
  {
    var d := IntToString(w);
    var h, y := "entity_" + d + "_hyperedges", "entity_" + d + "_dyadic";
    var hd, hs := "entity_" + d + "_hyperedge_document", "entity_" + d + "_hyperedge_sentences";
    assert |h| == |d| + 18 && |y| == |d| + 14 && |hd| == |d| + 26 && |hs| == |d| + 27;
    assert h[..7] == "entity_" && y[..7] == "entity_";
    EntityNameNotShared(h);
    EntityNameNotShared(y);
  }

  /**
   * What the two models cost apart: the dyadic total exceeds the entity total by the size of
   * the dyadic table less that of the hyperedge table, each counted only if it exists.
   */
  lemma EntityVersusDyadicSize(tableSizes: map<string, int>, w: int)
    ensures var d := IntToString(w);
            SubsetSize(tableSizes, DyadicEntityTables(w)) + TableSize(tableSizes, "entity_" + d + "_hyperedges")
            == SubsetSize(tableSizes, ExplicitEntityTables(w)) + TableSize(tableSizes, "entity_" + d + "_dyadic")
  {
    var d := IntToString(w);
    var h, y := "entity_" + d + "_hyperedges", "entity_" + d + "_dyadic";
    EntityAndDyadicDiffer(w);
    var common := ExplicitEntityTables(w) * DyadicEntityTables(w);
    assert ExplicitEntityTables(w) == common + {h};
    assert DyadicEntityTables(w) == common + {y};
    SubsetSizeAdditive(tableSizes, common, {h});
    SubsetSizeAdditive(tableSizes, common, {y});
    SingleSize(tableSizes, h);
    SingleSize(tableSizes, y);
  }

  lemma SingleSize(tableSizes: map<string, int>, name: string)
    ensures SubsetSize(tableSizes, {name}) == TableSize(tableSizes, name)
  {
    if name in tableSizes {
      assert tableSizes.Keys * {name} == {name};
      SumOverRemove(tableSizes, {name}, name);
      assert {name} - {name} == {};
    } else {
      assert tableSizes.Keys * {name} == {};
    }
  }

  /** The entries `get_sizes` writes for a window: the dyadic model up to 10, the full one up to 5. */
  function Recorded(w: int): (r: set<string>)
    ensures "implicit" in r && "explicit_entity" in r
    ensures "dyadic_entity" in r <==> w <= 10
    ensures "explicit" in r <==> w <= 5
    ensures "explicit" in r ==> "dyadic_entity" in r
    ensures r <= {"implicit", "explicit_entity", "dyadic_entity", "explicit"}
  {
    {"implicit", "explicit_entity"} + (if w <= 10 then {"dyadic_entity"} else {}) + (if w <= 5 then {"explicit"} else {})
  }

  /** `vals[str(window)]` of a dictionary that raised on a missing key. */
  datatype SizeError = KeyError(key: string)

  /**
   * The record of a window after `get_sizes` wrote the four totals into it: the implicit and the
   * entity totals always, the dyadic total up to window 10 and the full total up to window 5;
   * every other entry stays as it was.
   */
  function WriteRecord(before: map<string, int>, w: int, implicitSize: int, explicitSize: int,
                       explicitEntitySize: int, dyadicEntitySize: int): (record: map<string, int>)
    ensures record.Keys == before.Keys + Recorded(w)
    ensures forall e :: e in before && e !in Recorded(w) ==> record[e] == before[e]
    ensures record["implicit"] == implicitSize && record["explicit_entity"] == explicitEntitySize
    ensures w <= 10 ==> record["dyadic_entity"] == dyadicEntitySize
    ensures w <= 5 ==> record["explicit"] == explicitSize
  {
    var written := before["implicit" := implicitSize]["explicit_entity" := explicitEntitySize];
    if w <= 10 then
      var withDyadic := written["dyadic_entity" := dyadicEntitySize];
      if w <= 5 then withDyadic["explicit" := explicitSize] else withDyadic
    else written
  }

  /** The four totals of `get_sizes`, one `sum_size` per model of the window. */
  method ModelSizes(window: int, tableSizes: map<string, int>)
    returns (implicitSize: int, explicitSize: int, explicitEntitySize: int, dyadicEntitySize: int)
    ensures implicitSize == SubsetSize(tableSizes, ImplicitTables)
    ensures explicitSize == SubsetSize(tableSizes, ExplicitTables(window))
    ensures explicitEntitySize == SubsetSize(tableSizes, ExplicitEntityTables(window))
    ensures dyadicEntitySize == SubsetSize(tableSizes, DyadicEntityTables(window))
  {
    implicitSize := SumSize(tableSizes, ImplicitTables);
    explicitSize := SumSize(tableSizes, ExplicitTables(window));
    explicitEntitySize := SumSize(tableSizes, ExplicitEntityTables(window));
    dyadicEntitySize := SumSize(tableSizes, DyadicEntityTables(window));
  }

  /**
   * `get_sizes` after the size query: the four totals are computed and written into the record of
   * the window. `defaulted` tells whether `vals` creates a missing record (the `defaultdict` of a
   * first run) or raises (the dictionary read back from the JSON file). No other record changes.
   */
  method GetSizes(vals: map<string, map<string, int>>, defaulted: bool, window: int, tableSizes: map<string, int>)
    returns (r: Result<map<string, map<string, int>>, SizeError>)
    ensures var key := IntToString(window);
            key !in vals && !defaulted ==> r == Err(KeyError(key))
    ensures var key := IntToString(window);
            key in vals || defaulted ==>
              r == Ok(vals[key := WriteRecord(if key in vals then vals[key] else map[], window,
                                              SubsetSize(tableSizes, ImplicitTables),
                                              SubsetSize(tableSizes, ExplicitTables(window)),
                                              SubsetSize(tableSizes, ExplicitEntityTables(window)),
                                              SubsetSize(tableSizes, DyadicEntityTables(window)))])
  {
    var implicitSize, explicitSize, explicitEntitySize, dyadicEntitySize := ModelSizes(window, tableSizes);
    var key := IntToString(window);
    if key !in vals && !defaulted {
      return Err(KeyError(key));
    }
    var before := if key in vals then vals[key] else map[];
    r := Ok(vals[key := WriteRecord(before, window, implicitSize, explicitSize, explicitEntitySize, dyadicEntitySize)]);
  }
}
