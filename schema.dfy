/**
 * `GenerateNewSchema.py`: the command-line boolean parser, the table names of one window size,
 * and the creation of the missing hyperedge tables before the hyperedge generator runs.
 */
module Schema {

  import opened Wrappers
  import opened Text
  import DyadicSql

  /** The spellings `str2bool` reads as true, compared after lower-casing. */
  const TrueWords: set<string> := {"yes", "true", "t", "y", "1"}

  /** The spellings `str2bool` reads as false, compared after lower-casing. */
  const FalseWords: set<string> := {"no", "false", "f", "n", "0"}

  datatype ArgError = ArgumentTypeError(message: string)

  /**
   * `str2bool`: true for the true spellings, false for the false spellings, in any case, and
   * an `ArgumentTypeError` for anything else.
   */
  function Str2Bool(v: string): (r: Result<bool, ArgError>)
    ensures r == Ok(true) <==> Lower(v) in TrueWords
    ensures r == Ok(false) <==> Lower(v) in FalseWords
    ensures r.Err? <==> Lower(v) !in TrueWords && Lower(v) !in FalseWords
  {
    if Lower(v) in TrueWords then Ok(true)
    else if Lower(v) in FalseWords then Ok(false)
    else Err(ArgumentTypeError("Boolean value expected."))
  }

  /** No spelling is both true and false, so the answer never depends on the order of the tests. */
  lemma WordSetsDisjoint()
    ensures TrueWords * FalseWords == {}
  {
    forall w | w in TrueWords ensures w !in FalseWords {
    }
  }

  /** Case does not matter: a value parses as its lower-cased form does. */
  lemma Str2BoolIgnoresCase(v: string)
    ensures Str2Bool(v) == Str2Bool(Lower(v))
  {
    LowerIdempotent(v);
  }

  /** `prefix + "_" + str(window_size)`. */
  function SchemaPrefix(prefix: string, windowSize: int): (r: string)
    ensures StartsWith(r, prefix + "_")
    ensures r == prefix + "_" + IntToString(windowSize)
  {
    prefix + "_" + IntToString(windowSize)
  }

  /**
   * `get_names`: the hyperedge, hyperedge-document and hyperedge-sentence table names of a
   * prefix, in that order; they are three different names.
   */
  function GetNames(prefix: string): (names: seq<string>)
    ensures names == [prefix + "_hyperedges", prefix + "_hyperedge_document", prefix + "_hyperedge_sentences"]
    ensures |names| == 3
    ensures forall i :: 0 <= i < 3 ==> StartsWith(names[i], prefix + "_hyperedge")
    ensures EndsWith(names[0], "_hyperedges") && EndsWith(names[1], "_document") && EndsWith(names[2], "_sentences")
    ensures NoDup(names)
  {
    var names := [prefix + "_hyperedges", prefix + "_hyperedge_document", prefix + "_hyperedge_sentences"];
    assert |names[0]| == |prefix| + 11 && |names[1]| == |prefix| + 19 && |names[2]| == |prefix| + 20;
    assert names[0] == (prefix + "_hyperedge") + "s";
    assert names[1] == (prefix + "_hyperedge") + "_document";
    assert names[2] == (prefix + "_hyperedge") + "_sentences";
    names
  }

  /**
   * With the default prefix `entity`, the hyperedge table of a window is the one table of the
   * three that the dyadic conversion picks up, and it becomes `entity_{w}_dyadic`.
   */
  lemma EntityNamesFeedDyadicConversion(w: nat)
    ensures var names := GetNames(SchemaPrefix("entity", w));
            && DyadicSql.IsEntityHyperedgeTable(names[0])
            && DyadicSql.DyadicName(names[0]) == "entity_" + NatToString(w) + "_dyadic"
            && !DyadicSql.IsEntityHyperedgeTable(names[1])
            && !DyadicSql.IsEntityHyperedgeTable(names[2])
  {
    var d := NatToString(w);
    var names := GetNames(SchemaPrefix("entity", w));
    assert names[0] == "entity_" + d + "_hyperedges";
    assert names[1] == "entity_" + d + "_hyperedge_document";
    assert names[2] == "entity_" + d + "_hyperedge_sentences";
    DyadicSql.WindowTableSelected(w);
    DyadicSql.WindowSideTablesSkipped(w);
  }

  /** The arguments `create` hands to the hyperedge generator. */
  datatype GeneratorConfig = GeneratorConfig(entitiesOnly: bool, windowSize: int, hyperedgeTable: string,
                                             documentTable: string, sentenceTable: string, port: int)

  /** `SchemaCreator`; the database is the set of its table names. */
  class SchemaCreator {
    const windowSize: int
    const prefix: string
    const entitiesOnly: bool
    const names: seq<string>
    const port: int

    constructor(prefix: string, windowSize: int, entitiesOnly: bool, port: int)
      ensures this.windowSize == windowSize && this.entitiesOnly == entitiesOnly && this.port == port
      ensures this.prefix == SchemaPrefix(prefix, windowSize) && names == GetNames(this.prefix)
    {
      this.windowSize := windowSize;
      this.prefix := SchemaPrefix(prefix, windowSize);
      this.entitiesOnly := entitiesOnly;
      this.names := GetNames(SchemaPrefix(prefix, windowSize));
      this.port := port;
    }

    /**
     * `create`: each of the three tables is created only when it is missing; afterwards all three
     * exist, nothing else is touched, and the generator is pointed at them in their roles.
     */
    method Create(existing: set<string>) returns (tables: set<string>, created: seq<string>, config: GeneratorConfig)
      requires names == GetNames(prefix)
      ensures tables == existing + Elems(names)
      ensures Elems(created) == Elems(names) - existing && NoDup(created)
      ensures config == GeneratorConfig(entitiesOnly, windowSize, names[0], names[1], names[2], port)
    {
      tables, created := existing, [];
      if names[0] !in tables {
        tables := tables + {names[0]};
        created := created + [names[0]];
      }
      if names[1] !in tables {
        tables := tables + {names[1]};
        created := created + [names[1]];
      }
      if names[2] !in tables {
        tables := tables + {names[2]};
        created := created + [names[2]];
      }
      config := GeneratorConfig(entitiesOnly, windowSize, names[0], names[1], names[2], port);
    }
  }
}
