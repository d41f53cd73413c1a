/**
 * Building the mambo tables of one crossnet (edge type) from one dataset's
 * edge file (utils/create_mambo_crossnet_table.py). Both endpoints of an
 * edge are resolved to mambo node ids through the key-to-id maps of the
 * source and destination mode tables; each resolved edge gets the next
 * mambo edge id.
 */
module CrossnetTable {
  import opened Wrappers
  import opened Lines

  /** A row of the full crossnet table: edge id, dataset id, source and destination mambo node ids. */
  datatype FullRow = FullRow(id: int, datasetId: int, src: int, dst: int)

  /** A row of the dataset's crossnet table: edge id, the two mode tables' dataset ids, the other columns. */
  datatype DbRow = DbRow(id: int, srcDatasetId: int, dstDatasetId: int, attrs: seq<string>)

  /** What one run writes; `fullHeader` stands for the comment lines in front of the full table. */
  datatype Tables = Tables(fullHeader: bool, schema: Option<seq<nat>>, full: seq<FullRow>, db: seq<DbRow>, next: int)

  /**
   * The run's settings: the dataset id, the dataset ids parsed from the two
   * mode table file names, the endpoint columns, the optional key filters
   * (`get_filter` gives a function or nothing) and `skip_missing_ids`.
   */
  datatype Config = Config(
    dbId: int, srcDbId: int, dstDbId: int,
    srcIdx: int, dstIdx: int,
    srcFilter: Option<string -> string>, dstFilter: Option<string -> string>,
    skipMissing: bool)

  /** The key-to-id maps of the two endpoints. */
  datatype Mappings = Mappings(src: map<string, int>, dst: map<string, int>)

  /**
   * When the source and destination mode tables are the same file, the one
   * loaded map serves both ends and the destination table is not read.
   */
  function LoadMappings(srcTable: map<string, int>, dstTable: map<string, int>, sameFile: bool): (m: Mappings)
    ensures sameFile ==> m.src == m.dst == srcTable
    ensures !sameFile ==> m.src == srcTable && m.dst == dstTable
  {
    Mappings(srcTable, if sameFile then srcTable else dstTable)
  }

  function ApplyFilter(f: Option<string -> string>, key: string): string {
    match f
    case None => key
    case Some(g) => g(key)
  }

  /** The edge's two lookup keys after the filters, or None when an endpoint column is missing. */
  function Endpoints(line: Line, cfg: Config): Option<(string, string)> {
    match Column(line.fields, cfg.srcIdx)
    case None => None
    case Some(a) =>
      match Column(line.fields, cfg.dstIdx)
      case None => None
      case Some(b) => Some((ApplyFilter(cfg.srcFilter, a), ApplyFilter(cfg.dstFilter, b)))
  }

  datatype State = State(counter: int, schema: Option<seq<nat>>, full: seq<FullRow>, db: seq<DbRow>)

  function Init(start: int): State {
    State(start, None, [], [])
  }

  /** One iteration of `for line in inF`. */
  function Step(st: State, line: Line, j: nat, cfg: Config, m: Mappings): Result<State, Error> {
    if IsComment(line) then Success(st)
    else
      var skip := {cfg.srcIdx, cfg.dstIdx};
      var schema := if st.schema.None? then Some(ColumnsExcept(|line.fields|, skip)) else st.schema;
      match Column(line.fields, cfg.srcIdx)
      case None => Failure(MissingField(InputFile, j, cfg.srcIdx))
      case Some(raw1) =>
        match Column(line.fields, cfg.dstIdx)
        case None => Failure(MissingField(InputFile, j, cfg.dstIdx))
        case Some(raw2) =>
          var id1 := ApplyFilter(cfg.srcFilter, raw1);
          var id2 := ApplyFilter(cfg.dstFilter, raw2);
          if id1 == "" || id2 == "" then Success(st.(schema := schema))
          else if cfg.skipMissing && (id1 !in m.src || id2 !in m.dst) then Success(st.(schema := schema))
          else if id1 !in m.src then Failure(UnresolvedKey(j, Source, id1))
          else if id2 !in m.dst then Failure(UnresolvedKey(j, Destination, id2))
          else Success(State(st.counter + 1, schema,
                             st.full + [FullRow(st.counter, cfg.dbId, m.src[id1], m.dst[id2])],
                             st.db + [DbRow(st.counter, cfg.srcDbId, cfg.dstDbId, Except(line.fields, skip))]))
  }

  function StepOf(cfg: Config, m: Mappings): (State, Line, nat) -> Result<State, Error> {
    (st: State, line: Line, j: nat) => Step(st, line, j, cfg, m)
  }

  function Run(lines: seq<Line>, cfg: Config, m: Mappings, start: int): Result<State, Error> {
    Fold(StepOf(cfg, m), Init(start), lines)
  }

  /** The specification of a whole run. */
  function CrossnetTables(lines: seq<Line>, cfg: Config, srcTable: map<string, int>, dstTable: map<string, int>,
                          sameFile: bool, start: int): Result<Tables, Error>
  {
    match Run(lines, cfg, LoadMappings(srcTable, dstTable, sameFile), start)
    case Failure(e) => Failure(e)
    case Success(st) => Success(Tables(start == 0, st.schema, st.full, st.db, st.counter))
  }

  /** The step on a record whose two keys resolve: one edge, under the current counter. */
  lemma StepEmits(st: State, line: Line, j: nat, cfg: Config, m: Mappings, id1: string, id2: string)
    requires !IsComment(line)
    requires Endpoints(line, cfg) == Some((id1, id2))
    requires id1 != "" && id2 != "" && id1 in m.src && id2 in m.dst
    ensures Step(st, line, j, cfg, m) ==
      Success(State(st.counter + 1,
                    if st.schema.None? then Some(ColumnsExcept(|line.fields|, {cfg.srcIdx, cfg.dstIdx})) else st.schema,
                    st.full + [FullRow(st.counter, cfg.dbId, m.src[id1], m.dst[id2])],
                    st.db + [DbRow(st.counter, cfg.srcDbId, cfg.dstDbId, Except(line.fields, {cfg.srcIdx, cfg.dstIdx}))]))
  {
  }

  /** One pass of the loop's body, for input line `j`. */
  method EdgeLine(st: State, line: Line, j: nat, cfg: Config, m: Mappings) returns (r: Result<State, Error>)
    ensures r == Step(st, line, j, cfg, m)
  {
    if IsComment(line) {
      return Success(st);
    }
    var skip := {cfg.srcIdx, cfg.dstIdx};
    var schema := st.schema;
    if schema.None? {
      var cols := SchemaColumns(|line.fields|, skip);
      schema := Some(cols);
    }
    var raw1 := Column(line.fields, cfg.srcIdx);
    if raw1.None? {
      return Failure(MissingField(InputFile, j, cfg.srcIdx));
    }
    var raw2 := Column(line.fields, cfg.dstIdx);
    if raw2.None? {
      return Failure(MissingField(InputFile, j, cfg.dstIdx));
    }
    var id1 := raw1.value;
    var id2 := raw2.value;
    if cfg.srcFilter.Some? {
      id1 := cfg.srcFilter.value(id1);
    }
    if cfg.dstFilter.Some? {
      id2 := cfg.dstFilter.value(id2);
    }
    assert id1 == ApplyFilter(cfg.srcFilter, raw1.value) && id2 == ApplyFilter(cfg.dstFilter, raw2.value);
    if id1 == "" || id2 == "" {
      return Success(st.(schema := schema));
    }
    if cfg.skipMissing && (id1 !in m.src || id2 !in m.dst) {
      return Success(st.(schema := schema));
    }
    var attrs := Attributes(line.fields, skip);
    if id1 !in m.src {
      return Failure(UnresolvedKey(j, Source, id1));
    }
    if id2 !in m.dst {
      return Failure(UnresolvedKey(j, Destination, id2));
    }
    StepEmits(st, line, j, cfg, m, id1, id2);
    r := Success(State(st.counter + 1, schema,
                       st.full + [FullRow(st.counter, cfg.dbId, m.src[id1], m.dst[id2])],
                       st.db + [DbRow(st.counter, cfg.srcDbId, cfg.dstDbId, attrs)]));
  }

  /**
   * `create_mambo_crossnet_table`: `srcTable` and `dstTable` are what
   * reading the two mode tables gives, `start` the edge id counter the run
   * begins with.
   */
  method CreateCrossnetTable(lines: seq<Line>, cfg: Config, srcTable: map<string, int>, dstTable: map<string, int>,
                             sameFile: bool, start: int) returns (r: Result<Tables, Error>)
    ensures r == CrossnetTables(lines, cfg, srcTable, dstTable, sameFile, start)
  {
    var m := LoadMappings(srcTable, dstTable, sameFile);
    var st := Init(start);
    var i := 0;
    while i < |lines|
      invariant i <= |lines|
      invariant Run(lines[..i], cfg, m, start) == Success(st)
    {
      FoldExtend(StepOf(cfg, m), Init(start), lines, i);
      var next := EdgeLine(st, lines[i], i, cfg, m);
      if next.Failure? {
        FoldFailureSticks(StepOf(cfg, m), Init(start), lines, i + 1);
        return Failure(next.error);
      }
      st := next.value;
      i := i + 1;
    }
    assert lines[..|lines|] == lines;
    r := Success(Tables(start == 0, st.schema, st.full, st.db, st.counter));
  }

  // ----- what a run computes, stated without the loop -----

  /** Line `line` becomes an edge: a record whose two filtered keys are non-empty and both known. */
  predicate Emits(line: Line, cfg: Config, m: Mappings) {
    && !IsComment(line)
    && Endpoints(line, cfg).Some?
    && var (a, b) := Endpoints(line, cfg).value;
       a != "" && b != "" && a in m.src && b in m.dst
  }

  function EmitsOf(cfg: Config, m: Mappings): Line -> bool {
    line => Emits(line, cfg, m)
  }

  /** The lines that become edges, in input order. */
  function EdgeLines(lines: seq<Line>, cfg: Config, m: Mappings): seq<nat> {
    Positions(lines, EmitsOf(cfg, m))
  }

  /**
   * Line `j` aborts the run: an endpoint column is missing, or (without
   * `skip_missing_ids`) a non-empty key is not in its map.
   */
  ghost predicate Fatal(lines: seq<Line>, cfg: Config, m: Mappings, j: int) {
    && 0 <= j < |lines|
    && !IsComment(lines[j])
    && (|| Endpoints(lines[j], cfg).None?
        || (var (a, b) := Endpoints(lines[j], cfg).value;
            !cfg.skipMissing && a != "" && b != "" && (a !in m.src || b !in m.dst)))
  }

  /** The state after a successful run. */
  lemma {:induction false} RunState(lines: seq<Line>, cfg: Config, m: Mappings, start: int)
    requires Run(lines, cfg, m, start).Success?
    ensures var st := Run(lines, cfg, m, start).value;
      var e := EdgeLines(lines, cfg, m);
      && st.counter == start + |e|
      && |st.full| == |e| && |st.db| == |e|
      && (forall k :: 0 <= k < |e| ==>
            && Emits(lines[e[k]], cfg, m)
            && var (a, b) := Endpoints(lines[e[k]], cfg).value;
               && st.full[k] == FullRow(start + k, cfg.dbId, m.src[a], m.dst[b])
               && st.db[k] == DbRow(start + k, cfg.srcDbId, cfg.dstDbId, Except(lines[e[k]].fields, {cfg.srcIdx, cfg.dstIdx})))
    decreases |lines|
  {
    var e := EdgeLines(lines, cfg, m);
    if |lines| > 0 {
      var n := |lines| - 1;
      var p := lines[..n];
      assert Run(lines, cfg, m, start) ==
        match Run(p, cfg, m, start)
        case Failure(err) => Failure(err)
        case Success(s) => Step(s, lines[n], n, cfg, m);
      RunState(p, cfg, m, start);
      var pe := EdgeLines(p, cfg, m);
      assert forall k :: 0 <= k < |pe| ==> p[pe[k]] == lines[pe[k]];
      assert forall k :: 0 <= k < |e| ==> e[k] in e;
      if Emits(lines[n], cfg, m) {
        assert e == pe + [n];
      } else {
        assert e == pe;
      }
    }
  }

  // ----- the properties of a run -----

  /**
   * Edge ids run start, start+1, ... with one id per emitted edge and no
   * de-duplication: every line that resolves becomes an edge, in input
   * order. The full row carries the dataset id and the two resolved mambo
   * node ids, the dataset row the two mode tables' dataset ids and the
   * remaining columns in order.
   */
  lemma CrossnetRows(lines: seq<Line>, cfg: Config, srcTable: map<string, int>, dstTable: map<string, int>,
                     sameFile: bool, start: int)
    requires CrossnetTables(lines, cfg, srcTable, dstTable, sameFile, start).Success?
    ensures var t := CrossnetTables(lines, cfg, srcTable, dstTable, sameFile, start).value;
      var m := LoadMappings(srcTable, dstTable, sameFile);
      var e := EdgeLines(lines, cfg, m);
      && t.next == start + |e|
      && |t.full| == |e| && |t.db| == |e|
      && (forall j :: j in e <==> 0 <= j < |lines| && Emits(lines[j], cfg, m))
      && (forall k :: 0 <= k < |e| ==>
            && var (a, b) := Endpoints(lines[e[k]], cfg).value;
               && a != "" && b != "" && a in m.src && b in m.dst
               && t.full[k] == FullRow(start + k, cfg.dbId, m.src[a], m.dst[b])
               && t.db[k] == DbRow(start + k, cfg.srcDbId, cfg.dstDbId, Except(lines[e[k]].fields, {cfg.srcIdx, cfg.dstIdx})))
  {
    RunState(lines, cfg, LoadMappings(srcTable, dstTable, sameFile), start);
  }

  /**
   * The schema line comes from the first record line: it is written iff the
   * input has a record, and lists that line's columns other than the two
   * endpoint columns, in increasing order.
   */
  lemma {:induction false} CrossnetSchema(lines: seq<Line>, cfg: Config, m: Mappings, start: int)
    requires Run(lines, cfg, m, start).Success?
    ensures var st := Run(lines, cfg, m, start).value;
      && (st.schema.None? <==> forall j :: 0 <= j < |lines| ==> IsComment(lines[j]))
      && (forall j :: IsFirstRecord(lines, j) ==> st.schema == Some(ColumnsExcept(|lines[j].fields|, {cfg.srcIdx, cfg.dstIdx})))
    decreases |lines|
  {
    if |lines| > 0 {
      var n := |lines| - 1;
      var p := lines[..n];
      assert Run(lines, cfg, m, start) ==
        match Run(p, cfg, m, start)
        case Failure(e) => Failure(e)
        case Success(s) => Step(s, lines[n], n, cfg, m);
      var s := Run(p, cfg, m, start).value;
      var st := Run(lines, cfg, m, start).value;
      CrossnetSchema(p, cfg, m, start);
      assert forall j :: 0 <= j < n ==> p[j] == lines[j];
      assert forall j :: 0 <= j < n ==> (IsFirstRecord(p, j) <==> IsFirstRecord(lines, j));
      if s.schema.None? {
        assert forall j :: 0 <= j < n ==> IsComment(lines[j]);
        if !IsComment(lines[n]) {
          assert IsFirstRecord(lines, n);
          assert st.schema == Some(ColumnsExcept(|lines[n].fields|, {cfg.srcIdx, cfg.dstIdx}));
          forall j | IsFirstRecord(lines, j) ensures j == n { }
        }
      } else {
        assert st.schema == s.schema;
        var j0 :| 0 <= j0 < n && !IsComment(p[j0]);
        assert !IsFirstRecord(lines, n) by {
          assert !IsComment(lines[j0]);
        }
      }
    }
  }

  /**
   * A run aborts exactly when some line is fatal (a missing endpoint column,
   * or an unknown key without `skip_missing_ids`), and then on the first
   * such line, before that line writes anything.
   */
  lemma {:induction false} CrossnetFailure(lines: seq<Line>, cfg: Config, m: Mappings, start: int)
    ensures Run(lines, cfg, m, start).Failure? <==> exists j :: Fatal(lines, cfg, m, j)
    ensures Run(lines, cfg, m, start).Failure? ==>
      exists j :: && Fatal(lines, cfg, m, j)
                  && (forall i :: 0 <= i < j ==> !Fatal(lines, cfg, m, i))
                  && Run(lines, cfg, m, start).error == ErrorAt(lines[j], j, cfg, m)
    decreases |lines|
  {
    if |lines| > 0 {
      var n := |lines| - 1;
      var p := lines[..n];
      assert Run(lines, cfg, m, start) ==
        match Run(p, cfg, m, start)
        case Failure(err) => Failure(err)
        case Success(s) => Step(s, lines[n], n, cfg, m);
      CrossnetFailure(p, cfg, m, start);
      assert forall j :: 0 <= j < n ==> (Fatal(p, cfg, m, j) <==> Fatal(lines, cfg, m, j));
      if Run(p, cfg, m, start).Success? {
        assert forall j :: 0 <= j < n ==> !Fatal(lines, cfg, m, j);
        var s := Run(p, cfg, m, start).value;
        assert Run(lines, cfg, m, start) == Step(s, lines[n], n, cfg, m);
        if Fatal(lines, cfg, m, n) {
          assert Run(lines, cfg, m, start) == Failure(ErrorAt(lines[n], n, cfg, m));
        } else {
          assert Run(lines, cfg, m, start).Success?;
          assert forall j :: !Fatal(lines, cfg, m, j);
        }
      } else {
        assert Run(lines, cfg, m, start) == Run(p, cfg, m, start);
        var j :| && Fatal(p, cfg, m, j)
                 && (forall i :: 0 <= i < j ==> !Fatal(p, cfg, m, i))
                 && Run(p, cfg, m, start).error == ErrorAt(p[j], j, cfg, m);
        assert Fatal(lines, cfg, m, j) && p[j] == lines[j];
      }
    }
  }

  /**
   * The error a fatal line raises: IndexError on the first missing endpoint
   * column, else KeyError on the source key if it is unknown, else on the
   * destination key.
   */
  function ErrorAt(line: Line, j: nat, cfg: Config, m: Mappings): Error {
    if Column(line.fields, cfg.srcIdx).None? then MissingField(InputFile, j, cfg.srcIdx)
    else if Column(line.fields, cfg.dstIdx).None? then MissingField(InputFile, j, cfg.dstIdx)
    else
      var (a, b) := Endpoints(line, cfg).value;
      if a !in m.src then UnresolvedKey(j, Source, a) else UnresolvedKey(j, Destination, b)
  }

  /**
   * With `skip_missing_ids` an unknown key never aborts the run: only a
   * missing column can.
   */
  lemma SkipMissingNeverUnresolved(lines: seq<Line>, cfg: Config, m: Mappings, start: int)
    requires cfg.skipMissing
    ensures Run(lines, cfg, m, start).Failure? ==> Run(lines, cfg, m, start).error.MissingField?
  {
    CrossnetFailure(lines, cfg, m, start);
  }

  /**
   * A self-join resolves both ends through the source map, exactly as a
   * two-file run whose destination table has the same content.
   */
  lemma SelfJoinSharesMapping(lines: seq<Line>, cfg: Config, srcTable: map<string, int>, dstTable: map<string, int>,
                              start: int)
    requires CrossnetTables(lines, cfg, srcTable, dstTable, true, start).Success?
    ensures CrossnetTables(lines, cfg, srcTable, dstTable, true, start) == CrossnetTables(lines, cfg, srcTable, srcTable, false, start)
    ensures var t := CrossnetTables(lines, cfg, srcTable, dstTable, true, start).value;
      forall k :: 0 <= k < |t.full| ==> t.full[k].src in srcTable.Values && t.full[k].dst in srcTable.Values
  {
    var m := LoadMappings(srcTable, dstTable, true);
    RunState(lines, cfg, m, start);
    var t := CrossnetTables(lines, cfg, srcTable, dstTable, true, start).value;
    var e := EdgeLines(lines, cfg, m);
    forall k | 0 <= k < |t.full| ensures t.full[k].src in srcTable.Values && t.full[k].dst in srcTable.Values {
      var (a, b) := Endpoints(lines[e[k]], cfg).value;
      assert t.full[k].src == srcTable[a] && t.full[k].dst == srcTable[b];
    }
  }

  /** With the counter started above every edge id already recorded, no new edge id collides with one. */
  lemma EdgeIdsAreFresh(lines: seq<Line>, cfg: Config, srcTable: map<string, int>, dstTable: map<string, int>,
                        sameFile: bool, start: int, existing: set<int>)
    requires forall x :: x in existing ==> x < start
    requires CrossnetTables(lines, cfg, srcTable, dstTable, sameFile, start).Success?
    ensures var t := CrossnetTables(lines, cfg, srcTable, dstTable, sameFile, start).value;
      forall k :: 0 <= k < |t.full| ==> t.full[k].id !in existing && start <= t.full[k].id < t.next
  {
    CrossnetRows(lines, cfg, srcTable, dstTable, sameFile, start);
  }

  /** `(ALPHA, BETA)` with ALPHA -> 5, BETA -> 7, dataset 3, counter 0: the full row `(0, 3, 5, 7)`. */
  lemma AlphaBetaEdge(srcDbId: int, dstDbId: int)
    ensures var cfg := Config(3, srcDbId, dstDbId, 0, 1, None, None, false);
      CrossnetTables([Line('A', ["ALPHA", "BETA"])], cfg, map["ALPHA" := 5], map["BETA" := 7], false, 0)
      == Success(Tables(true, Some([]), [FullRow(0, 3, 5, 7)], [DbRow(0, srcDbId, dstDbId, [])], 1))
  {
    var cfg := Config(3, srcDbId, dstDbId, 0, 1, None, None, false);
    var lines := [Line('A', ["ALPHA", "BETA"])];
    var m := LoadMappings(map["ALPHA" := 5], map["BETA" := 7], false);
    assert lines[0].fields == ["ALPHA", "BETA"] && |lines[0].fields| == 2;
    assert Column(lines[0].fields, 0) == Some("ALPHA") && Column(lines[0].fields, 1) == Some("BETA");
    assert ColumnsExcept(2, {0, 1}) == [];
    assert Except(["ALPHA", "BETA"], {0, 1}) == [];
    assert [] + [FullRow(0, 3, 5, 7)] == [FullRow(0, 3, 5, 7)];
    assert [] + [DbRow(0, srcDbId, dstDbId, [])] == [DbRow(0, srcDbId, dstDbId, [])];
    FoldExtend(StepOf(cfg, m), Init(0), lines, 0);
    assert lines[..0] == [] && lines[..1] == lines;
  }

  /** The same edge listed twice is written twice, under consecutive ids: edges are not de-duplicated. */
  lemma RepeatedEdgeWrittenTwice(lines: seq<Line>, cfg: Config, m: Mappings, start: int, i: nat, j: nat)
    requires i < j < |lines| && lines[i] == lines[j] && Emits(lines[i], cfg, m)
    requires Run(lines, cfg, m, start).Success?
    ensures var st := Run(lines, cfg, m, start).value;
      exists k, k' :: && 0 <= k < k' < |st.full| && |st.db| == |st.full|
                      && st.full[k].id != st.full[k'].id
                      && st.full[k].(id := 0) == st.full[k'].(id := 0)
                      && st.db[k].(id := 0) == st.db[k'].(id := 0)
  {
    var st := Run(lines, cfg, m, start).value;
    var e := EdgeLines(lines, cfg, m);
    assert EmitsOf(cfg, m)(lines[i]) && EmitsOf(cfg, m)(lines[j]);
    assert i in e && j in e;
    var k :| 0 <= k < |e| && e[k] == i;
    var k' :| 0 <= k' < |e| && e[k'] == j;
    assert k < k';
    EdgeRowAt(lines, cfg, m, start, k);
    EdgeRowAt(lines, cfg, m, start, k');
  }

  /** The rows a run writes for its `k`-th edge. */
  lemma EdgeRowAt(lines: seq<Line>, cfg: Config, m: Mappings, start: int, k: nat)
    requires Run(lines, cfg, m, start).Success?
    requires k < |EdgeLines(lines, cfg, m)|
    ensures var st := Run(lines, cfg, m, start).value;
      var line := lines[EdgeLines(lines, cfg, m)[k]];
      && |st.full| == |st.db| == |EdgeLines(lines, cfg, m)|
      && Emits(line, cfg, m)
      && var (a, b) := Endpoints(line, cfg).value;
         && st.full[k] == FullRow(start + k, cfg.dbId, m.src[a], m.dst[b])
         && st.db[k] == DbRow(start + k, cfg.srcDbId, cfg.dstDbId, Except(line.fields, {cfg.srcIdx, cfg.dstIdx}))
  {
    RunState(lines, cfg, m, start);
  }
}
