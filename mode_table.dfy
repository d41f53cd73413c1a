/**
 * Building the mambo tables of one mode from one dataset's input file
 * (utils/create_mambo_mode_table.py). Every new, non-empty node key gets
 * the next mambo id; the full mode table gets `<mambo id> <dataset id>`,
 * the dataset's own table `<mambo id> <node key> <other columns>`.
 */
module ModeTable {
  import opened Wrappers
  import opened Lines
  import Sightings

  /** A row of the full mode table. */
  datatype FullRow = FullRow(id: int, datasetId: int)

  /** A row of the dataset's mode table: mambo id, the dataset's key, the other columns in order. */
  datatype DbRow = DbRow(id: int, key: string, attrs: seq<string>)

  /**
   * What one run writes. `fullHeader` stands for the three comment lines put
   * in front of the full table; `schema` is the `C<i>` columns of the
   * dataset table's schema line, if one was written.
   */
  datatype Tables = Tables(fullHeader: bool, schema: Option<seq<nat>>, full: seq<FullRow>, db: seq<DbRow>, next: int)

  /** What the loop carries from one input line to the next. */
  datatype State = State(seen: set<string>, counter: int, schema: Option<seq<nat>>, full: seq<FullRow>, db: seq<DbRow>)

  function Init(start: int): State {
    State({}, start, None, [], [])
  }

  /** One iteration of `for line in inF`. */
  function Step(st: State, line: Line, j: nat, dbId: int, nodeIndex: int): Result<State, Error> {
    if IsComment(line) then Success(st)
    else
      var schema := if st.schema.None? then Some(ColumnsExcept(|line.fields|, {nodeIndex})) else st.schema;
      match Column(line.fields, nodeIndex)
      case None => Failure(MissingField(InputFile, j, nodeIndex))
      case Some(key) =>
        if key in st.seen || |key| == 0 then Success(st.(schema := schema))
        else Success(State(st.seen + {key}, st.counter + 1, schema,
                           st.full + [FullRow(st.counter, dbId)],
                           st.db + [DbRow(st.counter, key, Except(line.fields, {nodeIndex}))]))
  }

  function StepOf(dbId: int, nodeIndex: int): (State, Line, nat) -> Result<State, Error> {
    (st: State, line: Line, j: nat) => Step(st, line, j, dbId, nodeIndex)
  }

  function Run(lines: seq<Line>, dbId: int, nodeIndex: int, start: int): Result<State, Error> {
    Fold(StepOf(dbId, nodeIndex), Init(start), lines)
  }

  /** The specification of a whole run. */
  function ModeTables(lines: seq<Line>, dbId: int, nodeIndex: int, start: int): Result<Tables, Error> {
    match Run(lines, dbId, nodeIndex, start)
    case Failure(e) => Failure(e)
    case Success(st) => Success(Tables(start == 0, st.schema, st.full, st.db, st.counter))
  }

  /** One pass of the loop's body, for input line `j`. */
  method ModeLine(st: State, line: Line, j: nat, dbId: int, nodeIndex: int) returns (r: Result<State, Error>)
    ensures r == Step(st, line, j, dbId, nodeIndex)
  {
    if IsComment(line) {
      return Success(st);
    }
    var schema := st.schema;
    if schema.None? {
      var cols := SchemaColumns(|line.fields|, {nodeIndex});
      schema := Some(cols);
    }
    var nodeId := Column(line.fields, nodeIndex);
    if nodeId.None? {
      return Failure(MissingField(InputFile, j, nodeIndex));
    }
    var key := nodeId.value;
    if key in st.seen || |key| == 0 {
      return Success(st.(schema := schema));
    }
    var attrs := Attributes(line.fields, {nodeIndex});
    r := Success(State(st.seen + {key}, st.counter + 1, schema,
                       st.full + [FullRow(st.counter, dbId)],
                       st.db + [DbRow(st.counter, key, attrs)]));
  }

  /**
   * `create_mambo_mode_table`: `start` is the mambo id counter the run begins
   * with, either the caller's override or what the registry scan found.
   */
  method CreateModeTable(lines: seq<Line>, dbId: int, nodeIndex: int, start: int) returns (r: Result<Tables, Error>)
    ensures r == ModeTables(lines, dbId, nodeIndex, start)
  {
    var st := Init(start);
    var i := 0;
    while i < |lines|
      invariant i <= |lines|
      invariant Run(lines[..i], dbId, nodeIndex, start) == Success(st)
    {
      FoldExtend(StepOf(dbId, nodeIndex), Init(start), lines, i);
      var next := ModeLine(st, lines[i], i, dbId, nodeIndex);
      if next.Failure? {
        FoldFailureSticks(StepOf(dbId, nodeIndex), Init(start), lines, i + 1);
        return Failure(next.error);
      }
      st := next.value;
      i := i + 1;
    }
    assert lines[..|lines|] == lines;
    r := Success(Tables(start == 0, st.schema, st.full, st.db, st.counter));
  }

  // ----- what a run computes, stated without the loop -----

  /** The key line `line` contributes: none for comments, malformed lines and empty keys. */
  function KeyAt(line: Line, nodeIndex: int): Option<string> {
    if IsComment(line) then None
    else match Column(line.fields, nodeIndex)
      case Some(k) => if |k| == 0 then None else Some(k)
      case None => None
  }

  function KeySeq(lines: seq<Line>, nodeIndex: int): (ks: seq<Option<string>>)
    ensures |ks| == |lines|
    ensures forall j :: 0 <= j < |lines| ==> ks[j] == KeyAt(lines[j], nodeIndex)
  {
    seq(|lines|, j requires 0 <= j < |lines| => KeyAt(lines[j], nodeIndex))
  }

  /** The distinct non-empty node keys of the input. */
  function DistinctKeys(lines: seq<Line>, nodeIndex: int): set<string> {
    Sightings.Keys(KeySeq(lines, nodeIndex))
  }

  /** The lines that mint an id: the first line carrying each distinct non-empty key. */
  function Minting(lines: seq<Line>, nodeIndex: int): seq<nat> {
    Sightings.FirstSightings(KeySeq(lines, nodeIndex))
  }

  /** A record line whose node column does not exist: the run raises IndexError on it. */
  ghost predicate Malformed(lines: seq<Line>, nodeIndex: int, j: int) {
    0 <= j < |lines| && !IsComment(lines[j]) && Column(lines[j].fields, nodeIndex).None?
  }

  /** The state after a successful run, line by line. */
  lemma {:induction false} RunState(lines: seq<Line>, dbId: int, nodeIndex: int, start: int)
    requires Run(lines, dbId, nodeIndex, start).Success?
    ensures var st := Run(lines, dbId, nodeIndex, start).value;
      var m := Minting(lines, nodeIndex);
      && st.seen == DistinctKeys(lines, nodeIndex)
      && st.counter == start + |m|
      && |st.full| == |m| && |st.db| == |m|
      && (forall k :: 0 <= k < |m| ==> st.full[k] == FullRow(start + k, dbId))
      && (forall k :: 0 <= k < |m| ==>
            && KeyAt(lines[m[k]], nodeIndex).Some?
            && st.db[k] == DbRow(start + k, KeyAt(lines[m[k]], nodeIndex).value, Except(lines[m[k]].fields, {nodeIndex})))
    decreases |lines|
  {
    var ks := KeySeq(lines, nodeIndex);
    var m := Minting(lines, nodeIndex);
    if |lines| > 0 {
      var n := |lines| - 1;
      var p := lines[..n];
      assert Run(lines, dbId, nodeIndex, start) ==
        match Run(p, dbId, nodeIndex, start)
        case Failure(e) => Failure(e)
        case Success(s) => Step(s, lines[n], n, dbId, nodeIndex);
      RunState(p, dbId, nodeIndex, start);
      var pm := Minting(p, nodeIndex);
      assert ks[..n] == KeySeq(p, nodeIndex);
      Sightings.KeysExtend(ks, n);
      assert ks[..n + 1] == ks;
      assert forall k :: 0 <= k < |pm| ==> p[pm[k]] == lines[pm[k]];
      if ks[n].Some? && ks[n].value !in Sightings.Keys(ks[..n]) {
        assert m == pm + [n];
      } else {
        assert m == pm;
      }
    }
  }

  // ----- the properties of a run -----

  /**
   * Ids are handed out as start, start+1, ... with no gaps, one per distinct
   * non-empty key, in the order the keys first turn up; the full row and the
   * dataset row of each id are written together, and the dataset row keeps
   * the key and the other columns of the line that minted it.
   */
  lemma ModeTableRows(lines: seq<Line>, dbId: int, nodeIndex: int, start: int)
    requires ModeTables(lines, dbId, nodeIndex, start).Success?
    ensures var t := ModeTables(lines, dbId, nodeIndex, start).value;
      var m := Minting(lines, nodeIndex);
      && t.next == start + |m|
      && |m| == |DistinctKeys(lines, nodeIndex)|
      && |t.full| == |m| && |t.db| == |m|
      && (forall k :: 0 <= k < |m| ==> t.full[k] == FullRow(start + k, dbId))
      && (forall k :: 0 <= k < |m| ==>
            && !IsComment(lines[m[k]])
            && Column(lines[m[k]].fields, nodeIndex) == Some(t.db[k].key)
            && t.db[k] == DbRow(start + k, t.db[k].key, Except(lines[m[k]].fields, {nodeIndex})))
  {
    RunState(lines, dbId, nodeIndex, start);
    Sightings.SightingsCount(KeySeq(lines, nodeIndex));
    var t := ModeTables(lines, dbId, nodeIndex, start).value;
    var m := Minting(lines, nodeIndex);
    forall k | 0 <= k < |m|
      ensures && !IsComment(lines[m[k]])
              && Column(lines[m[k]].fields, nodeIndex) == Some(t.db[k].key)
              && t.db[k] == DbRow(start + k, t.db[k].key, Except(lines[m[k]].fields, {nodeIndex}))
    {
      assert KeyAt(lines[m[k]], nodeIndex).Some?;
    }
  }

  /**
   * Every distinct non-empty key gets exactly one row, and distinct keys get
   * distinct ids: the keys of the dataset rows are pairwise different and
   * are all the keys of the input.
   */
  lemma ModeTableKeys(lines: seq<Line>, dbId: int, nodeIndex: int, start: int)
    requires ModeTables(lines, dbId, nodeIndex, start).Success?
    ensures var t := ModeTables(lines, dbId, nodeIndex, start).value;
      && (forall k, k' :: 0 <= k < k' < |t.db| ==> t.db[k].key != t.db[k'].key && t.db[k].id != t.db[k'].id)
      && (set k | 0 <= k < |t.db| :: t.db[k].key) == DistinctKeys(lines, nodeIndex)
  {
    RunState(lines, dbId, nodeIndex, start);
    var ks := KeySeq(lines, nodeIndex);
    Sightings.SightedKeysDistinct(ks);
    Sightings.SightedKeysCover(ks);
    var t := ModeTables(lines, dbId, nodeIndex, start).value;
    var m := Minting(lines, nodeIndex);
    assert forall k :: 0 <= k < |m| ==> t.db[k].key == ks[m[k]].value;
    assert (set k | 0 <= k < |t.db| :: t.db[k].key) == (set k | 0 <= k < |m| :: ks[m[k]].value);
  }

  /**
   * With the counter started above every id already in the full table (what
   * the script asks of an explicit start), no minted id collides with one.
   */
  lemma MintedIdsAreFresh(lines: seq<Line>, dbId: int, nodeIndex: int, start: int, existing: set<int>)
    requires forall e :: e in existing ==> e < start
    requires ModeTables(lines, dbId, nodeIndex, start).Success?
    ensures var t := ModeTables(lines, dbId, nodeIndex, start).value;
      && (forall k :: 0 <= k < |t.full| ==> t.full[k].id !in existing && start <= t.full[k].id < t.next)
      && (forall e :: e in existing ==> e < t.next)
  {
    ModeTableRows(lines, dbId, nodeIndex, start);
  }

  /**
   * A run aborts exactly when some record line lacks the node column, and it
   * reports the first such line.
   */
  lemma {:induction false} ModeTableFailure(lines: seq<Line>, dbId: int, nodeIndex: int, start: int)
    ensures ModeTables(lines, dbId, nodeIndex, start).Failure? <==> exists j :: Malformed(lines, nodeIndex, j)
    ensures ModeTables(lines, dbId, nodeIndex, start).Failure? ==>
      exists j :: && Malformed(lines, nodeIndex, j)
                  && (forall i :: 0 <= i < j ==> !Malformed(lines, nodeIndex, i))
                  && ModeTables(lines, dbId, nodeIndex, start).error == MissingField(InputFile, j, nodeIndex)
    decreases |lines|
  {
    if |lines| > 0 {
      var n := |lines| - 1;
      var p := lines[..n];
      assert Run(lines, dbId, nodeIndex, start) ==
        match Run(p, dbId, nodeIndex, start)
        case Failure(e) => Failure(e)
        case Success(s) => Step(s, lines[n], n, dbId, nodeIndex);
      ModeTableFailure(p, dbId, nodeIndex, start);
      assert forall j :: 0 <= j < n ==> (Malformed(p, nodeIndex, j) <==> Malformed(lines, nodeIndex, j));
      if Run(p, dbId, nodeIndex, start).Success? {
        assert forall j :: 0 <= j < n ==> !Malformed(lines, nodeIndex, j);
        var s := Run(p, dbId, nodeIndex, start).value;
        assert Run(lines, dbId, nodeIndex, start) == Step(s, lines[n], n, dbId, nodeIndex);
        if Malformed(lines, nodeIndex, n) {
          assert Run(lines, dbId, nodeIndex, start) == Failure(MissingField(InputFile, n, nodeIndex));
        } else {
          assert Run(lines, dbId, nodeIndex, start).Success?;
          assert forall j :: !Malformed(lines, nodeIndex, j);
        }
      } else {
        assert Run(lines, dbId, nodeIndex, start) == Run(p, dbId, nodeIndex, start);
        var j :| && Malformed(p, nodeIndex, j)
                 && (forall i :: 0 <= i < j ==> !Malformed(p, nodeIndex, i))
                 && ModeTables(p, dbId, nodeIndex, start).error == MissingField(InputFile, j, nodeIndex);
        assert Malformed(lines, nodeIndex, j);
      }
    }
  }

  /**
   * The schema line comes from the first record line: it is written iff the
   * input has a record, and lists that line's columns other than the node
   * column, in increasing order.
   */
  lemma {:induction false} ModeTableSchema(lines: seq<Line>, dbId: int, nodeIndex: int, start: int)
    requires Run(lines, dbId, nodeIndex, start).Success?
    ensures var t := ModeTables(lines, dbId, nodeIndex, start).value;
      && (t.schema.None? <==> forall j :: 0 <= j < |lines| ==> IsComment(lines[j]))
      && (forall j :: IsFirstRecord(lines, j) ==> t.schema == Some(ColumnsExcept(|lines[j].fields|, {nodeIndex})))
    decreases |lines|
  {
    if |lines| > 0 {
      var n := |lines| - 1;
      var p := lines[..n];
      assert Run(lines, dbId, nodeIndex, start) ==
        match Run(p, dbId, nodeIndex, start)
        case Failure(e) => Failure(e)
        case Success(s) => Step(s, lines[n], n, dbId, nodeIndex);
      var s := Run(p, dbId, nodeIndex, start).value;
      var st := Run(lines, dbId, nodeIndex, start).value;
      ModeTableSchema(p, dbId, nodeIndex, start);
      assert forall j :: 0 <= j < n ==> p[j] == lines[j];
      assert forall j :: 0 <= j < n ==> (IsFirstRecord(p, j) <==> IsFirstRecord(lines, j));
      if s.schema.None? {
        assert forall j :: 0 <= j < n ==> IsComment(lines[j]);
        if !IsComment(lines[n]) {
          assert IsFirstRecord(lines, n);
          assert st.schema == Some(ColumnsExcept(|lines[n].fields|, {nodeIndex}));
          forall j | IsFirstRecord(lines, j) ensures j == n { }
        }
      } else {
        assert st.schema == s.schema;
        var j0 :| 0 <= j0 < n && !IsComment(p[j0]);
        assert !IsFirstRecord(lines, n) by {
          assert !IsComment(lines[j0]);
        }
      }
    }
  }

  /** The lines of the input that are not comments, in order. */
  function Records(lines: seq<Line>): (r: seq<Line>)
    ensures forall j :: 0 <= j < |r| ==> !IsComment(r[j])
    decreases |lines|
  {
    if |lines| == 0 then []
    else
      var p := Records(lines[..|lines| - 1]);
      if IsComment(lines[|lines| - 1]) then p else p + [lines[|lines| - 1]]
  }

  /** Comment lines write nothing: dropping them all leaves the tables as they are. */
  lemma {:induction false} CommentsWriteNothing(lines: seq<Line>, dbId: int, nodeIndex: int, start: int)
    ensures Run(lines, dbId, nodeIndex, start).Success? <==> Run(Records(lines), dbId, nodeIndex, start).Success?
    ensures Run(lines, dbId, nodeIndex, start).Success? ==> Run(lines, dbId, nodeIndex, start) == Run(Records(lines), dbId, nodeIndex, start)
    decreases |lines|
  {
    if |lines| > 0 {
      var n := |lines| - 1;
      var p := lines[..n];
      var rs := Records(lines);
      assert Run(lines, dbId, nodeIndex, start) ==
        match Run(p, dbId, nodeIndex, start)
        case Failure(e) => Failure(e)
        case Success(s) => Step(s, lines[n], n, dbId, nodeIndex);
      CommentsWriteNothing(p, dbId, nodeIndex, start);
      if !IsComment(lines[n]) {
        assert rs == Records(p) + [lines[n]];
        assert rs[..|rs| - 1] == Records(p);
        assert Run(rs, dbId, nodeIndex, start) ==
          match Run(Records(p), dbId, nodeIndex, start)
          case Failure(e) => Failure(e)
          case Success(s) => Step(s, lines[n], |rs| - 1, dbId, nodeIndex);
      }
    }
  }

  /** Keys `ALPHA, BETA, ALPHA` from an empty registry: ids 0 and 1, the second ALPHA skipped. */
  lemma AlphaBetaAlpha(dbId: int)
    ensures ModeTables([Line('A', ["ALPHA"]), Line('B', ["BETA"]), Line('A', ["ALPHA"])], dbId, 0, 0)
         == Success(Tables(true, Some([]), [FullRow(0, dbId), FullRow(1, dbId)],
                           [DbRow(0, "ALPHA", []), DbRow(1, "BETA", [])], 2))
  {
    var lines := [Line('A', ["ALPHA"]), Line('B', ["BETA"]), Line('A', ["ALPHA"])];
    var step := StepOf(dbId, 0);
    var s0 := Init(0);
    assert Fold(step, s0, lines[..0]) == Success(s0) by {
      assert lines[..0] == [];
    }
    FoldExtend(step, s0, lines, 0);
    AlphaFirst(dbId);
    FoldExtend(step, s0, lines, 1);
    BetaSecond(dbId);
    FoldExtend(step, s0, lines, 2);
    AlphaAgain(dbId);
    assert lines[..3] == lines;
  }

  /** The first line of that run registers ALPHA under id 0. */
  lemma AlphaFirst(dbId: int)
    ensures Step(Init(0), Line('A', ["ALPHA"]), 0, dbId, 0)
         == Success(State({"ALPHA"}, 1, Some([]), [FullRow(0, dbId)], [DbRow(0, "ALPHA", [])]))
  {
    assert ColumnsExcept(1, {0}) == [];
    assert Except(["ALPHA"], {0}) == [];
    assert Column(["ALPHA"], 0) == Some("ALPHA");
    assert {} + {"ALPHA"} == {"ALPHA"};
    assert [] + [FullRow(0, dbId)] == [FullRow(0, dbId)];
    assert [] + [DbRow(0, "ALPHA", [])] == [DbRow(0, "ALPHA", [])];
  }

  /** The second line registers BETA under id 1. */
  lemma BetaSecond(dbId: int)
    ensures Step(State({"ALPHA"}, 1, Some([]), [FullRow(0, dbId)], [DbRow(0, "ALPHA", [])]), Line('B', ["BETA"]), 1, dbId, 0)
         == Success(State({"ALPHA", "BETA"}, 2, Some([]), [FullRow(0, dbId), FullRow(1, dbId)],
                          [DbRow(0, "ALPHA", []), DbRow(1, "BETA", [])]))
  {
    assert Except(["BETA"], {0}) == [];
    assert Column(["BETA"], 0) == Some("BETA");
    assert "ALPHA" != "BETA";
    assert {"ALPHA"} + {"BETA"} == {"ALPHA", "BETA"};
    assert [FullRow(0, dbId)] + [FullRow(1, dbId)] == [FullRow(0, dbId), FullRow(1, dbId)];
    assert [DbRow(0, "ALPHA", [])] + [DbRow(1, "BETA", [])] == [DbRow(0, "ALPHA", []), DbRow(1, "BETA", [])];
  }

  /** The third line repeats ALPHA and changes nothing. */
  lemma AlphaAgain(dbId: int)
    ensures var st := State({"ALPHA", "BETA"}, 2, Some([]), [FullRow(0, dbId), FullRow(1, dbId)],
                            [DbRow(0, "ALPHA", []), DbRow(1, "BETA", [])]);
      Step(st, Line('A', ["ALPHA"]), 2, dbId, 0) == Success(st)
  {
    assert Column(["ALPHA"], 0) == Some("ALPHA");
  }
}
