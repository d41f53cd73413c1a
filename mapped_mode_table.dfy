/**
 * Building the mambo tables of one mode through a mapping file
 * (utils/create_mapped_mode_table.py). The mapping file ties mambo node ids
 * to the names several naming schemes give a node; a dataset's key is
 * resolved through the scheme at `map_index`, and a key the mapping does
 * not know is either given a new id (appended to the mapping file) or,
 * with `skip`, recorded under id 0. The full mode table is rewritten: each
 * id touched in this run gets this dataset's id merged into its dataset
 * list, and every other previous entry is carried forward unchanged.
 */
module MappedModeTable {
  import opened Wrappers
  import opened Lines
  import opened Decimal
  import Sightings

  // ----- loading the previous full mode table -----

  /** The id column of a line, read by `int()`, or None if it is missing or not a number. */
  function IdOf(line: Line): Option<int> {
    match Column(line.fields, 0)
    case None => None
    case Some(s) => ParseInt(s)
  }

  /** One line of the old full mode table: `full_mode_map[int(f[0])] = f[1]` (the right-hand side is read first). */
  function FullModeStep(m: map<int, string>, line: Line, j: nat): Result<map<int, string>, Error> {
    if IsComment(line) then Success(m)
    else match Column(line.fields, 1)
      case None => Failure(MissingField(FullModeFile, j, 1))
      case Some(ids) =>
        match IdOf(line)
        case None => Failure(NotAnInteger(FullModeFile, j))
        case Some(id) => Success(m[id := ids])
  }

  /** The previous full mode table as a map from mambo id to its dataset list; an absent file is an empty one. */
  function LoadFullModeMap(lines: seq<Line>): Result<map<int, string>, Error> {
    Fold(FullModeStep, map[], lines)
  }

  method ReadFullModeFile(lines: seq<Line>) returns (r: Result<map<int, string>, Error>)
    ensures r == LoadFullModeMap(lines)
  {
    var m: map<int, string> := map[];
    var i := 0;
    while i < |lines|
      invariant i <= |lines|
      invariant LoadFullModeMap(lines[..i]) == Success(m)
    {
      FoldExtend(FullModeStep, map[], lines, i);
      var line := lines[i];
      if IsComment(line) {
        i := i + 1;
        continue;
      }
      var ids := Column(line.fields, 1);
      if ids.None? {
        r := Failure(MissingField(FullModeFile, i, 1));
        FoldFailureSticks(FullModeStep, map[], lines, i + 1);
        return;
      }
      var id := ParseInt(line.fields[0]);
      if id.None? {
        r := Failure(NotAnInteger(FullModeFile, i));
        FoldFailureSticks(FullModeStep, map[], lines, i + 1);
        return;
      }
      m := m[id.value := ids.value];
      i := i + 1;
    }
    assert lines[..|lines|] == lines;
    r := Success(m);
  }

  predicate IsRecord(lines: seq<Line>, j: int) {
    0 <= j < |lines| && !IsComment(lines[j])
  }

  /** Line `j` is the last record whose id column reads as `id`. */
  ghost predicate IsLastWithId(lines: seq<Line>, j: int, id: int) {
    && IsRecord(lines, j) && IdOf(lines[j]) == Some(id)
    && forall j' :: j < j' < |lines| && IsRecord(lines, j') ==> IdOf(lines[j']) != Some(id)
  }

  /**
   * Every record of the old full table has an id and a dataset list; the
   * map holds exactly the ids of the records, each with the dataset list
   * of the last record carrying it.
   */
  lemma {:induction false} FullModeMapLastWins(lines: seq<Line>)
    requires LoadFullModeMap(lines).Success?
    ensures var m := LoadFullModeMap(lines).value;
      && (forall j :: IsRecord(lines, j) ==> IdOf(lines[j]).Some? && |lines[j].fields| >= 2)
      && (forall id :: id in m <==> exists j :: IsRecord(lines, j) && IdOf(lines[j]) == Some(id))
      && (forall j, id :: IsLastWithId(lines, j, id) ==> m[id] == lines[j].fields[1])
    decreases |lines|
  {
    if |lines| > 0 {
      var n := |lines| - 1;
      var p := lines[..n];
      FoldExtend(FullModeStep, map[], lines, n);
      assert lines[..n + 1] == lines;
      FullModeMapLastWins(p);
      assert forall j :: 0 <= j < n ==> p[j] == lines[j];
      var m := LoadFullModeMap(lines).value;
      var pm := LoadFullModeMap(p).value;
      forall j, id | IsLastWithId(lines, j, id) ensures m[id] == lines[j].fields[1] {
        if j < n {
          assert IsLastWithId(p, j, id);
        }
      }
    }
  }

  // ----- loading the mapping file -----

  /** What the mapping loader leaves behind (the mapping file is the dictionary of names): the name-to-id map, `max_id` and `num_cols`. */
  datatype Dictionary = Dictionary(ids: map<string, int>, maxId: int, numCols: nat)

  /** The name a mapping line gives under the scheme at `mapIndex`. */
  function NameOf(line: Line, mapIndex: int): Option<string> {
    Column(line.fields, mapIndex)
  }

  /** One mapping line: `mapping[f[map_index]] = f[0]`, then `max_id = int(f[0])`. */
  function MappingStep(mf: Dictionary, line: Line, j: nat, mapIndex: int): Result<Dictionary, Error> {
    if IsComment(line) then Success(mf)
    else if Column(line.fields, 0).None? then Failure(MissingField(MappingFile, j, 0))
    else match NameOf(line, mapIndex)
      case None => Failure(MissingField(MappingFile, j, mapIndex))
      case Some(name) =>
        match IdOf(line)
        case None => Failure(NotAnInteger(MappingFile, j))
        case Some(id) => Success(Dictionary(mf.ids[name := id], id, |line.fields|))
  }

  function MappingStepOf(mapIndex: int): (Dictionary, Line, nat) -> Result<Dictionary, Error> {
    (mf: Dictionary, line: Line, j: nat) => MappingStep(mf, line, j, mapIndex)
  }

  /**
   * The mapping file as the loader reads it. The ids are kept as numbers:
   * every stored id string has been read by `int()` in the same iteration,
   * so the later `int(mapping[key])` gives back that number.
   */
  function LoadMapping(lines: seq<Line>, mapIndex: int): Result<Dictionary, Error> {
    Fold(MappingStepOf(mapIndex), Dictionary(map[], 0, 0), lines)
  }

  method ReadMappingFile(lines: seq<Line>, mapIndex: int) returns (r: Result<Dictionary, Error>)
    ensures r == LoadMapping(lines, mapIndex)
  {
    var mapping: map<string, int> := map[];
    var maxId := 0;
    var numCols: nat := 0;
    var i := 0;
    while i < |lines|
      invariant i <= |lines|
      invariant LoadMapping(lines[..i], mapIndex) == Success(Dictionary(mapping, maxId, numCols))
    {
      FoldExtend(MappingStepOf(mapIndex), Dictionary(map[], 0, 0), lines, i);
      var line := lines[i];
      if IsComment(line) {
        i := i + 1;
        continue;
      }
      if |line.fields| == 0 {
        r := Failure(MissingField(MappingFile, i, 0));
        FoldFailureSticks(MappingStepOf(mapIndex), Dictionary(map[], 0, 0), lines, i + 1);
        return;
      }
      var name := Column(line.fields, mapIndex);
      if name.None? {
        r := Failure(MissingField(MappingFile, i, mapIndex));
        FoldFailureSticks(MappingStepOf(mapIndex), Dictionary(map[], 0, 0), lines, i + 1);
        return;
      }
      var id := ParseInt(line.fields[0]);
      if id.None? {
        r := Failure(NotAnInteger(MappingFile, i));
        FoldFailureSticks(MappingStepOf(mapIndex), Dictionary(map[], 0, 0), lines, i + 1);
        return;
      }
      numCols := |line.fields|;
      mapping := mapping[name.value := id.value];
      maxId := id.value;
      i := i + 1;
    }
    assert lines[..|lines|] == lines;
    r := Success(Dictionary(mapping, maxId, numCols));
  }

  ghost predicate IsLastWithName(lines: seq<Line>, j: int, name: string, mapIndex: int) {
    && IsRecord(lines, j) && NameOf(lines[j], mapIndex) == Some(name)
    && forall j' :: j < j' < |lines| && IsRecord(lines, j') ==> NameOf(lines[j'], mapIndex) != Some(name)
  }

  ghost predicate IsLastRecord(lines: seq<Line>, j: int) {
    IsRecord(lines, j) && forall j' :: j < j' < |lines| ==> !IsRecord(lines, j')
  }

  /** The state after the last line, from the state before it. */
  lemma MappingLoadStep(lines: seq<Line>, mapIndex: int)
    requires |lines| > 0
    ensures LoadMapping(lines, mapIndex) ==
      match LoadMapping(lines[..|lines| - 1], mapIndex)
      case Failure(e) => Failure(e)
      case Success(mf) => MappingStep(mf, lines[|lines| - 1], |lines| - 1, mapIndex)
  {
    FoldExtend(MappingStepOf(mapIndex), Dictionary(map[], 0, 0), lines, |lines| - 1);
    assert lines[..|lines|] == lines;
  }

  /**
   * After a successful load every record has an id and a name, and the
   * map holds exactly the names of the records.
   */
  lemma {:induction false} MappingNames(lines: seq<Line>, mapIndex: int)
    requires LoadMapping(lines, mapIndex).Success?
    ensures var mf := LoadMapping(lines, mapIndex).value;
      && (forall j :: IsRecord(lines, j) ==> IdOf(lines[j]).Some? && NameOf(lines[j], mapIndex).Some?)
      && (forall name :: name in mf.ids <==> exists j :: IsRecord(lines, j) && NameOf(lines[j], mapIndex) == Some(name))
    decreases |lines|
  {
    if |lines| > 0 {
      var n := |lines| - 1;
      var p := lines[..n];
      MappingLoadStep(lines, mapIndex);
      MappingNames(p, mapIndex);
      assert forall j :: 0 <= j < n ==> p[j] == lines[j];
    }
  }

  /** A name repeated later in the mapping file overwrites its earlier id: the last record naming it wins. */
  lemma {:induction false} MappingLastWins(lines: seq<Line>, mapIndex: int)
    requires LoadMapping(lines, mapIndex).Success?
    ensures var mf := LoadMapping(lines, mapIndex).value;
      forall j, name :: IsLastWithName(lines, j, name, mapIndex) ==>
        IdOf(lines[j]).Some? && name in mf.ids && mf.ids[name] == IdOf(lines[j]).value
    decreases |lines|
  {
    if |lines| > 0 {
      var n := |lines| - 1;
      var p := lines[..n];
      MappingLoadStep(lines, mapIndex);
      MappingLastWins(p, mapIndex);
      var prior := LoadMapping(p, mapIndex).value;
      var mf := LoadMapping(lines, mapIndex).value;
      assert forall j :: 0 <= j < n ==> p[j] == lines[j];
      if IsRecord(lines, n) {
        var key := NameOf(lines[n], mapIndex).value;
        assert mf.ids == prior.ids[key := IdOf(lines[n]).value];
        forall j, name | IsLastWithName(lines, j, name, mapIndex)
          ensures IdOf(lines[j]).Some? && name in mf.ids && mf.ids[name] == IdOf(lines[j]).value
        {
          if j < n {
            assert name != key;
            assert IsLastWithName(p, j, name, mapIndex);
          }
        }
      } else {
        assert mf == prior;
        forall j, name | IsLastWithName(lines, j, name, mapIndex)
          ensures IdOf(lines[j]).Some? && name in mf.ids && mf.ids[name] == IdOf(lines[j]).value
        {
          assert IsLastWithName(p, j, name, mapIndex);
        }
      }
    }
  }

  /**
   * `max_id` and `num_cols` are the id and the width of the LAST record
   * (0 and 0 when there is none), not a maximum.
   */
  lemma {:induction false} MappingMaxIdIsLast(lines: seq<Line>, mapIndex: int)
    requires LoadMapping(lines, mapIndex).Success?
    ensures var mf := LoadMapping(lines, mapIndex).value;
      && (forall j :: IsLastRecord(lines, j) ==> IdOf(lines[j]).Some? && mf.maxId == IdOf(lines[j]).value && mf.numCols == |lines[j].fields|)
      && ((forall j :: !IsRecord(lines, j)) ==> mf.maxId == 0 && mf.numCols == 0)
    decreases |lines|
  {
    if |lines| > 0 {
      var n := |lines| - 1;
      var p := lines[..n];
      MappingLoadStep(lines, mapIndex);
      MappingMaxIdIsLast(p, mapIndex);
      var prior := LoadMapping(p, mapIndex).value;
      var mf := LoadMapping(lines, mapIndex).value;
      if IsRecord(lines, n) {
        assert mf.maxId == IdOf(lines[n]).value && mf.numCols == |lines[n].fields|;
        forall j | IsLastRecord(lines, j) ensures j == n {
          assert !(j < n);
        }
      } else {
        assert mf == prior;
        forall j | IsLastRecord(lines, j)
          ensures IdOf(lines[j]).Some? && mf.maxId == IdOf(lines[j]).value && mf.numCols == |lines[j].fields|
        {
          assert p[j] == lines[j];
          forall j' | j < j' < n ensures !IsRecord(p, j') {
            assert !IsRecord(lines, j');
          }
          assert IsLastRecord(p, j);
        }
        if forall j :: !IsRecord(lines, j) {
          forall j | 0 <= j < n ensures !IsRecord(p, j) {
            assert p[j] == lines[j] && !IsRecord(lines, j);
          }
        }
      }
    }
  }

  // ----- the lookup key -----

  /** Python's `s.split(c)`: the pieces between the occurrences of `c`. */
  function Split(s: string, c: char): (r: seq<string>)
    ensures |r| >= 1
    ensures forall k :: 0 <= k < |r| ==> c !in r[k]
  {
    if |s| == 0 then [""]
    else
      var t := Split(s[1..], c);
      if s[0] == c then [""] + t else [[s[0]] + t[0]] + t[1..]
  }

  lemma {:induction false} SplitWithout(s: string, c: char)
    requires c !in s
    ensures Split(s, c) == [s]
  {
    if |s| > 0 {
      SplitWithout(s[1..], c);
      assert [s[0]] + s[1..] == s;
    }
  }

  lemma {:induction false} SplitFirst(a: string, c: char, b: string)
    requires c !in a
    ensures Split(a + [c] + b, c) == [a] + Split(b, c)
  {
    if |a| == 0 {
      assert a + [c] + b == [c] + b;
      assert ([c] + b)[1..] == b;
    } else {
      var s := a + [c] + b;
      SplitFirst(a[1..], c, b);
      assert s[1..] == a[1..] + [c] + b;
      var t := Split(s[1..], c);
      assert t == [a[1..]] + Split(b, c);
      assert s[0] == a[0] != c;
      assert Split(s, c) == [[a[0]] + t[0]] + t[1..];
      assert [a[0]] + a[1..] == a;
      assert t[1..] == Split(b, c);
    }
  }

  /** `k = f.split('.')`: the whole field if there is one piece, otherwise the second piece. */
  function NodeKey(raw: string): string {
    var t := Split(raw, '.');
    if |t| == 1 then t[0] else t[1]
  }

  /** A field without a dot is its own key. */
  lemma UndottedKey(raw: string)
    requires '.' !in raw
    ensures NodeKey(raw) == raw
  {
    SplitWithout(raw, '.');
  }

  /** A dotted field's key is the text between its first dot and the next one (or the end). */
  lemma DottedKey(a: string, b: string, rest: string)
    requires '.' !in a && '.' !in b
    requires |rest| == 0 || rest[0] == '.'
    ensures NodeKey(a + ['.'] + b + rest) == b
  {
    assert a + ['.'] + b + rest == a + ['.'] + (b + rest);
    SplitFirst(a, '.', b + rest);
    if |rest| == 0 {
      assert b + rest == b;
      SplitWithout(b, '.');
    } else {
      assert b + rest == b + ['.'] + rest[1..];
      SplitFirst(b, '.', rest[1..]);
    }
  }

  /** A taxon-prefixed protein name such as `9606.ENSP1` is looked up as `ENSP1`. */
  lemma TaxonPrefixDropped()
    ensures NodeKey("9606.ENSP1") == "ENSP1"
  {
    DottedKey("9606", "ENSP1", "");
    assert "9606" + ['.'] + "ENSP1" + "" == "9606.ENSP1";
  }

  // ----- a new mapping row -----

  /** A row appended to the mapping file: its id and the `num_cols - 1` labels after it. */
  datatype MapRow = MapRow(id: int, labels: seq<string>)

  /** The fields of the line a mapping row is written as. */
  function RowFields(row: MapRow): seq<string> {
    [Show(row.id)] + row.labels
  }

  /** `s` keeps its end through `strip()`: it is not empty and does not end in white space. */
  predicate EndsInText(s: string) {
    |s| > 0 && !IsSpace(s[|s| - 1])
  }

  /**
   * The fields the loader reads back from a row written as its fields
   * joined by tabs: `line.strip()` removes the white space at the end of
   * the last field and, when that empties it, the tab before it, and so on.
   */
  function ReadBack(fields: seq<string>): seq<string>
    decreases |fields|
  {
    if |fields| == 0 then []
    else
      var n := |fields| - 1;
      var t := TrimRight(fields[n]);
      if |t| == 0 then ReadBack(fields[..n]) else fields[..n] + [t]
  }

  /** A row whose last field keeps its end reads back unchanged. */
  lemma ReadBackClean(fields: seq<string>)
    requires |fields| > 0 && EndsInText(fields[|fields| - 1])
    ensures ReadBack(fields) == fields
  {
    var n := |fields| - 1;
    assert TrimRight(fields[n]) == fields[n];
    assert fields[..n] + [fields[n]] == fields;
  }

  /** A row whose first field keeps its end reads back with that first field. */
  lemma {:induction false} ReadBackHead(fields: seq<string>)
    requires |fields| > 0 && EndsInText(fields[0])
    ensures |ReadBack(fields)| > 0 && ReadBack(fields)[0] == fields[0]
    decreases |fields|
  {
    var n := |fields| - 1;
    if n == 0 {
      ReadBackClean(fields);
    } else if |TrimRight(fields[n])| == 0 {
      assert fields[..n][0] == fields[0];
      ReadBackHead(fields[..n]);
    }
  }

  /** The line the mapping file gets for `row`, as the loader reads it back; it starts with the id's first character. */
  function RowLine(row: MapRow): Line {
    Line(Show(row.id)[0], ReadBack(RowFields(row)))
  }

  /** The mapping row for a newly minted id: the key under `map_index`, `None` in every other column. */
  function NewRow(id: int, key: string, numCols: int, mapIndex: int): (row: MapRow)
    ensures row.id == id
    ensures |row.labels| == if numCols > 1 then numCols - 1 else 0
    ensures 1 <= mapIndex < numCols ==> row.labels[mapIndex - 1] == key
    ensures forall i :: 0 <= i < |row.labels| && i != mapIndex - 1 ==> row.labels[i] == "None"
  {
    MapRow(id, seq(if numCols > 1 then numCols - 1 else 0, i => if i + 1 == mapIndex then key else "None"))
  }

  /** The label loop: `for i in range(num_cols - 1): result += label + delimiter`. */
  method BuildNewRow(id: int, key: string, numCols: int, mapIndex: int) returns (row: MapRow)
    ensures row == NewRow(id, key, numCols, mapIndex)
  {
    var labels: seq<string> := [];
    var i := 0;
    while i < numCols - 1
      invariant 0 <= i && (numCols > 1 ==> i <= numCols - 1) && (numCols <= 1 ==> i == 0)
      invariant |labels| == i
      invariant forall k :: 0 <= k < i ==> labels[k] == if k + 1 == mapIndex then key else "None"
    {
      var field := if i + 1 != mapIndex then "None" else key;
      labels := labels + [field];
      i := i + 1;
    }
    row := MapRow(id, labels);
  }

  /**
   * A minted row reads back as written when its last field keeps its end:
   * the last field is `None`, or it is the key and the key keeps its end.
   */
  lemma NewRowReadsBack(id: int, key: string, numCols: int, mapIndex: int)
    requires 1 <= mapIndex < numCols
    requires mapIndex < numCols - 1 || EndsInText(key)
    ensures var row := NewRow(id, key, numCols, mapIndex);
      ReadBack(RowFields(row)) == RowFields(row) && RowName(row, mapIndex) == Some(key)
  {
    var row := NewRow(id, key, numCols, mapIndex);
    var fields := RowFields(row);
    assert fields[|fields| - 1] == row.labels[numCols - 2];
    assert EndsInText("None");
    ReadBackClean(fields);
    assert fields[mapIndex] == row.labels[mapIndex - 1];
  }

  /**
   * A minted row, when the mapping file is read again, maps its key to its
   * id and sets `max_id` and `num_cols` to its own: the next run resolves
   * the key it added, as long as `map_index` is a column of that row and
   * the key, when it is the last column, keeps its end through `strip()`.
   */
  lemma MintedRowReadsBack(lines: seq<Line>, id: int, key: string, numCols: int, mapIndex: int)
    requires 1 <= mapIndex < numCols
    requires mapIndex < numCols - 1 || EndsInText(key)
    requires LoadMapping(lines, mapIndex).Success?
    ensures var row := NewRow(id, key, numCols, mapIndex);
      var mf := LoadMapping(lines + [RowLine(row)], mapIndex);
      && mf.Success?
      && mf.value.ids == LoadMapping(lines, mapIndex).value.ids[key := id]
      && mf.value.maxId == id
      && mf.value.numCols == numCols
  {
    var row := NewRow(id, key, numCols, mapIndex);
    NewRowReadsBack(id, key, numCols, mapIndex);
    ReadOneMore(lines, row, mapIndex);
  }

  /**
   * A key minted into the last column loses its trailing white space on
   * the reload: the mapping then holds the stripped key, or, when nothing
   * is left of the key, the reload aborts on the missing column.
   */
  lemma LastColumnKeyStripped(lines: seq<Line>, id: int, key: string, numCols: int)
    requires 2 <= numCols
    requires LoadMapping(lines, numCols - 1).Success?
    ensures var row := NewRow(id, key, numCols, numCols - 1);
      var mf := LoadMapping(lines + [RowLine(row)], numCols - 1);
      if |TrimRight(key)| > 0 then
        mf == Success(Dictionary(LoadMapping(lines, numCols - 1).value.ids[TrimRight(key) := id], id, numCols))
      else
        mf == Failure(MissingField(MappingFile, |lines|, numCols - 1))
  {
    var row := NewRow(id, key, numCols, numCols - 1);
    NextLineRead(lines, RowLine(row), numCols - 1);
    StrippedRowStep(LoadMapping(lines, numCols - 1).value, id, key, numCols, |lines|);
  }

  /** Reading one minted row whose key is in the last column. */
  lemma StrippedRowStep(d: Dictionary, id: int, key: string, numCols: int, j: nat)
    requires 2 <= numCols
    ensures var row := NewRow(id, key, numCols, numCols - 1);
      MappingStep(d, RowLine(row), j, numCols - 1) ==
        if |TrimRight(key)| > 0 then Success(Dictionary(d.ids[TrimRight(key) := id], id, numCols))
        else Failure(MissingField(MappingFile, j, numCols - 1))
  {
    var row := NewRow(id, key, numCols, numCols - 1);
    var fields := RowFields(row);
    var n := |fields| - 1;
    assert fields[n] == key;
    assert EndsInText(Show(id));
    LastFieldStripped(fields, Show(id));
    var back := ReadBack(fields);
    assert back[0] == Show(id);
    assert |TrimRight(key)| > 0 ==> |back| == numCols && back[numCols - 1] == TrimRight(key);
    assert |TrimRight(key)| == 0 ==> |back| == numCols - 1;
    ParseShow(id);
    assert !IsComment(RowLine(row));
  }

  /** The read-back of a row whose last field is stripped: the rest is kept, and the stripped field stays or goes. */
  lemma LastFieldStripped(fields: seq<string>, first: string)
    requires |fields| >= 2 && fields[0] == first && EndsInText(first)
    requires forall k :: 1 <= k < |fields| - 1 ==> fields[k] == "None"
    ensures var n := |fields| - 1;
      var t := TrimRight(fields[n]);
      ReadBack(fields) == if |t| > 0 then fields[..n] + [t] else fields[..n]
  {
    var n := |fields| - 1;
    if |TrimRight(fields[n])| == 0 {
      assert EndsInText("None");
      assert EndsInText(fields[..n][n - 1]);
      ReadBackClean(fields[..n]);
    }
  }

  /**
   * The reloaded mapping loses a key ending in a space: the record `9606.B .x`
   * mints `B ` as 4 after `3, A`, and the reload maps `B`, not `B `.
   */
  lemma TrailingSpaceKeyLost()
    ensures var before := [Line('3', ["3", "A"])];
      var reload := LoadMapping(before + [RowLine(NewRow(4, "B ", 2, 1))], 1);
      && reload == Success(Dictionary(map["A" := 3, "B" := 4], 4, 2))
      && "B " !in reload.value.ids
  {
    var before := [Line('3', ["3", "A"])];
    assert LoadMapping(before, 1) == Success(Dictionary(map["A" := 3], 3, 2)) by {
      MappingLoadStep(before, 1);
      assert before[..0] == [];
      assert ParseInt("3") == Some(3);
    }
    assert TrimRight("B ") == "B" by {
      assert IsSpace(("B ")[1]);
      assert ("B ")[..1] == "B";
    }
    LastColumnKeyStripped(before, 4, "B ", 2);
  }

  // ----- the main loop -----

  /** The run's settings: dataset id, `skip`, `map_index` and `node_index`. */
  datatype Params = Params(dbId: int, skip: bool, mapIndex: int, nodeIndex: int)

  /** A row of the full mode table: a mambo id and its comma-separated dataset ids. */
  datatype FullEntry = FullEntry(id: int, datasetIds: string)

  /** A row of the dataset's mode table: the mambo id, the raw key field, the other columns. */
  datatype DbRow = DbRow(id: int, rawKey: string, attrs: seq<string>)

  /** What one run writes: the schema columns, the full table, the dataset table, the mapping rows appended. */
  datatype Tables = Tables(schema: Option<seq<nat>>, full: seq<FullEntry>, db: seq<DbRow>, appended: seq<MapRow>)

  /** The dataset list an id gets: the previous list followed by this dataset's id, or this dataset's id alone. */
  function MergedIds(fullMap: map<int, string>, id: int, dbId: int): string {
    if id in fullMap then fullMap[id] + "," + Show(dbId) else Show(dbId)
  }

  datatype State = State(
    hasHeader: bool, schema: Option<seq<nat>>, seen: set<string>, seenIds: set<int>, maxId: int,
    full: seq<FullEntry>, db: seq<DbRow>, appended: seq<MapRow>)

  function Init(mf: Dictionary): State {
    State(true, None, {}, {}, mf.maxId, [], [], [])
  }

  /** The id a fresh key resolves to, and the `max_id` and appended rows after it. */
  function Resolve(st: State, key: string, p: Params, mf: Dictionary): (int, int, seq<MapRow>) {
    if key in mf.ids then (mf.ids[key], st.maxId, st.appended)
    else if !p.skip then (st.maxId + 1, st.maxId + 1, st.appended + [NewRow(st.maxId + 1, key, mf.numCols, p.mapIndex)])
    else (0, st.maxId, st.appended)
  }

  /** One iteration of `for line in in_file`. */
  function Step(st: State, line: Line, j: nat, p: Params, fullMap: map<int, string>, mf: Dictionary): Result<State, Error> {
    if IsComment(line) || st.hasHeader then Success(st.(hasHeader := false))
    else
      var schema := if st.schema.None? then Some(ColumnsExcept(|line.fields|, {p.nodeIndex})) else st.schema;
      match Column(line.fields, p.nodeIndex)
      case None => Failure(MissingField(InputFile, j, p.nodeIndex))
      case Some(raw) =>
        var key := NodeKey(raw);
        if key in st.seen || |key| == 0 then Success(st.(schema := schema))
        else
          var (id, maxId, appended) := Resolve(st, key, p, mf);
          Success(State(false, schema, st.seen + {key}, st.seenIds + {id}, maxId,
                        st.full + [FullEntry(id, MergedIds(fullMap, id, p.dbId))],
                        st.db + [DbRow(id, raw, Except(line.fields, {p.nodeIndex}))],
                        appended))
  }

  function StepOf(p: Params, fullMap: map<int, string>, mf: Dictionary): (State, Line, nat) -> Result<State, Error> {
    (st: State, line: Line, j: nat) => Step(st, line, j, p, fullMap, mf)
  }

  function Run(lines: seq<Line>, p: Params, fullMap: map<int, string>, mf: Dictionary): Result<State, Error> {
    Fold(StepOf(p, fullMap, mf), Init(mf), lines)
  }

  /** The step on a record line whose key has not been met: the key is resolved and both rows written. */
  lemma StepNewKey(st: State, line: Line, j: nat, p: Params, fullMap: map<int, string>, mf: Dictionary, raw: string)
    requires !IsComment(line) && !st.hasHeader
    requires Column(line.fields, p.nodeIndex) == Some(raw)
    requires NodeKey(raw) !in st.seen && |NodeKey(raw)| > 0
    ensures var key := NodeKey(raw);
      var res := Resolve(st, key, p, mf);
      Step(st, line, j, p, fullMap, mf) ==
        Success(State(false, if st.schema.None? then Some(ColumnsExcept(|line.fields|, {p.nodeIndex})) else st.schema,
                      st.seen + {key}, st.seenIds + {res.0}, res.1,
                      st.full + [FullEntry(res.0, MergedIds(fullMap, res.0, p.dbId))],
                      st.db + [DbRow(res.0, raw, Except(line.fields, {p.nodeIndex}))],
                      res.2))
  {
  }

  /** `counter` for a key met for the first time: its mapped id, else a minted id and a new mapping row unless `skip`. */
  method ResolveKey(st: State, key: string, p: Params, mf: Dictionary) returns (counter: int, maxId: int, appended: seq<MapRow>)
    ensures (counter, maxId, appended) == Resolve(st, key, p, mf)
  {
    maxId := st.maxId;
    appended := st.appended;
    counter := 0;
    if key in mf.ids {
      counter := mf.ids[key];
    } else if !p.skip {
      maxId := maxId + 1;
      counter := maxId;
      var row := BuildNewRow(counter, key, mf.numCols, p.mapIndex);
      appended := appended + [row];
    }
  }

  /** One pass of the main loop's body, for input line `j`. */
  method ReconcileLine(st: State, line: Line, j: nat, p: Params, fullMap: map<int, string>, mf: Dictionary)
    returns (r: Result<State, Error>)
    ensures r == Step(st, line, j, p, fullMap, mf)
  {
    if IsComment(line) || st.hasHeader {
      return Success(st.(hasHeader := false));
    }
    var schema := st.schema;
    if schema.None? {
      var cols := SchemaColumns(|line.fields|, {p.nodeIndex});
      schema := Some(cols);
    }
    var raw := Column(line.fields, p.nodeIndex);
    if raw.None? {
      return Failure(MissingField(InputFile, j, p.nodeIndex));
    }
    var key := NodeKey(raw.value);
    if key in st.seen || |key| == 0 {
      return Success(st.(schema := schema));
    }
    var attrs := Attributes(line.fields, {p.nodeIndex});
    var counter, maxId, appended := ResolveKey(st, key, p, mf);
    StepNewKey(st, line, j, p, fullMap, mf, raw.value);
    r := Success(State(false, schema, st.seen + {key}, st.seenIds + {counter}, maxId,
                       st.full + [FullEntry(counter, MergedIds(fullMap, counter, p.dbId))],
                       st.db + [DbRow(counter, raw.value, attrs)],
                       appended));
  }

  /** The main loop of `create_mapped_mode_table`, over the input lines. */
  method Reconcile(input: seq<Line>, p: Params, fullMap: map<int, string>, mf: Dictionary) returns (r: Result<State, Error>)
    ensures r == Run(input, p, fullMap, mf)
  {
    var st := Init(mf);
    var i := 0;
    while i < |input|
      invariant i <= |input|
      invariant Run(input[..i], p, fullMap, mf) == Success(st)
    {
      FoldExtend(StepOf(p, fullMap, mf), Init(mf), input, i);
      var next := ReconcileLine(st, input[i], i, p, fullMap, mf);
      if next.Failure? {
        FoldFailureSticks(StepOf(p, fullMap, mf), Init(mf), input, i + 1);
        return next;
      }
      st := next.value;
      i := i + 1;
    }
    assert input[..|input|] == input;
    r := Success(st);
  }

  // ----- what the main loop computes, stated without the loop -----

  /** The lookup key line `j` contributes: none for the first line, comments, a missing column or an empty key. */
  function KeyAt(line: Line, j: nat, nodeIndex: int): (k: Option<string>)
    ensures k.Some? ==> && j > 0 && !IsComment(line) && Column(line.fields, nodeIndex).Some?
                        && k.value == NodeKey(Column(line.fields, nodeIndex).value) && |k.value| > 0
  {
    if j == 0 || IsComment(line) then None
    else match Column(line.fields, nodeIndex)
      case None => None
      case Some(raw) => if |NodeKey(raw)| == 0 then None else Some(NodeKey(raw))
  }

  function KeySeq(lines: seq<Line>, nodeIndex: int): (ks: seq<Option<string>>)
    ensures |ks| == |lines|
    ensures forall j :: 0 <= j < |lines| ==> ks[j] == KeyAt(lines[j], j, nodeIndex)
  {
    seq(|lines|, j requires 0 <= j < |lines| => KeyAt(lines[j], j, nodeIndex))
  }

  /** The keys as above, with those the mapping already knows blanked out: the keys that need a new id. */
  function NewKeySeq(lines: seq<Line>, nodeIndex: int, mf: Dictionary): seq<Option<string>> {
    Sightings.Mask(KeySeq(lines, nodeIndex), mf.ids.Keys)
  }

  /** The lines that write a row: the first line of each distinct non-empty key. */
  function Sighted(lines: seq<Line>, nodeIndex: int): seq<nat> {
    Sightings.FirstSightings(KeySeq(lines, nodeIndex))
  }

  /** The lines whose key the mapping does not know, one per distinct key. */
  function Minted(lines: seq<Line>, nodeIndex: int, mf: Dictionary): seq<nat> {
    Sightings.FirstSightings(NewKeySeq(lines, nodeIndex, mf))
  }

  /**
   * The id the key first seen on line `j` gets: its mapped id, 0 with
   * `skip`, and otherwise `max_id` plus one more than the number of new
   * keys met before line `j`.
   */
  function IdAt(lines: seq<Line>, j: nat, p: Params, mf: Dictionary): int
    requires j <= |lines|
  {
    var key := Sightings.KeyOf(KeySeq(lines, p.nodeIndex), j);
    if key in mf.ids then mf.ids[key]
    else if p.skip then 0
    else mf.maxId + 1 + |Minted(lines[..j], p.nodeIndex, mf)|
  }

  /** Rows `k` of the full and dataset tables come from line `j`. */
  ghost predicate RowFrom(st: State, k: nat, lines: seq<Line>, j: nat, p: Params, fullMap: map<int, string>, mf: Dictionary)
    requires k < |st.full| && k < |st.db|
  {
    && j < |lines| && KeyAt(lines[j], j, p.nodeIndex).Some?
    && st.full[k] == FullEntry(IdAt(lines, j, p, mf), MergedIds(fullMap, IdAt(lines, j, p, mf), p.dbId))
    && st.db[k] == DbRow(IdAt(lines, j, p, mf), Column(lines[j].fields, p.nodeIndex).value, Except(lines[j].fields, {p.nodeIndex}))
  }

  /** The rows the main loop has written after `lines`, as a function of the lines. */
  ghost predicate DescribesRows(st: State, lines: seq<Line>, p: Params, fullMap: map<int, string>, mf: Dictionary) {
    var r := Sighted(lines, p.nodeIndex);
    && st.hasHeader == (|lines| == 0)
    && st.seen == Sightings.Keys(KeySeq(lines, p.nodeIndex))
    && |st.full| == |r| && |st.db| == |r|
    && (forall k :: 0 <= k < |r| ==> RowFrom(st, k, lines, r[k], p, fullMap, mf))
    && st.seenIds == (set k | 0 <= k < |st.full| :: st.full[k].id)
  }

  /** The ids minted and the mapping rows appended after `lines`, as a function of the lines. */
  ghost predicate DescribesMint(st: State, lines: seq<Line>, p: Params, mf: Dictionary) {
    var rn := Minted(lines, p.nodeIndex, mf);
    var nks := NewKeySeq(lines, p.nodeIndex, mf);
    && st.maxId == mf.maxId + (if p.skip then 0 else |rn|)
    && |st.appended| == (if p.skip then 0 else |rn|)
    && (forall i :: 0 <= i < |st.appended| ==>
          st.appended[i] == NewRow(mf.maxId + 1 + i, Sightings.KeyOf(nks, rn[i]), mf.numCols, p.mapIndex))
  }

  /** Everything the main loop has built after `lines`. */
  ghost predicate Describes(st: State, lines: seq<Line>, p: Params, fullMap: map<int, string>, mf: Dictionary) {
    DescribesRows(st, lines, p, fullMap, mf) && DescribesMint(st, lines, p, mf)
  }

  lemma KeySeqPrefix(lines: seq<Line>, nodeIndex: int, mf: Dictionary, n: nat)
    requires n <= |lines|
    ensures KeySeq(lines, nodeIndex)[..n] == KeySeq(lines[..n], nodeIndex)
    ensures NewKeySeq(lines, nodeIndex, mf)[..n] == NewKeySeq(lines[..n], nodeIndex, mf)
  {
    assert KeySeq(lines, nodeIndex)[..n] == KeySeq(lines[..n], nodeIndex);
    Sightings.MaskPrefix(KeySeq(lines, nodeIndex), mf.ids.Keys, n);
  }

  /** The id a row was given depends only on the lines up to it. */
  lemma IdAtPrefix(lines: seq<Line>, n: nat, j: nat, p: Params, mf: Dictionary)
    requires j < n <= |lines|
    ensures IdAt(lines, j, p, mf) == IdAt(lines[..n], j, p, mf)
  {
    assert lines[..n][..j] == lines[..j];
    assert KeySeq(lines, p.nodeIndex)[j] == KeySeq(lines[..n], p.nodeIndex)[j];
  }

  /** A row described over a prefix is described the same way over the longer input. */
  lemma RowFromExtend(s: State, st: State, k: nat, lines: seq<Line>, n: nat, j: nat, p: Params,
                      fullMap: map<int, string>, mf: Dictionary)
    requires n <= |lines| && k < |s.full| && k < |s.db| && k < |st.full| && k < |st.db|
    requires st.full[k] == s.full[k] && st.db[k] == s.db[k]
    requires RowFrom(s, k, lines[..n], j, p, fullMap, mf)
    ensures RowFrom(st, k, lines, j, p, fullMap, mf)
  {
    IdAtPrefix(lines, n, j, p, mf);
    assert lines[..n][j] == lines[j];
  }

  /** The new-row lines and the new-key lines over all of `lines`, from those over all but the last. */
  lemma SightedExtend(lines: seq<Line>, p: Params, mf: Dictionary)
    requires |lines| > 0
    ensures var n := |lines| - 1;
      var ks := KeySeq(lines, p.nodeIndex);
      && Sighted(lines, p.nodeIndex) ==
           Sighted(lines[..n], p.nodeIndex) + (if Sightings.IsFirstSighting(ks, n) then [n] else [])
      && Minted(lines, p.nodeIndex, mf) ==
           Minted(lines[..n], p.nodeIndex, mf) + (if Sightings.IsFirstSighting(ks, n) && ks[n].value !in mf.ids then [n] else [])
      && Sightings.Keys(ks) == Sightings.Keys(KeySeq(lines[..n], p.nodeIndex)) + (if ks[n].Some? then {ks[n].value} else {})
      && (forall j :: 0 <= j < n ==>
            Sightings.KeyOf(NewKeySeq(lines, p.nodeIndex, mf), j) == Sightings.KeyOf(NewKeySeq(lines[..n], p.nodeIndex, mf), j))
  {
    var n := |lines| - 1;
    var ks := KeySeq(lines, p.nodeIndex);
    KeySeqPrefix(lines, p.nodeIndex, mf, n);
    Sightings.KeysExtend(ks, n);
    Sightings.MaskedFirstSighting(ks, mf.ids.Keys, n);
    assert ks[..n + 1] == ks;
    var nks := NewKeySeq(lines, p.nodeIndex, mf);
    assert nks[..n] == NewKeySeq(lines[..n], p.nodeIndex, mf);
    assert forall j :: 0 <= j < n ==> nks[..n][j] == nks[j];
  }

  /** A line that writes nothing keeps the description of the rows. */
  lemma DescribesRowsQuiet(lines: seq<Line>, p: Params, fullMap: map<int, string>, mf: Dictionary, s: State, st: State)
    requires |lines| > 0
    requires DescribesRows(s, lines[..|lines| - 1], p, fullMap, mf)
    requires !st.hasHeader && st.full == s.full && st.db == s.db && st.seenIds == s.seenIds
    requires st.seen == Sightings.Keys(KeySeq(lines, p.nodeIndex))
    requires !Sightings.IsFirstSighting(KeySeq(lines, p.nodeIndex), |lines| - 1)
    ensures DescribesRows(st, lines, p, fullMap, mf)
  {
    var n := |lines| - 1;
    SightedExtend(lines, p, mf);
    var r := Sighted(lines, p.nodeIndex);
    assert r == Sighted(lines[..n], p.nodeIndex);
    forall k | 0 <= k < |r| ensures RowFrom(st, k, lines, r[k], p, fullMap, mf) {
      RowFromExtend(s, st, k, lines, n, r[k], p, fullMap, mf);
    }
  }

  /** A line that writes nothing keeps the description of the minted ids. */
  lemma DescribesMintQuiet(lines: seq<Line>, p: Params, mf: Dictionary, s: State, st: State)
    requires |lines| > 0
    requires DescribesMint(s, lines[..|lines| - 1], p, mf)
    requires st.appended == s.appended && st.maxId == s.maxId
    requires !Sightings.IsFirstSighting(KeySeq(lines, p.nodeIndex), |lines| - 1)
    ensures DescribesMint(st, lines, p, mf)
  {
    var n := |lines| - 1;
    SightedExtend(lines, p, mf);
    var rn := Minted(lines, p.nodeIndex, mf);
    assert rn == Minted(lines[..n], p.nodeIndex, mf);
    forall i | 0 <= i < |rn| ensures rn[i] < n {
      assert rn[i] in Minted(lines[..n], p.nodeIndex, mf);
    }
  }

  /** A line without a new key changes nothing but the header flag and the schema. */
  lemma StepQuiet(s: State, line: Line, j: nat, p: Params, fullMap: map<int, string>, mf: Dictionary, st: State)
    requires Step(s, line, j, p, fullMap, mf) == Success(st)
    requires s.hasHeader == (j == 0)
    requires KeyAt(line, j, p.nodeIndex).Some? ==> KeyAt(line, j, p.nodeIndex).value in s.seen
    ensures !st.hasHeader && st.seen == s.seen && st.seenIds == s.seenIds && st.maxId == s.maxId
    ensures st.full == s.full && st.db == s.db && st.appended == s.appended
  {
  }

  /** A line that writes nothing keeps the description. */
  lemma DescribesQuiet(lines: seq<Line>, p: Params, fullMap: map<int, string>, mf: Dictionary, s: State, st: State)
    requires |lines| > 0
    requires Describes(s, lines[..|lines| - 1], p, fullMap, mf)
    requires Step(s, lines[|lines| - 1], |lines| - 1, p, fullMap, mf) == Success(st)
    requires !Sightings.IsFirstSighting(KeySeq(lines, p.nodeIndex), |lines| - 1)
    ensures Describes(st, lines, p, fullMap, mf)
  {
    var n := |lines| - 1;
    var pl := lines[..n];
    var ks := KeySeq(lines, p.nodeIndex);
    KeySeqPrefix(lines, p.nodeIndex, mf, n);
    assert ks[..n] == KeySeq(pl, p.nodeIndex);
    assert ks[n] == KeyAt(lines[n], n, p.nodeIndex);
    StepQuiet(s, lines[n], n, p, fullMap, mf, st);
    DescribesRowsQuiet(lines, p, fullMap, mf, s, st);
    DescribesMintQuiet(lines, p, mf, s, st);
  }

  /** What the step does on a line whose key has not been met yet. */
  lemma StepWrites(s: State, line: Line, j: nat, p: Params, fullMap: map<int, string>, mf: Dictionary)
    requires !s.hasHeader
    requires KeyAt(line, j, p.nodeIndex).Some? && KeyAt(line, j, p.nodeIndex).value !in s.seen
    ensures var key := KeyAt(line, j, p.nodeIndex).value;
      var raw := Column(line.fields, p.nodeIndex).value;
      var (id, maxId, appended) := Resolve(s, key, p, mf);
      && Step(s, line, j, p, fullMap, mf).Success?
      && Step(s, line, j, p, fullMap, mf).value.full == s.full + [FullEntry(id, MergedIds(fullMap, id, p.dbId))]
      && Step(s, line, j, p, fullMap, mf).value.db == s.db + [DbRow(id, raw, Except(line.fields, {p.nodeIndex}))]
      && Step(s, line, j, p, fullMap, mf).value.seen == s.seen + {key}
      && Step(s, line, j, p, fullMap, mf).value.seenIds == s.seenIds + {id}
      && Step(s, line, j, p, fullMap, mf).value.maxId == maxId
      && Step(s, line, j, p, fullMap, mf).value.appended == appended
      && !Step(s, line, j, p, fullMap, mf).value.hasHeader
  {
  }

  /** The rows the line that meets a key for the first time writes. */
  lemma NewRows(lines: seq<Line>, p: Params, fullMap: map<int, string>, mf: Dictionary, s: State, st: State)
    requires |lines| > 0
    requires Describes(s, lines[..|lines| - 1], p, fullMap, mf)
    requires Step(s, lines[|lines| - 1], |lines| - 1, p, fullMap, mf) == Success(st)
    requires Sightings.IsFirstSighting(KeySeq(lines, p.nodeIndex), |lines| - 1)
    ensures DescribesRows(st, lines, p, fullMap, mf)
  {
    var n := |lines| - 1;
    var pl := lines[..n];
    var ks := KeySeq(lines, p.nodeIndex);
    SightedExtend(lines, p, mf);
    var key := ks[n].value;
    assert KeyAt(lines[n], n, p.nodeIndex) == Some(key);
    StepWrites(s, lines[n], n, p, fullMap, mf);
    var id := Resolve(s, key, p, mf).0;
    var r := Sighted(lines, p.nodeIndex);
    var rp := Sighted(pl, p.nodeIndex);
    forall k | 0 <= k < |r| ensures RowFrom(st, k, lines, r[k], p, fullMap, mf) {
      if k < |rp| {
        RowFromExtend(s, st, k, lines, n, r[k], p, fullMap, mf);
      } else {
        assert r[k] == n;
        NewRowFrom(lines, p, fullMap, mf, s, st);
      }
    }
    assert st.seenIds == (set k | 0 <= k < |st.full| :: st.full[k].id) by {
      assert forall k :: 0 <= k < |s.full| ==> st.full[k] == s.full[k];
      assert st.full[|s.full|].id == id;
    }
  }

  /** The rows the line that meets a key for the first time appends. */
  lemma NewRowFrom(lines: seq<Line>, p: Params, fullMap: map<int, string>, mf: Dictionary, s: State, st: State)
    requires |lines| > 0 && !s.hasHeader && |s.db| == |s.full|
    requires DescribesMint(s, lines[..|lines| - 1], p, mf)
    requires KeySeq(lines, p.nodeIndex)[|lines| - 1].Some?
    requires KeySeq(lines, p.nodeIndex)[|lines| - 1].value !in s.seen
    requires Step(s, lines[|lines| - 1], |lines| - 1, p, fullMap, mf) == Success(st)
    ensures |st.full| == |st.db| == |s.full| + 1
    ensures RowFrom(st, |s.full|, lines, |lines| - 1, p, fullMap, mf)
  {
    var n := |lines| - 1;
    StepWrites(s, lines[n], n, p, fullMap, mf);
    NewRowId(lines, p, fullMap, mf, s);
  }

  /** The id the step resolves a first-seen key to is the one the description predicts. */
  lemma NewRowId(lines: seq<Line>, p: Params, fullMap: map<int, string>, mf: Dictionary, s: State)
    requires |lines| > 0
    requires DescribesMint(s, lines[..|lines| - 1], p, mf)
    requires KeySeq(lines, p.nodeIndex)[|lines| - 1].Some?
    ensures Resolve(s, KeySeq(lines, p.nodeIndex)[|lines| - 1].value, p, mf).0 == IdAt(lines, |lines| - 1, p, mf)
  {
  }

  /** The id minted and the mapping row appended by the line that meets a key for the first time. */
  lemma NewMint(lines: seq<Line>, p: Params, fullMap: map<int, string>, mf: Dictionary, s: State, st: State)
    requires |lines| > 0
    requires Describes(s, lines[..|lines| - 1], p, fullMap, mf)
    requires Step(s, lines[|lines| - 1], |lines| - 1, p, fullMap, mf) == Success(st)
    requires Sightings.IsFirstSighting(KeySeq(lines, p.nodeIndex), |lines| - 1)
    ensures DescribesMint(st, lines, p, mf)
  {
    var n := |lines| - 1;
    var ks := KeySeq(lines, p.nodeIndex);
    SightedExtend(lines, p, mf);
    var key := ks[n].value;
    assert KeyAt(lines[n], n, p.nodeIndex) == Some(key);
    StepWrites(s, lines[n], n, p, fullMap, mf);
    var nks := NewKeySeq(lines, p.nodeIndex, mf);
    var rn := Minted(lines, p.nodeIndex, mf);
    if key !in mf.ids && !p.skip {
      Sightings.MaskedFirstSighting(ks, mf.ids.Keys, n);
      assert nks[n] == Some(key);
      assert rn[|rn| - 1] == n;
    }
  }

  /** A line that meets a key for the first time keeps the description. */
  lemma DescribesNew(lines: seq<Line>, p: Params, fullMap: map<int, string>, mf: Dictionary, s: State, st: State)
    requires |lines| > 0
    requires Describes(s, lines[..|lines| - 1], p, fullMap, mf)
    requires Step(s, lines[|lines| - 1], |lines| - 1, p, fullMap, mf) == Success(st)
    requires Sightings.IsFirstSighting(KeySeq(lines, p.nodeIndex), |lines| - 1)
    ensures Describes(st, lines, p, fullMap, mf)
  {
    NewRows(lines, p, fullMap, mf, s, st);
    NewMint(lines, p, fullMap, mf, s, st);
  }

  lemma {:induction false} RunState(lines: seq<Line>, p: Params, fullMap: map<int, string>, mf: Dictionary)
    requires Run(lines, p, fullMap, mf).Success?
    ensures Describes(Run(lines, p, fullMap, mf).value, lines, p, fullMap, mf)
    decreases |lines|
  {
    if |lines| == 0 {
      assert Sightings.Keys(KeySeq(lines, p.nodeIndex)) == {};
    } else {
      var n := |lines| - 1;
      var pl := lines[..n];
      FoldExtend(StepOf(p, fullMap, mf), Init(mf), lines, n);
      assert lines[..n + 1] == lines;
      RunState(pl, p, fullMap, mf);
      var s := Run(pl, p, fullMap, mf).value;
      var st := Run(lines, p, fullMap, mf).value;
      if Sightings.IsFirstSighting(KeySeq(lines, p.nodeIndex), n) {
        DescribesNew(lines, p, fullMap, mf, s, st);
      } else {
        DescribesQuiet(lines, p, fullMap, mf, s, st);
      }
    }
  }

  // ----- the properties of the main loop -----

  /** The key of the `k`-th row written. */
  function RowKey(lines: seq<Line>, k: int, nodeIndex: int): string {
    var r := Sighted(lines, nodeIndex);
    if 0 <= k < |r| then Sightings.KeyOf(KeySeq(lines, nodeIndex), r[k]) else ""
  }

  /**
   * One pair of rows per distinct non-empty lookup key, written at the
   * key's first line, never from the first line or a comment; the dataset
   * row keeps the raw field (dots and all) and the other columns in order.
   */
  lemma MappedRows(lines: seq<Line>, p: Params, fullMap: map<int, string>, mf: Dictionary)
    requires Run(lines, p, fullMap, mf).Success?
    ensures var st := Run(lines, p, fullMap, mf).value;
      var r := Sighted(lines, p.nodeIndex);
      && |st.full| == |r| && |st.db| == |r|
      && (forall k :: 0 <= k < |r| ==>
            && 1 <= r[k] < |lines| && !IsComment(lines[r[k]])
            && Column(lines[r[k]].fields, p.nodeIndex).Some?
            && RowKey(lines, k, p.nodeIndex) == NodeKey(Column(lines[r[k]].fields, p.nodeIndex).value)
            && st.db[k] == DbRow(st.full[k].id, Column(lines[r[k]].fields, p.nodeIndex).value,
                                 Except(lines[r[k]].fields, {p.nodeIndex})))
      && (forall k, k' :: 0 <= k < k' < |r| ==> RowKey(lines, k, p.nodeIndex) != RowKey(lines, k', p.nodeIndex))
      && (set k | 0 <= k < |r| :: RowKey(lines, k, p.nodeIndex)) == Sightings.Keys(KeySeq(lines, p.nodeIndex))
  {
    RunState(lines, p, fullMap, mf);
    var st := Run(lines, p, fullMap, mf).value;
    var ks := KeySeq(lines, p.nodeIndex);
    var r := Sighted(lines, p.nodeIndex);
    Sightings.SightedKeysDistinct(ks);
    Sightings.SightedKeysCover(ks);
    forall k | 0 <= k < |r| ensures RowKey(lines, k, p.nodeIndex) == ks[r[k]].value {
    }
    assert (set k | 0 <= k < |r| :: RowKey(lines, k, p.nodeIndex)) == (set k | 0 <= k < |r| :: ks[r[k]].value);
    forall k | 0 <= k < |r|
      ensures st.db[k] == DbRow(st.full[k].id, Column(lines[r[k]].fields, p.nodeIndex).value, Except(lines[r[k]].fields, {p.nodeIndex}))
    {
      assert RowFrom(st, k, lines, r[k], p, fullMap, mf);
    }
  }

  /**
   * A key the mapping knows is written under its mapped id, and every
   * full row's dataset list is the previous one for that id followed by
   * `,` and this dataset's id, or this dataset's id alone.
   */
  lemma ReusedIdsAndMergedDatasets(lines: seq<Line>, p: Params, fullMap: map<int, string>, mf: Dictionary)
    requires Run(lines, p, fullMap, mf).Success?
    ensures var st := Run(lines, p, fullMap, mf).value;
      && |st.full| == |Sighted(lines, p.nodeIndex)|
      && (forall k :: 0 <= k < |st.full| && RowKey(lines, k, p.nodeIndex) in mf.ids ==>
            st.full[k].id == mf.ids[RowKey(lines, k, p.nodeIndex)])
      && (forall k :: 0 <= k < |st.full| ==>
            st.full[k].datasetIds == if st.full[k].id in fullMap then fullMap[st.full[k].id] + "," + Show(p.dbId) else Show(p.dbId))
  {
    RunState(lines, p, fullMap, mf);
    var st := Run(lines, p, fullMap, mf).value;
    var r := Sighted(lines, p.nodeIndex);
    forall k | 0 <= k < |st.full| ensures RowFrom(st, k, lines, r[k], p, fullMap, mf) {
    }
  }

  /**
   * With `skip`, the mapping file gets nothing and `max_id` does not move;
   * a key the mapping does not know is still written, under id 0.
   */
  lemma SkipWritesZero(lines: seq<Line>, p: Params, fullMap: map<int, string>, mf: Dictionary)
    requires p.skip
    requires Run(lines, p, fullMap, mf).Success?
    ensures var st := Run(lines, p, fullMap, mf).value;
      && st.appended == [] && st.maxId == mf.maxId
      && |st.full| == |Sighted(lines, p.nodeIndex)|
      && (forall k :: 0 <= k < |st.full| && RowKey(lines, k, p.nodeIndex) !in mf.ids ==> st.full[k].id == 0)
  {
    RunState(lines, p, fullMap, mf);
    var st := Run(lines, p, fullMap, mf).value;
    var r := Sighted(lines, p.nodeIndex);
    forall k | 0 <= k < |st.full| ensures RowFrom(st, k, lines, r[k], p, fullMap, mf) {
    }
  }

  /**
   * Without `skip`, each key the mapping does not know gets the next id
   * after `max_id`, in order of first appearance, and one mapping row:
   * the `i`-th new key is written under `max_id + 1 + i`, and the `i`-th
   * appended row carries that id and that key.
   */
  lemma MintedIdsConsecutive(lines: seq<Line>, p: Params, fullMap: map<int, string>, mf: Dictionary)
    requires !p.skip
    requires Run(lines, p, fullMap, mf).Success?
    ensures var st := Run(lines, p, fullMap, mf).value;
      && |st.full| == |Sighted(lines, p.nodeIndex)|
      && |st.appended| == |Sightings.Keys(KeySeq(lines, p.nodeIndex)) - mf.ids.Keys|
      && st.maxId == mf.maxId + |st.appended|
      && (forall k :: 0 <= k < |st.full| && RowKey(lines, k, p.nodeIndex) !in mf.ids ==>
            exists i :: && 0 <= i < |st.appended|
                        && st.full[k].id == mf.maxId + 1 + i
                        && st.appended[i] == NewRow(st.full[k].id, RowKey(lines, k, p.nodeIndex), mf.numCols, p.mapIndex))
      && (forall k, k' :: 0 <= k < k' < |st.full| && RowKey(lines, k, p.nodeIndex) !in mf.ids
                          && RowKey(lines, k', p.nodeIndex) !in mf.ids ==>
            st.full[k].id < st.full[k'].id)
  {
    var st := Run(lines, p, fullMap, mf).value;
    assert && |st.full| == |Sighted(lines, p.nodeIndex)|
           && |st.appended| == |Sightings.Keys(KeySeq(lines, p.nodeIndex)) - mf.ids.Keys|
           && st.maxId == mf.maxId + |st.appended| by {
      RunState(lines, p, fullMap, mf);
      var nks := NewKeySeq(lines, p.nodeIndex, mf);
      Sightings.SightingsCount(nks);
      Sightings.MaskKeys(KeySeq(lines, p.nodeIndex), mf.ids.Keys);
    }
    forall k | 0 <= k < |st.full| && RowKey(lines, k, p.nodeIndex) !in mf.ids
      ensures exists i :: && 0 <= i < |st.appended|
                          && st.full[k].id == mf.maxId + 1 + i
                          && st.appended[i] == NewRow(st.full[k].id, RowKey(lines, k, p.nodeIndex), mf.numCols, p.mapIndex)
    {
      var i := NewKeyRank(lines, p, fullMap, mf, k);
    }
    forall k, k' | 0 <= k < k' < |st.full| && RowKey(lines, k, p.nodeIndex) !in mf.ids && RowKey(lines, k', p.nodeIndex) !in mf.ids
      ensures st.full[k].id < st.full[k'].id
    {
      var r := Sighted(lines, p.nodeIndex);
      var rn := Minted(lines, p.nodeIndex, mf);
      var i := NewKeyRank(lines, p, fullMap, mf, k);
      var i' := NewKeyRank(lines, p, fullMap, mf, k');
      assert rn[i] == r[k] < r[k'] == rn[i'];
      RankOrder(rn, i, i');
    }
  }

  /** In a strictly increasing sequence, a smaller element sits at a smaller position. */
  lemma RankOrder(xs: seq<nat>, i: nat, i': nat)
    requires forall k, k' :: 0 <= k < k' < |xs| ==> xs[k] < xs[k']
    requires i < |xs| && i' < |xs| && xs[i] < xs[i']
    ensures i < i'
  {
  }

  /**
   * The row written for a key the mapping does not know: the key's line is
   * the `i`-th of the new-key lines, and the row's id and the `i`-th
   * appended mapping row follow from that rank.
   */
  lemma NewKeyRank(lines: seq<Line>, p: Params, fullMap: map<int, string>, mf: Dictionary, k: nat) returns (i: nat)
    requires !p.skip
    requires Run(lines, p, fullMap, mf).Success?
    requires k < |Sighted(lines, p.nodeIndex)| && RowKey(lines, k, p.nodeIndex) !in mf.ids
    ensures var st := Run(lines, p, fullMap, mf).value;
      var rn := Minted(lines, p.nodeIndex, mf);
      && i < |rn| && rn[i] == Sighted(lines, p.nodeIndex)[k]
      && Sightings.KeyOf(NewKeySeq(lines, p.nodeIndex, mf), rn[i]) == RowKey(lines, k, p.nodeIndex)
      && k < |st.full| && i < |st.appended|
      && st.full[k].id == mf.maxId + 1 + i
      && st.appended[i] == NewRow(st.full[k].id, RowKey(lines, k, p.nodeIndex), mf.numCols, p.mapIndex)
  {
    RunState(lines, p, fullMap, mf);
    var st := Run(lines, p, fullMap, mf).value;
    var ks := KeySeq(lines, p.nodeIndex);
    var nks := NewKeySeq(lines, p.nodeIndex, mf);
    var r := Sighted(lines, p.nodeIndex);
    var rn := Minted(lines, p.nodeIndex, mf);
    var j := r[k];
    assert RowFrom(st, k, lines, j, p, fullMap, mf);
    assert j in r;
    Sightings.MaskedFirstSighting(ks, mf.ids.Keys, j);
    assert j in rn;
    i :| i < |rn| && rn[i] == j;
    Sightings.SightingsBefore(nks, i);
    KeySeqPrefix(lines, p.nodeIndex, mf, j);
    assert st.full[k].id == mf.maxId + 1 + i;
    assert Sightings.KeyOf(nks, rn[i]) == RowKey(lines, k, p.nodeIndex);
  }

  /**
   * When `max_id` is at least every id in the mapping (a mapping file
   * written in id order), the minted ids are new: none is a mapped id, and
   * no two are equal.
   */
  lemma MintedIdsAreFresh(lines: seq<Line>, p: Params, fullMap: map<int, string>, mf: Dictionary)
    requires !p.skip
    requires forall name :: name in mf.ids ==> mf.ids[name] <= mf.maxId
    requires Run(lines, p, fullMap, mf).Success?
    ensures var st := Run(lines, p, fullMap, mf).value;
      && (forall i :: 0 <= i < |st.appended| ==> st.appended[i].id !in mf.ids.Values)
      && (forall i, i' :: 0 <= i < i' < |st.appended| ==> st.appended[i].id < st.appended[i'].id)
  {
    RunState(lines, p, fullMap, mf);
  }

  /** Line `j` aborts the main loop: a record (not the first line) without the key column. */
  ghost predicate Fatal(lines: seq<Line>, j: int, nodeIndex: int) {
    1 <= j < |lines| && !IsComment(lines[j]) && Column(lines[j].fields, nodeIndex).None?
  }

  /** The main loop aborts exactly when some record lacks the key column, and then on the first one. */
  lemma {:induction false} MappedFailure(lines: seq<Line>, p: Params, fullMap: map<int, string>, mf: Dictionary)
    ensures Run(lines, p, fullMap, mf).Failure? <==> exists j :: Fatal(lines, j, p.nodeIndex)
    ensures Run(lines, p, fullMap, mf).Failure? ==>
      exists j :: && Fatal(lines, j, p.nodeIndex)
                  && (forall i :: 0 <= i < j ==> !Fatal(lines, i, p.nodeIndex))
                  && Run(lines, p, fullMap, mf).error == MissingField(InputFile, j, p.nodeIndex)
    decreases |lines|
  {
    if |lines| > 0 {
      var n := |lines| - 1;
      var pl := lines[..n];
      FoldExtend(StepOf(p, fullMap, mf), Init(mf), lines, n);
      assert lines[..n + 1] == lines;
      MappedFailure(pl, p, fullMap, mf);
      assert forall j :: 0 <= j < n ==> (Fatal(pl, j, p.nodeIndex) <==> Fatal(lines, j, p.nodeIndex));
      if Run(pl, p, fullMap, mf).Success? {
        HeaderDropped(pl, p, fullMap, mf);
        assert forall j :: 0 <= j < n ==> !Fatal(lines, j, p.nodeIndex);
        if Fatal(lines, n, p.nodeIndex) {
          assert Run(lines, p, fullMap, mf) == Failure(MissingField(InputFile, n, p.nodeIndex));
        } else {
          assert Run(lines, p, fullMap, mf).Success?;
          assert forall j :: !Fatal(lines, j, p.nodeIndex);
        }
      } else {
        assert Run(lines, p, fullMap, mf) == Run(pl, p, fullMap, mf);
        var j :| && Fatal(pl, j, p.nodeIndex)
                 && (forall i :: 0 <= i < j ==> !Fatal(pl, i, p.nodeIndex))
                 && Run(pl, p, fullMap, mf).error == MissingField(InputFile, j, p.nodeIndex);
        assert Fatal(lines, j, p.nodeIndex);
      }
    }
  }

  /** The header flag is down once the first line has been read. */
  lemma HeaderDropped(lines: seq<Line>, p: Params, fullMap: map<int, string>, mf: Dictionary)
    requires Run(lines, p, fullMap, mf).Success?
    ensures Run(lines, p, fullMap, mf).value.hasHeader == (|lines| == 0)
  {
    if |lines| > 0 {
      var n := |lines| - 1;
      FoldExtend(StepOf(p, fullMap, mf), Init(mf), lines, n);
      assert lines[..n + 1] == lines;
    }
  }

  /** The first input line is a header: whatever it holds, the run is the same. */
  lemma {:induction false} HeaderLineIgnored(lines: seq<Line>, header: Line, p: Params, fullMap: map<int, string>, mf: Dictionary)
    requires |lines| > 0
    ensures Run(lines[0 := header], p, fullMap, mf) == Run(lines, p, fullMap, mf)
    decreases |lines|
  {
    var other := lines[0 := header];
    var n := |lines| - 1;
    FoldExtend(StepOf(p, fullMap, mf), Init(mf), lines, n);
    FoldExtend(StepOf(p, fullMap, mf), Init(mf), other, n);
    assert lines[..n + 1] == lines && other[..n + 1] == other;
    if n == 0 {
      assert lines[..0] == other[..0];
    } else {
      HeaderLineIgnored(lines[..n], header, p, fullMap, mf);
      assert lines[..n][0 := header] == other[..n];
    }
  }

  // ----- the carry-forward loop -----

  /** The previous entries not touched in this run, in the order `order` visits the old table. */
  function Carried(fullMap: map<int, string>, seenIds: set<int>, order: seq<int>): (r: seq<FullEntry>)
    requires forall i :: 0 <= i < |order| ==> order[i] in fullMap
    ensures forall k :: 0 <= k < |r| ==> r[k].id in fullMap && r[k].id !in seenIds && r[k].datasetIds == fullMap[r[k].id]
    ensures forall i :: 0 <= i < |order| && order[i] !in seenIds ==> FullEntry(order[i], fullMap[order[i]]) in r
    ensures forall k :: 0 <= k < |r| ==> r[k].id in order
    decreases |order|
  {
    if |order| == 0 then []
    else
      var n := |order| - 1;
      var c := order[n];
      var q := Carried(fullMap, seenIds, order[..n]);
      assert forall i :: 0 <= i < n ==> order[..n][i] == order[i];
      if c !in seenIds then q + [FullEntry(c, fullMap[c])] else q
  }

  /** `for counter in full_mode_map: if counter not in seen_counter: write it`. */
  method CarryForward(fullMap: map<int, string>, seenIds: set<int>, order: seq<int>) returns (rows: seq<FullEntry>)
    requires forall i :: 0 <= i < |order| ==> order[i] in fullMap
    ensures rows == Carried(fullMap, seenIds, order)
  {
    rows := [];
    var i := 0;
    while i < |order|
      invariant i <= |order|
      invariant rows == Carried(fullMap, seenIds, order[..i])
    {
      assert order[..i + 1][..i] == order[..i];
      var counter := order[i];
      if counter !in seenIds {
        rows := rows + [FullEntry(counter, fullMap[counter])];
      }
      i := i + 1;
    }
    assert order[..|order|] == order;
  }

  /** With an order visiting each old id once, every untouched old id is carried forward exactly once. */
  lemma CarriedOnce(fullMap: map<int, string>, seenIds: set<int>, order: seq<int>)
    requires IsOrderOf(order, fullMap.Keys)
    ensures var r := Carried(fullMap, seenIds, order);
      && (forall c :: c in fullMap && c !in seenIds <==> exists k :: 0 <= k < |r| && r[k].id == c)
      && (forall k, k' :: 0 <= k < k' < |r| ==> r[k].id != r[k'].id)
  {
    CarriedDistinct(fullMap, seenIds, order);
    var r := Carried(fullMap, seenIds, order);
    forall c | c in fullMap && c !in seenIds ensures exists k :: 0 <= k < |r| && r[k].id == c {
      var i :| 0 <= i < |order| && order[i] == c;
      assert FullEntry(c, fullMap[c]) in r;
    }
  }

  lemma {:induction false} CarriedDistinct(fullMap: map<int, string>, seenIds: set<int>, order: seq<int>)
    requires forall i :: 0 <= i < |order| ==> order[i] in fullMap
    requires forall i, j :: 0 <= i < j < |order| ==> order[i] != order[j]
    ensures forall k, k' :: 0 <= k < k' < |Carried(fullMap, seenIds, order)| ==>
      Carried(fullMap, seenIds, order)[k].id != Carried(fullMap, seenIds, order)[k'].id
    decreases |order|
  {
    if |order| > 0 {
      var n := |order| - 1;
      var q := order[..n];
      CarriedDistinct(fullMap, seenIds, q);
      var cq := Carried(fullMap, seenIds, q);
      forall k | 0 <= k < |cq| ensures cq[k].id != order[n] {
        var i :| 0 <= i < |q| && q[i] == cq[k].id;
        assert q[i] == order[i];
      }
      var c := order[n];
      var r := Carried(fullMap, seenIds, order);
      assert r == if c !in seenIds then cq + [FullEntry(c, fullMap[c])] else cq;
      forall k, k' | 0 <= k < k' < |r| ensures r[k].id != r[k'].id {
        if k' == |cq| {
          assert r[k] == cq[k] && r[k'].id == c;
        } else {
          assert r[k] == cq[k] && r[k'] == cq[k'];
        }
      }
    }
  }

  // ----- the whole run -----

  /** `fullOrder` is how the carry-forward loop visits the old table, whenever that table loads. */
  ghost predicate FullOrderFits(fullModeLines: seq<Line>, fullOrder: seq<int>) {
    LoadFullModeMap(fullModeLines).Success? ==> IsOrderOf(fullOrder, LoadFullModeMap(fullModeLines).value.Keys)
  }

  /** The specification of a whole run: both loads, the main loop, then the carry-forward. */
  function MappedModeTables(input: seq<Line>, fullModeLines: seq<Line>, mappingLines: seq<Line>, p: Params,
                            fullOrder: seq<int>): Result<Tables, Error>
    requires FullOrderFits(fullModeLines, fullOrder)
  {
    match LoadFullModeMap(fullModeLines)
    case Failure(e) => Failure(e)
    case Success(fullMap) =>
      match LoadMapping(mappingLines, p.mapIndex)
      case Failure(e) => Failure(e)
      case Success(mf) =>
        match Run(input, p, fullMap, mf)
        case Failure(e) => Failure(e)
        case Success(st) => Success(Tables(st.schema, st.full + Carried(fullMap, st.seenIds, fullOrder), st.db, st.appended))
  }

  /**
   * `create_mapped_mode_table`: `fullModeLines` is the old full mode table
   * (empty when the file does not exist), `mappingLines` the mapping file,
   * `fullOrder` the order in which the old table's ids are visited at the end.
   */
  method CreateMappedModeTable(input: seq<Line>, fullModeLines: seq<Line>, mappingLines: seq<Line>, p: Params,
                               fullOrder: seq<int>) returns (r: Result<Tables, Error>)
    requires FullOrderFits(fullModeLines, fullOrder)
    ensures r == MappedModeTables(input, fullModeLines, mappingLines, p, fullOrder)
  {
    var loaded := ReadFullModeFile(fullModeLines);
    if loaded.Failure? {
      r := Failure(loaded.error);
      return;
    }
    var fullMap := loaded.value;
    var mapped := ReadMappingFile(mappingLines, p.mapIndex);
    if mapped.Failure? {
      r := Failure(mapped.error);
      return;
    }
    var mf := mapped.value;
    var run := Reconcile(input, p, fullMap, mf);
    if run.Failure? {
      r := Failure(run.error);
      return;
    }
    var st := run.value;
    var carried := CarryForward(fullMap, st.seenIds, fullOrder);
    r := Success(Tables(st.schema, st.full + carried, st.db, st.appended));
  }

  /** Main rows followed by the carried entries: every old id is present. */
  lemma FullTableHasEveryId(main: seq<FullEntry>, fullMap: map<int, string>, seenIds: set<int>, order: seq<int>)
    requires IsOrderOf(order, fullMap.Keys)
    requires forall c :: c in seenIds ==> exists k :: 0 <= k < |main| && main[k].id == c
    ensures var all := main + Carried(fullMap, seenIds, order);
      forall c :: c in fullMap ==> exists k :: 0 <= k < |all| && all[k].id == c
  {
    var carried := Carried(fullMap, seenIds, order);
    CarriedOnce(fullMap, seenIds, order);
    var all := main + carried;
    forall c | c in fullMap ensures exists k :: 0 <= k < |all| && all[k].id == c {
      if c in seenIds {
        var k :| 0 <= k < |main| && main[k].id == c;
        assert all[k] == main[k];
      } else {
        var k :| 0 <= k < |carried| && carried[k].id == c;
        assert all[|main| + k] == carried[k];
      }
    }
  }

  /** The carried entries are old ids untouched in the main rows, with their old dataset lists. */
  lemma CarriedUntouched(main: seq<FullEntry>, fullMap: map<int, string>, seenIds: set<int>, order: seq<int>)
    requires forall i :: 0 <= i < |order| ==> order[i] in fullMap
    requires forall k :: 0 <= k < |main| ==> main[k].id in seenIds
    ensures var all := main + Carried(fullMap, seenIds, order);
      forall k :: |main| <= k < |all| ==>
        && all[k].id in fullMap && all[k].datasetIds == fullMap[all[k].id]
        && (forall k' :: 0 <= k' < |main| ==> all[k'].id != all[k].id)
  {
    var carried := Carried(fullMap, seenIds, order);
    var all := main + carried;
    var m := |main|;
    forall k | m <= k < |all|
      ensures && all[k].id in fullMap && all[k].datasetIds == fullMap[all[k].id]
              && (forall k' :: 0 <= k' < m ==> all[k'].id != all[k].id)
    {
      assert all[k] == carried[k - m];
      forall k' | 0 <= k' < m ensures all[k'].id != all[k].id {
        assert all[k'] == main[k'];
      }
    }
  }

  /** Each carried entry has an id of its own. */
  lemma CarriedOncePerId(main: seq<FullEntry>, fullMap: map<int, string>, seenIds: set<int>, order: seq<int>)
    requires IsOrderOf(order, fullMap.Keys)
    ensures var all := main + Carried(fullMap, seenIds, order);
      forall k, k' :: |main| <= k < k' < |all| ==> all[k].id != all[k'].id
  {
    var carried := Carried(fullMap, seenIds, order);
    CarriedDistinct(fullMap, seenIds, order);
    var all := main + carried;
    forall k, k' | |main| <= k < k' < |all| ensures all[k].id != all[k'].id {
      assert all[k] == carried[k - |main|] && all[k'] == carried[k' - |main|];
    }
  }

  /**
   * The rewritten full table keeps every old id: the ids touched in this
   * run have their dataset lists merged, and every other old id is carried
   * forward once, with its old dataset list.
   */
  lemma CarryForwardKeepsEveryId(input: seq<Line>, fullModeLines: seq<Line>, mappingLines: seq<Line>, p: Params,
                                 fullOrder: seq<int>)
    requires FullOrderFits(fullModeLines, fullOrder)
    requires MappedModeTables(input, fullModeLines, mappingLines, p, fullOrder).Success?
    ensures var fullMap := LoadFullModeMap(fullModeLines).value;
      var t := MappedModeTables(input, fullModeLines, mappingLines, p, fullOrder).value;
      var m := |t.db|;
      && m <= |t.full|
      && (forall c :: c in fullMap ==> exists k :: 0 <= k < |t.full| && t.full[k].id == c)
      && (forall k :: 0 <= k < m ==> t.full[k].datasetIds == MergedIds(fullMap, t.full[k].id, p.dbId))
      && (forall k :: m <= k < |t.full| ==>
            && t.full[k].id in fullMap && t.full[k].datasetIds == fullMap[t.full[k].id]
            && (forall k' :: 0 <= k' < m ==> t.full[k'].id != t.full[k].id))
      && (forall k, k' :: m <= k < k' < |t.full| ==> t.full[k].id != t.full[k'].id)
  {
    var fullMap := LoadFullModeMap(fullModeLines).value;
    var mf := LoadMapping(mappingLines, p.mapIndex).value;
    var st := Run(input, p, fullMap, mf).value;
    MainRowsMerged(input, p, fullMap, mf);
    FullTableHasEveryId(st.full, fullMap, st.seenIds, fullOrder);
    CarriedUntouched(st.full, fullMap, st.seenIds, fullOrder);
    CarriedOncePerId(st.full, fullMap, st.seenIds, fullOrder);
    var t := MappedModeTables(input, fullModeLines, mappingLines, p, fullOrder).value;
    assert t.full == st.full + Carried(fullMap, st.seenIds, fullOrder) && t.db == st.db;
    assert forall k :: 0 <= k < |st.full| ==> t.full[k] == st.full[k];
  }

  /** Every row of the main loop carries its id's merged dataset list, and each id written was seen. */
  lemma MainRowsMerged(input: seq<Line>, p: Params, fullMap: map<int, string>, mf: Dictionary)
    requires Run(input, p, fullMap, mf).Success?
    ensures var st := Run(input, p, fullMap, mf).value;
      && |st.db| == |st.full|
      && (forall k :: 0 <= k < |st.full| ==> st.full[k].id in st.seenIds)
      && (forall c :: c in st.seenIds ==> exists k :: 0 <= k < |st.full| && st.full[k].id == c)
      && (forall k :: 0 <= k < |st.full| ==> st.full[k].datasetIds == MergedIds(fullMap, st.full[k].id, p.dbId))
  {
    var st := Run(input, p, fullMap, mf).value;
    assert DescribesRows(st, input, p, fullMap, mf) by {
      RunState(input, p, fullMap, mf);
    }
    forall c | c in st.seenIds ensures exists k :: 0 <= k < |st.full| && st.full[k].id == c {
      var k :| 0 <= k < |st.full| && st.full[k].id == c;
    }
    var r := Sighted(input, p.nodeIndex);
    forall k | 0 <= k < |st.full| ensures st.full[k].datasetIds == MergedIds(fullMap, st.full[k].id, p.dbId) {
      assert RowFrom(st, k, input, r[k], p, fullMap, mf);
    }
  }

  // ----- running again on the same input -----

  /** The lines the mapping file gets for `rows`, one per row, in order. */
  function RowLines(rows: seq<MapRow>): (ls: seq<Line>)
    ensures |ls| == |rows|
    ensures forall i :: 0 <= i < |rows| ==> ls[i] == RowLine(rows[i])
  {
    seq(|rows|, i requires 0 <= i < |rows| => RowLine(rows[i]))
  }

  /** The name a mapping row gives, read back, under the scheme at `mapIndex`, when it has that column. */
  function RowName(row: MapRow, mapIndex: int): Option<string> {
    Column(ReadBack(RowFields(row)), mapIndex)
  }

  /** `ids` with each name of `names`, in order, mapped to the id beside it in `vals`: a later name wins. */
  function Assign(ids: map<string, int>, names: seq<Option<string>>, vals: seq<int>): map<string, int>
    requires |names| == |vals|
    decreases |names|
  {
    if |names| == 0 then ids
    else
      var n := |names| - 1;
      match names[n]
      case None => Assign(ids, names[..n], vals[..n])
      case Some(name) => Assign(ids, names[..n], vals[..n])[name := vals[n]]
  }

  function RowNames(rows: seq<MapRow>, mapIndex: int): (r: seq<Option<string>>)
    ensures |r| == |rows| && forall i :: 0 <= i < |rows| ==> r[i] == RowName(rows[i], mapIndex)
  {
    seq(|rows|, i requires 0 <= i < |rows| => RowName(rows[i], mapIndex))
  }

  function RowIds(rows: seq<MapRow>): (r: seq<int>)
    ensures |r| == |rows| && forall i :: 0 <= i < |rows| ==> r[i] == rows[i].id
  {
    seq(|rows|, i requires 0 <= i < |rows| => rows[i].id)
  }

  /** The name-to-id map `ids` with `rows` read on top of it, each row mapping its name to its id. */
  function WithRows(ids: map<string, int>, rows: seq<MapRow>, mapIndex: int): map<string, int> {
    Assign(ids, RowNames(rows, mapIndex), RowIds(rows))
  }

  /** Reading one more row on top. */
  lemma WithRowsSnoc(ids: map<string, int>, rows: seq<MapRow>, mapIndex: int)
    requires |rows| > 0
    ensures var n := |rows| - 1;
      WithRows(ids, rows, mapIndex) ==
        match RowName(rows[n], mapIndex)
        case None => WithRows(ids, rows[..n], mapIndex)
        case Some(name) => WithRows(ids, rows[..n], mapIndex)[name := rows[n].id]
  {
    var n := |rows| - 1;
    assert RowNames(rows, mapIndex)[..n] == RowNames(rows[..n], mapIndex);
    assert RowIds(rows)[..n] == RowIds(rows[..n]);
  }

  /** Reading a row the script wrote maps its name to its id and sets `max_id` and `num_cols` to its own. */
  lemma RowLineStep(d: Dictionary, row: MapRow, j: nat, mapIndex: int)
    requires RowName(row, mapIndex).Some?
    ensures MappingStep(d, RowLine(row), j, mapIndex) ==
      Success(Dictionary(d.ids[RowName(row, mapIndex).value := row.id], row.id, |ReadBack(RowFields(row))|))
  {
    ParseShow(row.id);
    assert !IsComment(RowLine(row));
    ReadBackHead(RowFields(row));
  }

  /**
   * Rows appended to a mapping file that loads, each with a name under
   * `map_index`, read back as `WithRows`: the reload still succeeds and
   * ends on the last row's id and width.
   */
  lemma {:induction false} RowsReadBack(lines: seq<Line>, rows: seq<MapRow>, mapIndex: int)
    requires LoadMapping(lines, mapIndex).Success?
    requires forall i :: 0 <= i < |rows| ==> RowName(rows[i], mapIndex).Some?
    ensures var mf := LoadMapping(lines, mapIndex).value;
      LoadMapping(lines + RowLines(rows), mapIndex) ==
        if |rows| == 0 then Success(mf)
        else Success(Dictionary(WithRows(mf.ids, rows, mapIndex), rows[|rows| - 1].id, |ReadBack(RowFields(rows[|rows| - 1]))|))
    decreases |rows|
  {
    if |rows| == 0 {
      assert lines + RowLines(rows) == lines;
    } else {
      var pre := rows[..|rows| - 1];
      var ids := LoadMapping(lines, mapIndex).value.ids;
      assert LoadMapping(lines + RowLines(pre), mapIndex).Success?
          && LoadMapping(lines + RowLines(pre), mapIndex).value.ids == WithRows(ids, pre, mapIndex) by {
        assert forall i :: 0 <= i < |pre| ==> pre[i] == rows[i];
        RowsReadBack(lines, pre, mapIndex);
      }
      ReadBackStep(lines, rows, mapIndex);
    }
  }

  /** One more row read back, from the rows before it. */
  lemma ReadBackStep(lines: seq<Line>, rows: seq<MapRow>, mapIndex: int)
    requires |rows| > 0 && RowName(rows[|rows| - 1], mapIndex).Some?
    requires LoadMapping(lines, mapIndex).Success?
    requires var pre := lines + RowLines(rows[..|rows| - 1]);
      LoadMapping(pre, mapIndex).Success?
      && LoadMapping(pre, mapIndex).value.ids == WithRows(LoadMapping(lines, mapIndex).value.ids, rows[..|rows| - 1], mapIndex)
    ensures LoadMapping(lines + RowLines(rows), mapIndex) ==
      Success(Dictionary(WithRows(LoadMapping(lines, mapIndex).value.ids, rows, mapIndex), rows[|rows| - 1].id,
                         |ReadBack(RowFields(rows[|rows| - 1]))|))
  {
    var n := |rows| - 1;
    var before := lines + RowLines(rows[..n]);
    assert lines + RowLines(rows) == before + [RowLine(rows[n])] by {
      RowLinesSnoc(rows);
    }
    ReadOneMore(before, rows[n], mapIndex);
    WithRowsSnoc(LoadMapping(lines, mapIndex).value.ids, rows, mapIndex);
  }

  /** Reading one written row after `before`. */
  lemma ReadOneMore(before: seq<Line>, row: MapRow, mapIndex: int)
    requires LoadMapping(before, mapIndex).Success?
    requires RowName(row, mapIndex).Some?
    ensures LoadMapping(before + [RowLine(row)], mapIndex) ==
      Success(Dictionary(LoadMapping(before, mapIndex).value.ids[RowName(row, mapIndex).value := row.id], row.id,
                         |ReadBack(RowFields(row))|))
  {
    NextLineRead(before, RowLine(row), mapIndex);
    RowLineStep(LoadMapping(before, mapIndex).value, row, |before|, mapIndex);
  }

  lemma RowLinesSnoc(rows: seq<MapRow>)
    requires |rows| > 0
    ensures RowLines(rows) == RowLines(rows[..|rows| - 1]) + [RowLine(rows[|rows| - 1])]
  {
    var n := |rows| - 1;
    var a := RowLines(rows);
    var b := RowLines(rows[..n]) + [RowLine(rows[n])];
    forall i | 0 <= i < |a| ensures a[i] == b[i] {
      if i < n {
        assert rows[..n][i] == rows[i];
      }
    }
    assert a == b;
  }

  /** Loading one more line after `before`. */
  lemma NextLineRead(before: seq<Line>, line: Line, mapIndex: int)
    ensures LoadMapping(before + [line], mapIndex) ==
      match LoadMapping(before, mapIndex)
      case Failure(e) => Failure(e)
      case Success(d) => MappingStep(d, line, |before|, mapIndex)
  {
    MappingLoadStep(before + [line], mapIndex);
    assert (before + [line])[..|before|] == before;
  }

  /** A name that `names` never gives keeps its old id. */
  lemma {:induction false} AssignKeeps(ids: map<string, int>, names: seq<Option<string>>, vals: seq<int>, x: string)
    requires |names| == |vals| && x in ids
    requires forall i :: 0 <= i < |names| ==> names[i] != Some(x)
    ensures x in Assign(ids, names, vals) && Assign(ids, names, vals)[x] == ids[x]
    decreases |names|
  {
    if |names| > 0 {
      var n := |names| - 1;
      assert forall i :: 0 <= i < n ==> names[..n][i] == names[i];
      AssignKeeps(ids, names[..n], vals[..n], x);
    }
  }

  /** A name given at position `i` and never later maps to the id at `i`. */
  lemma {:induction false} AssignLatest(ids: map<string, int>, names: seq<Option<string>>, vals: seq<int>, i: nat)
    requires |names| == |vals| && i < |names| && names[i].Some?
    requires forall i' :: i < i' < |names| ==> names[i'] != names[i]
    ensures names[i].value in Assign(ids, names, vals) && Assign(ids, names, vals)[names[i].value] == vals[i]
    decreases |names|
  {
    var n := |names| - 1;
    if i < n {
      assert names[..n][i] == names[i] && vals[..n][i] == vals[i];
      assert forall i' :: i < i' < n ==> names[..n][i'] == names[i'];
      AssignLatest(ids, names[..n], vals[..n], i);
    }
  }

  /** A name no row gives keeps its old id. */
  lemma WithRowsKeeps(ids: map<string, int>, rows: seq<MapRow>, mapIndex: int, x: string)
    requires x in ids
    requires forall i :: 0 <= i < |rows| ==> RowName(rows[i], mapIndex) != Some(x)
    ensures x in WithRows(ids, rows, mapIndex) && WithRows(ids, rows, mapIndex)[x] == ids[x]
  {
    AssignKeeps(ids, RowNames(rows, mapIndex), RowIds(rows), x);
  }

  /** A row's name maps to that row's id when no later row gives the same name: the last row wins. */
  lemma WithRowsLatest(ids: map<string, int>, rows: seq<MapRow>, mapIndex: int, i: nat)
    requires i < |rows| && RowName(rows[i], mapIndex).Some?
    requires forall i' :: i < i' < |rows| ==> RowName(rows[i'], mapIndex) != RowName(rows[i], mapIndex)
    ensures var name := RowName(rows[i], mapIndex).value;
      name in WithRows(ids, rows, mapIndex) && WithRows(ids, rows, mapIndex)[name] == rows[i].id
  {
    AssignLatest(ids, RowNames(rows, mapIndex), RowIds(rows), i);
  }

  /**
   * The new keys survive the reload: `map_index` is not the last column, or
   * every key the mapping does not know keeps its end through `strip()`.
   */
  ghost predicate NewKeysReadBack(lines: seq<Line>, p: Params, mf: Dictionary) {
    || p.mapIndex < mf.numCols - 1
    || forall x :: x in Sightings.Keys(KeySeq(lines, p.nodeIndex)) && x !in mf.ids ==> EndsInText(x)
  }

  /**
   * The rows a run appends each give, under `map_index`, the key they were
   * minted for, and carry ids `max_id + 1`, `max_id + 2`, ... in order.
   */
  lemma AppendedRows(lines: seq<Line>, p: Params, fullMap: map<int, string>, mf: Dictionary)
    requires !p.skip && 1 <= p.mapIndex < mf.numCols && NewKeysReadBack(lines, p, mf)
    requires Run(lines, p, fullMap, mf).Success?
    ensures var st := Run(lines, p, fullMap, mf).value;
      var rn := Minted(lines, p.nodeIndex, mf);
      var nks := NewKeySeq(lines, p.nodeIndex, mf);
      && |st.appended| == |rn|
      && forall i :: 0 <= i < |rn| ==>
           st.appended[i].id == mf.maxId + 1 + i && RowName(st.appended[i], p.mapIndex) == Some(Sightings.KeyOf(nks, rn[i]))
  {
    var st := Run(lines, p, fullMap, mf).value;
    assert DescribesMint(st, lines, p, mf) by {
      RunState(lines, p, fullMap, mf);
    }
    forall i | 0 <= i < |st.appended|
      ensures RowName(st.appended[i], p.mapIndex) == Some(Sightings.KeyOf(NewKeySeq(lines, p.nodeIndex, mf), Minted(lines, p.nodeIndex, mf)[i]))
    {
      MintedKeyReadsBack(lines, p, mf, i);
    }
  }

  /** The row minted for the `i`-th new key gives that key back, under `map_index`. */
  lemma MintedKeyReadsBack(lines: seq<Line>, p: Params, mf: Dictionary, i: nat)
    requires 1 <= p.mapIndex < mf.numCols && NewKeysReadBack(lines, p, mf)
    requires i < |Minted(lines, p.nodeIndex, mf)|
    ensures var key := Sightings.KeyOf(NewKeySeq(lines, p.nodeIndex, mf), Minted(lines, p.nodeIndex, mf)[i]);
      RowName(NewRow(mf.maxId + 1 + i, key, mf.numCols, p.mapIndex), p.mapIndex) == Some(key)
  {
    var ks := KeySeq(lines, p.nodeIndex);
    var rn := Minted(lines, p.nodeIndex, mf);
    var j := rn[i];
    assert j in rn;
    var key := Sightings.KeyOf(NewKeySeq(lines, p.nodeIndex, mf), j);
    assert key in Sightings.Keys(ks) && key !in mf.ids by {
      assert ks[j].Some? && ks[j].value == key;
    }
    NewRowReadsBack(mf.maxId + 1 + i, key, mf.numCols, p.mapIndex);
  }

  /**
   * Reading the run's appended rows back into the mapping gives every key
   * that wrote a row the id it was written with: the key first seen on
   * line `j` maps to `IdAt(lines, j, ...)`.
   */
  lemma ReloadedId(lines: seq<Line>, p: Params, fullMap: map<int, string>, mf: Dictionary, j: nat)
    requires !p.skip && 1 <= p.mapIndex < mf.numCols && NewKeysReadBack(lines, p, mf)
    requires Run(lines, p, fullMap, mf).Success?
    requires Sightings.IsFirstSighting(KeySeq(lines, p.nodeIndex), j)
    ensures var w := WithRows(mf.ids, Run(lines, p, fullMap, mf).value.appended, p.mapIndex);
      var key := Sightings.KeyOf(KeySeq(lines, p.nodeIndex), j);
      key in w && w[key] == IdAt(lines, j, p, mf)
  {
    if Sightings.KeyOf(KeySeq(lines, p.nodeIndex), j) in mf.ids {
      KnownKeyReloaded(lines, p, fullMap, mf, j);
    } else {
      NewKeyReloaded(lines, p, fullMap, mf, j);
    }
  }

  /** A key the mapping knew is given by none of the appended rows, so it keeps its id. */
  lemma KnownKeyReloaded(lines: seq<Line>, p: Params, fullMap: map<int, string>, mf: Dictionary, j: nat)
    requires !p.skip && 1 <= p.mapIndex < mf.numCols && NewKeysReadBack(lines, p, mf)
    requires Run(lines, p, fullMap, mf).Success?
    requires Sightings.KeyOf(KeySeq(lines, p.nodeIndex), j) in mf.ids
    ensures var w := WithRows(mf.ids, Run(lines, p, fullMap, mf).value.appended, p.mapIndex);
      var key := Sightings.KeyOf(KeySeq(lines, p.nodeIndex), j);
      key in w && w[key] == mf.ids[key]
  {
    var rows := Run(lines, p, fullMap, mf).value.appended;
    var nks := NewKeySeq(lines, p.nodeIndex, mf);
    var rn := Minted(lines, p.nodeIndex, mf);
    var key := Sightings.KeyOf(KeySeq(lines, p.nodeIndex), j);
    AppendedRows(lines, p, fullMap, mf);
    forall i | 0 <= i < |rows| ensures RowName(rows[i], p.mapIndex) != Some(key) {
      assert rn[i] in rn;
    }
    WithRowsKeeps(mf.ids, rows, p.mapIndex, key);
  }

  /** A key new to the mapping, first seen on line `j`, is read back with the id minted for it there. */
  lemma NewKeyReloaded(lines: seq<Line>, p: Params, fullMap: map<int, string>, mf: Dictionary, j: nat)
    requires !p.skip && 1 <= p.mapIndex < mf.numCols && NewKeysReadBack(lines, p, mf)
    requires Run(lines, p, fullMap, mf).Success?
    requires Sightings.IsFirstSighting(KeySeq(lines, p.nodeIndex), j)
    requires Sightings.KeyOf(KeySeq(lines, p.nodeIndex), j) !in mf.ids
    ensures var w := WithRows(mf.ids, Run(lines, p, fullMap, mf).value.appended, p.mapIndex);
      var key := Sightings.KeyOf(KeySeq(lines, p.nodeIndex), j);
      key in w && w[key] == mf.maxId + 1 + |Minted(lines[..j], p.nodeIndex, mf)|
  {
    var rows := Run(lines, p, fullMap, mf).value.appended;
    var ks := KeySeq(lines, p.nodeIndex);
    var nks := NewKeySeq(lines, p.nodeIndex, mf);
    var rn := Minted(lines, p.nodeIndex, mf);
    AppendedRows(lines, p, fullMap, mf);
    Sightings.MaskedFirstSighting(ks, mf.ids.Keys, j);
    assert j in rn;
    var i :| 0 <= i < |rn| && rn[i] == j;
    assert |Minted(lines[..j], p.nodeIndex, mf)| == i by {
      Sightings.SightingsBefore(nks, i);
      KeySeqPrefix(lines, p.nodeIndex, mf, j);
    }
    assert RowName(rows[i], p.mapIndex) == Some(ks[j].value);
    forall i' | i < i' < |rows| ensures RowName(rows[i'], p.mapIndex) != RowName(rows[i], p.mapIndex) {
      Sightings.SightedKeysDistinct(nks);
    }
    WithRowsLatest(mf.ids, rows, p.mapIndex, i);
  }

  /** Every key of the input is in the reloaded mapping. */
  lemma ReloadedKeys(lines: seq<Line>, p: Params, fullMap: map<int, string>, mf: Dictionary)
    requires !p.skip && 1 <= p.mapIndex < mf.numCols && NewKeysReadBack(lines, p, mf)
    requires Run(lines, p, fullMap, mf).Success?
    ensures Sightings.Keys(KeySeq(lines, p.nodeIndex)) <= WithRows(mf.ids, Run(lines, p, fullMap, mf).value.appended, p.mapIndex).Keys
  {
    var ks := KeySeq(lines, p.nodeIndex);
    forall x | x in Sightings.Keys(ks)
      ensures x in WithRows(mf.ids, Run(lines, p, fullMap, mf).value.appended, p.mapIndex)
    {
      var j := Sightings.FirstOccurrence(ks, x);
      ReloadedId(lines, p, fullMap, mf, j);
    }
  }

  /**
   * The main loop run again on the same input, with the mapping that has
   * the first run's rows read back in, succeeds, mints nothing, and writes
   * the same dataset rows with the same ids.
   */
  lemma SecondRunSameRows(lines: seq<Line>, p: Params, fullMap: map<int, string>, fullMap2: map<int, string>,
                          mf: Dictionary, mf2: Dictionary)
    requires !p.skip && 1 <= p.mapIndex < mf.numCols && NewKeysReadBack(lines, p, mf)
    requires Run(lines, p, fullMap, mf).Success?
    requires mf2.ids == WithRows(mf.ids, Run(lines, p, fullMap, mf).value.appended, p.mapIndex)
    ensures Run(lines, p, fullMap2, mf2).Success?
    ensures var st := Run(lines, p, fullMap, mf).value;
      var st2 := Run(lines, p, fullMap2, mf2).value;
      && st2.appended == [] && st2.maxId == mf2.maxId
      && st2.db == st.db && |st2.full| == |st.full|
      && forall k :: 0 <= k < |st.full| ==> st2.full[k].id == st.full[k].id
  {
    MappedFailure(lines, p, fullMap, mf);
    MappedFailure(lines, p, fullMap2, mf2);
    var st := Run(lines, p, fullMap, mf).value;
    var st2 := Run(lines, p, fullMap2, mf2).value;
    var ks := KeySeq(lines, p.nodeIndex);
    var r := Sighted(lines, p.nodeIndex);
    assert DescribesRows(st, lines, p, fullMap, mf) by {
      RunState(lines, p, fullMap, mf);
    }
    assert Describes(st2, lines, p, fullMap2, mf2) by {
      RunState(lines, p, fullMap2, mf2);
    }
    assert |st2.appended| == 0 by {
      ReloadedKeys(lines, p, fullMap, mf);
      Sightings.SightingsCount(NewKeySeq(lines, p.nodeIndex, mf2));
      Sightings.MaskKeys(ks, mf2.ids.Keys);
      assert Sightings.Keys(NewKeySeq(lines, p.nodeIndex, mf2)) == {};
    }
    forall k | 0 <= k < |r| ensures st2.full[k].id == st.full[k].id && st2.db[k] == st.db[k] {
      assert RowFrom(st, k, lines, r[k], p, fullMap, mf);
      assert RowFrom(st2, k, lines, r[k], p, fullMap2, mf2);
      assert r[k] in r;
      ReloadedId(lines, p, fullMap, mf, r[k]);
    }
  }

  /**
   * The round trip of the mapping file: running the script a second time
   * on the same input, with the mapping file it appended to, gives every
   * key the id of the first run, mints nothing and appends nothing, and
   * writes the same dataset table. This needs `map_index` to be a column of
   * the rows appended, that is `1 <= map_index < num_cols` after the first load.
   */
  lemma SecondRunReusesIds(input: seq<Line>, fullModeLines: seq<Line>, mappingLines: seq<Line>, p: Params,
                           fullOrder: seq<int>, fullModeLines2: seq<Line>, fullOrder2: seq<int>)
    requires !p.skip
    requires FullOrderFits(fullModeLines, fullOrder) && FullOrderFits(fullModeLines2, fullOrder2)
    requires LoadFullModeMap(fullModeLines2).Success?
    requires LoadMapping(mappingLines, p.mapIndex).Success?
    requires 1 <= p.mapIndex < LoadMapping(mappingLines, p.mapIndex).value.numCols
    requires NewKeysReadBack(input, p, LoadMapping(mappingLines, p.mapIndex).value)
    requires MappedModeTables(input, fullModeLines, mappingLines, p, fullOrder).Success?
    ensures var t := MappedModeTables(input, fullModeLines, mappingLines, p, fullOrder).value;
      var t2 := MappedModeTables(input, fullModeLines2, mappingLines + RowLines(t.appended), p, fullOrder2);
      && t2.Success?
      && t2.value.appended == []
      && t2.value.db == t.db
      && |t.db| <= |t.full| && |t.db| <= |t2.value.full|
      && forall k :: 0 <= k < |t.db| ==> t2.value.full[k].id == t.full[k].id
  {
    var fullMap := LoadFullModeMap(fullModeLines).value;
    var fullMap2 := LoadFullModeMap(fullModeLines2).value;
    var mf := LoadMapping(mappingLines, p.mapIndex).value;
    var st := Run(input, p, fullMap, mf).value;
    AppendedRows(input, p, fullMap, mf);
    RowsReadBack(mappingLines, st.appended, p.mapIndex);
    var mf2 := LoadMapping(mappingLines + RowLines(st.appended), p.mapIndex).value;
    SecondRunSameRows(input, p, fullMap, fullMap2, mf, mf2);
    MainRowsMerged(input, p, fullMap, mf);
    MainRowsMerged(input, p, fullMap2, mf2);
  }

  /** The mapping rows (3, A) then (2, B): `max_id` ends at 2, the last row's id. */
  lemma UnsortedMappingLoad()
    ensures LoadMapping([Line('3', ["3", "A"]), Line('2', ["2", "B"])], 1) == Success(Dictionary(map["A" := 3, "B" := 2], 2, 2))
  {
    var mapping := [Line('3', ["3", "A"]), Line('2', ["2", "B"])];
    ParseShow(3);
    ParseShow(2);
    assert Show(3) == "3" && Show(2) == "2";
    var d0 := Dictionary(map[], 0, 0);
    FoldExtend(MappingStepOf(1), d0, mapping, 0);
    FoldExtend(MappingStepOf(1), d0, mapping, 1);
    assert mapping[..0] == [] && mapping[..2] == mapping;
    assert LoadMapping(mapping[..1], 1) == Success(Dictionary(map["A" := 3], 3, 2));
  }

  /** After a header line, the unknown key C is minted as `max_id + 1` = 3. */
  lemma MintAfterUnsortedLoad()
    ensures Run([Line('k', ["key"]), Line('C', ["C"])], Params(0, false, 1, 0), map[], Dictionary(map["A" := 3, "B" := 2], 2, 2))
      == Success(State(false, Some([]), {"C"}, {3}, 3, [FullEntry(3, "0")], [DbRow(3, "C", [])], [MapRow(3, ["C"])]))
  {
    var input := [Line('k', ["key"]), Line('C', ["C"])];
    var p := Params(0, false, 1, 0);
    var d := Dictionary(map["A" := 3, "B" := 2], 2, 2);
    var fullMap: map<int, string> := map[];
    assert Show(0) == "0";
    UndottedKey("C");
    var s0 := Init(d);
    var row := NewRow(3, "C", 2, 1);
    assert row == MapRow(3, ["C"]);
    assert ColumnsExcept(1, {0}) == [] && Except(["C"], {0}) == [];
    FoldExtend(StepOf(p, fullMap, d), s0, input, 0);
    FoldExtend(StepOf(p, fullMap, d), s0, input, 1);
    assert input[..0] == [] && input[..2] == input;
    var s1 := s0.(hasHeader := false);
    assert Run(input[..1], p, fullMap, d) == Success(s1);
    assert Column(["C"], 0) == Some("C");
    assert "C" !in d.ids;
    assert [] + [row] == [row];
    assert Resolve(s1, "C", p, d) == (3, 3, [row]);
    assert MergedIds(fullMap, 3, 0) == "0";
    assert [] + [FullEntry(3, "0")] == [FullEntry(3, "0")];
    assert [] + [DbRow(3, "C", [])] == [DbRow(3, "C", [])];
    assert {} + {"C"} == {"C"} && {} + {3} == {3};
    assert Step(s1, input[1], 1, p, fullMap, d)
      == Success(State(false, Some([]), {"C"}, {3}, 3, [FullEntry(3, "0")], [DbRow(3, "C", [])], [MapRow(3, ["C"])]));
  }

  /**
   * `max_id` is the LAST mapping row's id, so a mapping file not in id
   * order makes a new key collide: with rows (3, A) then (2, B), the new
   * key C is minted as 3, the id A already has.
   */
  lemma UnsortedMappingRepeatsAnId()
    ensures var mapping := [Line('3', ["3", "A"]), Line('2', ["2", "B"])];
      && LoadMapping(mapping, 1).Success?
      && MappedModeTables([Line('k', ["key"]), Line('C', ["C"])], [], mapping, Params(0, false, 1, 0), [])
         == Success(Tables(Some([]), [FullEntry(3, "0")], [DbRow(3, "C", [])], [MapRow(3, ["C"])]))
      && LoadMapping(mapping, 1).value.ids["A"] == 3
  {
    UnsortedMappingLoad();
    MintAfterUnsortedLoad();
    var fullMap: map<int, string> := map[];
    assert LoadFullModeMap([]) == Success(fullMap);
    assert Carried(fullMap, {3}, []) == [];
    assert [FullEntry(3, "0")] + [] == [FullEntry(3, "0")];
  }
}
