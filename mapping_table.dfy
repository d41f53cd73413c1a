/**
 * Merging a two-column name mapping into the id-keyed mapping table
 * (utils/create_mapping_table.py). The table gives every mambo id a row of
 * names, one column per naming scheme. Each pair (name, mapped name) of the
 * source mapping is placed in the row of the id the name already has, or in
 * a row under a new id; rows the run does not touch are carried forward.
 */
module MappingTable {
  import opened Wrappers
  import opened Lines
  import opened Decimal

  /** The placeholder a source mapping uses for a missing name. */
  const NullName := "NULL"

  /** The placeholder the table uses for an empty column. */
  const NoneName := "None"

  /**
   * The run's settings: the two source columns (Python indices), the two
   * output columns (0-based, after the id) and the two optional titles.
   */
  datatype Config = Config(mapIndex1: int, mapIndex2: int, outIndex1: nat, outIndex2: nat,
                           title1: Option<string>, title2: Option<string>)

  /** `index1`: the column of a written row that holds the name (the id is column 0). */
  function Index1(cfg: Config): nat {
    cfg.outIndex1 + 1
  }

  /** `index2`: the column that holds the mapped name. */
  function Index2(cfg: Config): nat {
    cfg.outIndex2 + 1
  }

  // ----- loading the source mapping -----

  /** One source line: skip `#` lines and pairs with a `NULL` side; otherwise a later pair overwrites. */
  function SourceStep(m: map<string, string>, line: Line, j: nat, cfg: Config): Result<map<string, string>, Error> {
    if IsHashComment(line) then Success(m)
    else match Column(line.fields, cfg.mapIndex1)
      case None => Failure(MissingField(InputFile, j, cfg.mapIndex1))
      case Some(name) =>
        match Column(line.fields, cfg.mapIndex2)
        case None => Failure(MissingField(InputFile, j, cfg.mapIndex2))
        case Some(mname) =>
          if name == NullName || mname == NullName then Success(m) else Success(m[name := mname])
  }

  function SourceStepOf(cfg: Config): (map<string, string>, Line, nat) -> Result<map<string, string>, Error> {
    (m: map<string, string>, line: Line, j: nat) => SourceStep(m, line, j, cfg)
  }

  function LoadSource(lines: seq<Line>, cfg: Config): Result<map<string, string>, Error> {
    Fold(SourceStepOf(cfg), map[], lines)
  }

  method ReadSource(lines: seq<Line>, cfg: Config) returns (r: Result<map<string, string>, Error>)
    ensures r == LoadSource(lines, cfg)
  {
    var mapping: map<string, string> := map[];
    var i := 0;
    while i < |lines|
      invariant i <= |lines|
      invariant LoadSource(lines[..i], cfg) == Success(mapping)
    {
      FoldExtend(SourceStepOf(cfg), map[], lines, i);
      var line := lines[i];
      if IsHashComment(line) {
        i := i + 1;
        continue;
      }
      var name := Column(line.fields, cfg.mapIndex1);
      if name.None? {
        r := Failure(MissingField(InputFile, i, cfg.mapIndex1));
        FoldFailureSticks(SourceStepOf(cfg), map[], lines, i + 1);
        return;
      }
      var mname := Column(line.fields, cfg.mapIndex2);
      if mname.None? {
        r := Failure(MissingField(InputFile, i, cfg.mapIndex2));
        FoldFailureSticks(SourceStepOf(cfg), map[], lines, i + 1);
        return;
      }
      if name.value == NullName || mname.value == NullName {
        i := i + 1;
        continue;
      }
      mapping := mapping[name.value := mname.value];
      i := i + 1;
    }
    assert lines[..|lines|] == lines;
    r := Success(mapping);
  }

  // ----- loading the existing table -----

  /**
   * What reading the existing table leaves behind: the fields of the last
   * `#` line, `num_fields`, the row of every id (`uid_other_map`) and the id
   * of every name in the name column (`name_uid_map`).
   */
  datatype Existing = Existing(title: Option<seq<string>>, numFields: int,
                               others: map<int, seq<string>>, nameIds: map<string, int>)

  /** One line of the existing table. */
  function ExistingStep(ex: Existing, line: Line, j: nat, cfg: Config): Result<Existing, Error> {
    if IsHashComment(line) then Success(ex.(title := Some(line.fields)))
    else
      var f := line.fields;
      match Column(f, 0)
      case None => Failure(MissingField(OutputFile, j, 0))
      case Some(idText) =>
        match ParseInt(idText)
        case None => Failure(NotAnInteger(OutputFile, j))
        case Some(id) =>
          match Column(f, Index1(cfg))
          case None => Failure(MissingField(OutputFile, j, Index1(cfg)))
          case Some(name) =>
            Success(Existing(ex.title, |f| - 1, ex.others[id := f[1..]],
                             if name != NoneName then ex.nameIds[name := id] else ex.nameIds))
  }

  function ExistingStepOf(cfg: Config): (Existing, Line, nat) -> Result<Existing, Error> {
    (ex: Existing, line: Line, j: nat) => ExistingStep(ex, line, j, cfg)
  }

  function NoTable(): Existing {
    Existing(None, 0, map[], map[])
  }

  /** The existing table as the loader reads it; an absent file is an empty one. */
  function LoadExisting(lines: seq<Line>, cfg: Config): Result<Existing, Error> {
    Fold(ExistingStepOf(cfg), NoTable(), lines)
  }

  method ReadExisting(lines: seq<Line>, cfg: Config) returns (r: Result<Existing, Error>)
    ensures r == LoadExisting(lines, cfg)
  {
    var title: Option<seq<string>> := None;
    var numFields := 0;
    var others: map<int, seq<string>> := map[];
    var nameIds: map<string, int> := map[];
    var i := 0;
    while i < |lines|
      invariant i <= |lines|
      invariant LoadExisting(lines[..i], cfg) == Success(Existing(title, numFields, others, nameIds))
    {
      FoldExtend(ExistingStepOf(cfg), NoTable(), lines, i);
      var line := lines[i];
      if IsHashComment(line) {
        title := Some(line.fields);
        i := i + 1;
        continue;
      }
      var f := line.fields;
      numFields := |f| - 1;
      if |f| == 0 {
        r := Failure(MissingField(OutputFile, i, 0));
        FoldFailureSticks(ExistingStepOf(cfg), NoTable(), lines, i + 1);
        return;
      }
      var id := ParseInt(f[0]);
      if id.None? {
        r := Failure(NotAnInteger(OutputFile, i));
        FoldFailureSticks(ExistingStepOf(cfg), NoTable(), lines, i + 1);
        return;
      }
      others := others[id.value := f[1..]];
      var name := Column(f, Index1(cfg));
      if name.None? {
        r := Failure(MissingField(OutputFile, i, Index1(cfg)));
        FoldFailureSticks(ExistingStepOf(cfg), NoTable(), lines, i + 1);
        return;
      }
      if name.value != NoneName {
        nameIds := nameIds[name.value := id.value];
      }
      i := i + 1;
    }
    assert lines[..|lines|] == lines;
    r := Success(Existing(title, numFields, others, nameIds));
  }

  // ----- the largest existing id -----

  function MaxOf(xs: seq<int>): (m: int)
    requires |xs| > 0
    ensures m in xs && forall i :: 0 <= i < |xs| ==> xs[i] <= m
  {
    if |xs| == 1 then xs[0]
    else
      var m := MaxOf(xs[..|xs| - 1]);
      assert forall i :: 0 <= i < |xs| - 1 ==> xs[..|xs| - 1][i] == xs[i];
      if xs[|xs| - 1] > m then xs[|xs| - 1] else m
  }

  /** `max_count`: the largest existing id, or -1 when the table has no rows. */
  function StartCount(ids: seq<int>): int {
    if |ids| == 0 then -1 else MaxOf(ids)
  }

  /** Python's `max(...) if len(...) > 0 else -1` over the ids, in the order the dictionary lists them. */
  method MaxCount(ids: seq<int>) returns (m: int)
    ensures m == StartCount(ids)
  {
    if |ids| == 0 {
      return -1;
    }
    m := ids[0];
    var i := 1;
    while i < |ids|
      invariant 1 <= i <= |ids|
      invariant m == MaxOf(ids[..i])
    {
      assert ids[..i + 1][..i] == ids[..i];
      if ids[i] > m {
        m := ids[i];
      }
      i := i + 1;
    }
    assert ids[..|ids|] == ids;
  }

  /** Whatever order lists the ids, `max_count` exceeds no id and every id is at most it. */
  lemma StartCountIsMax(ids: seq<int>, keys: set<int>)
    requires IsOrderOf(ids, keys)
    ensures keys == {} ==> StartCount(ids) == -1
    ensures keys != {} ==> StartCount(ids) in keys
    ensures forall c :: c in keys ==> c <= StartCount(ids)
  {
    if |ids| == 0 {
      assert forall c :: c !in keys;
    } else {
      assert StartCount(ids) in ids;
    }
    forall c | c in keys ensures c <= StartCount(ids) {
      var i :| 0 <= i < |ids| && ids[i] == c;
    }
  }

  // ----- the title line -----

  /** Python's `xs.insert(i, x)` for a non-negative `i`: past the end it appends. */
  function Insert(xs: seq<string>, i: nat, x: string): (r: seq<string>)
    ensures |r| == |xs| + 1
    ensures var at := if i < |xs| then i else |xs|;
      r[at] == x && r[..at] + r[at + 1..] == xs
  {
    if i >= |xs| then xs + [x] else xs[..i] + [x] + xs[i..]
  }

  /** `output_title if output_title else "Index%d" % index`. */
  function DefaultTitle(t: Option<string>, index: nat): string {
    if t.Some? && t.value != "" then t.value else "Index" + Show(index)
  }

  /** The title fields: the old ones (after `#Mambo_id`) with the two titles put at places 0 and 1. */
  function PlaceTitles(prior: seq<string>, cfg: Config): seq<string> {
    var titles := [DefaultTitle(cfg.title1, Index1(cfg)), DefaultTitle(cfg.title2, Index2(cfg))];
    var first: nat := if cfg.outIndex1 < cfg.outIndex2 then 0 else 1;
    var second: nat := if cfg.outIndex1 < cfg.outIndex2 then 1 else 0;
    if first >= |prior| then Insert(Insert(prior, first, titles[first]), second, titles[second])
    else
      var t := prior[first := titles[first]];
      if second >= |t| then Insert(t, second, titles[second]) else t[second := titles[second]]
  }

  /** `title_line.split(delimiter)[1:] if title_line else []`. */
  function OldTitleFields(title: Option<seq<string>>): seq<string> {
    match title
    case None => []
    case Some(f) => if |f| == 0 then [] else f[1..]
  }

  /** `sep.join(xs)`. */
  function Join(xs: seq<string>, sep: char): string {
    if |xs| == 0 then "" else if |xs| == 1 then xs[0] else Join(xs[..|xs| - 1], sep) + [sep] + xs[|xs| - 1]
  }

  /** The one title line of the output: `#Mambo_id`, a tab, then the joined title fields with the ends stripped. */
  function TitleLine(fields: seq<string>): (s: string)
    ensures "#Mambo_id\t" <= s
  {
    "#Mambo_id\t" + Strip(Join(fields, '\t'))
  }

  /** The title block: `title_fields` edited in place by `insert` and assignment, then joined. */
  method BuildTitle(title: Option<seq<string>>, cfg: Config) returns (line: string)
    ensures line == TitleLine(PlaceTitles(OldTitleFields(title), cfg))
  {
    var fields := OldTitleFields(title);
    var titles := [DefaultTitle(cfg.title1, Index1(cfg)), DefaultTitle(cfg.title2, Index2(cfg))];
    var first: nat := if cfg.outIndex1 < cfg.outIndex2 then 0 else 1;
    var second: nat := if cfg.outIndex1 < cfg.outIndex2 then 1 else 0;
    if first >= |fields| {
      fields := Insert(fields, first, titles[first]);
      fields := Insert(fields, second, titles[second]);
    } else {
      fields := fields[first := titles[first]];
      if second >= |fields| {
        fields := Insert(fields, second, titles[second]);
      } else {
        fields := fields[second := titles[second]];
      }
    }
    line := TitleLine(fields);
  }

  // ----- the main loop -----

  /** A written row: the id and the fields after it. */
  datatype OutRow = OutRow(id: int, terms: seq<string>)

  datatype MainState = MainState(maxCount: int, others: map<int, seq<string>>, seen: set<int>, rows: seq<OutRow>)

  /** `new_num_fields`: the width of a new row. */
  function NewWidth(others: map<int, seq<string>>, numFields: int, index2: nat): int {
    if |others| == 0 then 2 else if index2 <= numFields then numFields else numFields + 1
  }

  function Nones(n: int): (r: seq<string>)
    ensures |r| == if n > 0 then n else 0
    ensures forall i :: 0 <= i < |r| ==> r[i] == NoneName
  {
    seq(if n > 0 then n else 0, _ => NoneName)
  }

  /**
   * A new row: `None` in every column, the name at `index1`, the mapped
   * name at `index2`; a row too short for either raises.
   */
  function NewTerms(name: string, mname: string, width: int, index1: nat, index2: nat): (r: Result<seq<string>, Error>)
    requires index1 >= 1 && index2 >= 1
    ensures r.Success? <==> index1 <= width && index2 <= width
    ensures r.Success? ==> && |r.value| == width
                           && r.value[index2 - 1] == mname
                           && (index1 != index2 ==> r.value[index1 - 1] == name)
                           && forall i :: 0 <= i < width && i != index1 - 1 && i != index2 - 1 ==> r.value[i] == NoneName
    ensures r.Failure? ==> r.error == RowTooShort(name, if index1 > width then index1 - 1 else index2 - 1)
  {
    if index1 - 1 >= width then Failure(RowTooShort(name, index1 - 1))
    else if index2 - 1 >= width then Failure(RowTooShort(name, index2 - 1))
    else Success(Nones(width)[index1 - 1 := name][index2 - 1 := mname])
  }

  /**
   * Filling an existing row: a row too short for `index2` gets the mapped
   * name appended; otherwise a `None` at `index2` becomes the NAME (not the
   * mapped name); any other value stays.
   */
  function FillRow(terms: seq<string>, name: string, mname: string, index2: nat): (t: seq<string>)
    requires index2 >= 1
    ensures |terms| < index2 ==> t == terms + [mname]
    ensures index2 <= |terms| ==> |t| == |terms|
    ensures index2 <= |terms| && terms[index2 - 1] == NoneName ==> t[index2 - 1] == name
    ensures forall i :: 0 <= i < |terms| && terms[i] != NoneName ==> t[i] == terms[i]
    ensures forall i :: 0 <= i < |terms| && i != index2 - 1 ==> t[i] == terms[i]
  {
    if |terms| < index2 then terms + [mname]
    else if terms[index2 - 1] == NoneName then terms[index2 - 1 := name]
    else terms
  }

  /**
   * One iteration of `for name in mapping`. `order` lists the mapping's
   * names, so `name in mapping` always holds; a known name's id always has
   * a row (MappingTable.ExistingNames), and the loop adds no ids.
   */
  function MainStep(st: MainState, name: string, j: nat, mapping: map<string, string>, ex: Existing, cfg: Config)
    : Result<MainState, Error>
  {
    if name !in mapping then Success(st)
    else
      var mname := mapping[name];
      var known := name in ex.nameIds;
      var counter := if known then ex.nameIds[name] else st.maxCount + 1;
      var maxCount := if known then st.maxCount else st.maxCount + 1;
      var terms := if known && counter in st.others then st.others[counter] else [];
      if |terms| == 0 then
        match NewTerms(name, mname, NewWidth(st.others, ex.numFields, Index2(cfg)), Index1(cfg), Index2(cfg))
        case Failure(e) => Failure(e)
        case Success(t) => Success(MainState(maxCount, st.others, st.seen + {counter}, st.rows + [OutRow(counter, t)]))
      else
        var t := FillRow(terms, name, mname, Index2(cfg));
        Success(MainState(maxCount, st.others[counter := t], st.seen + {counter}, st.rows + [OutRow(counter, t)]))
  }

  function MainStepOf(mapping: map<string, string>, ex: Existing, cfg: Config): (MainState, string, nat) -> Result<MainState, Error> {
    (st: MainState, name: string, j: nat) => MainStep(st, name, j, mapping, ex, cfg)
  }

  function MainInit(ex: Existing, uidOrder: seq<int>): MainState {
    MainState(StartCount(uidOrder), ex.others, {}, [])
  }

  function RunMain(order: seq<string>, mapping: map<string, string>, ex: Existing, cfg: Config, uidOrder: seq<int>)
    : Result<MainState, Error>
  {
    Fold(MainStepOf(mapping, ex, cfg), MainInit(ex, uidOrder), order)
  }

  // ----- the carry-forward loop -----

  /** `if len(terms) < index2: terms.append(NONE)`. */
  function Pad(terms: seq<string>, index2: nat): seq<string> {
    if |terms| < index2 then terms + [NoneName] else terms
  }

  /** The rows of the ids the main loop did not touch, in the order `uidOrder` visits the table. */
  function Carried(others: map<int, seq<string>>, seen: set<int>, uidOrder: seq<int>, index2: nat): (r: seq<OutRow>)
    ensures forall k :: 0 <= k < |r| ==>
      r[k].id in others && r[k].id !in seen && r[k].terms == Pad(others[r[k].id], index2) && r[k].id in uidOrder
    ensures forall i :: 0 <= i < |uidOrder| && uidOrder[i] in others && uidOrder[i] !in seen ==>
      OutRow(uidOrder[i], Pad(others[uidOrder[i]], index2)) in r
    decreases |uidOrder|
  {
    if |uidOrder| == 0 then []
    else
      var n := |uidOrder| - 1;
      var sid := uidOrder[n];
      var q := Carried(others, seen, uidOrder[..n], index2);
      assert forall i :: 0 <= i < n ==> uidOrder[..n][i] == uidOrder[i];
      if sid !in seen && sid in others then q + [OutRow(sid, Pad(others[sid], index2))] else q
  }

  /** `for sid in uid_other_map: if sid not in seen_ids: ...`. */
  method CarryForward(others: map<int, seq<string>>, seen: set<int>, uidOrder: seq<int>, index2: nat)
    returns (rows: seq<OutRow>)
    ensures rows == Carried(others, seen, uidOrder, index2)
  {
    rows := [];
    var i := 0;
    while i < |uidOrder|
      invariant i <= |uidOrder|
      invariant rows == Carried(others, seen, uidOrder[..i], index2)
    {
      assert uidOrder[..i + 1][..i] == uidOrder[..i];
      var sid := uidOrder[i];
      if sid !in seen && sid in others {
        var terms := others[sid];
        if |terms| < index2 {
          terms := terms + [NoneName];
        }
        rows := rows + [OutRow(sid, terms)];
      }
      i := i + 1;
    }
    assert uidOrder[..|uidOrder|] == uidOrder;
  }

  // ----- the whole run -----

  /** What the run writes: the title line, then one line per row. */
  datatype Output = Output(title: string, rows: seq<OutRow>)

  /**
   * `order` is how `for name in mapping` visits the source mapping,
   * `uidOrder` how `uid_other_map` lists its ids, whenever those load.
   */
  ghost predicate OrdersFit(sourceLines: seq<Line>, outputLines: seq<Line>, cfg: Config, order: seq<string>, uidOrder: seq<int>) {
    && (LoadSource(sourceLines, cfg).Success? ==> IsOrderOf(order, LoadSource(sourceLines, cfg).value.Keys))
    && (LoadExisting(outputLines, cfg).Success? ==> IsOrderOf(uidOrder, LoadExisting(outputLines, cfg).value.others.Keys))
  }

  /** The specification of a whole run. */
  function MappingTables(sourceLines: seq<Line>, outputLines: seq<Line>, cfg: Config, order: seq<string>, uidOrder: seq<int>)
    : Result<Output, Error>
  {
    match LoadSource(sourceLines, cfg)
    case Failure(e) => Failure(e)
    case Success(mapping) =>
      match LoadExisting(outputLines, cfg)
      case Failure(e) => Failure(e)
      case Success(ex) =>
        var title := TitleLine(PlaceTitles(OldTitleFields(ex.title), cfg));
        match RunMain(order, mapping, ex, cfg, uidOrder)
        case Failure(e) => Failure(e)
        case Success(st) => Success(Output(title, st.rows + Carried(st.others, st.seen, uidOrder, Index2(cfg))))
  }

  /** One pass of the main loop's body, for the name `name`. */
  method MergeName(st: MainState, name: string, j: nat, mapping: map<string, string>, ex: Existing, cfg: Config)
    returns (r: Result<MainState, Error>)
    ensures r == MainStep(st, name, j, mapping, ex, cfg)
  {
    if name !in mapping {
      return Success(st);
    }
    var maxCount := st.maxCount;
    var others := st.others;
    var terms: seq<string> := [];
    var counter;
    if name in ex.nameIds {
      counter := ex.nameIds[name];
      if counter in others {
        terms := others[counter];
      }
    } else {
      maxCount := maxCount + 1;
      counter := maxCount;
    }
    var mname := mapping[name];
    if |terms| == 0 {
      var width := NewWidth(others, ex.numFields, Index2(cfg));
      if Index1(cfg) - 1 >= width {
        return Failure(RowTooShort(name, Index1(cfg) - 1));
      }
      if Index2(cfg) - 1 >= width {
        return Failure(RowTooShort(name, Index2(cfg) - 1));
      }
      terms := Nones(width)[Index1(cfg) - 1 := name][Index2(cfg) - 1 := mname];
      assert NewTerms(name, mname, width, Index1(cfg), Index2(cfg)) == Success(terms);
    } else {
      ghost var prior := terms;
      if |terms| < Index2(cfg) {
        terms := terms + [mname];
      } else if terms[Index2(cfg) - 1] == NoneName {
        terms := terms[Index2(cfg) - 1 := name];
      }
      assert terms == FillRow(prior, name, mname, Index2(cfg));
      others := others[counter := terms];
    }
    r := Success(MainState(maxCount, others, st.seen + {counter}, st.rows + [OutRow(counter, terms)]));
  }

  /** The main loop, over the names of the source mapping. */
  method MergeNames(order: seq<string>, mapping: map<string, string>, ex: Existing, cfg: Config, uidOrder: seq<int>)
    returns (r: Result<MainState, Error>)
    ensures r == RunMain(order, mapping, ex, cfg, uidOrder)
  {
    var maxCount := MaxCount(uidOrder);
    var st := MainState(maxCount, ex.others, {}, []);
    var i := 0;
    while i < |order|
      invariant i <= |order|
      invariant RunMain(order[..i], mapping, ex, cfg, uidOrder) == Success(st)
    {
      FoldExtend(MainStepOf(mapping, ex, cfg), MainInit(ex, uidOrder), order, i);
      var next := MergeName(st, order[i], i, mapping, ex, cfg);
      if next.Failure? {
        FoldFailureSticks(MainStepOf(mapping, ex, cfg), MainInit(ex, uidOrder), order, i + 1);
        return next;
      }
      st := next.value;
      i := i + 1;
    }
    assert order[..|order|] == order;
    r := Success(st);
  }

  /**
   * `create_mapping_table`: `sourceLines` is the mapping file, `outputLines`
   * the existing table (empty when there is none).
   */
  method CreateMappingTable(sourceLines: seq<Line>, outputLines: seq<Line>, cfg: Config, order: seq<string>, uidOrder: seq<int>)
    returns (r: Result<Output, Error>)
    requires OrdersFit(sourceLines, outputLines, cfg, order, uidOrder)
    ensures r == MappingTables(sourceLines, outputLines, cfg, order, uidOrder)
  {
    var loaded := ReadSource(sourceLines, cfg);
    if loaded.Failure? {
      r := Failure(loaded.error);
      return;
    }
    var mapping := loaded.value;
    var existing := ReadExisting(outputLines, cfg);
    if existing.Failure? {
      r := Failure(existing.error);
      return;
    }
    var ex := existing.value;
    var title := BuildTitle(ex.title, cfg);
    var merged := MergeNames(order, mapping, ex, cfg, uidOrder);
    if merged.Failure? {
      r := Failure(merged.error);
      return;
    }
    var st := merged.value;
    var carried := CarryForward(st.others, st.seen, uidOrder, Index2(cfg));
    r := Success(Output(title, st.rows + carried));
  }

  // ----- what the loads leave behind -----

  /** Line `j` of the source mapping contributes a pair: not a comment, and neither side `NULL`. */
  ghost predicate IsPair(lines: seq<Line>, j: int, cfg: Config) {
    && 0 <= j < |lines| && !IsHashComment(lines[j])
    && Column(lines[j].fields, cfg.mapIndex1).Some? && Column(lines[j].fields, cfg.mapIndex2).Some?
    && Column(lines[j].fields, cfg.mapIndex1).value != NullName
    && Column(lines[j].fields, cfg.mapIndex2).value != NullName
  }

  /** Line `j` is the last pair naming `name`. */
  ghost predicate IsLastPair(lines: seq<Line>, j: int, name: string, cfg: Config) {
    && IsPair(lines, j, cfg) && Column(lines[j].fields, cfg.mapIndex1) == Some(name)
    && forall j' :: j < j' < |lines| && IsPair(lines, j', cfg) ==> Column(lines[j'].fields, cfg.mapIndex1) != Some(name)
  }

  lemma SourceLoadStep(lines: seq<Line>, cfg: Config)
    requires |lines| > 0
    ensures LoadSource(lines, cfg) ==
      match LoadSource(lines[..|lines| - 1], cfg)
      case Failure(e) => Failure(e)
      case Success(m) => SourceStep(m, lines[|lines| - 1], |lines| - 1, cfg)
  {
    FoldExtend(SourceStepOf(cfg), map[], lines, |lines| - 1);
    assert lines[..|lines|] == lines;
  }

  /**
   * After a successful load every non-comment line has both columns; the
   * mapping holds exactly the names of the pairs, and `NULL` is never a
   * name nor a mapped name.
   */
  lemma {:induction false} SourceNames(lines: seq<Line>, cfg: Config)
    requires LoadSource(lines, cfg).Success?
    ensures var m := LoadSource(lines, cfg).value;
      && (forall j :: 0 <= j < |lines| && !IsHashComment(lines[j]) ==>
            Column(lines[j].fields, cfg.mapIndex1).Some? && Column(lines[j].fields, cfg.mapIndex2).Some?)
      && (forall name :: name in m <==> exists j :: IsPair(lines, j, cfg) && Column(lines[j].fields, cfg.mapIndex1) == Some(name))
      && (forall name :: name in m ==> name != NullName && m[name] != NullName)
    decreases |lines|
  {
    if |lines| > 0 {
      var n := |lines| - 1;
      var p := lines[..n];
      SourceLoadStep(lines, cfg);
      SourceNames(p, cfg);
      assert forall j :: 0 <= j < n ==> p[j] == lines[j];
    }
  }

  /** A name paired again later is overwritten: the last pair naming it wins. */
  lemma {:induction false} SourceLastPairWins(lines: seq<Line>, cfg: Config)
    requires LoadSource(lines, cfg).Success?
    ensures var m := LoadSource(lines, cfg).value;
      forall j, name :: IsLastPair(lines, j, name, cfg) ==>
        name in m && m[name] == Column(lines[j].fields, cfg.mapIndex2).value
    decreases |lines|
  {
    if |lines| > 0 {
      var n := |lines| - 1;
      var p := lines[..n];
      SourceLoadStep(lines, cfg);
      SourceLastPairWins(p, cfg);
      assert forall j :: 0 <= j < n ==> p[j] == lines[j];
      var m := LoadSource(lines, cfg).value;
      forall j, name | IsLastPair(lines, j, name, cfg)
        ensures name in m && m[name] == Column(lines[j].fields, cfg.mapIndex2).value
      {
        if j < n {
          assert IsLastPair(p, j, name, cfg);
        }
      }
    }
  }

  /** Line `j` of the existing table is a row, not the title. */
  predicate IsRow(lines: seq<Line>, j: int) {
    0 <= j < |lines| && !IsHashComment(lines[j])
  }

  /** The id a row of the table starts with. */
  function RowId(line: Line): Option<int> {
    if |line.fields| == 0 then None else ParseInt(line.fields[0])
  }

  /** The name-column field of a row. */
  function NameField(line: Line, cfg: Config): Option<string> {
    Column(line.fields, Index1(cfg))
  }

  ghost predicate IsLastWithId(lines: seq<Line>, j: int, id: int) {
    && IsRow(lines, j) && RowId(lines[j]) == Some(id)
    && forall j' :: j < j' < |lines| && IsRow(lines, j') ==> RowId(lines[j']) != Some(id)
  }

  ghost predicate IsLastNaming(lines: seq<Line>, j: int, name: string, cfg: Config) {
    && IsRow(lines, j) && NameField(lines[j], cfg) == Some(name)
    && forall j' :: j < j' < |lines| && IsRow(lines, j') ==> NameField(lines[j'], cfg) != Some(name)
  }

  ghost predicate IsLastRow(lines: seq<Line>, j: int) {
    IsRow(lines, j) && forall j' :: j < j' < |lines| ==> !IsRow(lines, j')
  }

  ghost predicate IsLastTitle(lines: seq<Line>, j: int) {
    && 0 <= j < |lines| && IsHashComment(lines[j])
    && forall j' :: j < j' < |lines| ==> !IsHashComment(lines[j'])
  }

  lemma ExistingLoadStep(lines: seq<Line>, cfg: Config)
    requires |lines| > 0
    ensures LoadExisting(lines, cfg) ==
      match LoadExisting(lines[..|lines| - 1], cfg)
      case Failure(e) => Failure(e)
      case Success(ex) => ExistingStep(ex, lines[|lines| - 1], |lines| - 1, cfg)
  {
    FoldExtend(ExistingStepOf(cfg), NoTable(), lines, |lines| - 1);
    assert lines[..|lines|] == lines;
  }

  /**
   * Every row of a table that loads has an id and a name column; the row
   * map holds exactly the ids of the rows, each with the fields after the
   * id of the last row carrying it.
   */
  lemma {:induction false} ExistingRows(lines: seq<Line>, cfg: Config)
    requires LoadExisting(lines, cfg).Success?
    ensures var ex := LoadExisting(lines, cfg).value;
      && (forall j :: IsRow(lines, j) ==> RowId(lines[j]).Some? && NameField(lines[j], cfg).Some?)
      && (forall id :: id in ex.others <==> exists j :: IsRow(lines, j) && RowId(lines[j]) == Some(id))
      && (forall j, id :: IsLastWithId(lines, j, id) ==> ex.others[id] == lines[j].fields[1..])
    decreases |lines|
  {
    if |lines| > 0 {
      var n := |lines| - 1;
      var p := lines[..n];
      ExistingLoadStep(lines, cfg);
      ExistingRows(p, cfg);
      assert forall j :: 0 <= j < n ==> p[j] == lines[j];
      var ex := LoadExisting(lines, cfg).value;
      forall j, id | IsLastWithId(lines, j, id) ensures ex.others[id] == lines[j].fields[1..] {
        if j < n {
          assert IsLastWithId(p, j, id);
        }
      }
    }
  }

  /**
   * The name index holds exactly the names in the name column other than
   * `None`, each with the id of the last row naming it, and always points
   * at an id that has a row.
   */
  lemma {:induction false} ExistingNames(lines: seq<Line>, cfg: Config)
    requires LoadExisting(lines, cfg).Success?
    ensures var ex := LoadExisting(lines, cfg).value;
      && (forall name :: name in ex.nameIds <==>
            name != NoneName && exists j :: IsRow(lines, j) && NameField(lines[j], cfg) == Some(name))
      && (forall j, name :: IsLastNaming(lines, j, name, cfg) && name != NoneName ==>
            RowId(lines[j]).Some? && ex.nameIds[name] == RowId(lines[j]).value)
      && (forall name :: name in ex.nameIds ==> ex.nameIds[name] in ex.others)
    decreases |lines|
  {
    if |lines| > 0 {
      var n := |lines| - 1;
      var p := lines[..n];
      ExistingLoadStep(lines, cfg);
      ExistingNames(p, cfg);
      assert forall j :: 0 <= j < n ==> p[j] == lines[j];
      var ex := LoadExisting(lines, cfg).value;
      forall j, name | IsLastNaming(lines, j, name, cfg) && name != NoneName
        ensures RowId(lines[j]).Some? && ex.nameIds[name] == RowId(lines[j]).value
      {
        if j < n {
          assert IsLastNaming(p, j, name, cfg);
        }
      }
    }
  }

  /** `num_fields` is the width of the LAST row less one (0 when there is none). */
  lemma {:induction false} ExistingWidth(lines: seq<Line>, cfg: Config)
    requires LoadExisting(lines, cfg).Success?
    ensures var ex := LoadExisting(lines, cfg).value;
      && (forall j :: IsLastRow(lines, j) ==> ex.numFields == |lines[j].fields| - 1)
      && ((forall j :: !IsRow(lines, j)) ==> ex.numFields == 0)
    decreases |lines|
  {
    if |lines| > 0 {
      var n := |lines| - 1;
      var p := lines[..n];
      ExistingLoadStep(lines, cfg);
      ExistingWidth(p, cfg);
      var prior := LoadExisting(p, cfg).value;
      var ex := LoadExisting(lines, cfg).value;
      if IsRow(lines, n) {
        assert ExistingStep(prior, lines[n], n, cfg) == Success(ex);
        assert ex.numFields == |lines[n].fields| - 1;
        forall j | IsLastRow(lines, j) ensures j == n {
          assert !(j < n);
        }
      } else {
        assert ex.numFields == prior.numFields;
        forall j | IsLastRow(lines, j) ensures ex.numFields == |lines[j].fields| - 1 {
          assert p[j] == lines[j];
          forall j' | j < j' < n ensures !IsRow(p, j') {
            assert !IsRow(lines, j');
          }
          assert IsLastRow(p, j);
        }
        if forall j :: !IsRow(lines, j) {
          forall j | 0 <= j < n ensures !IsRow(p, j) {
            assert p[j] == lines[j] && !IsRow(lines, j);
          }
        }
      }
    }
  }

  /** The title is the last `#` line, and there is none when the table has no `#` line. */
  lemma {:induction false} ExistingTitle(lines: seq<Line>, cfg: Config)
    requires LoadExisting(lines, cfg).Success?
    ensures var ex := LoadExisting(lines, cfg).value;
      && (forall j :: IsLastTitle(lines, j) ==> ex.title == Some(lines[j].fields))
      && ((forall j :: 0 <= j < |lines| ==> !IsHashComment(lines[j])) ==> ex.title == None)
    decreases |lines|
  {
    if |lines| > 0 {
      var n := |lines| - 1;
      var p := lines[..n];
      ExistingLoadStep(lines, cfg);
      ExistingTitle(p, cfg);
      var prior := LoadExisting(p, cfg).value;
      var ex := LoadExisting(lines, cfg).value;
      if IsHashComment(lines[n]) {
        assert ex.title == Some(lines[n].fields);
        forall j | IsLastTitle(lines, j) ensures j == n {
          assert !(j < n);
        }
      } else {
        assert ex.title == prior.title;
        forall j | IsLastTitle(lines, j) ensures ex.title == Some(lines[j].fields) {
          assert p[j] == lines[j];
          forall j' | j < j' < n ensures !IsHashComment(p[j']) {
            assert p[j'] == lines[j'];
          }
          assert IsLastTitle(p, j);
        }
        if forall j :: 0 <= j < |lines| ==> !IsHashComment(lines[j]) {
          forall j | 0 <= j < n ensures !IsHashComment(p[j]) {
            assert p[j] == lines[j];
          }
        }
      }
    }
  }

  // ----- what the main loop writes -----

  /** A name the existing table does not know. */
  function UnknownIn(ex: Existing): string -> bool {
    (name: string) => name !in ex.nameIds
  }

  /** How many unknown names come before position `i`. */
  function FreshBefore(names: seq<string>, i: nat, ex: Existing): nat
    requires i <= |names|
  {
    |Positions(names[..i], UnknownIn(ex))|
  }

  /** The id the name at position `i` is written under: its old id, or the next after `start`. */
  function IdFor(names: seq<string>, i: nat, ex: Existing, start: int): int
    requires i < |names|
  {
    if names[i] in ex.nameIds then ex.nameIds[names[i]] else start + 1 + FreshBefore(names, i, ex)
  }

  /** The width of every new row of the run. */
  function Width(ex: Existing, cfg: Config): int {
    NewWidth(ex.others, ex.numFields, Index2(cfg))
  }

  /** The name at `i` is known, and no earlier name is known under the same id. */
  ghost predicate FirstWithId(names: seq<string>, i: nat, ex: Existing)
    requires i < |names|
  {
    && names[i] in ex.nameIds
    && forall j :: 0 <= j < i && names[j] in ex.nameIds ==> ex.nameIds[names[j]] != ex.nameIds[names[i]]
  }

  /** What a known name makes of its old row: a filled row, or a new one when the old row is empty. */
  function FirstTerms(name: string, mname: string, prior: seq<string>, ex: Existing, cfg: Config): Result<seq<string>, Error> {
    if |prior| == 0 then NewTerms(name, mname, Width(ex, cfg), Index1(cfg), Index2(cfg))
    else Success(FillRow(prior, name, mname, Index2(cfg)))
  }

  /** Every known name's id has a row (MappingTable.ExistingNames). */
  ghost predicate Consistent(ex: Existing) {
    forall name :: name in ex.nameIds ==> ex.nameIds[name] in ex.others
  }

  /** `start` is no smaller than any existing id (MappingTable.StartCountIsMax). */
  ghost predicate Bounded(ex: Existing, start: int) {
    forall c :: c in ex.others ==> c <= start
  }

  /** The bookkeeping after the names `names`. */
  ghost predicate MainShape(st: MainState, names: seq<string>, ex: Existing, start: int) {
    && |st.rows| == |names|
    && st.others.Keys == ex.others.Keys
    && st.maxCount == start + |Positions(names, UnknownIn(ex))|
    && st.seen == (set k | 0 <= k < |st.rows| :: st.rows[k].id)
    && (forall c :: c in ex.others && c !in st.seen ==> st.others[c] == ex.others[c])
  }

  /** The ids of the rows written. */
  ghost predicate MainIds(st: MainState, names: seq<string>, ex: Existing, start: int) {
    && |st.rows| == |names|
    && forall k :: 0 <= k < |names| ==> st.rows[k].id == IdFor(names, k, ex, start)
  }

  /** The fields of the rows written for unknown names. */
  ghost predicate MainNewTerms(st: MainState, names: seq<string>, mapping: map<string, string>, ex: Existing, cfg: Config) {
    && |st.rows| == |names|
    && forall k :: 0 <= k < |names| && names[k] in mapping && names[k] !in ex.nameIds ==>
         NewTerms(names[k], mapping[names[k]], Width(ex, cfg), Index1(cfg), Index2(cfg)) == Success(st.rows[k].terms)
  }

  /** The fields of the rows written for the first name of each known id. */
  ghost predicate MainKnownTerms(st: MainState, names: seq<string>, mapping: map<string, string>, ex: Existing, cfg: Config) {
    && |st.rows| == |names|
    && forall k :: 0 <= k < |names| && names[k] in mapping && FirstWithId(names, k, ex) && ex.nameIds[names[k]] in ex.others ==>
         FirstTerms(names[k], mapping[names[k]], ex.others[ex.nameIds[names[k]]], ex, cfg) == Success(st.rows[k].terms)
  }

  ghost predicate MainTerms(st: MainState, names: seq<string>, mapping: map<string, string>, ex: Existing, cfg: Config) {
    MainNewTerms(st, names, mapping, ex, cfg) && MainKnownTerms(st, names, mapping, ex, cfg)
  }

  /** What one iteration writes. */
  lemma MainStepWrites(s: MainState, name: string, j: nat, mapping: map<string, string>, ex: Existing, cfg: Config)
    requires name in mapping
    requires s.others.Keys == ex.others.Keys
    requires Consistent(ex)
    requires MainStep(s, name, j, mapping, ex, cfg).Success?
    ensures var st := MainStep(s, name, j, mapping, ex, cfg).value;
      var known := name in ex.nameIds;
      var counter := if known then ex.nameIds[name] else s.maxCount + 1;
      && st.maxCount == (if known then s.maxCount else s.maxCount + 1)
      && st.seen == s.seen + {counter}
      && |st.rows| == |s.rows| + 1 && st.rows[..|s.rows|] == s.rows && st.rows[|s.rows|].id == counter
      && st.others.Keys == ex.others.Keys
      && (forall c :: c in s.others && c != counter ==> st.others[c] == s.others[c])
      && (!known ==> NewTerms(name, mapping[name], Width(ex, cfg), Index1(cfg), Index2(cfg)) == Success(st.rows[|s.rows|].terms))
      && (known ==> FirstTerms(name, mapping[name], s.others[counter], ex, cfg) == Success(st.rows[|s.rows|].terms))
  {
    assert |s.others| == |s.others.Keys| == |ex.others.Keys| == |ex.others|;
    var st := MainStep(s, name, j, mapping, ex, cfg).value;
    assert st.rows[..|s.rows|] == s.rows;
  }


  /** Counting unknown names before a position does not look past the position. */
  lemma ShapeExtend(names: seq<string>, mapping: map<string, string>, ex: Existing, cfg: Config, start: int,
                    s: MainState, st: MainState)
    requires |names| > 0 && names[|names| - 1] in mapping
    requires Consistent(ex)
    requires MainShape(s, names[..|names| - 1], ex, start)
    requires MainStep(s, names[|names| - 1], |names| - 1, mapping, ex, cfg) == Success(st)
    ensures MainShape(st, names, ex, start)
  {
    var n := |names| - 1;
    var name := names[n];
    MainStepWrites(s, name, n, mapping, ex, cfg);
    var counter := if name in ex.nameIds then ex.nameIds[name] else s.maxCount + 1;
    assert names[..n] == names[..|names| - 1];
    assert Positions(names, UnknownIn(ex)) ==
      if UnknownIn(ex)(name) then Positions(names[..n], UnknownIn(ex)) + [n] else Positions(names[..n], UnknownIn(ex));
    WrittenExtend(s.rows, st.rows, counter);
  }

  /** Appending a row adds its id to the ids written. */
  lemma WrittenExtend(prior: seq<OutRow>, rows: seq<OutRow>, counter: int)
    requires |rows| == |prior| + 1 && rows[..|prior|] == prior && rows[|prior|].id == counter
    ensures (set k | 0 <= k < |rows| :: rows[k].id) == (set k | 0 <= k < |prior| :: prior[k].id) + {counter}
  {
    assert forall k :: 0 <= k < |prior| ==> rows[k] == prior[k];
    var written := set k | 0 <= k < |rows| :: rows[k].id;
    var before := set k | 0 <= k < |prior| :: prior[k].id;
    forall c | c in written ensures c in before + {counter} {
      var k :| 0 <= k < |rows| && rows[k].id == c;
      if k < |prior| {
        assert c == prior[k].id;
      }
    }
    forall c | c in before + {counter} ensures c in written {
      if c == counter {
        assert rows[|prior|].id == c;
      } else {
        var k :| 0 <= k < |prior| && prior[k].id == c;
        assert rows[k].id == c;
      }
    }
  }

  lemma IdsExtend(names: seq<string>, mapping: map<string, string>, ex: Existing, cfg: Config, start: int,
                  s: MainState, st: MainState)
    requires |names| > 0 && names[|names| - 1] in mapping
    requires s.maxCount == start + |Positions(names[..|names| - 1], UnknownIn(ex))|
    requires MainIds(s, names[..|names| - 1], ex, start)
    requires MainStep(s, names[|names| - 1], |names| - 1, mapping, ex, cfg) == Success(st)
    ensures MainIds(st, names, ex, start)
  {
    var n := |names| - 1;
    var p := names[..n];
    MainStepRows(s, names[n], n, mapping, ex, cfg);
    assert st.rows[n].id == IdFor(names, n, ex, start);
    forall k | 0 <= k < n ensures st.rows[k].id == IdFor(names, k, ex, start) {
      assert st.rows[k] == s.rows[..n][k] == s.rows[k];
      assert s.rows[k].id == IdFor(p, k, ex, start);
      IdForPrefix(names, k, ex, start);
    }
  }

  /** A row's id depends only on the names up to it. */
  lemma IdForPrefix(names: seq<string>, k: nat, ex: Existing, start: int)
    requires k < |names| - 1
    ensures IdFor(names[..|names| - 1], k, ex, start) == IdFor(names, k, ex, start)
  {
    var p := names[..|names| - 1];
    assert p[k] == names[k];
    assert names[..k] == p[..k];
  }

  /** An iteration over a mapped name appends one row, under the name's id or the next fresh one. */
  lemma MainStepRows(s: MainState, name: string, j: nat, mapping: map<string, string>, ex: Existing, cfg: Config)
    requires name in mapping
    requires MainStep(s, name, j, mapping, ex, cfg).Success?
    ensures var st := MainStep(s, name, j, mapping, ex, cfg).value;
      && |st.rows| == |s.rows| + 1 && st.rows[..|s.rows|] == s.rows
      && st.rows[|s.rows|].id == (if name in ex.nameIds then ex.nameIds[name] else s.maxCount + 1)
  {
    var st := MainStep(s, name, j, mapping, ex, cfg).value;
    assert st.rows[..|s.rows|] == s.rows;
  }

  /** The id of a first-named known id has not been written before. */
  lemma FirstIdUnseen(names: seq<string>, ex: Existing, start: int, s: MainState)
    requires |names| > 0 && FirstWithId(names, |names| - 1, ex)
    requires Consistent(ex) && Bounded(ex, start)
    requires MainShape(s, names[..|names| - 1], ex, start) && MainIds(s, names[..|names| - 1], ex, start)
    ensures ex.nameIds[names[|names| - 1]] !in s.seen
  {
    var n := |names| - 1;
    var p := names[..n];
    var id := ex.nameIds[names[n]];
    forall k | 0 <= k < n ensures s.rows[k].id != id {
      assert p[k] == names[k];
      if p[k] in ex.nameIds {
        assert s.rows[k].id == ex.nameIds[p[k]];
      } else {
        assert s.rows[k].id > start;
      }
    }
  }

  lemma NewTermsExtend(names: seq<string>, mapping: map<string, string>, ex: Existing, cfg: Config,
                       s: MainState, st: MainState)
    requires |names| > 0 && names[|names| - 1] in mapping
    requires Consistent(ex) && s.others.Keys == ex.others.Keys
    requires MainNewTerms(s, names[..|names| - 1], mapping, ex, cfg)
    requires MainStep(s, names[|names| - 1], |names| - 1, mapping, ex, cfg) == Success(st)
    ensures MainNewTerms(st, names, mapping, ex, cfg)
  {
    var n := |names| - 1;
    var p := names[..n];
    MainStepWrites(s, names[n], n, mapping, ex, cfg);
    forall k | 0 <= k < |names| && names[k] in mapping && names[k] !in ex.nameIds
      ensures NewTerms(names[k], mapping[names[k]], Width(ex, cfg), Index1(cfg), Index2(cfg)) == Success(st.rows[k].terms)
    {
      if k < n {
        assert p[k] == names[k] && st.rows[k] == s.rows[k];
      }
    }
  }

  lemma KnownTermsExtend(names: seq<string>, mapping: map<string, string>, ex: Existing, cfg: Config, start: int,
                         s: MainState, st: MainState)
    requires |names| > 0 && names[|names| - 1] in mapping
    requires Consistent(ex) && Bounded(ex, start)
    requires var p := names[..|names| - 1];
      MainShape(s, p, ex, start) && MainIds(s, p, ex, start) && MainKnownTerms(s, p, mapping, ex, cfg)
    requires MainStep(s, names[|names| - 1], |names| - 1, mapping, ex, cfg) == Success(st)
    ensures MainKnownTerms(st, names, mapping, ex, cfg)
  {
    var n := |names| - 1;
    var p := names[..n];
    MainStepWrites(s, names[n], n, mapping, ex, cfg);
    if FirstWithId(names, n, ex) {
      FirstIdUnseen(names, ex, start, s);
    }
    forall k | 0 <= k < |names| && names[k] in mapping && FirstWithId(names, k, ex) && ex.nameIds[names[k]] in ex.others
      ensures FirstTerms(names[k], mapping[names[k]], ex.others[ex.nameIds[names[k]]], ex, cfg) == Success(st.rows[k].terms)
    {
      if k < n {
        assert p[k] == names[k] && st.rows[k] == s.rows[k];
        assert forall j :: 0 <= j < k ==> p[j] == names[j];
        assert FirstWithId(p, k, ex);
      }
    }
  }

  /** The main loop, name by name: the bookkeeping, the ids and the fields it writes. */
  lemma {:induction false} RunMainState(names: seq<string>, mapping: map<string, string>, ex: Existing, cfg: Config, uidOrder: seq<int>)
    requires forall k :: 0 <= k < |names| ==> names[k] in mapping
    requires Consistent(ex) && Bounded(ex, StartCount(uidOrder))
    requires RunMain(names, mapping, ex, cfg, uidOrder).Success?
    ensures var st := RunMain(names, mapping, ex, cfg, uidOrder).value;
      && MainShape(st, names, ex, StartCount(uidOrder))
      && MainIds(st, names, ex, StartCount(uidOrder))
      && MainTerms(st, names, mapping, ex, cfg)
    decreases |names|
  {
    var start := StartCount(uidOrder);
    if |names| > 0 {
      var n := |names| - 1;
      var p := names[..n];
      FoldExtend(MainStepOf(mapping, ex, cfg), MainInit(ex, uidOrder), names, n);
      assert names[..n + 1] == names;
      assert forall k :: 0 <= k < n ==> p[k] == names[k];
      RunMainState(p, mapping, ex, cfg, uidOrder);
      var s := RunMain(p, mapping, ex, cfg, uidOrder).value;
      var st := RunMain(names, mapping, ex, cfg, uidOrder).value;
      ShapeExtend(names, mapping, ex, cfg, start, s, st);
      IdsExtend(names, mapping, ex, cfg, start, s, st);
      NewTermsExtend(names, mapping, ex, cfg, s, st);
      KnownTermsExtend(names, mapping, ex, cfg, start, s, st);
    }
  }

  // ----- the properties of the main loop -----

  /** The source mapping and the existing table load, and the orders are their dictionaries' orders. */
  ghost predicate Loaded(sourceLines: seq<Line>, outputLines: seq<Line>, cfg: Config, order: seq<string>, uidOrder: seq<int>,
                         mapping: map<string, string>, ex: Existing) {
    && LoadSource(sourceLines, cfg) == Success(mapping)
    && LoadExisting(outputLines, cfg) == Success(ex)
    && IsOrderOf(order, mapping.Keys) && IsOrderOf(uidOrder, ex.others.Keys)
  }

  /** What the loads guarantee the main loop. */
  lemma LoadedFacts(outputLines: seq<Line>, cfg: Config, uidOrder: seq<int>, ex: Existing)
    requires LoadExisting(outputLines, cfg) == Success(ex)
    requires IsOrderOf(uidOrder, ex.others.Keys)
    ensures Consistent(ex) && Bounded(ex, StartCount(uidOrder))
    ensures ex.others.Keys == {} ==> StartCount(uidOrder) == -1
  {
    ExistingNames(outputLines, cfg);
    StartCountIsMax(uidOrder, ex.others.Keys);
  }

  lemma MainFacts(sourceLines: seq<Line>, outputLines: seq<Line>, cfg: Config, order: seq<string>, uidOrder: seq<int>,
                  mapping: map<string, string>, ex: Existing)
    requires Loaded(sourceLines, outputLines, cfg, order, uidOrder, mapping, ex)
    requires RunMain(order, mapping, ex, cfg, uidOrder).Success?
    ensures Consistent(ex) && Bounded(ex, StartCount(uidOrder))
    ensures var st := RunMain(order, mapping, ex, cfg, uidOrder).value;
      && MainShape(st, order, ex, StartCount(uidOrder))
      && MainIds(st, order, ex, StartCount(uidOrder))
      && MainTerms(st, order, mapping, ex, cfg)
  {
    LoadedFacts(outputLines, cfg, uidOrder, ex);
    RunMainState(order, mapping, ex, cfg, uidOrder);
  }

  /**
   * One row per name of the source mapping, in the order the mapping is
   * visited; a name the table already knows keeps its id, which is the id
   * of an existing row.
   */
  lemma KnownNamesKeepTheirIds(sourceLines: seq<Line>, outputLines: seq<Line>, cfg: Config, order: seq<string>,
                               uidOrder: seq<int>, mapping: map<string, string>, ex: Existing)
    requires Loaded(sourceLines, outputLines, cfg, order, uidOrder, mapping, ex)
    requires RunMain(order, mapping, ex, cfg, uidOrder).Success?
    ensures var st := RunMain(order, mapping, ex, cfg, uidOrder).value;
      && |st.rows| == |order| == |mapping|
      && forall k :: 0 <= k < |order| && order[k] in ex.nameIds ==>
           st.rows[k].id == ex.nameIds[order[k]] && st.rows[k].id in ex.others
  {
    MainFacts(sourceLines, outputLines, cfg, order, uidOrder, mapping, ex);
    OrderCount(order, mapping.Keys);
  }

  /** A duplicate-free order of a key set is as long as the set is large. */
  lemma {:induction false} OrderCount<K(!new)>(order: seq<K>, keys: set<K>)
    requires IsOrderOf(order, keys)
    ensures |order| == |keys|
    decreases |order|
  {
    if |order| > 0 {
      var n := |order| - 1;
      var p := order[..n];
      assert forall i :: 0 <= i < n ==> p[i] == order[i];
      assert order[n] !in p;
      assert IsOrderOf(p, keys - {order[n]});
      OrderCount(p, keys - {order[n]});
    } else {
      assert forall k :: k !in keys;
    }
  }

  /**
   * New ids are handed out one after the other from one past the largest
   * existing id (from 0 for an empty table): the `q`-th unknown name gets
   * `max + 1 + q`, above every existing id.
   */
  lemma NewIdsFollowTheLargest(sourceLines: seq<Line>, outputLines: seq<Line>, cfg: Config, order: seq<string>,
                               uidOrder: seq<int>, mapping: map<string, string>, ex: Existing)
    requires Loaded(sourceLines, outputLines, cfg, order, uidOrder, mapping, ex)
    requires RunMain(order, mapping, ex, cfg, uidOrder).Success?
    ensures var st := RunMain(order, mapping, ex, cfg, uidOrder).value;
      var minted := Positions(order, UnknownIn(ex));
      && |st.rows| == |order|
      && (forall q :: 0 <= q < |minted| ==> st.rows[minted[q]].id == StartCount(uidOrder) + 1 + q)
      && (forall q, c :: 0 <= q < |minted| && c in ex.others ==> c < st.rows[minted[q]].id)
      && (ex.others == map[] ==> forall q :: 0 <= q < |minted| ==> st.rows[minted[q]].id == q)
  {
    var st := RunMain(order, mapping, ex, cfg, uidOrder).value;
    LoadedFacts(outputLines, cfg, uidOrder, ex);
    assert MainIds(st, order, ex, StartCount(uidOrder)) by {
      RunMainState(order, mapping, ex, cfg, uidOrder);
    }
    if ex.others == map[] {
      assert ex.others.Keys == {};
    }
    MintedIds(st, order, ex, StartCount(uidOrder));
  }

  lemma MintedIds(st: MainState, order: seq<string>, ex: Existing, start: int)
    requires MainIds(st, order, ex, start) && Bounded(ex, start)
    ensures var minted := Positions(order, UnknownIn(ex));
      && |st.rows| == |order|
      && (forall q :: 0 <= q < |minted| ==> st.rows[minted[q]].id == start + 1 + q)
      && (forall q, c :: 0 <= q < |minted| && c in ex.others ==> c < st.rows[minted[q]].id)
  {
    var minted := Positions(order, UnknownIn(ex));
    forall q | 0 <= q < |minted| ensures st.rows[minted[q]].id == start + 1 + q {
      PositionsBefore(order, UnknownIn(ex), q);
      assert minted[q] in minted;
      assert UnknownIn(ex)(order[minted[q]]);
      assert st.rows[minted[q]].id == IdFor(order, minted[q], ex, start);
    }
  }

  /**
   * The row of a name the table does not know: `None` everywhere but the
   * name's and the mapped name's columns, as wide as the existing rows
   * call for (two fields for an empty table).
   */
  lemma NewRowsShape(sourceLines: seq<Line>, outputLines: seq<Line>, cfg: Config, order: seq<string>,
                     uidOrder: seq<int>, mapping: map<string, string>, ex: Existing)
    requires Loaded(sourceLines, outputLines, cfg, order, uidOrder, mapping, ex)
    requires RunMain(order, mapping, ex, cfg, uidOrder).Success?
    ensures var st := RunMain(order, mapping, ex, cfg, uidOrder).value;
      && |st.rows| == |order|
      && forall k :: 0 <= k < |order| && order[k] !in ex.nameIds ==>
        var t := st.rows[k].terms;
        && |t| == Width(ex, cfg) && Index1(cfg) <= |t| && Index2(cfg) <= |t|
        && (ex.others == map[] ==> |t| == 2)
        && t[Index2(cfg) - 1] == mapping[order[k]]
        && (Index1(cfg) != Index2(cfg) ==> t[Index1(cfg) - 1] == order[k])
        && forall i :: 0 <= i < |t| && i != Index1(cfg) - 1 && i != Index2(cfg) - 1 ==> t[i] == NoneName
  {
    MainFacts(sourceLines, outputLines, cfg, order, uidOrder, mapping, ex);
  }

  /**
   * The row of the first name of a known id is that id's existing row,
   * filled: every field other than `None` stays, and only the mapped-name
   * column changes (or the row grows by the mapped name); an empty
   * existing row is replaced by a new one.
   */
  lemma KnownRowsFilled(sourceLines: seq<Line>, outputLines: seq<Line>, cfg: Config, order: seq<string>,
                        uidOrder: seq<int>, mapping: map<string, string>, ex: Existing)
    requires Loaded(sourceLines, outputLines, cfg, order, uidOrder, mapping, ex)
    requires RunMain(order, mapping, ex, cfg, uidOrder).Success?
    ensures Consistent(ex)
    ensures var st := RunMain(order, mapping, ex, cfg, uidOrder).value;
      && |st.rows| == |order|
      && forall k :: 0 <= k < |order| && FirstWithId(order, k, ex) && |ex.others[ex.nameIds[order[k]]]| > 0 ==>
        st.rows[k].terms == FillRow(ex.others[ex.nameIds[order[k]]], order[k], mapping[order[k]], Index2(cfg))
  {
    MainFacts(sourceLines, outputLines, cfg, order, uidOrder, mapping, ex);
  }

  /**
   * The name needs a new row: it is unknown, or the row of its id is
   * empty (an empty row is only ever rebound, never filled, so it stays
   * empty for the whole loop).
   */
  ghost predicate NeedsNewRow(ex: Existing, name: string) {
    name !in ex.nameIds || ex.nameIds[name] !in ex.others || |ex.others[ex.nameIds[name]]| == 0
  }

  /** The new-row width covers both the name's and the mapped name's column. */
  predicate Fits(ex: Existing, cfg: Config) {
    Index1(cfg) <= Width(ex, cfg) && Index2(cfg) <= Width(ex, cfg)
  }

  /** Rows are updated but never emptied or filled from empty, and no id is added or dropped. */
  ghost predicate EmptyRowsAgree(others: map<int, seq<string>>, ex: Existing) {
    && others.Keys == ex.others.Keys
    && forall c :: c in ex.others ==> (|others[c]| == 0 <==> |ex.others[c]| == 0)
  }

  /**
   * The main loop aborts exactly when some name needs a new row and the
   * new-row width is too short for the name's or the mapped name's
   * column; the error is then a new row too short for one of the two.
   */
  lemma {:induction false} MainFailure(names: seq<string>, mapping: map<string, string>, ex: Existing, cfg: Config, uidOrder: seq<int>)
    requires forall k :: 0 <= k < |names| ==> names[k] in mapping
    ensures var r := RunMain(names, mapping, ex, cfg, uidOrder);
      && (r.Failure? <==> (exists k :: 0 <= k < |names| && NeedsNewRow(ex, names[k])) && !Fits(ex, cfg))
      && (r.Failure? ==> && r.error.RowTooShort? && r.error.name in names
                         && (r.error.index == Index1(cfg) - 1 || r.error.index == Index2(cfg) - 1)
                         && Width(ex, cfg) <= r.error.index)
    decreases |names|
  {
    if |names| > 0 {
      var n := |names| - 1;
      var p := names[..n];
      FoldExtend(MainStepOf(mapping, ex, cfg), MainInit(ex, uidOrder), names, n);
      assert names[..n + 1] == names;
      assert forall k :: 0 <= k < n ==> p[k] == names[k];
      MainFailure(p, mapping, ex, cfg, uidOrder);
      NeedsExtend(names, ex);
      if RunMain(p, mapping, ex, cfg, uidOrder).Success? {
        var s := RunMain(p, mapping, ex, cfg, uidOrder).value;
        RunMainRowsKept(p, mapping, ex, cfg, uidOrder);
        MainStepFailsIff(s, names[n], n, mapping, ex, cfg);
      }
    }
  }

  /** Some name needs a new row exactly when an earlier one does or the last one does. */
  lemma NeedsExtend(names: seq<string>, ex: Existing)
    requires |names| > 0
    ensures var n := |names| - 1;
      (exists k :: 0 <= k < |names| && NeedsNewRow(ex, names[k])) <==>
      (exists k :: 0 <= k < n && NeedsNewRow(ex, names[..n][k])) || NeedsNewRow(ex, names[n])
  {
    var n := |names| - 1;
    var p := names[..n];
    if exists k :: 0 <= k < |names| && NeedsNewRow(ex, names[k]) {
      var k :| 0 <= k < |names| && NeedsNewRow(ex, names[k]);
      if k < n {
        assert NeedsNewRow(ex, p[k]);
      }
    }
    if exists k :: 0 <= k < n && NeedsNewRow(ex, p[k]) {
      var k :| 0 <= k < n && NeedsNewRow(ex, p[k]);
      assert NeedsNewRow(ex, names[k]);
    }
  }

  /** One iteration aborts exactly when the name needs a new row that does not fit. */
  lemma MainStepFailsIff(s: MainState, name: string, j: nat, mapping: map<string, string>, ex: Existing, cfg: Config)
    requires name in mapping
    requires EmptyRowsAgree(s.others, ex)
    ensures var r := MainStep(s, name, j, mapping, ex, cfg);
      && (r.Failure? <==> NeedsNewRow(ex, name) && !Fits(ex, cfg))
      && (r.Failure? ==> && r.error.RowTooShort? && r.error.name == name
                         && (r.error.index == Index1(cfg) - 1 || r.error.index == Index2(cfg) - 1)
                         && Width(ex, cfg) <= r.error.index)
  {
    assert |s.others| == |s.others.Keys| == |ex.others.Keys| == |ex.others|;
  }

  /** The main loop keeps every id's row and never fills an empty one. */
  lemma {:induction false} RunMainRowsKept(names: seq<string>, mapping: map<string, string>, ex: Existing, cfg: Config, uidOrder: seq<int>)
    requires RunMain(names, mapping, ex, cfg, uidOrder).Success?
    ensures EmptyRowsAgree(RunMain(names, mapping, ex, cfg, uidOrder).value.others, ex)
    decreases |names|
  {
    if |names| > 0 {
      var n := |names| - 1;
      var p := names[..n];
      FoldExtend(MainStepOf(mapping, ex, cfg), MainInit(ex, uidOrder), names, n);
      assert names[..n + 1] == names;
      RunMainRowsKept(p, mapping, ex, cfg, uidOrder);
    }
  }

  // ----- the properties of the carry-forward loop and of the whole run -----

  lemma {:induction false} CarriedDistinct(others: map<int, seq<string>>, seen: set<int>, uidOrder: seq<int>, index2: nat)
    requires forall i, j :: 0 <= i < j < |uidOrder| ==> uidOrder[i] != uidOrder[j]
    ensures forall k, k' :: 0 <= k < k' < |Carried(others, seen, uidOrder, index2)| ==>
      Carried(others, seen, uidOrder, index2)[k].id != Carried(others, seen, uidOrder, index2)[k'].id
    decreases |uidOrder|
  {
    if |uidOrder| > 0 {
      var n := |uidOrder| - 1;
      var q := uidOrder[..n];
      CarriedDistinct(others, seen, q, index2);
      var cq := Carried(others, seen, q, index2);
      forall k | 0 <= k < |cq| ensures cq[k].id != uidOrder[n] {
        var i :| 0 <= i < |q| && q[i] == cq[k].id;
        assert q[i] == uidOrder[i];
      }
      var c := uidOrder[n];
      var r := Carried(others, seen, uidOrder, index2);
      assert r == if c !in seen && c in others then cq + [OutRow(c, Pad(others[c], index2))] else cq;
      forall k, k' | 0 <= k < k' < |r| ensures r[k].id != r[k'].id {
        if k' == |cq| {
          assert r[k] == cq[k] && r[k'].id == c;
        } else {
          assert r[k] == cq[k] && r[k'] == cq[k'];
        }
      }
    }
  }

  /** A successful main loop makes a successful run, whose rows are the loop's rows then the carried ones. */
  lemma RunRows(sourceLines: seq<Line>, outputLines: seq<Line>, cfg: Config, order: seq<string>,
                uidOrder: seq<int>, mapping: map<string, string>, ex: Existing)
    requires Loaded(sourceLines, outputLines, cfg, order, uidOrder, mapping, ex)
    requires RunMain(order, mapping, ex, cfg, uidOrder).Success?
    ensures var st := RunMain(order, mapping, ex, cfg, uidOrder).value;
      MappingTables(sourceLines, outputLines, cfg, order, uidOrder) ==
        Success(Output(TitleLine(PlaceTitles(OldTitleFields(ex.title), cfg)),
                       st.rows + Carried(st.others, st.seen, uidOrder, Index2(cfg))))
  {
  }

  /**
   * The carried rows are the existing rows no name touched, each once,
   * padded with one `None` when shorter than the mapped-name column, and
   * none of them shares an id with a row the main loop wrote.
   */
  lemma CarriedRowsUntouched(sourceLines: seq<Line>, outputLines: seq<Line>, cfg: Config, order: seq<string>,
                             uidOrder: seq<int>, mapping: map<string, string>, ex: Existing)
    requires Loaded(sourceLines, outputLines, cfg, order, uidOrder, mapping, ex)
    requires RunMain(order, mapping, ex, cfg, uidOrder).Success?
    ensures var st := RunMain(order, mapping, ex, cfg, uidOrder).value;
      var carried := Carried(st.others, st.seen, uidOrder, Index2(cfg));
      && (forall k :: 0 <= k < |carried| ==>
            && carried[k].id in ex.others
            && carried[k].terms == Pad(ex.others[carried[k].id], Index2(cfg))
            && forall k' :: 0 <= k' < |st.rows| ==> st.rows[k'].id != carried[k].id)
      && (forall k, k' :: 0 <= k < k' < |carried| ==> carried[k].id != carried[k'].id)
  {
    MainFacts(sourceLines, outputLines, cfg, order, uidOrder, mapping, ex);
    var st := RunMain(order, mapping, ex, cfg, uidOrder).value;
    CarriedDistinct(st.others, st.seen, uidOrder, Index2(cfg));
    var carried := Carried(st.others, st.seen, uidOrder, Index2(cfg));
    forall k, k' | 0 <= k < |carried| && 0 <= k' < |st.rows| ensures st.rows[k'].id != carried[k].id {
      assert st.rows[k'].id in st.seen;
    }
  }

  /** Every id of the existing table is written again: under a name of the source mapping, or carried forward. */
  lemma EveryIdWritten(sourceLines: seq<Line>, outputLines: seq<Line>, cfg: Config, order: seq<string>,
                       uidOrder: seq<int>, mapping: map<string, string>, ex: Existing)
    requires Loaded(sourceLines, outputLines, cfg, order, uidOrder, mapping, ex)
    requires RunMain(order, mapping, ex, cfg, uidOrder).Success?
    ensures MappingTables(sourceLines, outputLines, cfg, order, uidOrder).Success?
    ensures var rows := MappingTables(sourceLines, outputLines, cfg, order, uidOrder).value.rows;
      forall c :: c in ex.others ==> exists k :: 0 <= k < |rows| && rows[k].id == c
  {
    var st := RunMain(order, mapping, ex, cfg, uidOrder).value;
    var carried := Carried(st.others, st.seen, uidOrder, Index2(cfg));
    var rows := st.rows + carried;
    assert MainShape(st, order, ex, StartCount(uidOrder)) by {
      MainFacts(sourceLines, outputLines, cfg, order, uidOrder, mapping, ex);
    }
    assert MappingTables(sourceLines, outputLines, cfg, order, uidOrder).Success?
        && MappingTables(sourceLines, outputLines, cfg, order, uidOrder).value.rows == rows by {
      RunRows(sourceLines, outputLines, cfg, order, uidOrder, mapping, ex);
    }
    forall c | c in ex.others ensures exists k :: 0 <= k < |rows| && rows[k].id == c {
      assert c in uidOrder && c in st.others;
      var k := WrittenOrCarried(st.rows, st.others, st.seen, uidOrder, Index2(cfg), c);
      assert rows[k].id == c;
    }
  }

  /** An id in the table and in the visiting order is either among the rows written or carried after them: row `k`. */
  lemma WrittenOrCarried(rows: seq<OutRow>, others: map<int, seq<string>>, seen: set<int>, uidOrder: seq<int>, index2: nat, c: int)
    returns (k: nat)
    requires seen == (set k | 0 <= k < |rows| :: rows[k].id)
    requires c in others && c in uidOrder
    ensures k < |rows + Carried(others, seen, uidOrder, index2)|
    ensures (rows + Carried(others, seen, uidOrder, index2))[k].id == c
  {
    var carried := Carried(others, seen, uidOrder, index2);
    var all := rows + carried;
    if c in seen {
      k :| 0 <= k < |rows| && rows[k].id == c;
      assert all[k] == rows[k];
    } else {
      var i :| 0 <= i < |uidOrder| && uidOrder[i] == c;
      var row := OutRow(c, Pad(others[c], index2));
      assert row in carried;
      var j :| 0 <= j < |carried| && carried[j] == row;
      k := |rows| + j;
      assert all[k] == row;
    }
  }

  /**
   * The first title always lands in title place 0 whatever the order of the
   * two output columns; the second in place 1, except when there was one
   * old title field and the name column does not come first, where the old
   * field is pushed between them. Later old title fields stay.
   */
  lemma TitlesAtFront(prior: seq<string>, cfg: Config)
    ensures var r := PlaceTitles(prior, cfg);
      var t1 := DefaultTitle(cfg.title1, Index1(cfg));
      var t2 := DefaultTitle(cfg.title2, Index2(cfg));
      if |prior| == 1 && cfg.outIndex2 <= cfg.outIndex1 then r == [t1, prior[0], t2]
      else
        && |r| == (if |prior| < 2 then 2 else |prior|)
        && r[0] == t1 && r[1] == t2
        && forall i :: 2 <= i < |prior| ==> r[i] == prior[i]
  {
    var t1 := DefaultTitle(cfg.title1, Index1(cfg));
    var t2 := DefaultTitle(cfg.title2, Index2(cfg));
    if |prior| == 0 {
      if cfg.outIndex1 < cfg.outIndex2 {
        assert Insert([], 0, t1) == [t1];
      } else {
        assert Insert([], 1, t2) == [t2];
        assert Insert([t2], 0, t1) == [t1, t2];
      }
    } else if |prior| == 1 && cfg.outIndex2 <= cfg.outIndex1 {
      assert Insert(prior, 1, t2) == [prior[0], t2];
      assert Insert([prior[0], t2], 0, t1) == [t1, prior[0], t2];
    }
  }

  /** With no titles given and no old title line, the titles are `Index1` and `Index2`. */
  lemma DefaultTitles()
    ensures PlaceTitles([], Config(0, 1, 0, 1, None, None)) == ["Index1", "Index2"]
  {
    assert Show(1) == "1" && Show(2) == "2";
    assert DefaultTitle(None, 1) == "Index1" && DefaultTitle(None, 2) == "Index2";
    assert Insert([], 0, "Index1") == ["Index1"];
    assert Insert(["Index1"], 1, "Index2") == ["Index1", "Index2"];
  }

  /** The source mapping of the example below. */
  lemma OnePairLoads()
    ensures LoadSource([Line('A', ["A", "X"])], Config(0, 1, 0, 1, None, None)) == Success(map["A" := "X"])
  {
    var source := [Line('A', ["A", "X"])];
    SourceLoadStep(source, Config(0, 1, 0, 1, None, None));
    assert source[..0] == [];
  }

  /** The id column `5` of the example below reads as 5. */
  lemma FiveReadsBack()
    ensures ParseInt("5") == Some(5)
  {
    assert Show(5) == "5";
    ParseShow(5);
  }

  /** The row of the example below, read as the first line. */
  lemma OneRowStep()
    ensures ExistingStep(NoTable(), Line('5', ["5", "A", NoneName]), 0, Config(0, 1, 0, 1, None, None)) ==
      Success(Existing(None, 2, map[5 := ["A", NoneName]], map["A" := 5]))
  {
    var f := ["5", "A", NoneName];
    FiveReadsBack();
    assert Column(f, 0) == Some("5") && Column(f, 1 + 1) == Some(NoneName) && Column(f, 1) == Some("A");
    assert f[1..] == ["A", NoneName];
  }

  /** The existing table of the example below. */
  lemma OneRowLoads()
    ensures LoadExisting([Line('5', ["5", "A", NoneName])], Config(0, 1, 0, 1, None, None)) ==
      Success(Existing(None, 2, map[5 := ["A", NoneName]], map["A" := 5]))
  {
    var table := [Line('5', ["5", "A", NoneName])];
    OneRowStep();
    ExistingLoadStep(table, Config(0, 1, 0, 1, None, None));
    assert table[..0] == [];
  }

  /** The main loop of the example below. */
  lemma OneNameFillsItsRow()
    ensures var ex := Existing(None, 2, map[5 := ["A", NoneName]], map["A" := 5]);
      RunMain(["A"], map["A" := "X"], ex, Config(0, 1, 0, 1, None, None), [5]) ==
        Success(MainState(5, map[5 := ["A", "A"]], {5}, [OutRow(5, ["A", "A"])]))
  {
    var cfg := Config(0, 1, 0, 1, None, None);
    var ex := Existing(None, 2, map[5 := ["A", NoneName]], map["A" := 5]);
    assert StartCount([5]) == 5;
    FoldExtend(MainStepOf(map["A" := "X"], ex, cfg), MainInit(ex, [5]), ["A"], 0);
    assert ["A"][..1] == ["A"] && ["A"][..0] == [];
    var st := MainState(5, map[5 := ["A", "A"]], {5}, [OutRow(5, ["A", "A"])]);
    assert MainInit(ex, [5]) == MainState(5, ex.others, {}, []);
    assert FillRow(["A", NoneName], "A", "X", 2) == ["A", "A"];
    assert ex.others[5 := ["A", "A"]] == map[5 := ["A", "A"]];
    assert {} + {5} == {5} && [] + [OutRow(5, ["A", "A"])] == [OutRow(5, ["A", "A"])];
    assert MainStep(MainInit(ex, [5]), "A", 0, map["A" := "X"], ex, cfg) == Success(st);
  }

  /**
   * An existing row `5, A, None` meets the pair `A -> X`: the empty slot of
   * the mapped-name column receives `A`, the name itself, not `X`.
   */
  lemma NoneSlotGetsTheName()
    ensures var cfg := Config(0, 1, 0, 1, None, None);
      MappingTables([Line('A', ["A", "X"])], [Line('5', ["5", "A", NoneName])], cfg, ["A"], [5]) ==
        Success(Output(TitleLine(["Index1", "Index2"]), [OutRow(5, ["A", "A"])]))
  {
    DefaultTitles();
    OnePairLoads();
    OneRowLoads();
    OneNameFillsItsRow();
    assert [5][..0] == [];
    assert Carried(map[5 := ["A", "A"]], {5}, [5], 2) == [];
    assert [OutRow(5, ["A", "A"])] + [] == [OutRow(5, ["A", "A"])];
    assert OldTitleFields(None) == [];
  }
}
