/**
 * Input lines, field access with Python's indexing rules, the column
 * bookkeeping shared by the table builders, the errors a run can abort
 * with, and the left fold that every line-by-line loop is specified by.
 */
module Lines {
  import opened Wrappers

  /**
   * One line of a delimited text file: its first character, which is all
   * the comment test looks at, and its fields as the splitting helper
   * returns them.
   */
  datatype Line = Line(lead: char, fields: seq<string>)

  /** Lines starting with `#`, `!` or a newline are comments in the mode and crossnet inputs. */
  predicate IsComment(l: Line) {
    l.lead == '#' || l.lead == '!' || l.lead == '\n'
  }

  /** Line `j` is the first line that is not a comment: the one the schema line is built from. */
  ghost predicate IsFirstRecord(lines: seq<Line>, j: int) {
    0 <= j < |lines| && !IsComment(lines[j]) && forall i :: 0 <= i < j ==> IsComment(lines[i])
  }

  /** The name-mapping files only know `#` comments. */
  predicate IsHashComment(l: Line) {
    l.lead == '#'
  }

  /** Which file a field or parse error was raised on. */
  datatype FileRole = InputFile | FullModeFile | MappingFile | OutputFile

  /** The two ends of a crossnet edge. */
  datatype Endpoint = Source | Destination

  /** Why a run aborts; each is an uncaught Python exception in the scripts. */
  datatype Error =
    | MissingField(file: FileRole, line: nat, index: int)  // IndexError on a split line
    | NotAnInteger(file: FileRole, line: nat)              // ValueError from int()
    | UnresolvedKey(line: nat, endpoint: Endpoint, key: string)  // KeyError on a mode mapping
    | RowTooShort(name: string, index: int)                 // IndexError filling a new mapping row

  /**
   * Python's `vals[i]`: a negative index counts from the end, anything
   * else out of range raises (None here).
   */
  function Column(fields: seq<string>, i: int): Option<string> {
    if 0 <= i < |fields| then Some(fields[i])
    else if -|fields| <= i < 0 then Some(fields[|fields| + i])
    else None
  }

  /**
   * The column numbers `0 .. n-1` other than those in `skip`, in increasing
   * order: the `C<i>` entries of a schema line.
   */
  function ColumnsExcept(n: nat, skip: set<int>): (r: seq<nat>)
    ensures forall c :: c in r <==> 0 <= c < n && c !in skip
    ensures forall k, k' :: 0 <= k < k' < |r| ==> r[k] < r[k']
    ensures forall k :: 0 <= k < |r| ==> r[k] < n
  {
    if n == 0 then []
    else
      var p := ColumnsExcept(n - 1, skip);
      if n - 1 in skip then p else p + [n - 1]
  }

  /**
   * The fields outside the columns in `skip`, in their original order:
   * they are exactly the fields under the schema's columns.
   */
  function Except(fields: seq<string>, skip: set<int>): (r: seq<string>)
    ensures |r| == |ColumnsExcept(|fields|, skip)|
    ensures forall k :: 0 <= k < |r| ==> r[k] == fields[ColumnsExcept(|fields|, skip)[k]]
  {
    if |fields| == 0 then []
    else
      var p := Except(fields[..|fields| - 1], skip);
      if |fields| - 1 in skip then p else p + [fields[|fields| - 1]]
  }

  /** The schema loop: `for i in range(len(vals)): if i not excluded: schema += C<i>`. */
  method SchemaColumns(n: nat, skip: set<int>) returns (cols: seq<nat>)
    ensures cols == ColumnsExcept(n, skip)
  {
    cols := [];
    var i := 0;
    while i < n
      invariant i <= n
      invariant cols == ColumnsExcept(i, skip)
    {
      if i !in skip {
        cols := cols + [i];
      }
      i := i + 1;
    }
  }

  /** The attribute loop: `for i in range(len(vals)): if i not excluded: attrs += delimiter + vals[i]`. */
  method Attributes(fields: seq<string>, skip: set<int>) returns (attrs: seq<string>)
    ensures attrs == Except(fields, skip)
  {
    attrs := [];
    var i := 0;
    while i < |fields|
      invariant i <= |fields|
      invariant attrs == Except(fields[..i], skip)
    {
      assert fields[..i + 1][..i] == fields[..i];
      if i !in skip {
        attrs := attrs + [fields[i]];
      }
      i := i + 1;
    }
    assert fields[..|fields|] == fields;
  }

  /**
   * The specification of a loop over `xs`: `step` takes the state before
   * element `j` to the state after it, or aborts the run.
   */
  function Fold<S, T>(step: (S, T, nat) -> Result<S, Error>, init: S, xs: seq<T>): Result<S, Error>
    decreases |xs|
  {
    if |xs| == 0 then Success(init)
    else
      match Fold(step, init, xs[..|xs| - 1])
      case Failure(e) => Failure(e)
      case Success(s) => step(s, xs[|xs| - 1], |xs| - 1)
  }

  /** One more iteration of the loop. */
  lemma FoldExtend<S, T>(step: (S, T, nat) -> Result<S, Error>, init: S, xs: seq<T>, n: nat)
    requires n < |xs|
    ensures Fold(step, init, xs[..n + 1]) ==
      match Fold(step, init, xs[..n])
      case Failure(e) => Failure(e)
      case Success(s) => step(s, xs[n], n)
  {
    assert xs[..n + 1][..n] == xs[..n];
  }

  /** An abort ends the run: nothing after it changes the outcome. */
  lemma {:induction false} FoldFailureSticks<S, T>(step: (S, T, nat) -> Result<S, Error>, init: S, xs: seq<T>, n: nat)
    requires n <= |xs|
    requires Fold(step, init, xs[..n]).Failure?
    ensures Fold(step, init, xs) == Fold(step, init, xs[..n])
    decreases |xs|
  {
    if n == |xs| {
      assert xs[..n] == xs;
    } else {
      var p := xs[..|xs| - 1];
      assert p[..n] == xs[..n];
      FoldFailureSticks(step, init, p, n);
    }
  }

  /**
   * `order` visits every key of a dictionary exactly once: what Python 2
   * guarantees of `for k in d`, and nothing about the order.
   */
  ghost predicate IsOrderOf<K(!new)>(order: seq<K>, keys: set<K>) {
    && (forall i, j :: 0 <= i < j < |order| ==> order[i] != order[j])
    && (forall k :: k in keys <==> k in order)
  }

  /** The positions of `xs` whose element satisfies `p`, in increasing order. */
  function Positions<T>(xs: seq<T>, p: T -> bool): (r: seq<nat>)
    ensures forall k, k' :: 0 <= k < k' < |r| ==> r[k] < r[k']
    ensures forall k :: 0 <= k < |r| ==> r[k] < |xs|
    ensures forall j :: j in r <==> 0 <= j < |xs| && p(xs[j])
    decreases |xs|
  {
    if |xs| == 0 then []
    else
      var n := |xs| - 1;
      var q := Positions(xs[..n], p);
      assert forall j :: 0 <= j < n ==> xs[..n][j] == xs[j];
      if p(xs[n]) then q + [n] else q
  }

  /** The positions within a prefix are a prefix of the positions, and the later ones lie beyond it. */
  lemma {:induction false} PositionsPrefix<T>(xs: seq<T>, p: T -> bool, m: nat)
    requires m <= |xs|
    ensures |Positions(xs[..m], p)| <= |Positions(xs, p)|
    ensures Positions(xs[..m], p) == Positions(xs, p)[..|Positions(xs[..m], p)|]
    ensures forall k :: |Positions(xs[..m], p)| <= k < |Positions(xs, p)| ==> Positions(xs, p)[k] >= m
    decreases |xs|
  {
    if m == |xs| {
      assert xs[..m] == xs;
    } else {
      var n := |xs| - 1;
      var pre := xs[..n];
      PositionsPrefix(pre, p, m);
      assert pre[..m] == xs[..m];
      var rp := Positions(pre, p);
      var r := Positions(xs, p);
      var q := Positions(xs[..m], p);
      if p(xs[n]) {
        assert r == rp + [n];
        assert r[..|q|] == rp[..|q|];
      } else {
        assert r == rp;
      }
    }
  }

  /** Exactly `i` positions come before the `i`-th one. */
  lemma PositionsBefore<T>(xs: seq<T>, p: T -> bool, i: nat)
    requires i < |Positions(xs, p)|
    ensures |Positions(xs[..Positions(xs, p)[i]], p)| == i
  {
    var r := Positions(xs, p);
    var m := r[i];
    PositionsPrefix(xs, p, m);
    var q := Positions(xs[..m], p);
    assert forall k :: 0 <= k < |q| ==> q[k] < m && r[k] == q[k];
    ghost var next := if |q| < |r| then r[|q|] else m;
    assert next >= m;
  }
}
