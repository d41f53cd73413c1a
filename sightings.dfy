/**
 * De-duplication by a `seen` set, stated without the set: the positions at
 * which a key turns up for the first time. Position `j` carries the key the
 * loop extracts from line `j`, or None when that line yields no key (a
 * comment, a skipped header, an empty key).
 */
module Sightings {
  import opened Wrappers

  /** The keys present among `ks`. */
  function Keys(ks: seq<Option<string>>): set<string> {
    set j | 0 <= j < |ks| && ks[j].Some? :: ks[j].value
  }

  /** Position `j` holds a key that no earlier position holds. */
  ghost predicate IsFirstSighting(ks: seq<Option<string>>, j: int) {
    0 <= j < |ks| && ks[j].Some? && ks[j].value !in Keys(ks[..j])
  }

  lemma KeysExtend(ks: seq<Option<string>>, n: nat)
    requires n < |ks|
    ensures Keys(ks[..n + 1]) == Keys(ks[..n]) + (if ks[n].Some? then {ks[n].value} else {})
  {
    var p, q := ks[..n], ks[..n + 1];
    forall x | x in Keys(q) ensures x in Keys(p) + (if ks[n].Some? then {ks[n].value} else {}) {
      var j :| 0 <= j < |q| && q[j].Some? && q[j].value == x;
      if j < n {
        assert p[j] == q[j];
      }
    }
    forall x | x in Keys(p) ensures x in Keys(q) {
      var j :| 0 <= j < |p| && p[j].Some? && p[j].value == x;
      assert q[j] == p[j];
    }
    if ks[n].Some? {
      assert q[n] == ks[n];
    }
  }

  /** The first-sighting positions, in increasing order. */
  function FirstSightings(ks: seq<Option<string>>): (r: seq<nat>)
    ensures forall k, k' :: 0 <= k < k' < |r| ==> r[k] < r[k']
    ensures forall k :: 0 <= k < |r| ==> r[k] < |ks|
    ensures forall j :: j in r <==> IsFirstSighting(ks, j)
    decreases |ks|
  {
    if |ks| == 0 then []
    else
      var n := |ks| - 1;
      var p := FirstSightings(ks[..n]);
      assert forall j :: 0 <= j < n ==> (IsFirstSighting(ks[..n], j) <==> IsFirstSighting(ks, j)) by {
        forall j | 0 <= j < n ensures ks[..n][..j] == ks[..j] && ks[..n][j] == ks[j] { }
      }
      if ks[n].Some? && ks[n].value !in Keys(ks[..n]) then p + [n] else p
  }

  /** Two sightings never carry the same key. */
  lemma SightedKeysDistinct(ks: seq<Option<string>>)
    ensures var r := FirstSightings(ks);
      && (forall k :: 0 <= k < |r| ==> ks[r[k]].Some?)
      && (forall k, k' :: 0 <= k < k' < |r| ==> ks[r[k]].value != ks[r[k']].value)
  {
    var r := FirstSightings(ks);
    forall k | 0 <= k < |r| ensures ks[r[k]].Some? {
      assert r[k] in r;
    }
    forall k, k' | 0 <= k < k' < |r| ensures ks[r[k]].value != ks[r[k']].value {
      assert r[k'] in r && r[k] in r;
      var pre := ks[..r[k']];
      assert pre[r[k]] == ks[r[k]];
      assert ks[r[k]].value in Keys(pre);
    }
  }

  /** Where a key that occurs turns up first. */
  lemma {:induction false} FirstOccurrence(ks: seq<Option<string>>, x: string) returns (j: nat)
    requires x in Keys(ks)
    ensures j < |ks| && ks[j] == Some(x) && x !in Keys(ks[..j])
    decreases |ks|
  {
    var n := |ks| - 1;
    KeysExtend(ks, n);
    assert ks[..n + 1] == ks;
    if x in Keys(ks[..n]) {
      j := FirstOccurrence(ks[..n], x);
      assert ks[..n][..j] == ks[..j];
    } else {
      j := n;
    }
  }

  /** The sighted keys are all the keys. */
  lemma SightedKeysCover(ks: seq<Option<string>>)
    ensures var r := FirstSightings(ks);
      && (forall k :: 0 <= k < |r| ==> ks[r[k]].Some?)
      && (set k | 0 <= k < |r| :: ks[r[k]].value) == Keys(ks)
  {
    var r := FirstSightings(ks);
    SightedKeysDistinct(ks);
    var sighted := set k | 0 <= k < |r| :: ks[r[k]].value;
    forall x | x in Keys(ks) ensures x in sighted {
      var j := FirstOccurrence(ks, x);
      assert IsFirstSighting(ks, j);
      var k :| 0 <= k < |r| && r[k] == j;
    }
    forall x | x in sighted ensures x in Keys(ks) {
      var k :| 0 <= k < |r| && ks[r[k]].value == x;
    }
  }

  /** There are as many sightings as distinct keys. */
  lemma {:induction false} SightingsCount(ks: seq<Option<string>>)
    ensures |FirstSightings(ks)| == |Keys(ks)|
    decreases |ks|
  {
    if |ks| == 0 {
      assert Keys(ks) == {};
    } else {
      var n := |ks| - 1;
      SightingsCount(ks[..n]);
      KeysExtend(ks, n);
      assert ks[..n + 1] == ks;
    }
  }

  /** The key at position `j`, or the empty string when there is none. */
  function KeyOf(ks: seq<Option<string>>, j: int): string {
    if 0 <= j < |ks| && ks[j].Some? then ks[j].value else ""
  }

  /** `ks` with the keys in `drop` blanked out. */
  function Mask(ks: seq<Option<string>>, drop: set<string>): (ms: seq<Option<string>>)
    ensures |ms| == |ks|
    ensures forall j :: 0 <= j < |ks| ==> ms[j] == if ks[j].Some? && ks[j].value in drop then None else ks[j]
  {
    seq(|ks|, j requires 0 <= j < |ks| => if ks[j].Some? && ks[j].value in drop then None else ks[j])
  }

  lemma MaskPrefix(ks: seq<Option<string>>, drop: set<string>, n: nat)
    requires n <= |ks|
    ensures Mask(ks, drop)[..n] == Mask(ks[..n], drop)
  {
  }

  /** Blanking out keys removes exactly those keys. */
  lemma MaskKeys(ks: seq<Option<string>>, drop: set<string>)
    ensures Keys(Mask(ks, drop)) == Keys(ks) - drop
  {
    var ms := Mask(ks, drop);
    forall x | x in Keys(ms) ensures x in Keys(ks) - drop {
      var j :| 0 <= j < |ms| && ms[j].Some? && ms[j].value == x;
    }
    forall x | x in Keys(ks) - drop ensures x in Keys(ms) {
      var j :| 0 <= j < |ks| && ks[j].Some? && ks[j].value == x;
      assert ms[j] == ks[j];
    }
  }

  /** A first sighting survives the blanking exactly when its key is not blanked out. */
  lemma MaskedFirstSighting(ks: seq<Option<string>>, drop: set<string>, j: nat)
    requires j < |ks|
    ensures IsFirstSighting(Mask(ks, drop), j) <==> IsFirstSighting(ks, j) && ks[j].value !in drop
  {
    MaskPrefix(ks, drop, j);
    MaskKeys(ks[..j], drop);
  }

  /** The sightings within a prefix are a prefix of the sightings, and the later ones lie beyond it. */
  lemma {:induction false} SightingsPrefix(ks: seq<Option<string>>, m: nat)
    requires m <= |ks|
    ensures |FirstSightings(ks[..m])| <= |FirstSightings(ks)|
    ensures FirstSightings(ks[..m]) == FirstSightings(ks)[..|FirstSightings(ks[..m])|]
    ensures forall k :: |FirstSightings(ks[..m])| <= k < |FirstSightings(ks)| ==> FirstSightings(ks)[k] >= m
    decreases |ks|
  {
    if m == |ks| {
      assert ks[..m] == ks;
    } else {
      var n := |ks| - 1;
      var p := ks[..n];
      SightingsPrefix(p, m);
      assert p[..m] == ks[..m];
      var rp := FirstSightings(p);
      var r := FirstSightings(ks);
      assert r == rp || r == rp + [n];
      var q := FirstSightings(ks[..m]);
      assert r[..|rp|] == rp;
      assert r[..|q|] == rp[..|q|];
    }
  }

  /** Exactly `i` keys are first sighted before the `i`-th first sighting. */
  lemma SightingsBefore(ks: seq<Option<string>>, i: nat)
    requires i < |FirstSightings(ks)|
    ensures |FirstSightings(ks[..FirstSightings(ks)[i]])| == i
  {
    var r := FirstSightings(ks);
    var m := r[i];
    SightingsPrefix(ks, m);
    var q := FirstSightings(ks[..m]);
    assert forall k :: 0 <= k < |q| ==> q[k] < m && r[k] == q[k];
    ghost var next := if |q| < |r| then r[|q|] else m;
    assert next >= m;
  }
}
