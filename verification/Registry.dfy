/** Registry rows, the ops that write them, and the merge of one op into one row. */
module Registry {
  import opened Wrappers
  import opened LexOrder
  import opened Hlc

  type Clock = string

  /** A JSON value; everything but null is opaque to the merge. */
  datatype Value = Null | Json(text: string)

  datatype Row = Row(
    kind: string,
    id: string,
    serverSeq: nat,
    deleted: bool,
    delHlc: Option<Clock>,
    fields: map<string, Value>,
    clocks: map<string, Clock>)

  datatype OpKind = Upsert | Update | Delete

  datatype RowOp = RowOp(
    kind: string,
    id: string,
    op: OpKind,
    writes: Option<map<string, Value>>,
    hlc: Clock,
    clocks: Option<map<string, Clock>>)
  {
    /** The writes of the op; an op without a set writes nothing. */
    function Set(): map<string, Value> {
      writes.GetOr(map[])
    }

    /** The clock of the write to `field`: its override, or the op's own. */
    function ClockFor(field: string): Clock {
      match clocks
      case Some(c) => if field in c then c[field] else hlc
      case None => hlc
    }
  }

  /** Does `a` beat `b`? Anything beats a missing clock. */
  predicate Newer(a: Clock, b: Option<Clock>) {
    b.None? || Less(b.value, a)
  }

  function Get<V>(m: map<string, V>, k: string): Option<V> {
    if k in m then Some(m[k]) else None
  }

  function Tombstone(kind: string, id: string, hlc: Clock): Row {
    Row(kind, id, 0, true, Some(hlc), map[], map[])
  }

  function FreshRow(kind: string, id: string): Row {
    Row(kind, id, 0, false, None, map[], map[])
  }

  /** The clocks of the row's fields, with the tombstone stamp if there is one. */
  function AllClocks(row: Row): set<Clock> {
    row.clocks.Values + (if row.delHlc.Some? then {row.delHlc.value} else {})
  }

  /** The greatest of the row's clocks; none exactly when the row has no clock at all. */
  function MaxClock(row: Row): (m: Option<Clock>)
    ensures m.None? <==> AllClocks(row) == {}
    ensures m.Some? ==> m.value in AllClocks(row) && forall c | c in AllClocks(row) :: c == m.value || Less(c, m.value)
  {
    if AllClocks(row) == {} then None else Some(Greatest(AllClocks(row)))
  }

  // ── one op into one row ─────────────────────────────────────────────────

  /** Does the op's write to `k` beat what the row has? */
  predicate Wins(base: Row, op: RowOp, k: string) {
    k in op.Set() && Newer(op.ClockFor(k), Get(base.clocks, k))
  }

  /** The fields among `todo` that the op writes. */
  function Winners(base: Row, op: RowOp, todo: set<string>): set<string> {
    set k | k in todo && Wins(base, op, k)
  }

  /** The fields with the writes in `won` laid over them; a null write removes the field. */
  function Overwrite(fields: map<string, Value>, writes: map<string, Value>, won: set<string>): map<string, Value>
    requires won <= writes.Keys
  {
    map k | k in fields.Keys + won && (k in won ==> writes[k] != Null) :: if k in won then writes[k] else fields[k]
  }

  function Restamp(clocks: map<string, Clock>, op: RowOp, won: set<string>): map<string, Clock> {
    map k | k in clocks.Keys + won :: if k in won then op.ClockFor(k) else clocks[k]
  }

  /** The row after the writes of `op` to the fields in `todo`, each under its own clock. */
  function Merged(base: Row, op: RowOp, todo: set<string>): Row {
    var won := Winners(base, op, todo);
    base.(fields := Overwrite(base.fields, op.Set(), won), clocks := Restamp(base.clocks, op, won))
  }

  datatype Applied = Applied(row: Option<Row>, changed: bool)

  function ApplyDelete(row: Option<Row>, op: RowOp): Applied {
    match row
    case None => Applied(Some(Tombstone(op.kind, op.id, op.hlc)), true)
    case Some(r) =>
      if Newer(op.hlc, if r.deleted then r.delHlc else MaxClock(r)) then
        Applied(Some(r.(deleted := true, delHlc := Some(op.hlc), fields := map[], clocks := map[])), true)
      else
        Applied(row, false)
  }

  /** Merges one op into a row: no row comes back only for an update of a missing one. */
  function ApplyOp(row: Option<Row>, op: RowOp): Applied {
    if op.op == Delete then ApplyDelete(row, op)
    else match row
      case None =>
        if op.op == Update then Applied(None, false)
        else Applied(Some(Merged(FreshRow(op.kind, op.id), op, op.Set().Keys)), true)
      case Some(r) =>
        if r.deleted then
          if op.op == Update || !Newer(op.hlc, r.delHlc) then Applied(row, false)
          else
            var revived := r.(deleted := false, fields := map[], clocks := map[]);
            Applied(Some(Merged(revived, op, op.Set().Keys)), true)
        else
          Applied(Some(Merged(r, op, op.Set().Keys)), Winners(r, op, op.Set().Keys) != {})
  }

  // ── the loops behind the functions ──────────────────────────────────────

  /** Scans the field clocks for one newer than the best so far. */
  method FindMaxClock(row: Row) returns (max: Option<Clock>)
    ensures max == MaxClock(row)
  {
    TotalOrder();
    max := row.delHlc;
    var remaining := row.clocks.Keys;
    ghost var seen := AllClocks(row.(clocks := map[]));
    while remaining != {}
      invariant remaining <= row.clocks.Keys
      invariant max.None? <==> seen == {}
      invariant max.Some? ==> max.value in seen && forall c | c in seen :: c == max.value || Less(c, max.value)
      invariant seen <= AllClocks(row)
      invariant row.delHlc.Some? ==> row.delHlc.value in seen
      invariant forall k | k in row.clocks && k !in remaining :: row.clocks[k] in seen
    {
      var k :| k in remaining;
      var clock := row.clocks[k];
      if max.None? || Less(max.value, clock) {
        max := Some(clock);
      }
      seen := seen + {clock};
      remaining := remaining - {k};
    }
    assert seen == AllClocks(row);
  }

  /** One turn of the field loop: the write to `k` lands on what the loop has so far. */
  lemma MergeStep(base: Row, op: RowOp, done: set<string>, k: string)
    requires k !in done && k in op.Set()
    ensures var mid := Merged(base, op, done);
            var value := op.Set()[k];
            Wins(mid, op, k) == Wins(base, op, k) &&
            Merged(base, op, done + {k}) ==
              if !Wins(base, op, k) then mid
              else mid.(fields := if value == Null then mid.fields - {k} else mid.fields[k := value],
                        clocks := mid.clocks[k := op.ClockFor(k)])
  {
    var before, after := Winners(base, op, done), Winners(base, op, done + {k});
    if Wins(base, op, k) {
      assert after == before + {k};
      OverwriteStep(base.fields, op.Set(), before, k);
      assert Restamp(base.clocks, op, after) == Restamp(base.clocks, op, before)[k := op.ClockFor(k)];
    } else {
      assert after == before;
    }
  }

  lemma OverwriteStep(fields: map<string, Value>, writes: map<string, Value>, won: set<string>, k: string)
    requires won <= writes.Keys && k in writes && k !in won
    ensures var mid := Overwrite(fields, writes, won);
            Overwrite(fields, writes, won + {k}) == if writes[k] == Null then mid - {k} else mid[k := writes[k]]
  {
  }

  /** The merge as the code runs it: a write at a time, in any order of the fields. */
  method ApplyWrites(base0: Row, op: RowOp, changed0: bool) returns (base: Row, changed: bool)
    ensures base == Merged(base0, op, op.Set().Keys)
    ensures changed == (changed0 || Winners(base0, op, op.Set().Keys) != {})
  {
    base, changed := base0, changed0;
    var writes := op.Set();
    var remaining := writes.Keys;
    ghost var done: set<string> := {};
    assert Winners(base0, op, done) == {};
    assert Merged(base0, op, done) == base0;
    while remaining != {}
      invariant done + remaining == writes.Keys && done !! remaining
      invariant base == Merged(base0, op, done)
      invariant changed == (changed0 || Winners(base0, op, done) != {})
    {
      var key :| key in remaining;
      MergeStep(base0, op, done, key);
      assert Winners(base0, op, done + {key}) ==
             Winners(base0, op, done) + (if Wins(base0, op, key) then {key} else {});
      var clock := op.ClockFor(key);
      if Newer(clock, Get(base.clocks, key)) {
        if writes[key] == Null {
          base := base.(fields := base.fields - {key});
        } else {
          base := base.(fields := base.fields[key := writes[key]]);
        }
        base := base.(clocks := base.clocks[key := clock]);
        changed := true;
      }
      done := done + {key};
      remaining := remaining - {key};
    }
    assert done == writes.Keys;
  }

  method ApplyOpInPlace(row: Option<Row>, op: RowOp) returns (result: Option<Row>, changed: bool)
    ensures Applied(result, changed) == ApplyOp(row, op)
  {
    if op.op == Delete {
      if row.None? {
        return Some(Tombstone(op.kind, op.id, op.hlc)), true;
      }
      var against := row.value.delHlc;
      if !row.value.deleted {
        against := FindMaxClock(row.value);
      }
      if !Newer(op.hlc, against) {
        return row, false;
      }
      return Some(row.value.(deleted := true, delHlc := Some(op.hlc), fields := map[], clocks := map[])), true;
    }
    var base: Row;
    if row.None? {
      if op.op == Update {
        return None, false;
      }
      base := FreshRow(op.kind, op.id);
    } else if row.value.deleted {
      if op.op == Update || !Newer(op.hlc, row.value.delHlc) {
        return row, false;
      }
      base := row.value.(deleted := false, fields := map[], clocks := map[]);
    } else {
      base := row.value;
    }
    base, changed := ApplyWrites(base, op, row.None? || row.value.deleted);
    result := Some(base);
  }

  // ── re-seeding ──────────────────────────────────────────────────────────

  /** The clock of a re-seed op for a row that has none: zero time, device "seed". */
  const SEED_CLOCK: Clock := EncodeHlc(0, 0, "seed")

  /** A row as one op: a delete for tombstones, else an upsert under the row's own field clocks. */
  function RowToSeedOp(row: Row): RowOp {
    if row.deleted then RowOp(row.kind, row.id, Delete, None, row.delHlc.GetOr(SEED_CLOCK), None)
    else RowOp(row.kind, row.id, Upsert, Some(row.fields), MaxClock(row).GetOr(SEED_CLOCK), Some(row.clocks))
  }

  // ── folding ops ─────────────────────────────────────────────────────────

  /** One op on a row as a reader or the server folds it: no row replaces nothing. */
  function Step(row: Option<Row>, op: RowOp): Option<Row> {
    ApplyOp(row, op).row
  }

  function Fold(row: Option<Row>, ops: seq<RowOp>): Option<Row> {
    if ops == [] then row else Step(Fold(row, ops[..|ops| - 1]), ops[|ops| - 1])
  }

  lemma {:induction false} FoldConcat(row: Option<Row>, a: seq<RowOp>, b: seq<RowOp>)
    ensures Fold(row, a + b) == Fold(Fold(row, a), b)
    decreases |b|
  {
    if b == [] {
      assert a + b == a;
    } else {
      assert (a + b)[..|a + b| - 1] == a + b[..|b| - 1];
      FoldConcat(row, a, b[..|b| - 1]);
    }
  }
}
