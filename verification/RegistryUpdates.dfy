/** Updates and deletes of a live row: when its existence does not depend on delivery order. */
module RegistryUpdates {
  import opened Wrappers
  import opened LexOrder
  import opened Registry
  import opened RegistryMerge
  import opened RegistryConvergence
  import opened RegistryRedelivery

  predicate NoUpserts(ops: seq<RowOp>) {
    forall op | op in ops :: op.op != Upsert
  }

  predicate WritesBelow(op: RowOp, c: Clock) {
    op.op != Delete ==> forall k | k in op.Set() :: Less(op.ClockFor(k), c)
  }

  /** A stamp newer than everything on the row and every write the updates make. */
  predicate TopsAll(row: Row, ops: seq<RowOp>, c: Clock) {
    Newer(c, MaxClock(row)) && forall op | op in ops :: WritesBelow(op, c)
  }

  /** A delete newer than everything the row starts with. */
  predicate CouldKill(row: Row, op: RowOp) {
    op.op == Delete && Newer(op.hlc, MaxClock(row))
  }

  // ── one order ───────────────────────────────────────────────────────────

  lemma {:induction false} DeadStaysDead(row: Row, ops: seq<RowOp>)
    requires row.deleted && NoUpserts(ops)
    ensures var r := Fold(Some(row), ops); r.Some? && r.value.deleted
  {
    if ops != [] {
      assert ops[|ops| - 1] in ops && forall op | op in ops[..|ops| - 1] :: op in ops;
      DeadStaysDead(row, ops[..|ops| - 1]);
    }
  }

  lemma UpdateStaysBelow(row: Row, op: RowOp, c: Clock)
    requires WellFormed(row) && !row.deleted && op.op == Update && Newer(c, MaxClock(row)) && WritesBelow(op, c)
    ensures var r := Step(Some(row), op); Live(r) && Newer(c, MaxClock(r.value))
  {
    TotalOrder();
    var r := Merged(row, op, op.Set().Keys);
    assert Step(Some(row), op) == Some(r);
    forall e | e in AllClocks(r) ensures Less(e, c) {
      if e in r.clocks.Values {
        var k :| k in r.clocks && r.clocks[k] == e;
        MergedField(row, op, k);
        assert k in row.clocks ==> row.clocks[k] in AllClocks(row);
      }
    }
  }

  /** As long as the row lives, a stamp that tops everything still does. */
  lemma {:induction false} LiveStaysBelow(row: Row, ops: seq<RowOp>, c: Clock)
    requires WellFormed(row) && !row.deleted && NoUpserts(ops) && TopsAll(row, ops, c)
    ensures var r := Fold(Some(row), ops);
            r.Some? && WellFormed(r.value) && (Live(r) ==> Newer(c, MaxClock(r.value)))
  {
    if ops != [] {
      var front, last := ops[..|ops| - 1], ops[|ops| - 1];
      assert last in ops && forall op | op in front :: op in ops;
      LiveStaysBelow(row, front, c);
      var mid := Fold(Some(row), front);
      StepWellFormed(mid, last);
      if last.op == Update && Live(mid) {
        UpdateStaysBelow(mid.value, last, c);
      }
    }
  }

  /** A delete that tops everything kills the row wherever it comes. */
  lemma {:induction false} TopDeleteKills(row: Row, ops: seq<RowOp>, d: RowOp)
    requires WellFormed(row) && !row.deleted && NoUpserts(ops)
    requires d in ops && d.op == Delete && TopsAll(row, ops, d.hlc)
    ensures !Live(Fold(Some(row), ops))
  {
    var front, last := ops[..|ops| - 1], ops[|ops| - 1];
    assert last in ops && forall op | op in front :: op in ops;
    LiveStaysBelow(row, front, d.hlc);
    if d in front {
      TopDeleteKills(row, front, d);
    } else {
      assert ops == front + [last];
      assert last == d;
    }
  }

  /** With no delete newer than what the row starts with it lives in any order. */
  lemma NoneCouldKill(row: Row, ops: seq<RowOp>)
    requires WellFormed(row) && !row.deleted
    requires forall op | op in ops :: !CouldKill(row, op)
    ensures Live(Fold(Some(row), ops))
  {
    TotalOrder();
    forall j | 0 <= j < |ops| && ops[j].op == Delete ensures NotOlder(MaxClock(row), Some(ops[j].hlc)) {
      assert ops[j] in ops;
    }
    StaysLive(row, ops, "");
  }

  // ── the two orders that tell ────────────────────────────────────────────

  lemma DeleteFirstKills(row: Row, ops: seq<RowOp>, i: nat)
    requires WellFormed(row) && !row.deleted && NoUpserts(ops) && i < |ops| && CouldKill(row, ops[i])
    ensures Permutation(ToFront(ops, i), ops) && !Live(Fold(Some(row), ToFront(ops, i)))
  {
    var op, rest := ops[i], ops[..i] + ops[i + 1..];
    ToFrontPermutes(ops, i);
    FoldConcat(Some(row), [op], rest);
    assert [op][..0] == [];
    var dead := Step(Some(row), op);
    assert Fold(Some(row), [op]) == dead;
    assert forall o | o in rest :: o in ops;
    DeadStaysDead(dead.value, rest);
  }

  function UpdatesOf(ops: seq<RowOp>): seq<RowOp> {
    if ops == [] then []
    else UpdatesOf(ops[..|ops| - 1]) + if ops[|ops| - 1].op == Delete then [] else [ops[|ops| - 1]]
  }

  function DeletesOf(ops: seq<RowOp>): seq<RowOp> {
    if ops == [] then []
    else DeletesOf(ops[..|ops| - 1]) + if ops[|ops| - 1].op == Delete then [ops[|ops| - 1]] else []
  }

  lemma {:induction false} UpdatesThenDeletes(ops: seq<RowOp>)
    ensures Permutation(UpdatesOf(ops) + DeletesOf(ops), ops)
    ensures forall op :: op in UpdatesOf(ops) <==> op in ops && op.op != Delete
    ensures forall op :: op in DeletesOf(ops) <==> op in ops && op.op == Delete
  {
    if ops != [] {
      UpdatesThenDeletes(ops[..|ops| - 1]);
      assert ops == ops[..|ops| - 1] + [ops[|ops| - 1]];
    }
  }

  /** After the updates the row's newest clock is no older than any write they made. */
  lemma UpdatesRaise(row: Row, us: seq<RowOp>, op: RowOp, k: string)
    requires WellFormed(row) && !row.deleted && us != [] && forall u | u in us :: u.op == Update
    requires op in us && k in op.Set()
    ensures var r := Fold(Some(row), us);
            r.Some? && NotOlder(MaxClock(r.value), Some(op.ClockFor(k)))
  {
    FieldIsGreatestWrite(Some(row), us, k);
    var r := Fold(Some(row), us).value;
    assert k in r.clocks && r.clocks[k] in AllClocks(r);
    NotOlderTransitive(MaxClock(r), Get(r.clocks, k), Some(op.ClockFor(k)));
  }

  lemma UpdatesKeepLive(row: Row, us: seq<RowOp>)
    requires WellFormed(row) && !row.deleted && forall u | u in us :: u.op == Update
    ensures var r := Fold(Some(row), us);
            Live(r) && WellFormed(r.value) && NotOlder(MaxClock(r.value), MaxClock(row))
  {
    FoldMonotone(row, us);
    StaysLive(row, us, "");
  }

  /** If no delete tops everything, the updates first let the row outlive all deletes. */
  lemma UpdatesFirstSave(row: Row, ops: seq<RowOp>)
    requires WellFormed(row) && !row.deleted && NoUpserts(ops)
    requires forall d | d in ops && d.op == Delete :: !TopsAll(row, ops, d.hlc)
    ensures Live(Fold(Some(row), UpdatesOf(ops) + DeletesOf(ops)))
  {
    TotalOrder();
    var us, ds := UpdatesOf(ops), DeletesOf(ops);
    UpdatesThenDeletes(ops);
    UpdatesKeepLive(row, us);
    FoldConcat(Some(row), us, ds);
    var r := Fold(Some(row), us).value;
    forall j | 0 <= j < |ds| && ds[j].op == Delete ensures NotOlder(MaxClock(r), Some(ds[j].hlc)) {
      var d := ds[j];
      assert d in ds;
      if Newer(d.hlc, MaxClock(row)) {
        var op :| op in ops && !WritesBelow(op, d.hlc);
        var k :| k in op.Set() && !Less(op.ClockFor(k), d.hlc);
        UpdatesRaise(row, us, op, k);
      } else {
        NotOlderTransitive(MaxClock(r), MaxClock(row), Some(d.hlc));
      }
    }
    StaysLive(r, ds, "");
  }

  predicate SameExistence(row: Row, a: seq<RowOp>, b: seq<RowOp>) {
    Live(Fold(Some(row), a)) == Live(Fold(Some(row), b))
  }

  /**
   * Whether a live row survives a set of updates and deletes is the same in
   * every delivery order if and only if no delete is newer than what the row
   * starts with, or some delete is newer than that and every update's writes.
   */
  lemma ExistenceUnderUpdates(row: Row, ops: seq<RowOp>)
    requires WellFormed(row) && !row.deleted && NoUpserts(ops)
    ensures (forall other | Permutation(other, ops) :: SameExistence(row, other, ops)) <==>
            || (forall op | op in ops :: !CouldKill(row, op))
            || (exists d | d in ops && d.op == Delete :: TopsAll(row, ops, d.hlc))
  {
    if forall op | op in ops :: !CouldKill(row, op) {
      forall other | Permutation(other, ops) ensures SameExistence(row, other, ops) {
        SameMembers(other, ops);
        NoneCouldKill(row, other);
        NoneCouldKill(row, ops);
      }
    } else if exists d | d in ops && d.op == Delete :: TopsAll(row, ops, d.hlc) {
      var d :| d in ops && d.op == Delete && TopsAll(row, ops, d.hlc);
      forall other | Permutation(other, ops) ensures SameExistence(row, other, ops) {
        SameMembers(other, ops);
        TopDeleteKills(row, other, d);
        TopDeleteKills(row, ops, d);
      }
    } else {
      var i :| 0 <= i < |ops| && CouldKill(row, ops[i]);
      DeleteFirstKills(row, ops, i);
      UpdatesFirstSave(row, ops);
      UpdatesThenDeletes(ops);
      assert !SameExistence(row, ToFront(ops, i), UpdatesOf(ops) + DeletesOf(ops));
    }
  }
}
