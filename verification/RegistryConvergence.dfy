/** When every delivery order of a set of ops ends in the same row. */
module RegistryConvergence {
  import opened Wrappers
  import opened LexOrder
  import opened Registry
  import opened RegistryMerge

  // ── permutations ────────────────────────────────────────────────────────

  predicate Permutation(a: seq<RowOp>, b: seq<RowOp>) {
    multiset(a) == multiset(b)
  }

  lemma SameMembers(a: seq<RowOp>, b: seq<RowOp>)
    requires Permutation(a, b)
    ensures forall op :: op in a <==> op in b
    ensures |a| == |b|
  {
    assert forall op :: op in a <==> op in multiset(a);
    assert forall op :: op in b <==> op in multiset(b);
    assert |multiset(a)| == |a| && |multiset(b)| == |b|;
  }

  function ToFront(ops: seq<RowOp>, i: nat): seq<RowOp>
    requires i < |ops|
  {
    [ops[i]] + (ops[..i] + ops[i + 1..])
  }

  lemma ToFrontPermutes(ops: seq<RowOp>, i: nat)
    requires i < |ops|
    ensures Permutation(ToFront(ops, i), ops)
  {
    assert ops == ops[..i] + ([ops[i]] + ops[i + 1..]);
  }

  // ── last writer wins, field by field ────────────────────────────────────

  /** A run that deletes nothing and, from no row, creates one of the given name. */
  ghost predicate DeleteFree(row: Option<Row>, ops: seq<RowOp>) {
    && (forall op | op in ops :: op.op != Delete)
    && (row.None? ==> forall op | op in ops :: op.op == Upsert && op.kind == ops[0].kind && op.id == ops[0].id)
    && (row.Some? ==> WellFormed(row.value) && !row.value.deleted)
  }

  /** The row the run starts from; a missing one is created bare. */
  function StartRow(row: Option<Row>, ops: seq<RowOp>): Row
    requires row.None? ==> ops != []
  {
    match row
    case Some(r) => r
    case None => FreshRow(ops[0].kind, ops[0].id)
  }

  /** No write of `ops` to `k` is newer than `c`. */
  predicate NothingNewer(ops: seq<RowOp>, k: string, c: Clock) {
    forall op | op in ops && k in op.Set() :: !Less(c, op.ClockFor(k))
  }

  /** Field `k` of `r` holds `op`'s write. */
  predicate HoldsWrite(r: Row, op: RowOp, k: string)
    requires k in op.Set()
  {
    && Get(r.clocks, k) == Some(op.ClockFor(k))
    && Get(r.fields, k) == if op.Set()[k] == Null then None else Some(op.Set()[k])
  }

  /** `op` makes the newest write to `k`, newer than the one the row started with. */
  predicate TopWrite(start: Row, ops: seq<RowOp>, op: RowOp, k: string) {
    op in ops && k in op.Set() && Newer(op.ClockFor(k), Get(start.clocks, k)) && NothingNewer(ops, k, op.ClockFor(k))
  }

  /** Field `k` after a run: untouched because nothing beat it, or a top write's. */
  ghost predicate FieldSettled(start: Row, ops: seq<RowOp>, k: string, r: Row) {
    || (Get(r.clocks, k) == Get(start.clocks, k) && Get(r.fields, k) == Get(start.fields, k)
        && forall op | op in ops && k in op.Set() :: !Newer(op.ClockFor(k), Get(start.clocks, k)))
    || (exists op :: TopWrite(start, ops, op, k) && HoldsWrite(r, op, k))
  }

  lemma {:induction false} FieldSettles(start: Row, ops: seq<RowOp>, k: string)
    requires !start.deleted && forall op | op in ops :: op.op != Delete
    ensures var r := Fold(Some(start), ops);
            r.Some? && r.value == start.(fields := r.value.fields, clocks := r.value.clocks) &&
            FieldSettled(start, ops, k, r.value)
  {
    TotalOrder();
    if ops != [] {
      var front, last := ops[..|ops| - 1], ops[|ops| - 1];
      FieldSettles(start, front, k);
      var mid := Fold(Some(start), front).value;
      var r := Merged(mid, last, last.Set().Keys);
      assert Fold(Some(start), ops) == Some(r);
      MergedField(mid, last, k);
      assert forall op | op in ops :: op in front || op == last;
      if Wins(mid, last, k) {
        assert TopWrite(start, ops, last, k) && HoldsWrite(r, last, k);
      } else if exists op :: TopWrite(start, front, op, k) && HoldsWrite(mid, op, k) {
        var op :| TopWrite(start, front, op, k) && HoldsWrite(mid, op, k);
        assert TopWrite(start, ops, op, k) && HoldsWrite(r, op, k);
      }
    }
  }

  /** Folding upserts from nothing is folding them from the bare row. */
  lemma {:induction false} FoldFromNothing(ops: seq<RowOp>)
    requires ops != [] && DeleteFree(None, ops)
    ensures Fold(None, ops) == Fold(Some(StartRow(None, ops)), ops)
    decreases |ops|
  {
    var front, last := ops[..|ops| - 1], ops[|ops| - 1];
    assert last in ops;
    if front != [] {
      assert forall op | op in front :: op in ops;
      FoldFromNothing(front);
    }
  }

  lemma FoldFromStart(row: Option<Row>, ops: seq<RowOp>)
    requires DeleteFree(row, ops) && (row.None? ==> ops != [])
    ensures Fold(row, ops) == Fold(Some(StartRow(row, ops)), ops)
  {
    if row.None? {
      FoldFromNothing(ops);
    }
  }

  /** Top writes to the same field under the same clock carry the same value. */
  predicate TiesAgree(start: Row, ops: seq<RowOp>) {
    forall a, b, k | a in ops && b in ops && k in a.Set() && k in b.Set() ::
      TopWrite(start, ops, a, k) && TopWrite(start, ops, b, k) ==> a.Set()[k] == b.Set()[k]
  }

  /** Two ends of the same settled run are the same row. */
  lemma SettledUnique(start: Row, ops: seq<RowOp>, r1: Row, r2: Row)
    requires TiesAgree(start, ops)
    requires r1 == r2.(fields := r1.fields, clocks := r1.clocks)
    requires forall k :: FieldSettled(start, ops, k, r1) && FieldSettled(start, ops, k, r2)
    ensures r1 == r2
  {
    TotalOrder();
    forall k ensures Get(r1.clocks, k) == Get(r2.clocks, k) && Get(r1.fields, k) == Get(r2.fields, k) {
      assert FieldSettled(start, ops, k, r1) && FieldSettled(start, ops, k, r2);
    }
    assert r1.clocks == r2.clocks by {
      assert forall k :: k in r1.clocks <==> Get(r1.clocks, k).Some?;
      assert forall k :: k in r2.clocks <==> Get(r2.clocks, k).Some?;
    }
    assert r1.fields == r2.fields by {
      assert forall k :: k in r1.fields <==> Get(r1.fields, k).Some?;
      assert forall k :: k in r2.fields <==> Get(r2.fields, k).Some?;
    }
  }

  lemma SettledForPermutation(start: Row, a: seq<RowOp>, b: seq<RowOp>, k: string, r: Row)
    requires Permutation(a, b) && FieldSettled(start, a, k, r)
    ensures FieldSettled(start, b, k, r)
  {
    SameMembers(a, b);
    if exists op :: TopWrite(start, a, op, k) && HoldsWrite(r, op, k) {
      var op :| TopWrite(start, a, op, k) && HoldsWrite(r, op, k);
      assert TopWrite(start, b, op, k);
    }
  }

  lemma AgreeingTiesConverge(row: Option<Row>, ops: seq<RowOp>, other: seq<RowOp>)
    requires DeleteFree(row, ops) && ops != [] && TiesAgree(StartRow(row, ops), ops)
    requires Permutation(other, ops)
    ensures Fold(row, other) == Fold(row, ops)
  {
    SameMembers(other, ops);
    assert other[0] in other;
    assert ops[0] in ops;
    var start := StartRow(row, ops);
    assert start == StartRow(row, other);
    FoldFromStart(row, ops);
    FoldFromStart(row, other);
    FieldSettles(start, ops, "");
    FieldSettles(start, other, "");
    var r1, r2 := Fold(Some(start), ops).value, Fold(Some(start), other).value;
    forall k ensures FieldSettled(start, ops, k, r1) && FieldSettled(start, ops, k, r2) {
      FieldSettles(start, ops, k);
      FieldSettles(start, other, k);
      SettledForPermutation(start, other, ops, k, r2);
    }
    SettledUnique(start, ops, r1, r2);
  }

  /** A top write that goes first stays. */
  lemma FirstTopWriteStays(start: Row, op: RowOp, rest: seq<RowOp>, k: string)
    requires !start.deleted && forall o | o in [op] + rest :: o.op != Delete
    requires TopWrite(start, [op] + rest, op, k)
    ensures var r := Fold(Some(start), [op] + rest);
            r.Some? && HoldsWrite(r.value, op, k)
  {
    TotalOrder();
    FoldConcat(Some(start), [op], rest);
    assert op in [op] + rest;
    assert [op][..0] == [];
    var mid := Merged(start, op, op.Set().Keys);
    assert Fold(Some(start), [op]) == Step(Fold(Some(start), []), op) == Some(mid);
    MergedField(start, op, k);
    assert forall o | o in rest :: o in [op] + rest;
    FieldSettles(mid, rest, k);
    assert forall o | o in rest && k in o.Set() :: !Newer(o.ClockFor(k), Get(mid.clocks, k));
  }

  /** Delivered first, a top write is what the row ends with. */
  lemma FrontWins(row: Option<Row>, ops: seq<RowOp>, n: nat, k: string)
    requires DeleteFree(row, ops) && n < |ops| && TopWrite(StartRow(row, ops), ops, ops[n], k)
    ensures var r := Fold(row, ToFront(ops, n));
            r.Some? && HoldsWrite(r.value, ops[n], k)
  {
    var start, front := StartRow(row, ops), ToFront(ops, n);
    ToFrontPermutes(ops, n);
    SameMembers(front, ops);
    assert front[0] in front && ops[0] in ops;
    FoldFromStart(row, front);
    assert TopWrite(start, front, ops[n], k);
    FirstTopWriteStays(start, ops[n], ops[..n] + ops[n + 1..], k);
  }

  lemma OneValueHeld(r: Row, a: RowOp, b: RowOp, k: string)
    requires k in a.Set() && k in b.Set() && HoldsWrite(r, a, k) && HoldsWrite(r, b, k)
    ensures a.Set()[k] == b.Set()[k]
  {
  }

  lemma DisagreeingTiesDiverge(row: Option<Row>, ops: seq<RowOp>, i: nat, j: nat, k: string)
    requires DeleteFree(row, ops) && i < |ops| && j < |ops|
    requires TopWrite(StartRow(row, ops), ops, ops[i], k) && TopWrite(StartRow(row, ops), ops, ops[j], k)
    requires k in ops[i].Set() && k in ops[j].Set() && ops[i].Set()[k] != ops[j].Set()[k]
    ensures Fold(row, ToFront(ops, i)) != Fold(row, ToFront(ops, j))
  {
    FrontWins(row, ops, i, k);
    FrontWins(row, ops, j, k);
    var a, b := Fold(row, ToFront(ops, i)), Fold(row, ToFront(ops, j));
    if a == b {
      OneValueHeld(a.value, ops[i], ops[j], k);
    }
  }

  /**
   * Convergence of field writes, exactly. A run without deletes ends in the
   * same row in every delivery order if and only if the newest writes to each
   * field agree whenever their clocks tie. (The device suffix of a clock is
   * there to rule such ties out.)
   */
  lemma FieldConvergence(row: Option<Row>, ops: seq<RowOp>)
    requires DeleteFree(row, ops) && ops != []
    ensures (forall other | Permutation(other, ops) :: Fold(row, other) == Fold(row, ops))
       <==> TiesAgree(StartRow(row, ops), ops)
  {
    var start := StartRow(row, ops);
    if TiesAgree(start, ops) {
      forall other | Permutation(other, ops) ensures Fold(row, other) == Fold(row, ops) {
        AgreeingTiesConverge(row, ops, other);
      }
    } else {
      var a, b, k :| a in ops && b in ops && k in a.Set() && k in b.Set() &&
        TopWrite(start, ops, a, k) && TopWrite(start, ops, b, k) && a.Set()[k] != b.Set()[k];
      var i :| 0 <= i < |ops| && ops[i] == a;
      var j :| 0 <= j < |ops| && ops[j] == b;
      DisagreeingTiesDiverge(row, ops, i, j, k);
      ToFrontPermutes(ops, i);
      ToFrontPermutes(ops, j);
    }
  }

  /**
   * Every field of the converged row is the write with the greatest clock, the
   * row's own included and null writes counted: nothing in the run is newer.
   */
  lemma FieldIsGreatestWrite(row: Option<Row>, ops: seq<RowOp>, k: string)
    requires DeleteFree(row, ops) && ops != []
    ensures Fold(row, ops).Some? && !Fold(row, ops).value.deleted
    ensures FieldSettled(StartRow(row, ops), ops, k, Fold(row, ops).value)
    ensures forall op | op in ops && k in op.Set() ::
              NotOlder(Get(Fold(row, ops).value.clocks, k), Some(op.ClockFor(k)))
  {
    TotalOrder();
    FoldFromStart(row, ops);
    FieldSettles(StartRow(row, ops), ops, k);
  }
}
