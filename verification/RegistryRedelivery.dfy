/** Exactly when an op, or a whole batch, can come again without changing anything. */
module RegistryRedelivery {
  import opened Wrappers
  import opened LexOrder
  import opened Registry
  import opened RegistryMerge

  predicate Live(row: Option<Row>) {
    row.Some? && !row.value.deleted
  }

  /** Nothing in the row is older than a write of the op. */
  predicate Outdates(row: Row, op: RowOp) {
    forall k | k in op.Set() :: NotOlder(Get(row.clocks, k), Some(op.ClockFor(k)))
  }

  /**
   * What makes a row deaf to an op it has seen: deletes it remembers; others
   * find no live row, or one all of whose fields they write are as new.
   */
  predicate Deaf(now: Option<Row>, op: RowOp) {
    || op.op == Delete
    || match now
       case None => op.op == Update
       case Some(r) => if r.deleted then op.op == Update || !Newer(op.hlc, r.delHlc) else Outdates(r, op)
  }

  // ── one op ──────────────────────────────────────────────────────────────

  /** The stamp of an applied delete, or of an upsert that carries it, is never newer than the row's newest clock. */
  lemma SeenStamp(row: Option<Row>, op: RowOp, later: seq<RowOp>)
    requires WellFormedOrMissing(row) && op.op != Update && (op.op == Upsert ==> StampCarried(op))
    ensures var now := Fold(Step(row, op), later);
            now.Some? && WellFormed(now.value) && NotOlder(MaxClock(now.value), Some(op.hlc))
  {
    StepWellFormed(row, op);
    AppliedIsRemembered(row, op);
    var first := Step(row, op).value;
    FoldMonotone(first, later);
    NotOlderTransitive(MaxClock(Fold(Some(first), later).value), MaxClock(first), Some(op.hlc));
  }

  lemma WinnersOutdated(row: Row, op: RowOp)
    ensures Winners(row, op, op.Set().Keys) == {} <==> Outdates(row, op)
    ensures Outdates(row, op) ==> Merged(row, op, op.Set().Keys) == row
  {
    TotalOrder();
    if Outdates(row, op) {
      assert Winners(row, op, op.Set().Keys) == {};
    } else {
      var k :| k in op.Set() && !NotOlder(Get(row.clocks, k), Some(op.ClockFor(k)));
      assert k in Winners(row, op, op.Set().Keys);
    }
  }

  /**
   * At-least-once delivery, exactly: whatever came in between, revivals
   * included, an op that comes again changes nothing if and only if the row is
   * deaf to it; and that is, for an update or an upsert that carries its stamp:
   * the row is not live, or every field it writes is as new.
   */
  lemma RedeliveryExactly(row: Option<Row>, op: RowOp, later: seq<RowOp>)
    requires WellFormedOrMissing(row)
    ensures var now := Fold(Step(row, op), later);
            && (ApplyOp(now, op) == Applied(now, false) <==> Deaf(now, op))
            && (op.op == Update || (op.op == Upsert && StampCarried(op)) ==>
                (Deaf(now, op) <==> !Live(now) || Outdates(now.value, op)))
  {
    TotalOrder();
    var now := Fold(Step(row, op), later);
    if op.op == Delete || (op.op == Upsert && StampCarried(op)) {
      SeenStamp(row, op, later);
      if now.value.deleted {
        TombstoneMax(now.value);
      }
    }
    if op.op != Delete && Live(now) {
      WinnersOutdated(now.value, op);
    }
  }

  // ── in terms of the run ─────────────────────────────────────────────────

  /** The place of the op that last made a row live: a create or a revival. */
  function LastBirth(row: Option<Row>, ops: seq<RowOp>): (at: Option<nat>)
    ensures at.Some? ==> at.value < |ops|
  {
    if ops == [] then None
    else
      var n := |ops| - 1;
      if !Live(Fold(row, ops[..n])) && Live(Fold(row, ops)) then Some(n) else LastBirth(row, ops[..n])
  }

  predicate WritesAtLeast(op: RowOp, k: string, c: Clock) {
    op.op != Delete && k in op.Set() && !Less(op.ClockFor(k), c)
  }

  /** Some op from `from` on writes `k` under a clock no older than `c`. */
  predicate WrittenSince(ops: seq<RowOp>, from: nat, k: string, c: Clock) {
    exists j | from <= j < |ops| :: WritesAtLeast(ops[j], k, c)
  }

  lemma WrittenSinceSnoc(ops: seq<RowOp>, from: nat, k: string, c: Clock)
    requires ops != []
    ensures var n := |ops| - 1;
            WrittenSince(ops, from, k, c) <==>
            WrittenSince(ops[..n], from, k, c) || (from <= n && WritesAtLeast(ops[n], k, c))
  {
    var n := |ops| - 1;
    assert forall j | 0 <= j < n :: ops[..n][j] == ops[j];
    if WrittenSince(ops[..n], from, k, c) {
      var j :| from <= j < n && WritesAtLeast(ops[..n][j], k, c);
      assert WritesAtLeast(ops[j], k, c);
    }
  }

  /** After a merge a field is at least as new as `c` when it was, or when the op writes it so. */
  lemma MergedNotOlder(base: Row, op: RowOp, k: string, c: Clock)
    ensures NotOlder(Get(Merged(base, op, op.Set().Keys).clocks, k), Some(c)) <==>
            NotOlder(Get(base.clocks, k), Some(c)) || (k in op.Set() && !Less(op.ClockFor(k), c))
  {
    TotalOrder();
    MergedField(base, op, k);
  }

  /** One op on a row that is live afterwards. */
  lemma LiveStep(row: Option<Row>, op: RowOp, k: string, c: Clock)
    requires WellFormedOrMissing(row) && Live(Step(row, op))
    ensures NotOlder(Get(Step(row, op).value.clocks, k), Some(c)) <==>
            (Live(row) && NotOlder(Get(row.value.clocks, k), Some(c))) || WritesAtLeast(op, k, c)
  {
    if op.op != Delete {
      var base := if row.None? then FreshRow(op.kind, op.id)
                  else if row.value.deleted then row.value.(deleted := false, fields := map[], clocks := map[])
                  else row.value;
      assert Step(row, op) == Some(Merged(base, op, op.Set().Keys));
      MergedNotOlder(base, op, k, c);
    }
  }

  /** A live row's field is at least as new as `c` exactly when it was so written since the row last came to life. */
  lemma {:induction false} ClockSinceBirth(row: Option<Row>, ops: seq<RowOp>, k: string, c: Clock)
    requires WellFormedOrMissing(row) && Live(Fold(row, ops))
    ensures LastBirth(row, ops).None? ==> Live(row)
    ensures NotOlder(Get(Fold(row, ops).value.clocks, k), Some(c)) <==>
            match LastBirth(row, ops)
            case Some(b) => WrittenSince(ops, b, k, c)
            case None => NotOlder(Get(row.value.clocks, k), Some(c)) || WrittenSince(ops, 0, k, c)
  {
    if ops != [] {
      var n := |ops| - 1;
      var front := ops[..n];
      FoldWellFormed(row, front);
      LiveStep(Fold(row, front), ops[n], k, c);
      if Live(Fold(row, front)) {
        ClockSinceBirth(row, front, k, c);
        WrittenSinceSnoc(ops, LastBirth(row, ops).GetOr(0), k, c);
      } else {
        WrittenSinceSnoc(ops, n, k, c);
      }
    }
  }

  /**
   * The same, told by the run: on a live row a write that comes again changes
   * nothing if and only if the row did not come to life since, or every field
   * it writes was written again since it did, under a clock no older.
   */
  lemma RedeliveryOverRuns(row: Option<Row>, op: RowOp, later: seq<RowOp>)
    requires WellFormedOrMissing(row) && op.op != Delete && Live(Fold(Step(row, op), later))
    ensures var now, birth := Fold(Step(row, op), later), LastBirth(Step(row, op), later);
            ApplyOp(now, op) == Applied(now, false) <==>
            birth.None? || forall k | k in op.Set() :: WrittenSince(later, birth.value, k, op.ClockFor(k))
  {
    RedeliveryExactly(row, op, later);
    StepWellFormed(row, op);
    TotalOrder();
    var first := Step(row, op);
    forall k | k in op.Set()
      ensures NotOlder(Get(Fold(first, later).value.clocks, k), Some(op.ClockFor(k))) <==>
              LastBirth(first, later).None? || WrittenSince(later, LastBirth(first, later).value, k, op.ClockFor(k))
    {
      ClockSinceBirth(first, later, k, op.ClockFor(k));
      if Live(first) {
        LiveStep(row, op, k, op.ClockFor(k));
      }
    }
  }

  // ── a whole batch ───────────────────────────────────────────────────────

  lemma SeenInRun(row: Option<Row>, ops: seq<RowOp>, later: seq<RowOp>, i: nat)
    requires WellFormedOrMissing(row) && i < |ops|
    ensures var before := Fold(row, ops[..i]);
            && WellFormedOrMissing(before)
            && Fold(Fold(row, ops), later) == Fold(Step(before, ops[i]), ops[i + 1..] + later)
  {
    FoldWellFormed(row, ops[..i]);
    FoldFrom(row, ops, i);
    FoldConcat(Step(Fold(row, ops[..i]), ops[i]), ops[i + 1..], later);
  }

  /** Each op of a run, alone, on what the run and all that came after it give. */
  lemma ReplayOne(row: Option<Row>, ops: seq<RowOp>, later: seq<RowOp>, i: nat)
    requires WellFormedOrMissing(row) && i < |ops|
    ensures var now := Fold(Fold(row, ops), later);
            && (ApplyOp(now, ops[i]) == Applied(now, false) <==> Deaf(now, ops[i]))
            && (ops[i].op == Delete ==> now.Some? && NotOlder(MaxClock(now.value), Some(ops[i].hlc)))
            && (ops[i].op == Upsert ==> now.Some?)
  {
    SeenInRun(row, ops, later, i);
    var before, rest := Fold(row, ops[..i]), ops[i + 1..] + later;
    RedeliveryExactly(before, ops[i], rest);
    if ops[i].op == Delete {
      SeenStamp(before, ops[i], rest);
    } else if ops[i].op == Upsert {
      StepWellFormed(before, ops[i]);
      FoldMonotone(Step(before, ops[i]).value, rest);
    }
  }

  lemma {:induction false} DeafRun(now: Option<Row>, ops: seq<RowOp>)
    requires forall i | 0 <= i < |ops| :: ApplyOp(now, ops[i]) == Applied(now, false)
    ensures Fold(now, ops) == now
  {
    if ops != [] {
      DeafRun(now, ops[..|ops| - 1]);
    }
  }

  /** A live row whose newest clock outranks every delete of a run stays live, and its fields only get newer. */
  lemma {:induction false} StaysLive(row: Row, ops: seq<RowOp>, k: string)
    requires WellFormed(row) && !row.deleted
    requires DeletesOutranked(row, ops)
    ensures var r := Fold(Some(row), ops);
            Live(r) && WellFormed(r.value) && NotOlder(Get(r.value.clocks, k), Get(row.clocks, k))
  {
    if ops != [] {
      var n := |ops| - 1;
      StaysLive(row, ops[..n], k);
      FoldMonotone(row, ops[..n]);
      LiveStaysLive(Fold(Some(row), ops[..n]).value, ops[n], MaxClock(row), k);
      NotOlderTransitive(Get(Fold(Some(row), ops).value.clocks, k), Get(Fold(Some(row), ops[..n]).value.clocks, k),
                         Get(row.clocks, k));
    }
  }

  lemma LiveStaysLive(row: Row, op: RowOp, seen: Option<Clock>, k: string)
    requires WellFormed(row) && !row.deleted && NotOlder(MaxClock(row), seen)
    requires op.op == Delete ==> NotOlder(seen, Some(op.hlc))
    ensures var r := Step(Some(row), op);
            Live(r) && WellFormed(r.value) && NotOlder(Get(r.value.clocks, k), Get(row.clocks, k))
  {
    TotalOrder();
    StepWellFormed(Some(row), op);
    if op.op == Delete {
      NotOlderTransitive(MaxClock(row), seen, Some(op.hlc));
    } else {
      MergedClocksRise(row, op, k);
    }
  }

  predicate DeletesOutranked(row: Row, ops: seq<RowOp>) {
    forall j | 0 <= j < |ops| && ops[j].op == Delete :: NotOlder(MaxClock(row), Some(ops[j].hlc))
  }

  lemma OutrankedOn(row: Row, r: Row, ops: seq<RowOp>, from: nat)
    requires DeletesOutranked(row, ops) && NotOlder(MaxClock(r), MaxClock(row)) && from <= |ops|
    ensures DeletesOutranked(r, ops[from..])
  {
    forall j | 0 <= j < |ops[from..]| && ops[from..][j].op == Delete
      ensures NotOlder(MaxClock(r), Some(ops[from..][j].hlc))
    {
      NotOlderTransitive(MaxClock(r), MaxClock(row), Some(ops[from + j].hlc));
    }
  }

  lemma FoldFrom(row: Option<Row>, ops: seq<RowOp>, i: nat)
    requires i < |ops|
    ensures Fold(row, ops) == Fold(Step(Fold(row, ops[..i]), ops[i]), ops[i + 1..])
  {
    var upto := ops[..i + 1];
    assert upto[..i] == ops[..i] && upto[i] == ops[i];
    FoldConcat(row, upto, ops[i + 1..]);
    assert upto + ops[i + 1..] == ops;
  }

  /** The first op of a replay that lands leaves its mark for good: a newer field, or a row revived. */
  lemma LandsForGood(now: Row, ops: seq<RowOp>, i: nat)
    requires WellFormed(now) && i < |ops| && !Deaf(Some(now), ops[i])
    requires DeletesOutranked(now, ops) && Fold(Some(now), ops[..i]) == Some(now)
    ensures Fold(Some(now), ops) != Some(now)
  {
    TotalOrder();
    var op := ops[i];
    FoldFrom(Some(now), ops, i);
    StepMonotone(now, op);
    StepWellFormed(Some(now), op);
    var r := Step(Some(now), op).value;
    OutrankedOn(now, r, ops, i + 1);
    if now.deleted {
      StaysLive(r, ops[i + 1..], "");
    } else {
      var k :| k in op.Set() && !NotOlder(Get(now.clocks, k), Some(op.ClockFor(k)));
      MergedField(now, op, k);
      StaysLive(r, ops[i + 1..], k);
    }
  }

  lemma {:induction false} FirstToLand(now: Option<Row>, ops: seq<RowOp>) returns (i: nat)
    requires forall j | 0 <= j < |ops| :: ApplyOp(now, ops[j]) == Applied(now, false) <==> Deaf(now, ops[j])
    requires exists j | 0 <= j < |ops| :: !Deaf(now, ops[j])
    ensures i < |ops| && !Deaf(now, ops[i]) && Fold(now, ops[..i]) == now
  {
    i := 0;
    while Deaf(now, ops[i])
      invariant i < |ops| && forall j | 0 <= j < i :: Deaf(now, ops[j])
      decreases |ops| - i
    {
      i := i + 1;
    }
    assert forall j | 0 <= j < i :: ops[..i][j] == ops[j];
    DeafRun(now, ops[..i]);
  }

  /**
   * Replaying a run over what it and any later ops gave, other writers' among
   * them, changes nothing if and only if the row is deaf to every op of it.
   */
  lemma ReplayExactly(row: Option<Row>, ops: seq<RowOp>, later: seq<RowOp>)
    requires WellFormedOrMissing(row)
    ensures var now := Fold(Fold(row, ops), later);
            Fold(now, ops) == now <==> forall i | 0 <= i < |ops| :: Deaf(now, ops[i])
  {
    var now := Fold(Fold(row, ops), later);
    FoldWellFormed(row, ops);
    FoldWellFormed(Fold(row, ops), later);
    forall i | 0 <= i < |ops|
      ensures ApplyOp(now, ops[i]) == Applied(now, false) <==> Deaf(now, ops[i])
      ensures ops[i].op == Delete ==> now.Some? && NotOlder(MaxClock(now.value), Some(ops[i].hlc))
      ensures ops[i].op == Upsert ==> now.Some?
    {
      ReplayOne(row, ops, later, i);
    }
    if forall i | 0 <= i < |ops| :: Deaf(now, ops[i]) {
      DeafRun(now, ops);
    } else {
      var i := FirstToLand(now, ops);
      LandsForGood(now.value, ops, i);
    }
  }

  /** No upsert of the run outranks the tombstone it ended in. */
  predicate NoneOutranks(row: Option<Row>, ops: seq<RowOp>) {
    forall i | 0 <= i < |ops| && ops[i].op == Upsert :: row.Some? && !Newer(ops[i].hlc, row.value.delHlc)
  }

  /** Of the first `n` ops, every write before `birth` was written again from there on, under a clock no older. */
  predicate RewrittenSince(ops: seq<RowOp>, n: nat, birth: nat) {
    forall i, k | 0 <= i < birth && i < n && i < |ops| && ops[i].op != Delete && k in ops[i].Set() ::
      WrittenSince(ops, birth, k, ops[i].ClockFor(k))
  }

  /**
   * In terms of the run, here its first `n` ops and those that came after: a
   * live result is deaf to the first `n` exactly when the row was live all along
   * or every write of theirs before it last came to life was written again
   * since; a dead one when no upsert of theirs outranks its tombstone.
   */
  lemma DeafOverRuns(row: Option<Row>, ops: seq<RowOp>, n: nat)
    requires WellFormedOrMissing(row) && n <= |ops|
    ensures var now, birth := Fold(row, ops), LastBirth(row, ops);
            (forall i | 0 <= i < n :: Deaf(now, ops[i])) <==>
            if Live(now) then birth.None? || RewrittenSince(ops, n, birth.value) else NoneOutranks(now, ops[..n])
  {
    TotalOrder();
    var now, birth := Fold(row, ops), LastBirth(row, ops);
    if Live(now) {
      forall i, k | 0 <= i < |ops| && ops[i].op != Delete && k in ops[i].Set()
        ensures NotOlder(Get(now.value.clocks, k), Some(ops[i].ClockFor(k))) <==>
                birth.None? || i >= birth.value || WrittenSince(ops, birth.value, k, ops[i].ClockFor(k))
      {
        ClockSinceBirth(row, ops, k, ops[i].ClockFor(k));
        assert WritesAtLeast(ops[i], k, ops[i].ClockFor(k));
      }
      forall i | 0 <= i < |ops| && ops[i].op != Delete ensures Deaf(now, ops[i]) <==> Outdates(now.value, ops[i]) {
      }
    } else {
      assert forall i | 0 <= i < n :: ops[..n][i] == ops[i];
    }
  }
}
