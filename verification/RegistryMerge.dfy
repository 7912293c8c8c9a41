/** What one op can and cannot do to a row, and what every run of ops keeps. */
module RegistryMerge {
  import opened Wrappers
  import opened LexOrder
  import opened Registry

  /** Fields are clocked and never null; a tombstone is a stamp and nothing else. */
  ghost predicate WellFormed(row: Row) {
    && row.fields.Keys <= row.clocks.Keys
    && (forall k | k in row.fields :: row.fields[k] != Null)
    && (row.deleted ==> row.fields == map[] && row.clocks == map[] && row.delHlc.Some?)
  }

  ghost predicate WellFormedOrMissing(row: Option<Row>) {
    row.Some? ==> WellFormed(row.value)
  }

  /** `a` is at least as new as `b`, a missing clock being the oldest. */
  predicate NotOlder(a: Option<Clock>, b: Option<Clock>) {
    b.None? || (a.Some? && (a == b || Less(b.value, a.value)))
  }

  lemma NotOlderTransitive(a: Option<Clock>, b: Option<Clock>, c: Option<Clock>)
    requires NotOlder(a, b) && NotOlder(b, c)
    ensures NotOlder(a, c)
  {
    TotalOrder();
  }

  /** A clock on the row that none exceeds is its greatest. */
  lemma MaxClockIs(row: Row, m: Clock)
    requires m in AllClocks(row) && forall c | c in AllClocks(row) :: c == m || Less(c, m)
    ensures MaxClock(row) == Some(m)
  {
    TotalOrder();
  }

  /** Per field, a merge either takes the op's write whole or leaves the field alone. */
  lemma MergedField(base: Row, op: RowOp, k: string)
    ensures var r := Merged(base, op, op.Set().Keys);
            if Wins(base, op, k) then
              Get(r.clocks, k) == Some(op.ClockFor(k)) &&
              Get(r.fields, k) == if op.Set()[k] == Null then None else Some(op.Set()[k])
            else
              Get(r.clocks, k) == Get(base.clocks, k) && Get(r.fields, k) == Get(base.fields, k)
  {
  }

  lemma MergedWellFormed(base: Row, op: RowOp)
    requires WellFormed(base) && !base.deleted
    ensures WellFormed(Merged(base, op, op.Set().Keys))
  {
  }

  lemma StepWellFormed(row: Option<Row>, op: RowOp)
    requires WellFormedOrMissing(row)
    ensures WellFormedOrMissing(Step(row, op))
  {
    if op.op != Delete {
      match row
      case None =>
        MergedWellFormed(FreshRow(op.kind, op.id), op);
      case Some(r) =>
        if r.deleted {
          MergedWellFormed(r.(deleted := false, fields := map[], clocks := map[]), op);
        } else {
          MergedWellFormed(r, op);
        }
    }
  }

  /** Merging only moves a field's clock up. */
  lemma MergedClocksRise(base: Row, op: RowOp, k: string)
    ensures NotOlder(Get(Merged(base, op, op.Set().Keys).clocks, k), Get(base.clocks, k))
  {
    MergedField(base, op, k);
  }

  lemma MergedMaxRises(base: Row, op: RowOp)
    ensures NotOlder(MaxClock(Merged(base, op, op.Set().Keys)), MaxClock(base))
  {
    var r := Merged(base, op, op.Set().Keys);
    TotalOrder();
    var m := MaxClock(base);
    if m.Some? && m.value in base.clocks.Values {
      var k :| k in base.clocks && base.clocks[k] == m.value;
      MergedClocksRise(base, op, k);
      assert r.clocks[k] in AllClocks(r);
    }
  }

  /** One op never moves a row's newest clock or its tombstone stamp back. */
  lemma StepMonotone(row: Row, op: RowOp)
    requires WellFormed(row)
    ensures Step(Some(row), op).Some?
    ensures NotOlder(MaxClock(Step(Some(row), op).value), MaxClock(row))
    ensures NotOlder(Step(Some(row), op).value.delHlc, row.delHlc)
  {
    TotalOrder();
    var r := Step(Some(row), op).value;
    if op.op == Delete {
      if r != row {
        assert AllClocks(r) == {op.hlc};
        assert row.deleted ==> AllClocks(row) == {row.delHlc.value};
        assert row.delHlc.Some? ==> row.delHlc.value in AllClocks(row);
      }
    } else if row.deleted {
      if r != row {
        var revived := row.(deleted := false, fields := map[], clocks := map[]);
        assert AllClocks(revived) == AllClocks(row);
        MergedMaxRises(revived, op);
      }
    } else {
      MergedMaxRises(row, op);
    }
  }

  /** The changed flag tells the truth: it is up exactly when the row differs. */
  lemma ChangedIffDiffers(row: Option<Row>, op: RowOp)
    ensures ApplyOp(row, op).changed <==> ApplyOp(row, op).row != row
  {
    TotalOrder();
    if op.op == Delete {
      if row.Some? && !row.value.deleted && row.value.delHlc == Some(op.hlc) {
        assert op.hlc in AllClocks(row.value);
      }
    } else if row.Some? && !row.value.deleted {
      var r := row.value;
      var won := Winners(r, op, op.Set().Keys);
      if won == {} {
        assert Merged(r, op, op.Set().Keys) == r;
      } else {
        var k :| k in won;
        MergedField(r, op, k);
      }
    }
  }

  // ── whole runs ──────────────────────────────────────────────────────────

  lemma FoldWellFormed(row: Option<Row>, ops: seq<RowOp>)
    requires WellFormedOrMissing(row)
    ensures WellFormedOrMissing(Fold(row, ops))
  {
    if ops != [] {
      FoldWellFormed(row, ops[..|ops| - 1]);
      StepWellFormed(Fold(row, ops[..|ops| - 1]), ops[|ops| - 1]);
    }
  }

  /** Along any run the row stays, stays well formed, and its clocks only move up. */
  lemma {:induction false} FoldMonotone(row: Row, ops: seq<RowOp>)
    requires WellFormed(row)
    ensures Fold(Some(row), ops).Some? && WellFormed(Fold(Some(row), ops).value)
    ensures NotOlder(MaxClock(Fold(Some(row), ops).value), MaxClock(row))
    ensures NotOlder(Fold(Some(row), ops).value.delHlc, row.delHlc)
  {
    if ops != [] {
      var front := ops[..|ops| - 1];
      var last := ops[|ops| - 1];
      FoldMonotone(row, front);
      var mid := Fold(Some(row), front).value;
      StepMonotone(mid, last);
      StepWellFormed(Some(mid), last);
      var end := Step(Some(mid), last).value;
      NotOlderTransitive(MaxClock(end), MaxClock(mid), MaxClock(row));
      NotOlderTransitive(end.delHlc, mid.delHlc, row.delHlc);
    }
  }

  // ── at-least-once delivery ──────────────────────────────────────────────

  /** Does applying `op` bring a tombstone back to life? */
  predicate Revives(row: Option<Row>, op: RowOp) {
    row.Some? && row.value.deleted && Step(row, op).Some? && !Step(row, op).value.deleted
  }

  predicate RevivesDuring(row: Option<Row>, ops: seq<RowOp>) {
    ops != [] && (RevivesDuring(row, ops[..|ops| - 1]) || Revives(Fold(row, ops[..|ops| - 1]), ops[|ops| - 1]))
  }

  /** Some write of the op is at least as new as the op's own stamp. */
  predicate StampCarried(op: RowOp) {
    exists k | k in op.Set() :: !Less(op.ClockFor(k), op.hlc)
  }

  /**
   * What a row that has seen `op` remembers of it: a tombstone no older than
   * it, or a live row with every one of its writes at least as new.
   */
  ghost predicate Remembers(row: Row, op: RowOp) {
    match op.op
    case Delete => NotOlder(MaxClock(row), Some(op.hlc))
    case Update => !row.deleted ==> forall k | k in op.Set() :: NotOlder(Get(row.clocks, k), Some(op.ClockFor(k)))
    case Upsert =>
      && NotOlder(MaxClock(row), Some(op.hlc))
      && (!row.deleted ==> forall k | k in op.Set() :: NotOlder(Get(row.clocks, k), Some(op.ClockFor(k))))
  }

  lemma TombstoneMax(row: Row)
    requires WellFormed(row) && row.deleted
    ensures MaxClock(row) == row.delHlc
  {
    assert AllClocks(row) == {row.delHlc.value};
  }

  /** A row that remembers an op is deaf to it. */
  lemma RememberedIsNoOp(row: Row, op: RowOp)
    requires WellFormed(row) && Remembers(row, op)
    ensures ApplyOp(Some(row), op) == Applied(Some(row), false)
  {
    TotalOrder();
    if row.deleted {
      TombstoneMax(row);
    } else if op.op != Delete {
      assert Winners(row, op, op.Set().Keys) == {};
      assert Merged(row, op, op.Set().Keys) == row;
    }
  }

  /** Applying an op leaves a row that remembers it. */
  lemma AppliedIsRemembered(row: Option<Row>, op: RowOp)
    requires WellFormedOrMissing(row)
    requires op.op == Upsert ==> StampCarried(op)
    requires op.op == Update ==> row.Some?
    ensures Step(row, op).Some? && Remembers(Step(row, op).value, op)
  {
    TotalOrder();
    var r := Step(row, op).value;
    StepWellFormed(row, op);
    if op.op == Delete {
      if r.deleted {
        TombstoneMax(r);
      }
    } else if !r.deleted {
      var base := if row.None? then FreshRow(op.kind, op.id)
                  else if row.value.deleted then row.value.(deleted := false, fields := map[], clocks := map[])
                  else row.value;
      assert r == Merged(base, op, op.Set().Keys);
      forall k | k in op.Set() ensures NotOlder(Get(r.clocks, k), Some(op.ClockFor(k))) {
        MergedField(base, op, k);
      }
      if op.op == Upsert {
        var k :| k in op.Set() && !Less(op.ClockFor(k), op.hlc);
        assert r.clocks[k] in AllClocks(r);
      }
    } else {
      TombstoneMax(r);
    }
  }

  /** Memory of an op survives every later op that does not revive the row. */
  lemma StepKeepsMemory(row: Row, op: RowOp, later: RowOp)
    requires WellFormed(row) && Remembers(row, op)
    requires op.op == Delete || !Revives(Some(row), later)
    ensures Step(Some(row), later).Some? && Remembers(Step(Some(row), later).value, op)
  {
    StepMonotone(row, later);
    var r := Step(Some(row), later).value;
    if op.op != Update {
      NotOlderTransitive(MaxClock(r), MaxClock(row), Some(op.hlc));
    }
    if op.op != Delete && !r.deleted {
      assert !row.deleted;
      forall k | k in op.Set() ensures NotOlder(Get(r.clocks, k), Some(op.ClockFor(k))) {
        MergedClocksRise(row, later, k);
        NotOlderTransitive(Get(r.clocks, k), Get(row.clocks, k), Some(op.ClockFor(k)));
      }
    }
  }

  lemma {:induction false} FoldKeepsMemory(row: Row, op: RowOp, later: seq<RowOp>)
    requires WellFormed(row) && Remembers(row, op)
    requires op.op == Delete || !RevivesDuring(Some(row), later)
    ensures Fold(Some(row), later).Some? && WellFormed(Fold(Some(row), later).value)
    ensures Remembers(Fold(Some(row), later).value, op)
  {
    if later != [] {
      var front := later[..|later| - 1];
      FoldKeepsMemory(row, op, front);
      StepKeepsMemory(Fold(Some(row), front).value, op, later[|later| - 1]);
      StepWellFormed(Fold(Some(row), front), later[|later| - 1]);
    }
  }

  /**
   * At-least-once delivery acts as exactly-once: an op that comes again after
   * any later ops changes nothing. Deletes always; upserts whose stamp one of
   * their writes carries, and updates that found a row, as long as the row was
   * not revived in between.
   */
  lemma Redelivery(row: Option<Row>, op: RowOp, later: seq<RowOp>)
    requires WellFormedOrMissing(row)
    requires op.op == Upsert ==> StampCarried(op)
    requires op.op == Update ==> row.Some?
    requires op.op == Delete || !RevivesDuring(Step(row, op), later)
    ensures var now := Fold(Step(row, op), later);
            ApplyOp(now, op) == Applied(now, false)
  {
    StepWellFormed(row, op);
    AppliedIsRemembered(row, op);
    FoldKeepsMemory(Step(row, op).value, op, later);
    RememberedIsNoOp(Fold(Step(row, op), later).value, op);
  }

  /** An upsert onto a live or missing row, or one it revives, leaves only clocks below what bounds them all. */
  lemma UpsertStaysBelow(row: Option<Row>, op: RowOp, bound: Clock)
    requires WellFormedOrMissing(row) && op.op == Upsert && Less(op.hlc, bound)
    requires row.Some? ==> Newer(bound, MaxClock(row.value)) && Newer(op.hlc, MaxClock(row.value))
    requires forall f | f in op.Set() :: op.ClockFor(f) == op.hlc
    ensures var r := Step(row, op);
            r.Some? && !r.value.deleted && WellFormed(r.value) && Newer(bound, MaxClock(r.value))
  {
    TotalOrder();
    StepWellFormed(row, op);
    var base := if row.None? then FreshRow(op.kind, op.id)
                else if row.value.deleted then row.value.(deleted := false, fields := map[], clocks := map[])
                else row.value;
    if row.Some? && row.value.deleted { TombstoneMax(row.value); }
    var first := Merged(base, op, op.Set().Keys);
    assert Step(row, op) == Some(first);
    assert AllClocks(base) <= if row.Some? then AllClocks(row.value) else {};
    forall c | c in AllClocks(first) ensures Less(c, bound) {
      if c in first.clocks.Values {
        var f :| f in first.clocks && first.clocks[f] == c;
        MergedField(base, op, f);
        assert f in base.clocks ==> base.clocks[f] in AllClocks(base);
      }
    }
  }

  /**
   * The revival condition is needed: whenever a row is deleted and then revived
   * by an upsert that does not write `k`, an older write to `k` that comes
   * again lands in the revived row.
   */
  lemma RevivalForgets(row: Option<Row>, old_: RowOp, del: RowOp, revive: RowOp, k: string)
    requires WellFormedOrMissing(row) && old_.op == Upsert && del.op == Delete && revive.op == Upsert
    requires k in old_.Set() && k !in revive.Set()
    requires row.Some? ==> Newer(del.hlc, MaxClock(row.value)) && Newer(old_.hlc, MaxClock(row.value))
    requires Less(old_.hlc, del.hlc) && Less(del.hlc, revive.hlc)
    requires forall f | f in old_.Set() :: old_.ClockFor(f) == old_.hlc
    ensures var now := Fold(Step(row, old_), [del, revive]);
            now.Some? && !now.value.deleted && k !in now.value.fields &&
            ApplyOp(now, old_).changed && Get(ApplyOp(now, old_).row.value.clocks, k) == Some(old_.hlc)
  {
    UpsertStaysBelow(row, old_, del.hlc);
    var first := Step(row, old_);
    var gone := Step(first, del);
    var now := Step(gone, revive);
    assert Fold(first, [del, revive]) == now by {
      assert [del, revive][..1] == [del] && [del][..0] == [];
      assert Fold(first, [del]) == gone;
    }
    TombstoneMax(gone.value);
    MergedField(gone.value.(deleted := false, fields := map[], clocks := map[]), revive, k);
    assert Wins(now.value, old_, k);
    MergedField(now.value, old_, k);
  }

  /**
   * So is the carried stamp: an upsert all of whose writes are older than some
   * delete it still outranks is forgotten with the deleted row, and revives it.
   */
  lemma UncarriedStampForgets(op: RowOp, del: RowOp)
    requires op.op == Upsert && del.op == Delete
    requires Less(del.hlc, op.hlc) && forall k | k in op.Set() :: Less(op.ClockFor(k), del.hlc)
    ensures !StampCarried(op)
    ensures var now := Fold(Step(None, op), [del]);
            now.Some? && now.value.deleted && ApplyOp(now, op).changed && !ApplyOp(now, op).row.value.deleted
  {
    TotalOrder();
    var base := FreshRow(op.kind, op.id);
    var r := Merged(base, op, op.Set().Keys);
    forall c | c in AllClocks(r) ensures Less(c, del.hlc) {
      var f :| f in r.clocks && r.clocks[f] == c;
      MergedField(base, op, f);
    }
    assert [del][..0] == [];
    assert Fold(Some(r), [del]) == Step(Some(r), del);
  }
}
