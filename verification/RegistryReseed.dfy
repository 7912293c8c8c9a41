/**
 * Recovery by re-seeding: exactly which rows behave like themselves after the
 * server has lost them and taken them back from a seed.
 */
module RegistryReseed {
  import opened Wrappers
  import opened LexOrder
  import opened Hlc
  import opened Registry
  import opened RegistryMerge
  import opened RegistryVisible
  import opened RegistryFrames

  /** Some field clock is no older than the tombstone stamp, if there is one. */
  predicate StampCovered(row: Row) {
    row.delHlc.Some? ==> exists k | k in row.clocks :: !Less(row.clocks[k], row.delHlc.value)
  }

  // ── rows that every op finds the same ───────────────────────────────────

  /** Same fields under the same clocks, and tombstone stamps that are equal or of no consequence. */
  predicate Alike(a: Row, b: Row) {
    && a.deleted == b.deleted && a.fields == b.fields && a.clocks == b.clocks
    && (a.delHlc == b.delHlc || (!a.deleted && StampCovered(a) && StampCovered(b)))
  }

  /** A covered stamp does not show in the newest clock. */
  lemma CoveredMax(row: Row)
    requires StampCovered(row)
    ensures MaxClock(row) == MaxClock(row.(delHlc := None))
  {
    TotalOrder();
    var bare := row.(delHlc := None);
    if row.delHlc.Some? {
      var k :| k in row.clocks && !Less(row.clocks[k], row.delHlc.value);
      assert row.clocks[k] in AllClocks(bare);
      var m := MaxClock(bare).value;
      assert m in AllClocks(row);
      forall c | c in AllClocks(row) ensures c == m || Less(c, m) {
        assert c in AllClocks(bare) || c == row.delHlc.value;
        assert row.clocks[k] == m || Less(row.clocks[k], m);
      }
      MaxClockIs(row, m);
    }
  }

  lemma AlikeMax(a: Row, b: Row)
    requires Alike(a, b)
    ensures MaxClock(a) == MaxClock(b)
  {
    assert AllClocks(a.(delHlc := None)) == AllClocks(b.(delHlc := None));
    if a.delHlc == b.delHlc {
      assert AllClocks(a) == AllClocks(b);
      SameClocksSameMax(a, b);
    } else {
      CoveredMax(a);
      CoveredMax(b);
      SameClocksSameMax(a.(delHlc := None), b.(delHlc := None));
    }
  }

  lemma SameClocksSameMax(a: Row, b: Row)
    requires AllClocks(a) == AllClocks(b)
    ensures MaxClock(a) == MaxClock(b)
  {
    if AllClocks(a) != {} {
      MaxClockIs(a, MaxClock(b).value);
    }
  }

  lemma MergedKeepsCover(row: Row, op: RowOp)
    requires StampCovered(row)
    ensures StampCovered(Merged(row, op, op.Set().Keys))
  {
    TotalOrder();
    var r := Merged(row, op, op.Set().Keys);
    if row.delHlc.Some? {
      var k :| k in row.clocks && !Less(row.clocks[k], row.delHlc.value);
      MergedClocksRise(row, op, k);
      assert k in r.clocks && !Less(r.clocks[k], r.delHlc.value);
    }
  }

  lemma AlikeMerge(a: Row, b: Row, op: RowOp)
    requires Alike(a, b)
    ensures Alike(Merged(a, op, op.Set().Keys), Merged(b, op, op.Set().Keys))
  {
    assert Winners(a, op, op.Set().Keys) == Winners(b, op, op.Set().Keys);
    if a.delHlc != b.delHlc {
      MergedKeepsCover(a, op);
      MergedKeepsCover(b, op);
    }
  }

  lemma AlikeDelete(a: Row, b: Row, op: RowOp)
    requires Alike(a, b) && op.op == Delete
    ensures var x, y := Step(Some(a), op), Step(Some(b), op);
            x.Some? && y.Some? && Alike(x.value, y.value)
  {
    AlikeMax(a, b);
  }

  lemma AlikeStep(a: Row, b: Row, op: RowOp)
    requires Alike(a, b)
    ensures var x, y := Step(Some(a), op), Step(Some(b), op);
            x.Some? && y.Some? && Alike(x.value, y.value)
  {
    if op.op == Delete {
      AlikeDelete(a, b, op);
    } else if !a.deleted {
      AlikeMerge(a, b, op);
    } else {
      AlikeMerge(a.(deleted := false, fields := map[], clocks := map[]),
                 b.(deleted := false, fields := map[], clocks := map[]), op);
    }
  }

  /** Alike rows stay alike, whatever comes. */
  lemma {:induction false} AlikeForEver(a: Row, b: Row, later: seq<RowOp>)
    requires Alike(a, b)
    ensures var x, y := Fold(Some(a), later), Fold(Some(b), later);
            x.Some? && y.Some? && Alike(x.value, y.value)
  {
    if later != [] {
      var front, last := later[..|later| - 1], later[|later| - 1];
      AlikeForEver(a, b, front);
      AlikeStep(Fold(Some(a), front).value, Fold(Some(b), front).value, last);
    }
  }

  // ── what tells a row from its re-seeded copy ────────────────────────────

  function Reseeded(row: Row): Option<Row> {
    Step(None, RowToSeedOp(row))
  }

  /** No later run shows readers a difference between the row and its re-seeded copy. */
  ghost predicate Indistinguishable(row: Row) {
    forall later: seq<RowOp> :: Visible(Fold(Some(row), later)) == Visible(Fold(Reseeded(row), later))
  }

  lemma FoldOne(row: Option<Row>, op: RowOp)
    ensures Fold(row, [op]) == Step(row, op)
  {
    assert [op][..0] == [];
  }

  /** What the copy of a live row is: its fields, their clocks and nothing else. */
  lemma CopyOf(row: Row)
    requires WellFormed(row) && !row.deleted
    ensures Reseeded(row) == Some(Row(row.kind, row.id, 0, false, None, row.fields, FieldClocks(row)))
  {
    SeedRebuilds(row);
  }

  /** A write to a cleared field at the very clock of the clearing lands in the copy only. */
  lemma ClearedFieldTells(row: Row, k: string)
    requires WellFormed(row) && !row.deleted && k in row.clocks && k !in row.fields
    ensures !Indistinguishable(row)
  {
    TotalOrder();
    var op := RowOp(row.kind, row.id, Update, Some(map[k := Json("")]), row.clocks[k], None);
    CopyOf(row);
    MergedField(row, op, k);
    MergedField(Reseeded(row).value, op, k);
    FoldOne(Some(row), op);
    FoldOne(Reseeded(row), op);
    assert k !in Visible(Fold(Some(row), [op])).value && k in Visible(Fold(Reseeded(row), [op])).value;
  }

  /**
   * Which deletes the row outlives and its copy does not: those no newer than
   * the row's newest clock, tombstone stamp and clocks of cleared fields
   * included, but newer than the clock of every field it still has.
   */
  lemma SeedForgetsDeletes(row: Row, del: RowOp)
    requires WellFormed(row) && !row.deleted && del.op == Delete
    ensures Visible(Step(Some(row), del)) != Visible(Step(Reseeded(row), del)) <==>
            && !Newer(del.hlc, MaxClock(row))
            && forall k | k in row.fields :: Less(row.clocks[k], del.hlc)
  {
    TotalOrder();
    CopyOf(row);
    var copy := Reseeded(row).value;
    forall c ensures c in AllClocks(copy) <==> exists k | k in row.fields :: row.clocks[k] == c {
      if c in AllClocks(copy) {
        var k :| k in copy.clocks && copy.clocks[k] == c;
        assert k in row.fields && row.clocks[k] == c;
      }
      if exists k | k in row.fields :: row.clocks[k] == c {
        var k :| k in row.fields && row.clocks[k] == c;
        assert k in copy.clocks && copy.clocks[k] == c;
      }
    }
    forall k | k in row.fields ensures row.clocks[k] in AllClocks(row) && row.clocks[k] in AllClocks(copy) {
      assert copy.clocks[k] == row.clocks[k];
    }
    if Newer(del.hlc, MaxClock(copy)) {
      assert forall k | k in row.fields :: Less(row.clocks[k], del.hlc);
    }
  }

  /** A tombstone stamp newer than every field tells: a delete of that stamp kills the copy only. */
  lemma StampTells(row: Row)
    requires WellFormed(row) && !row.deleted && !StampCovered(row)
    ensures !Indistinguishable(row)
  {
    TotalOrder();
    var del := RowOp(row.kind, row.id, Delete, None, row.delHlc.value, None);
    assert row.delHlc.value in AllClocks(row);
    SeedForgetsDeletes(row, del);
    FoldOne(Some(row), del);
    FoldOne(Reseeded(row), del);
    assert Visible(Fold(Some(row), [del])) != Visible(Fold(Reseeded(row), [del]));
  }

  /**
   * Recovery never coarsens causality, exactly: a row taken back from its seed
   * is, to readers and under any later ops, the row it was if and only if it is
   * a tombstone, or it has no cleared field and its tombstone stamp, if it was
   * ever revived, is no newer than some field. Its server seq plays no part.
   */
  lemma ReseedExactly(row: Row)
    requires WellFormed(row)
    ensures Indistinguishable(row) <==> row.deleted || (row.clocks.Keys == row.fields.Keys && StampCovered(row))
  {
    SeedRebuilds(row);
    if row.deleted || (row.clocks.Keys == row.fields.Keys && StampCovered(row)) {
      assert FieldClocks(row) == row.clocks;
      forall later: seq<RowOp> ensures Visible(Fold(Some(row), later)) == Visible(Fold(Reseeded(row), later)) {
        AlikeForEver(row, Reseeded(row).value, later);
      }
    } else if row.clocks.Keys != row.fields.Keys {
      var k :| k in row.clocks && k !in row.fields;
      ClearedFieldTells(row, k);
    } else {
      StampTells(row);
    }
  }

  // ── a seed that meets a row of its name ─────────────────────────────────

  /**
   * When a live row's seed brings a deleted row of its name back: if something
   * on the row, cleared fields and its own old tombstone included, is newer
   * than the tombstone it meets. It then shows the row's fields under their
   * clocks; otherwise it changes nothing.
   */
  lemma SeedRevivesExactly(row: Row, grave: Row)
    requires WellFormed(row) && !row.deleted && AllClocks(row) != {} && WellFormed(grave) && grave.deleted
    ensures var after := Step(Some(grave), RowToSeedOp(row));
            if exists c | c in AllClocks(row) :: Less(grave.delHlc.value, c)
            then after.Some? && !after.value.deleted && after.value.fields == row.fields &&
                 after.value.clocks == FieldClocks(row)
            else after == Some(grave)
  {
    TotalOrder();
    var op, m := RowToSeedOp(row), MaxClock(row).value;
    if exists c | c in AllClocks(row) :: Less(grave.delHlc.value, c) {
      var c :| c in AllClocks(row) && Less(grave.delHlc.value, c);
      assert c == m || Less(c, m);
      var base := grave.(deleted := false, fields := map[], clocks := map[]);
      assert Winners(base, op, op.Set().Keys) == row.fields.Keys;
      var r := Step(Some(grave), op).value;
      assert r.fields == row.fields && r.clocks == FieldClocks(row);
    }
  }

  /** When a tombstone's seed kills a live row of its name: if it is newer than everything on it. */
  lemma SeedKillsExactly(grave: Row, row: Row)
    requires WellFormed(grave) && grave.deleted && WellFormed(row) && !row.deleted
    ensures var after := Step(Some(row), RowToSeedOp(grave));
            if forall c | c in AllClocks(row) :: Less(c, grave.delHlc.value)
            then after.Some? && after.value.deleted && after.value.delHlc == grave.delHlc
            else after == Some(row)
  {
    TotalOrder();
    var m := MaxClock(row);
    assert m.Some? ==> m.value in AllClocks(row);
  }

  /** The stamp of a seed for a row without clocks is older than any stamp a clock gives. */
  lemma SeedClockIsOldest(ms: nat, counter: nat, device: string)
    requires 0 < ms < MS_LIMIT && counter <= COUNTER_MAX
    ensures Less(SEED_CLOCK, EncodeHlc(ms, counter, device))
  {
    HlcOrder(0, 0, "seed", ms, counter, device);
  }
}
