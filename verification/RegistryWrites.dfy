/** What local writes and deletes show to the replica's own reader, and how a reader learns of a change. */
module RegistryWrites {
  import opened Wrappers
  import opened LexOrder
  import opened Hlc
  import opened Registry
  import opened RegistryMerge
  import opened RegistryRedelivery
  import opened RegistryReplica
  import opened RegistryFrames
  import opened RegistryProtocol

  // ── what is expected of a write ─────────────────────────────────────────

  /** A field of a row: its value, if it has one, and the clock it stands under. */
  datatype Field = Field(value: Option<Registry.Value>, clock: Option<Clock>)

  /** A field as readers find it; rows that are missing or deleted have none. */
  function FieldIn(row: Option<Row>, k: string): Field {
    if Live(row) then Field(Get(row.value.fields, k), Get(row.value.clocks, k)) else Field(None, None)
  }

  /** A field somebody wrote to: the newer of the two stays, and null is no value. */
  function Rewritten(old_: Field, value: Registry.Value, stamp: Clock): Field {
    if old_.clock.Some? && !Less(old_.clock.value, stamp) then old_
    else Field(if value == Registry.Null then None else Some(value), Some(stamp))
  }

  /** The row is live under its name, and its fields are the old ones with the newer writes over them. */
  ghost predicate TookWrites(before: Option<Row>, after: Option<Row>, key: Key, set_: map<string, Registry.Value>,
                             stamp: Clock)
  {
    && Live(after) && KeyOf(after.value) == key
    && forall k :: FieldIn(after, k) ==
                   if k in set_ then Rewritten(FieldIn(before, k), set_[k], stamp) else FieldIn(before, k)
  }

  /** Deleted, unless something on the row is as new as the stamp. */
  predicate TookDelete(before: Option<Row>, after: Option<Row>, key: Key, stamp: Clock) {
    if before.Some? && exists c | c in AllClocks(before.value) :: !Less(c, stamp) then after == before
    else after.Some? && KeyOf(after.value) == key && after.value.deleted && after.value.fields == map[] &&
         AllClocks(after.value) == {stamp}
  }

  ghost predicate TookOp(before: Option<Row>, after: Option<Row>, key: Key, op: OpKind,
                         set_: map<string, Registry.Value>, stamp: Clock)
  {
    match op
    case Update => if Live(before) then TookWrites(before, after, key, set_, stamp) else after == before
    case Upsert =>
      if before.Some? && before.value.deleted && !Less(before.value.delHlc.GetOr(""), stamp) then after == before
      else TookWrites(before, after, key, set_, stamp)
    case Delete => TookDelete(before, after, key, stamp)
  }

  // ── writes ──────────────────────────────────────────────────────────────

  lemma OverlaySound(s: State, key: Key)
    requires SoundRows(s.rows)
    ensures WellFormedOrMissing(Overlaid(s, key))
  {
    FoldWellFormed(GetRow(s.rows, key), OpsOn(AllOps(s.pending), key));
  }

  lemma {:induction false} FoldNamed(row: Option<Row>, ops: seq<RowOp>, key: Key)
    requires row.Some? ==> KeyOf(row.value) == key
    requires forall i | 0 <= i < |ops| :: OpKey(ops[i]) == key
    ensures Fold(row, ops).Some? ==> KeyOf(Fold(row, ops).value) == key
  {
    if ops != [] {
      FoldNamed(row, ops[..|ops| - 1], key);
    }
  }

  lemma {:induction false} OpsOnNamed(ops: seq<RowOp>, key: Key)
    ensures forall i | 0 <= i < |OpsOn(ops, key)| :: OpKey(OpsOn(ops, key)[i]) == key
  {
    if ops != [] {
      OpsOnNamed(ops[..|ops| - 1], key);
    }
  }

  lemma OverlayNamed(s: State, key: Key)
    requires SoundRows(s.rows) && Overlaid(s, key).Some?
    ensures KeyOf(Overlaid(s, key).value) == key
  {
    OpsOnNamed(AllOps(s.pending), key);
    FoldNamed(GetRow(s.rows, key), OpsOn(AllOps(s.pending), key), key);
  }

  /** Ops enqueued behind the queue are folded over what was shown. */
  lemma OverlayBehind(s: State, after: State, ops: seq<RowOp>, key: Key)
    requires after.rows == s.rows && AllOps(after.pending) == AllOps(s.pending) + ops
    ensures Overlaid(after, key) == Fold(Overlaid(s, key), OpsOn(ops, key))
  {
    OpsOnConcat(AllOps(s.pending), ops, key);
    FoldConcat(GetRow(s.rows, key), OpsOn(AllOps(s.pending), key), OpsOn(ops, key));
  }

  lemma OneOp(row: Option<Row>, op: RowOp, key: Key)
    ensures Fold(row, OpsOn([op], key)) == if OpKey(op) == key then Step(row, op) else row
  {
    assert [op][..0] == [];
    assert OpsOn([op][..0], key) == [];
    if OpKey(op) == key {
      assert OpsOn([op], key) == [op];
    } else {
      assert OpsOn([op], key) == [];
    }
  }

  lemma MergeTakesWrites(before: Option<Row>, base: Row, after: Option<Row>, op: RowOp, stamp: Clock)
    requires op.clocks.None? && op.hlc == stamp && !base.deleted && KeyOf(base) == OpKey(op)
    requires after == Some(Merged(base, op, op.Set().Keys))
    requires forall k :: FieldIn(before, k) == FieldIn(Some(base), k)
    ensures TookWrites(before, after, OpKey(op), op.Set(), stamp)
  {
    forall k
      ensures FieldIn(after, k) ==
              if k in op.Set() then Rewritten(FieldIn(before, k), op.Set()[k], stamp) else FieldIn(before, k)
    {
      MergedField(base, op, k);
      assert FieldIn(before, k) == FieldIn(Some(base), k);
    }
  }

  lemma StepTakesOp(before: Option<Row>, op: RowOp)
    requires WellFormedOrMissing(before) && op.clocks.None?
    requires before.Some? ==> KeyOf(before.value) == OpKey(op)
    ensures TookOp(before, Step(before, op), OpKey(op), op.op, op.Set(), op.hlc)
  {
    TotalOrder();
    if op.op == Delete {
      if before.Some? && before.value.deleted {
        TombstoneMax(before.value);
      }
    } else if before.None? {
      if op.op == Upsert {
        MergeTakesWrites(before, FreshRow(op.kind, op.id), Step(before, op), op, op.hlc);
      }
    } else if before.value.deleted {
      if op.op == Upsert && Newer(op.hlc, before.value.delHlc) {
        var base := before.value.(deleted := false, fields := map[], clocks := map[]);
        MergeTakesWrites(before, base, Step(before, op), op, op.hlc);
      }
    } else {
      MergeTakesWrites(before, before.value, Step(before, op), op, op.hlc);
    }
  }

  /**
   * Read your writes. A write shows at once, under the stamp it was given: of
   * the row of that name every field written holds the new value, or none for
   * a null, unless what it held was as new; an update of a row that is not
   * there shows nothing, and a create revives a deleted row unless its
   * tombstone is as new. No other row changes.
   */
  lemma ReadYourWrites(s: State, key: Key, op: OpKind, set_: map<string, Registry.Value>, now: nat -> int)
    returns (stamp: Clock)
    requires SoundRows(s.rows)
    ensures stamp == Stamp(Tick(s.clock, now(0)), s.deviceId)
    ensures TookOp(Overlaid(s, key), Overlaid(Write(s, key, op, set_, now), key), key, op, set_, stamp)
    ensures forall other | other != key :: Overlaid(Write(s, key, op, set_, now), other) == Overlaid(s, other)
  {
    var after, queued := Write(s, key, op, set_, now), WriteOp(s, key, op, set_, now);
    stamp := Stamp(Tick(s.clock, now(0)), s.deviceId);
    EnqueueConserves(s.(clock := Tick(s.clock, now(0))), [queued], now, 1);
    forall other: Key
      ensures Overlaid(after, other) == if other == key then Step(Overlaid(s, key), queued) else Overlaid(s, other)
    {
      OverlayBehind(s, after, [queued], other);
      OneOp(Overlaid(s, other), queued, other);
    }
    OverlaySound(s, key);
    if Overlaid(s, key).Some? {
      OverlayNamed(s, key);
    }
    StepTakesOp(Overlaid(s, key), queued);
  }

  // ── deletes ─────────────────────────────────────────────────────────────

  predicate SameDeletes(ops: seq<RowOp>, key: Key, stamp: Clock) {
    forall i | 0 <= i < |ops| :: ops[i] == RowOp(key.0, key.1, Delete, None, stamp, None)
  }

  lemma {:induction false} DeletesOn(ops: seq<RowOp>, key: Key, stamp: Clock)
    requires forall i | 0 <= i < |ops| :: ops[i] == RowOp(OpKey(ops[i]).0, OpKey(ops[i]).1, Delete, None, stamp, None)
    ensures SameDeletes(OpsOn(ops, key), key, stamp)
    ensures OpsOn(ops, key) != [] <==> exists i | 0 <= i < |ops| :: OpKey(ops[i]) == key
  {
    if ops != [] {
      var front, last := ops[..|ops| - 1], ops[|ops| - 1];
      DeletesOn(front, key, stamp);
      assert forall i | 0 <= i < |front| :: front[i] == ops[i];
      if OpKey(last) == key {
        assert OpsOn(ops, key) == OpsOn(front, key) + [last];
      } else {
        assert OpsOn(ops, key) == OpsOn(front, key);
      }
    }
  }

  /** The same delete once more changes nothing. */
  lemma {:induction false} DeletesFold(before: Option<Row>, ops: seq<RowOp>, key: Key, stamp: Clock)
    requires WellFormedOrMissing(before) && (before.Some? ==> KeyOf(before.value) == key)
    requires ops != [] && SameDeletes(ops, key, stamp)
    ensures TookDelete(before, Fold(before, ops), key, stamp)
  {
    TotalOrder();
    var front, last := ops[..|ops| - 1], ops[|ops| - 1];
    if front == [] {
      StepTakesOp(before, last);
    } else {
      DeletesFold(before, front, key, stamp);
      var mid := Fold(before, front);
      FoldWellFormed(before, front);
      StepTakesOp(mid, last);
      assert stamp in AllClocks(mid.value) || mid == before;
    }
  }

  /**
   * A delete shows at once: each listed row is gone, all under one stamp,
   * unless something on it is as new; listed twice is listed once; and no
   * other row changes.
   */
  lemma DeletesShow(s: State, keys: seq<Key>, now: nat -> int, key: Key) returns (stamp: Clock)
    requires SoundRows(s.rows)
    ensures stamp == Stamp(Tick(s.clock, now(0)), s.deviceId)
    ensures var before, after := Overlaid(s, key), Overlaid(DeleteRows(s, keys, now), key);
            if key in keys then TookDelete(before, after, key, stamp) else after == before
  {
    var after, ops := DeleteRows(s, keys, now), DeleteOps(s, keys, now);
    stamp := Stamp(Tick(s.clock, now(0)), s.deviceId);
    EnqueueConserves(s.(clock := Tick(s.clock, now(0))), ops, now, 1);
    OverlayBehind(s, after, ops, key);
    DeletesOn(ops, key, stamp);
    assert key in keys <==> exists i | 0 <= i < |ops| :: OpKey(ops[i]) == key by {
      assert forall i | 0 <= i < |ops| :: OpKey(ops[i]) == keys[i];
    }
    OverlaySound(s, key);
    if Overlaid(s, key).Some? {
      OverlayNamed(s, key);
    }
    if key in keys {
      DeletesFold(Overlaid(s, key), OpsOn(ops, key), key, stamp);
    }
  }

  // ── the change counter ──────────────────────────────────────────────────

  lemma {:induction false} WithoutShrinks(bs: seq<Batch>, batch: string)
    ensures |Without(bs, batch)| <= |bs| && (|Without(bs, batch)| == |bs| ==> Without(bs, batch) == bs)
  {
    if bs != [] {
      var front, last := bs[..|bs| - 1], bs[|bs| - 1];
      WithoutShrinks(front, batch);
      var kept := Without(front, batch);
      if last.id == batch {
        assert Without(bs, batch) == kept;
      } else {
        assert Without(bs, batch) == kept + [last];
        assert bs == front + [last];
      }
    }
  }

  /** A reader that saw the counter need not look again until it moves: nothing it reads has changed. */
  lemma GenerationTells(s: State, e: Event, key: Key)
    requires Enabled(s, e) && !e.Restarted?
    ensures NextState(s, e).generation >= s.generation
    ensures NextState(s, e).generation == s.generation ==> Overlaid(NextState(s, e), key) == Overlaid(s, key)
  {
    match e {
      case Acked(batch, _) => WithoutShrinks(s.pending, batch);
      case Pushed => AllOpsFlagged(s.pending, true);
      case LostConnection => AllOpsFlagged(s.pending, false);
      case DeletedRows(keys, now) =>
        EnqueueConserves(s.(clock := Tick(s.clock, now(0))), DeleteOps(s, keys, now), now, 1);
        if keys == [] {
          assert AllOps(s.pending) + DeleteOps(s, keys, now) == AllOps(s.pending);
        }
      case _ =>
    }
  }
}
