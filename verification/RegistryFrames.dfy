/** What server frames, re-seeding and acks do to what a reader is shown. */
module RegistryFrames {
  import opened Wrappers
  import opened LexOrder
  import opened Hlc
  import opened Registry
  import opened RegistryMerge
  import opened RegistryRedelivery
  import opened RegistryReplica

  // ── re-seeding one row ──────────────────────────────────────────────────

  /** Seeding a row onto itself changes nothing. */
  lemma SeedIsNoOpOnItself(row: Row)
    requires WellFormed(row)
    ensures ApplyOp(Some(row), RowToSeedOp(row)) == Applied(Some(row), false)
  {
    TotalOrder();
    if !row.deleted {
      var op := RowToSeedOp(row);
      assert Winners(row, op, op.Set().Keys) == {};
      assert Merged(row, op, op.Set().Keys) == row;
    }
  }

  /** Same row to a reader: existence, name, fields, and the clocks of those fields. */
  predicate SameShown(a: Row, b: Row) {
    a.deleted == b.deleted && KeyOf(a) == KeyOf(b) && a.fields == b.fields &&
    forall k | k in a.fields :: Get(a.clocks, k) == Get(b.clocks, k)
  }

  /** The clocks of the fields a row still has. */
  function FieldClocks(row: Row): map<string, Clock> {
    map k | k in row.clocks && k in row.fields :: row.clocks[k]
  }

  /**
   * A seed rebuilds a lost row's fields and their clocks, or its tombstone
   * stamp; it rebuilds the row whole exactly when the row carries nothing
   * besides: no server seq, no earlier tombstone stamp, no clock of a field
   * that was cleared.
   */
  lemma SeedRebuilds(row: Row)
    requires WellFormed(row)
    ensures var seeded := Step(None, RowToSeedOp(row));
            seeded.Some? && WellFormed(seeded.value) && SameShown(seeded.value, row) &&
            seeded.value.clocks == FieldClocks(row) &&
            (row.deleted ==> seeded.value.delHlc == row.delHlc) &&
            (seeded.value == row <==>
              row.serverSeq == 0 && (row.deleted || (row.delHlc.None? && row.clocks.Keys == row.fields.Keys)))
  {
    var op := RowToSeedOp(row);
    StepWellFormed(None, op);
    if !row.deleted {
      var base := FreshRow(row.kind, row.id);
      var r := Step(None, op).value;
      assert Winners(base, op, op.Set().Keys) == row.fields.Keys;
      assert r.fields == row.fields;
      assert r.clocks == FieldClocks(row);
      assert row.clocks == FieldClocks(row) <==> row.clocks.Keys == row.fields.Keys by {
        assert FieldClocks(row).Keys == row.fields.Keys;
      }
    }
  }

  /**
   * So re-seeding does coarsen causality for cleared fields: a write older
   * than the clearing loses to the row but lands in its re-seeded copy.
   */
  lemma SeedForgetsClearedFields(row: Row, op: RowOp, k: string)
    requires WellFormed(row) && !row.deleted && k in row.clocks && k !in row.fields
    requires op.op != Delete && k in op.Set() && op.Set()[k] != Null && Less(op.ClockFor(k), row.clocks[k])
    ensures k !in Step(Some(row), op).value.fields
    ensures var seeded := Step(None, RowToSeedOp(row));
            k in Step(seeded, op).value.fields
  {
    TotalOrder();
    SeedRebuilds(row);
    MergedField(row, op, k);
    MergedField(Step(None, RowToSeedOp(row)).value, op, k);
  }

  // ── the pending queue as a list of ops ──────────────────────────────────

  lemma {:induction false} AllOpsConcat(a: seq<Batch>, b: seq<Batch>)
    ensures AllOps(a + b) == AllOps(a) + AllOps(b)
    decreases |b|
  {
    if b == [] {
      assert a + b == a;
    } else {
      assert (a + b)[..|a + b| - 1] == a + b[..|b| - 1];
      AllOpsConcat(a, b[..|b| - 1]);
    }
  }

  lemma AllOpsCons(b: Batch, bs: seq<Batch>)
    ensures AllOps([b] + bs) == b.ops + AllOps(bs)
  {
    AllOpsConcat([b], bs);
    assert [b][..0] == [];
    assert AllOps([b]) == [] + b.ops;
  }

  lemma ToBatchesCons(first: Minted, rest: seq<Minted>)
    ensures ToBatches([first] + rest) == [ToBatch(first)] + ToBatches(rest)
  {
  }

  lemma AllOpsOfMinted(first: Minted, rest: seq<Minted>)
    ensures AllOps(ToBatches([first] + rest)) == first.ops + AllOps(ToBatches(rest))
  {
    ToBatchesCons(first, rest);
    AllOpsCons(ToBatch(first), ToBatches(rest));
  }

  lemma {:induction false} MintConserves(clock: ClockState, device: string, ops: seq<RowOp>, now: nat -> int, i: nat)
    ensures AllOps(ToBatches(Mint(clock, device, ops, now, i))) == ops
    decreases |ops|
  {
    if ops == [] {
      assert ToBatches(Mint(clock, device, ops, now, i)) == [];
    } else {
      var n := ChunkSize(ops);
      var tick := Tick(clock, now(i));
      MintConserves(tick, device, ops[n..], now, i + 1);
      AllOpsOfMinted(Minted(tick, device, ops[..n]), Mint(tick, device, ops[n..], now, i + 1));
      assert ops[..n] + ops[n..] == ops;
    }
  }

  /** No batch is cut early: as many as it takes at four hundred ops each. */
  lemma {:induction false} MintsFewBatches(clock: ClockState, device: string, ops: seq<RowOp>, now: nat -> int, i: nat)
    ensures |Mint(clock, device, ops, now, i)| == (|ops| + 399) / 400
    decreases |ops|
  {
    if ops != [] {
      MintsFewBatches(Tick(clock, now(i)), device, ops[ChunkSize(ops)..], now, i + 1);
    }
  }

  /** Enqueueing adds the ops at the end of the queue, all of them, in order. */
  lemma EnqueueConserves(s: State, ops: seq<RowOp>, now: nat -> int, i: nat)
    ensures AllOps(Enqueue(s, ops, now, i).pending) == AllOps(s.pending) + ops
  {
    AllOpsConcat(s.pending, ToBatches(Mint(s.clock, s.deviceId, ops, now, i)));
    MintConserves(s.clock, s.deviceId, ops, now, i);
  }

  // ── state frames ────────────────────────────────────────────────────────

  /** Rows sit under their own names and are well formed. */
  ghost predicate SoundRows(rows: map<Key, Row>) {
    forall k | k in rows :: KeyOf(rows[k]) == k && WellFormed(rows[k])
  }

  lemma {:induction false} PutAllSound(rows: map<Key, Row>, frame: seq<Row>)
    requires SoundRows(rows) && forall r | r in frame :: WellFormed(r)
    ensures SoundRows(PutAll(rows, frame))
  {
    if frame != [] {
      assert frame[|frame| - 1] in frame && forall r | r in frame[..|frame| - 1] :: r in frame;
      PutAllSound(rows, frame[..|frame| - 1]);
    }
  }

  lemma {:induction false} PutAllElsewhere(rows: map<Key, Row>, frame: seq<Row>, key: Key)
    requires forall r | r in frame :: KeyOf(r) != key
    ensures GetRow(PutAll(rows, frame), key) == GetRow(rows, key)
  {
    if frame != [] {
      assert frame[|frame| - 1] in frame && forall r | r in frame[..|frame| - 1] :: r in frame;
      PutAllElsewhere(rows, frame[..|frame| - 1], key);
    }
  }

  lemma FrontLists(order: seq<Key>, keys: set<Key>)
    requires Lists(order, keys) && order != []
    ensures var last := order[|order| - 1];
            last in keys && Lists(order[..|order| - 1], keys - {last})
  {
    var front, last := order[..|order| - 1], order[|order| - 1];
    assert last in order;
    forall k | k in keys - {last} ensures k in front {
      assert k in order;
    }
    assert forall k | k in front :: k in order;
  }

  lemma SeedsSnoc(rows: map<Key, Row>, order: seq<Key>)
    requires order != [] && forall k | k in order :: k in rows
    ensures var front, last := order[..|order| - 1], order[|order| - 1];
            SeedOps(rows, order) == SeedOps(rows, front) + [RowToSeedOp(rows[last])]
  {
  }

  lemma OpsOnSnoc(ops: seq<RowOp>, op: RowOp, key: Key)
    ensures OpsOn(ops + [op], key) == OpsOn(ops, key) + if OpKey(op) == key then [op] else []
  {
    assert (ops + [op])[..|ops|] == ops;
  }

  lemma {:induction false} SeedsOn(rows: map<Key, Row>, order: seq<Key>, keys: set<Key>, key: Key)
    requires SoundRows(rows) && keys <= rows.Keys && Lists(order, keys)
    ensures OpsOn(SeedOps(rows, order), key) == if key in keys then [RowToSeedOp(rows[key])] else []
    decreases |order|
  {
    if order != [] {
      var front, last := order[..|order| - 1], order[|order| - 1];
      FrontLists(order, keys);
      SeedsOn(rows, front, keys - {last}, key);
      SeedsSnoc(rows, order);
      assert OpKey(RowToSeedOp(rows[last])) == last;
      OpsOnSnoc(SeedOps(rows, front), RowToSeedOp(rows[last]), key);
    } else {
      assert keys == {};
    }
  }

  /** A reader sees the same: both absent, or the same fields under the same clocks. */
  predicate ReadsSame(a: Option<Row>, b: Option<Row>) {
    (a.None? && b.None?) || (a.Some? && b.Some? && SameShown(a.value, b.value))
  }

  /** The overlay of an unmentioned row after a frame: its pending ops, and behind them its seed, if it is seeded. */
  lemma UnmentionedOverlay(s: State, seq_: nat, full: bool, gcFloor: nat, frame: seq<Row>, order: seq<Key>,
                           now: nat -> int, key: Key)
    requires SoundRows(s.rows) && Lists(order, SeedKeys(s, seq_, full, frame))
    requires forall r | r in frame :: KeyOf(r) != key
    ensures var after := ApplyState(s, seq_, full, gcFloor, frame, order, now);
            var seeds := if key in SeedKeys(s, seq_, full, frame) then [RowToSeedOp(s.rows[key])] else [];
            Overlaid(after, key) ==
              Fold(if full && seq_ >= s.serverSeq then None else GetRow(s.rows, key),
                   OpsOn(AllOps(s.pending), key) + seeds)
  {
    var base := if full && seq_ >= s.serverSeq then map[] else s.rows;
    var mid := s.(rows := PutAll(base, frame), serverSeq := seq_, gcFloor := gcFloor, generation := s.generation + 1);
    EnqueueConserves(mid, SeedOps(s.rows, order), now, 0);
    OpsOnConcat(AllOps(s.pending), SeedOps(s.rows, order), key);
    SeedsOn(s.rows, order, SeedKeys(s, seq_, full, frame), key);
    PutAllElsewhere(base, frame, key);
  }

  /**
   * No state frame loses a row it does not mention: for a key absent from the
   * frame and untouched by pending ops, a reader sees the same before and
   * after, whether the frame is a delta, a full replacement or a server that
   * lost its storage.
   */
  lemma StateFrameKeepsUnmentioned(s: State, seq_: nat, full: bool, gcFloor: nat, frame: seq<Row>, order: seq<Key>,
                                   now: nat -> int, key: Key)
    requires SoundRows(s.rows) && Lists(order, SeedKeys(s, seq_, full, frame))
    requires forall r | r in frame :: KeyOf(r) != key
    requires OpsOn(AllOps(s.pending), key) == []
    ensures ReadsSame(OverlayRow(s, key), OverlayRow(ApplyState(s, seq_, full, gcFloor, frame, order, now), key))
  {
    UnmentionedOverlay(s, seq_, full, gcFloor, frame, order, now, key);
    var seeds := if key in SeedKeys(s, seq_, full, frame) then [RowToSeedOp(s.rows[key])] else [];
    assert [] + seeds == seeds;
    if full && seq_ >= s.serverSeq {
      PutAllElsewhere(map[], frame, key);
      assert key in SeedKeys(s, seq_, full, frame) <==> key in s.rows;
    }
    if key in s.rows {
      var op := RowToSeedOp(s.rows[key]);
      SeedIsNoOpOnItself(s.rows[key]);
      SeedRebuilds(s.rows[key]);
      assert [op][..0] == [];
      assert Fold(None, [op]) == Step(None, op);
      assert Fold(Some(s.rows[key]), [op]) == Step(Some(s.rows[key]), op);
    }
  }

  /** Frames keep the row table sound, so the theorem applies to every replica a run can reach. */
  lemma StateFrameKeepsSound(s: State, seq_: nat, full: bool, gcFloor: nat, frame: seq<Row>, order: seq<Key>,
                             now: nat -> int)
    requires SoundRows(s.rows) && Lists(order, SeedKeys(s, seq_, full, frame))
    requires forall r | r in frame :: WellFormed(r)
    ensures SoundRows(ApplyState(s, seq_, full, gcFloor, frame, order, now).rows)
  {
    PutAllSound(if full && seq_ >= s.serverSeq then map[] else s.rows, frame);
  }

  // ── broadcast, then ack ─────────────────────────────────────────────────

  /**
   * When optimistic writes do not flicker. The server's row holds a pending
   * batch and whatever it merged from other writers since; its broadcast can
   * arrive before the ack. Once the batch is dropped a reader sees the server's
   * merge and the writes behind the batch. Until then the batch is replayed over
   * that merge, which shows the same if and only if: the row is live, and it was
   * live all along or every write of the batch before it last came to life was
   * written again since; or it is dead, and no upsert of the batch outranks the
   * tombstone. A batch that creates or revives the row with only deletes before
   * meets this; one whose earlier writes a delete wiped need not.
   */
  lemma BroadcastThenAckIsSeamless(row: Option<Row>, ops: seq<RowOp>, others: seq<RowOp>)
    requires WellFormedOrMissing(row)
    ensures forall rest: seq<RowOp> :: Fold(Fold(row, ops + others), rest) == Fold(row, ops + others + rest)
    ensures var now, birth := Fold(row, ops + others), LastBirth(row, ops + others);
            (forall rest: seq<RowOp> :: Fold(now, ops + rest) == Fold(now, rest)) <==>
            if Live(now) then birth.None? || RewrittenSince(ops + others, |ops|, birth.value)
            else NoneOutranks(now, ops)
  {
    var now := Fold(row, ops + others);
    FoldConcat(row, ops, others);
    ReplayExactly(row, ops, others);
    DeafOverRuns(row, ops + others, |ops|);
    assert (ops + others)[..|ops|] == ops && forall i | 0 <= i < |ops| :: (ops + others)[i] == ops[i];
    forall rest: seq<RowOp>
      ensures Fold(now, rest) == Fold(row, ops + others + rest) && Fold(now, ops + rest) == Fold(Fold(now, ops), rest)
    {
      FoldConcat(row, ops + others, rest);
      FoldConcat(now, ops, rest);
    }
    assert ops + [] == ops;
    if forall rest: seq<RowOp> :: Fold(now, ops + rest) == Fold(now, rest) {
      assert Fold(now, ops + []) == Fold(now, []);
    }
  }

  /** A state frame says it made the replica seed if it found a cursor ahead of it, or if it queued anything. */
  lemma OutcomeTells(s: State, seq_: nat, full: bool, gcFloor: nat, frame: seq<Row>, order: seq<Key>, now: nat -> int)
    requires Lists(order, SeedKeys(s, seq_, full, frame))
    ensures var outcome := StateFrameOutcome(s, seq_, full, order);
            var after := ApplyState(s, seq_, full, gcFloor, frame, order, now);
            && (outcome == Delta <==> !full)
            && (outcome == Reseeded <==> full && (seq_ < s.serverSeq || |AllOps(after.pending)| > |AllOps(s.pending)|))
  {
    var base := if full && seq_ >= s.serverSeq then map[] else s.rows;
    EnqueueConserves(s.(rows := PutAll(base, frame), serverSeq := seq_, gcFloor := gcFloor,
                        generation := s.generation + 1), SeedOps(s.rows, order), now, 0);
  }
}
