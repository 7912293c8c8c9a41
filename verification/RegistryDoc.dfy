/**
 * The local registry replica: the server's rows, the local writes still
 * queued, and the clock that stamps them. `State` is the replica as a value;
 * `RegistryDoc` is the replica as the code keeps it.
 */
module RegistryReplica {
  import opened Wrappers
  import opened Sequences
  import opened Hlc
  import opened Registry

  /** Row kind and id: the two levels of the row table taken together. */
  type Key = (string, string)

  function KeyOf(row: Row): Key {
    (row.kind, row.id)
  }

  function OpKey(op: RowOp): Key {
    (op.kind, op.id)
  }

  datatype Batch = Batch(id: string, ops: seq<RowOp>, inFlight: bool)

  datatype StateOutcome = Delta | Replaced | Reseeded

  datatype State = State(
    deviceId: string,
    rows: map<Key, Row>,
    serverSeq: nat,
    gcFloor: nat,
    clock: ClockState,
    pending: seq<Batch>,
    generation: nat)

  function NewState(deviceId: string): State {
    State(deviceId, map[], 0, 0, InitialClock, [], 0)
  }

  // ── enqueueing ──────────────────────────────────────────────────────────

  const MAX_OPS_PER_BATCH: nat := 400

  /** A freshly cut batch, with the clock tick its id was made from. */
  datatype Minted = Minted(stamp: ClockState, device: string, ops: seq<RowOp>)

  function BatchId(stamp: ClockState, device: string): string {
    "b-" + Stamp(stamp, device)
  }

  function ToBatch(m: Minted): Batch {
    Batch(BatchId(m.stamp, m.device), m.ops, false)
  }

  function ToBatches(ms: seq<Minted>): (bs: seq<Batch>)
    ensures |bs| == |ms|
  {
    seq(|ms|, i requires 0 <= i < |ms| => ToBatch(ms[i]))
  }

  function ChunkSize(ops: seq<RowOp>): nat {
    if |ops| > MAX_OPS_PER_BATCH then MAX_OPS_PER_BATCH else |ops|
  }

  /** The batches `ops` is cut into; `now(i)` is the i-th reading of the wall clock. */
  function Mint(clock: ClockState, device: string, ops: seq<RowOp>, now: nat -> int, i: nat): seq<Minted>
    decreases |ops|
  {
    if ops == [] then []
    else
      var tick := Tick(clock, now(i));
      [Minted(tick, device, ops[..ChunkSize(ops)])] + Mint(tick, device, ops[ChunkSize(ops)..], now, i + 1)
  }

  /** Cutting the first batch off the rest. */
  lemma MintStep(done: seq<Minted>, clock: ClockState, device: string, rest: seq<RowOp>, now: nat -> int, i: nat)
    requires rest != []
    ensures var n := ChunkSize(rest);
            var cut := Minted(Tick(clock, now(i)), device, rest[..n]);
            && done + Mint(clock, device, rest, now, i) ==
               (done + [cut]) + Mint(cut.stamp, device, rest[n..], now, i + 1)
            && ToBatches(done + [cut]) == ToBatches(done) + [ToBatch(cut)]
  {
  }

  function LastStamp(clock: ClockState, ms: seq<Minted>): ClockState {
    if ms == [] then clock else ms[|ms| - 1].stamp
  }

  function Enqueue(s: State, ops: seq<RowOp>, now: nat -> int, i: nat): State {
    var minted := Mint(s.clock, s.deviceId, ops, now, i);
    s.(pending := s.pending + ToBatches(minted),
       clock := LastStamp(s.clock, minted),
       generation := if ops == [] then s.generation else s.generation + 1)
  }

  // ── local writes ────────────────────────────────────────────────────────

  function WriteOp(s: State, key: Key, op: OpKind, set_: map<string, Value>, now: nat -> int): RowOp {
    RowOp(key.0, key.1, op, Some(set_), Stamp(Tick(s.clock, now(0)), s.deviceId), None)
  }

  function Write(s: State, key: Key, op: OpKind, set_: map<string, Value>, now: nat -> int): State {
    Enqueue(s.(clock := Tick(s.clock, now(0))), [WriteOp(s, key, op, set_, now)], now, 1)
  }

  function DeleteOps(s: State, keys: seq<Key>, now: nat -> int): seq<RowOp> {
    var hlc := Stamp(Tick(s.clock, now(0)), s.deviceId);
    seq(|keys|, i requires 0 <= i < |keys| => RowOp(keys[i].0, keys[i].1, Delete, None, hlc, None))
  }

  function DeleteRows(s: State, keys: seq<Key>, now: nat -> int): State {
    Enqueue(s.(clock := Tick(s.clock, now(0))), DeleteOps(s, keys, now), now, 1)
  }

  // ── the push queue ──────────────────────────────────────────────────────

  function Pushable(bs: seq<Batch>): seq<Batch> {
    if bs == [] then []
    else
      var last := bs[|bs| - 1];
      Pushable(bs[..|bs| - 1]) + if last.inFlight then [] else [last.(inFlight := true)]
  }

  function Flagged(bs: seq<Batch>, inFlight: bool): (r: seq<Batch>)
    ensures |r| == |bs|
  {
    seq(|bs|, i requires 0 <= i < |bs| => bs[i].(inFlight := inFlight))
  }

  lemma {:induction false} AllPushable(bs: seq<Batch>)
    ensures Pushable(Flagged(bs, false)) == Flagged(bs, true)
  {
    if bs != [] {
      AllPushable(bs[..|bs| - 1]);
      var q := Flagged(bs, false);
      assert q[..|q| - 1] == Flagged(bs[..|bs| - 1], false);
    }
  }

  function TakePushable(s: State): State {
    s.(pending := Flagged(s.pending, true))
  }

  function MarkDisconnected(s: State): State {
    s.(pending := Flagged(s.pending, false))
  }

  /** The batches left when those called `batch` are retired. */
  function Without(bs: seq<Batch>, batch: string): seq<Batch> {
    if bs == [] then []
    else
      var last := bs[|bs| - 1];
      Without(bs[..|bs| - 1], batch) + if last.id == batch then [] else [last]
  }

  function Later(a: nat, b: nat): nat {
    if a > b then a else b
  }

  function AckBatch(s: State, batch: string, seq_: nat): State {
    var left := Without(s.pending, batch);
    s.(pending := left,
       serverSeq := Later(seq_, s.serverSeq),
       generation := if |left| != |s.pending| then s.generation + 1 else s.generation)
  }

  // ── server frames ───────────────────────────────────────────────────────

  function PutAll(rows: map<Key, Row>, frame: seq<Row>): map<Key, Row> {
    if frame == [] then rows
    else
      var last := frame[|frame| - 1];
      PutAll(rows, frame[..|frame| - 1])[KeyOf(last) := last]
  }

  /** `order` lists the keys once each: the order a hash map happens to iterate in. */
  predicate Lists(order: seq<Key>, keys: set<Key>) {
    && (forall k | k in order :: k in keys)
    && (forall k | k in keys :: k in order)
    && (forall i, j | 0 <= i < j < |order| :: order[i] != order[j])
  }

  function SeedOps(rows: map<Key, Row>, order: seq<Key>): seq<RowOp>
    requires forall k | k in order :: k in rows
  {
    seq(|order|, i requires 0 <= i < |order| => RowToSeedOp(rows[order[i]]))
  }

  /** The keys whose rows a state frame makes this replica seed again. */
  function SeedKeys(s: State, seq_: nat, full: bool, frame: seq<Row>): set<Key> {
    if !full then {}
    else if seq_ < s.serverSeq then s.rows.Keys
    else s.rows.Keys - PutAll(map[], frame).Keys
  }

  function ApplyState(s: State, seq_: nat, full: bool, gcFloor: nat, frame: seq<Row>, order: seq<Key>,
                      now: nat -> int): State
    requires Lists(order, SeedKeys(s, seq_, full, frame))
  {
    var base := if full && seq_ >= s.serverSeq then map[] else s.rows;
    Enqueue(s.(rows := PutAll(base, frame), serverSeq := seq_, gcFloor := gcFloor, generation := s.generation + 1),
            SeedOps(s.rows, order), now, 0)
  }

  function StateFrameOutcome(s: State, seq_: nat, full: bool, order: seq<Key>): StateOutcome {
    if !full then Delta else if seq_ < s.serverSeq || order != [] then Reseeded else Replaced
  }

  function ApplyRows(s: State, seq_: nat, frame: seq<Row>): State {
    s.(rows := PutAll(s.rows, frame), serverSeq := Later(seq_, s.serverSeq), generation := s.generation + 1)
  }

  // ── persistence ─────────────────────────────────────────────────────────

  /** The snapshot: batches are written without their in-flight flags. */
  datatype Snapshot = Snapshot(
    v: nat, deviceId: string, serverSeq: nat, gcFloor: nat, clock: ClockState,
    rows: seq<Row>, pending: seq<(string, seq<RowOp>)>)

  function RowsIn(rows: map<Key, Row>, order: seq<Key>): seq<Row>
    requires forall k | k in order :: k in rows
  {
    seq(|order|, i requires 0 <= i < |order| => rows[order[i]])
  }

  function Unflagged(bs: seq<Batch>): seq<(string, seq<RowOp>)> {
    seq(|bs|, i requires 0 <= i < |bs| => (bs[i].id, bs[i].ops))
  }

  function Save(s: State, order: seq<Key>): Snapshot
    requires Lists(order, s.rows.Keys)
  {
    Snapshot(1, s.deviceId, s.serverSeq, s.gcFloor, s.clock,
             RowsIn(s.rows, order), Unflagged(s.pending))
  }

  function Restore(snapshot: Snapshot, deviceId: string): Result<State, string> {
    if snapshot.v != 1 then Failure("unknown registry snapshot version")
    else Success(State(deviceId, PutAll(map[], snapshot.rows), snapshot.serverSeq, snapshot.gcFloor, snapshot.clock,
                       seq(|snapshot.pending|, i requires 0 <= i < |snapshot.pending| =>
                         Batch(snapshot.pending[i].0, snapshot.pending[i].1, false)),
                       0))
  }

  // ── overlay reads ───────────────────────────────────────────────────────

  function AllOps(bs: seq<Batch>): seq<RowOp> {
    if bs == [] then [] else AllOps(bs[..|bs| - 1]) + bs[|bs| - 1].ops
  }

  /** The ops on one row, in order. */
  function OpsOn(ops: seq<RowOp>, key: Key): seq<RowOp> {
    if ops == [] then []
    else OpsOn(ops[..|ops| - 1], key) + if OpKey(ops[|ops| - 1]) == key then [ops[|ops| - 1]] else []
  }

  function GetRow(rows: map<Key, Row>, key: Key): Option<Row> {
    if key in rows then Some(rows[key]) else None
  }

  /** The server's row with the pending ops replayed over it. */
  function Overlaid(s: State, key: Key): Option<Row> {
    Fold(GetRow(s.rows, key), OpsOn(AllOps(s.pending), key))
  }

  /** What a read shows: the overlaid row, unless it is a tombstone. */
  function OverlayRow(s: State, key: Key): Option<Row> {
    var row := Overlaid(s, key);
    if row.Some? && row.value.deleted then None else row
  }

  // ── the replica as it is kept ───────────────────────────────────────────

  class RegistryDoc {
    var deviceId: string
    var authoritative: map<Key, Row>
    var serverSeq: nat
    var gcFloor: nat
    var pending: seq<Batch>
    var generation: nat
    const clock: HlcClock

    constructor (deviceId: string)
      ensures Value() == NewState(deviceId) && fresh(clock)
    {
      this.deviceId := deviceId;
      authoritative, serverSeq, gcFloor, pending, generation := map[], 0, 0, [], 0;
      clock := new HlcClock(InitialClock);
    }

    /** The replica as a value. */
    function Value(): State
      reads this, clock
    {
      State(deviceId, authoritative, serverSeq, gcFloor, clock.State(), pending, generation)
    }

    method PushBatch(ops: seq<RowOp>, nowMs: int) returns (ghost cut: Minted)
      modifies this`pending, clock
      ensures clock.State() == Tick(old(clock.State()), nowMs) && cut == Minted(clock.State(), deviceId, ops)
      ensures pending == old(pending) + [ToBatch(cut)]
    {
      var hlc := clock.Next(nowMs, deviceId);
      cut := Minted(clock.State(), deviceId, ops);
      pending := pending + [Batch("b-" + hlc, ops, false)];
    }

    method EnqueueOps(ops: seq<RowOp>, now: nat -> int, readings: nat)
      modifies this`pending, this`generation, clock
      ensures Value() == Enqueue(old(Value()), ops, now, readings)
    {
      if ops == [] {
        assert ToBatches([]) == [] && pending + [] == pending;
        return;
      }
      generation := generation + 1;
      var rest := ops;
      var i := readings;
      ghost var whole := Mint(clock.State(), deviceId, ops, now, readings);
      ghost var done: seq<Minted> := [];
      while rest != []
        invariant i >= readings
        invariant whole == done + Mint(clock.State(), deviceId, rest, now, i)
        invariant pending == old(pending) + ToBatches(done)
        invariant clock.State() == LastStamp(old(clock.State()), done)
        invariant generation == old(generation) + 1
        decreases |rest|
      {
        var n := if |rest| > MAX_OPS_PER_BATCH then MAX_OPS_PER_BATCH else |rest|;
        MintStep(done, clock.State(), deviceId, rest, now, i);
        ghost var cut := PushBatch(rest[..n], now(i));
        done := done + [cut];
        rest := rest[n..];
        i := i + 1;
      }
      assert whole == done + [] == done;
    }

    method WriteRow(key: Key, op: OpKind, set_: map<string, Registry.Value>, now: nat -> int)
      modifies this`pending, this`generation, clock
      ensures Value() == Write(old(Value()), key, op, set_, now)
    {
      var hlc := clock.Next(now(0), deviceId);
      EnqueueOps([RowOp(key.0, key.1, op, Some(set_), hlc, None)], now, 1);
    }

    method DeleteRowOps(keys: seq<Key>, now: nat -> int)
      modifies this`pending, this`generation, clock
      ensures Value() == DeleteRows(old(Value()), keys, now)
    {
      var hlc := clock.Next(now(0), deviceId);
      var ops := seq(|keys|, i requires 0 <= i < |keys| => RowOp(keys[i].0, keys[i].1, Delete, None, hlc, None));
      assert ops == DeleteOps(old(Value()), keys, now);
      EnqueueOps(ops, now, 1);
    }

    /** Hands out the idle batches, in queue order, and leaves the whole queue flagged as handed out. */
    method TakePushableBatches() returns (out: seq<Batch>)
      modifies this`pending
      ensures Value() == TakePushable(old(Value()))
      ensures out == Pushable(old(pending))
    {
      out := [];
      var i := 0;
      while i < |pending|
        invariant i <= |pending| == |old(pending)|
        invariant forall j | 0 <= j < i :: pending[j] == old(pending)[j].(inFlight := true)
        invariant forall j | i <= j < |pending| :: pending[j] == old(pending)[j]
        invariant out == Pushable(old(pending)[..i])
      {
        assert old(pending)[..i + 1][..i] == old(pending)[..i];
        if !pending[i].inFlight {
          pending := pending[i := pending[i].(inFlight := true)];
          out := out + [pending[i]];
        }
        i := i + 1;
      }
      assert old(pending)[..i] == old(pending);
      assert pending == Flagged(old(pending), true);
    }

    /** After a lost connection the queue is as it was but for the flags, and all of it goes out with the next push. */
    method Disconnected()
      modifies this`pending
      ensures Value() == MarkDisconnected(old(Value()))
      ensures |pending| == |old(pending)|
      ensures forall i | 0 <= i < |pending| ::
                !pending[i].inFlight && pending[i].id == old(pending)[i].id && pending[i].ops == old(pending)[i].ops
      ensures Pushable(pending) == Flagged(old(pending), true)
    {
      var i := 0;
      while i < |pending|
        invariant i <= |pending| == |old(pending)|
        invariant forall j | 0 <= j < i :: pending[j] == old(pending)[j].(inFlight := false)
        invariant forall j | i <= j < |pending| :: pending[j] == old(pending)[j]
      {
        pending := pending[i := pending[i].(inFlight := false)];
        i := i + 1;
      }
      assert pending == Flagged(old(pending), false);
      AllPushable(old(pending));
      assert Flagged(pending, true) == Flagged(old(pending), true);
    }

    /** Retires an acked batch; says whether it existed. */
    method Ack(batch: string, seq_: nat) returns (existed: bool)
      modifies this`pending, this`serverSeq, this`generation
      ensures Value() == AckBatch(old(Value()), batch, seq_)
      ensures existed <==> |pending| != |old(pending)|
    {
      var before := |pending|;
      pending := Without(pending, batch);
      if seq_ > serverSeq {
        serverSeq := seq_;
      }
      existed := |pending| != before;
      if existed {
        generation := generation + 1;
      }
    }

    method PutRows(frame: seq<Row>)
      modifies this`authoritative
      ensures authoritative == PutAll(old(authoritative), frame)
    {
      var i := 0;
      while i < |frame|
        invariant i <= |frame|
        invariant authoritative == PutAll(old(authoritative), frame[..i])
      {
        authoritative := authoritative[KeyOf(frame[i]) := frame[i]];
        assert frame[..i + 1][..i] == frame[..i];
        i := i + 1;
      }
      assert frame[..i] == frame;
    }

    /** Seed ops for the rows under `keys`, in whatever order the table yields them. */
    method CollectSeeds(keys: set<Key>) returns (seeds: seq<RowOp>, ghost order: seq<Key>)
      requires keys <= authoritative.Keys
      ensures Lists(order, keys) && seeds == SeedOps(authoritative, order)
      ensures |seeds| == |order| && forall k | k in keys :: RowToSeedOp(authoritative[k]) in seeds
    {
      seeds, order := [], [];
      var left := keys;
      while left != {}
        invariant left <= keys && Lists(order, keys - left)
        invariant seeds == SeedOps(authoritative, order)
        invariant forall k | k in keys - left :: RowToSeedOp(authoritative[k]) in seeds
      {
        var key :| key in left;
        seeds := seeds + [RowToSeedOp(authoritative[key])];
        order := order + [key];
        left := left - {key};
      }
      assert keys - left == keys;
    }

    /** Applies a hello `state` frame. `order` is the row table's iteration order. */
    method ApplyStateFrame(seq_: nat, full: bool, gcFloor: nat, frame: seq<Row>, now: nat -> int)
        returns (outcome: StateOutcome, ghost order: seq<Key>)
      modifies this, clock
      ensures Lists(order, SeedKeys(old(Value()), seq_, full, frame))
      ensures Value() == ApplyState(old(Value()), seq_, full, gcFloor, frame, order, now)
      ensures outcome == StateFrameOutcome(old(Value()), seq_, full, order)
    {
      generation := generation + 1;
      order := [];
      if !full {
        PutRows(frame);
        this.serverSeq, this.gcFloor := seq_, gcFloor;
        EnqueueOps([], now, 0);
        return Delta, order;
      }
      var seeds: seq<RowOp>;
      if seq_ < serverSeq {
        seeds, order := CollectSeeds(authoritative.Keys);
        PutRows(frame);
        this.serverSeq, this.gcFloor := seq_, gcFloor;
        EnqueueOps(seeds, now, 0);
        return Reseeded, order;
      }
      var incoming := new RegistryDoc(deviceId);
      incoming.PutRows(frame);
      seeds, order := CollectSeeds(authoritative.Keys - incoming.authoritative.Keys);
      authoritative := incoming.authoritative;
      this.serverSeq, this.gcFloor := seq_, gcFloor;
      EnqueueOps(seeds, now, 0);
      outcome := if seeds == [] then Replaced else Reseeded;
    }

    method ApplyRowsFrame(seq_: nat, frame: seq<Row>)
      modifies this`authoritative, this`serverSeq, this`generation
      ensures Value() == ApplyRows(old(Value()), seq_, frame)
    {
      generation := generation + 1;
      PutRows(frame);
      if seq_ > serverSeq {
        serverSeq := seq_;
      }
    }

    /** The snapshot record; `order` is the row table's iteration order. */
    method ToBytes() returns (snapshot: Snapshot, ghost order: seq<Key>)
      ensures Lists(order, authoritative.Keys) && snapshot == Save(Value(), order)
    {
      var rows: seq<Row> := [];
      order := [];
      var left := authoritative.Keys;
      while left != {}
        invariant left <= authoritative.Keys && Lists(order, authoritative.Keys - left)
        invariant rows == RowsIn(authoritative, order)
      {
        var key :| key in left;
        rows := rows + [authoritative[key]];
        order := order + [key];
        left := left - {key};
      }
      assert authoritative.Keys - left == authoritative.Keys;
      snapshot := Snapshot(1, deviceId, serverSeq, gcFloor, clock.State(), rows, Unflagged(pending));
    }

    static method FromBytes(snapshot: Snapshot, deviceId: string) returns (doc: Result<RegistryDoc, string>)
      ensures doc.Success? ==> fresh(doc.value) && fresh(doc.value.clock)
      ensures match doc
              case Success(d) => Restore(snapshot, deviceId) == Success(d.Value())
              case Failure(e) => Restore(snapshot, deviceId) == Failure(e)
    {
      if snapshot.v != 1 {
        return Failure("unknown registry snapshot version");
      }
      var d := new RegistryDoc(deviceId);
      d.serverSeq, d.gcFloor := snapshot.serverSeq, snapshot.gcFloor;
      d.clock.lastMs, d.clock.counter := snapshot.clock.lastMs, snapshot.clock.counter;
      d.pending := seq(|snapshot.pending|, i requires 0 <= i < |snapshot.pending| =>
                         Batch(snapshot.pending[i].0, snapshot.pending[i].1, false));
      d.PutRows(snapshot.rows);
      doc := Success(d);
    }

    /** Reads one row: the server's copy with every pending op on it replayed. */
    method ReadRow(key: Key) returns (row: Option<Row>)
      ensures row == OverlayRow(Value(), key)
    {
      row := GetRow(authoritative, key);
      var i := 0;
      while i < |pending|
        invariant i <= |pending|
        invariant row == Fold(GetRow(authoritative, key), OpsOn(AllOps(pending[..i]), key))
      {
        assert pending[..i + 1][..i] == pending[..i];
        OpsOnConcat(AllOps(pending[..i]), pending[i].ops, key);
        FoldConcat(GetRow(authoritative, key), OpsOn(AllOps(pending[..i]), key), OpsOn(pending[i].ops, key));
        row := Replay(row, pending[i].ops, key);
        i := i + 1;
      }
      assert pending[..i] == pending;
      if row.Some? && row.value.deleted {
        row := None;
      }
    }

    /** Ids of one kind that have a server row or a pending op, each once. */
    method CollectIds(kind: string) returns (ids: seq<string>)
      ensures Unique(ids)
      ensures forall key: Key | key.0 == kind && key.1 !in ids ::
                key !in authoritative && Untouched(AllOps(pending), key)
    {
      ids := [];
      var left := authoritative.Keys;
      while left != {}
        invariant left <= authoritative.Keys && Unique(ids)
        invariant forall id | id in ids :: (kind, id) in authoritative && (kind, id) !in left
        invariant forall key | key in authoritative && key !in left && key.0 == kind :: key.1 in ids
      {
        var key :| key in left;
        if key.0 == kind {
          ids := ids + [key.1];
        }
        left := left - {key};
      }
      var i := 0;
      while i < |pending|
        invariant i <= |pending| && Unique(ids)
        invariant forall key: Key | key.0 == kind && key.1 !in ids ::
                    key !in authoritative && Untouched(AllOps(pending[..i]), key)
      {
        var ops := pending[i].ops;
        assert pending[..i + 1][..i] == pending[..i];
        var j := 0;
        while j < |ops|
          invariant j <= |ops| && Unique(ids)
          invariant forall key: Key | key.0 == kind && key.1 !in ids ::
                      key !in authoritative && Untouched(AllOps(pending[..i]), key) && Untouched(ops[..j], key)
        {
          if ops[j].kind == kind && ops[j].id !in ids {
            ids := ids + [ops[j].id];
          }
          j := j + 1;
        }
        assert ops[..j] == ops;
        i := i + 1;
      }
      assert pending[..i] == pending;
    }

    /** Reads all live rows of a kind: every row a single read would show, once each. */
    method ReadRows(kind: string) returns (rows: seq<Row>, ids: seq<string>)
      ensures |rows| == |ids| && Unique(ids)
      ensures forall i | 0 <= i < |ids| :: OverlayRow(Value(), (kind, ids[i])) == Some(rows[i])
      ensures forall id :: OverlayRow(Value(), (kind, id)).Some? <==> id in ids
    {
      var all := CollectIds(kind);
      rows, ids := [], [];
      var k := 0;
      while k < |all|
        invariant k <= |all| && |rows| == |ids| && Unique(ids)
        invariant forall i | 0 <= i < |ids| :: OverlayRow(Value(), (kind, ids[i])) == Some(rows[i])
        invariant forall id | id in ids :: id in all[..k]
        invariant forall id | id in all[..k] && OverlayRow(Value(), (kind, id)).Some? :: id in ids
      {
        var row := ReadRow((kind, all[k]));
        assert all[..k + 1] == all[..k] + [all[k]];
        assert all[k] !in all[..k];
        if row.Some? {
          rows, ids := rows + [row.value], ids + [all[k]];
        }
        k := k + 1;
      }
      assert all[..k] == all;
      forall id | id !in all ensures OverlayRow(Value(), (kind, id)).None? {
        var key: Key := (kind, id);
        assert key !in authoritative && Untouched(AllOps(pending), key);
        NoOpsOn(AllOps(pending), key);
      }
    }
  }

  predicate Untouched(ops: seq<RowOp>, key: Key) {
    forall i | 0 <= i < |ops| :: OpKey(ops[i]) != key
  }

  lemma {:induction false} NoOpsOn(ops: seq<RowOp>, key: Key)
    requires Untouched(ops, key)
    ensures OpsOn(ops, key) == []
  {
    if ops != [] {
      NoOpsOn(ops[..|ops| - 1], key);
    }
  }

  lemma ReplayStep(start: Option<Row>, ops: seq<RowOp>, j: nat, key: Key)
    requires j < |ops|
    ensures var before := Fold(start, OpsOn(ops[..j], key));
            Fold(start, OpsOn(ops[..j + 1], key)) == if OpKey(ops[j]) == key then Step(before, ops[j]) else before
  {
    assert ops[..j + 1][..j] == ops[..j];
    var mine, prefix := OpsOn(ops[..j + 1], key), OpsOn(ops[..j], key);
    if OpKey(ops[j]) == key {
      assert mine == prefix + [ops[j]] && mine[..|mine| - 1] == prefix;
    } else {
      assert mine == prefix;
    }
  }

  /** The inner loop of an overlay read: one batch's ops on one row. */
  method Replay(start: Option<Row>, ops: seq<RowOp>, key: Key) returns (row: Option<Row>)
    ensures row == Fold(start, OpsOn(ops, key))
  {
    row := start;
    var j := 0;
    while j < |ops|
      invariant j <= |ops|
      invariant row == Fold(start, OpsOn(ops[..j], key))
    {
      var op := ops[j];
      ReplayStep(start, ops, j, key);
      if op.kind == key.0 && op.id == key.1 {
        var next, _ := ApplyOpInPlace(row, op);
        if next.Some? {
          row := next;
        }
      }
      j := j + 1;
    }
    assert ops[..j] == ops;
  }

  lemma {:induction false} OpsOnConcat(a: seq<RowOp>, b: seq<RowOp>, key: Key)
    ensures OpsOn(a + b, key) == OpsOn(a, key) + OpsOn(b, key)
    decreases |b|
  {
    if b == [] {
      assert a + b == a;
    } else {
      assert (a + b)[..|a + b| - 1] == a + b[..|b| - 1];
      OpsOnConcat(a, b[..|b| - 1], key);
    }
  }
}
