/**
 * Replicas around one room, over whole runs: local writes, pushes, merges,
 * deliveries, lost connections, restarts and joins in any interleaving, and a
 * server that may lose its storage at any time. A connection is two queues,
 * one each way; what it still holds is lost with it.
 */
module RegistryRoom {
  import opened Wrappers
  import opened Hlc
  import opened Registry
  import opened RegistryReplica
  import opened RegistryFrames
  import opened RegistryProtocol
  import opened RegistryServer

  // ── frames ──────────────────────────────────────────────────────────────

  datatype Frame =
    | RowsFrame(rowsSeq: nat, rows: seq<Row>)
    | AckFrame(batch: string, ackSeq: nat)
    | StateFrame(stateSeq: nat, full: bool, gcFloor: nat, rows: seq<Row>)

  /** The event a frame is to the replica it reaches; `order` lists the rows it seeds again, if any. */
  function EventOf(frame: Frame, order: seq<Key>, now: nat -> int): Event {
    match frame
    case RowsFrame(n, rows) => GotRows(n, rows)
    case AckFrame(batch, n) => Acked(batch, n)
    case StateFrame(n, full, gcFloor, rows) => GotState(n, full, gcFloor, rows, order, now)
  }

  function Carried(frame: Frame): seq<Row> {
    if frame.AckFrame? then [] else frame.rows
  }

  predicate HeadFull(frames: seq<Frame>) {
    frames != [] && frames[0].StateFrame? && frames[0].full
  }

  /** What a frame leaves of the rows a replica had: a full answer from a server not behind replaces them. */
  function Base(rows: map<Key, Row>, c: nat, frame: Frame): map<Key, Row> {
    if frame.StateFrame? && frame.full && frame.stateSeq >= c then map[] else rows
  }

  /** What a frame makes of the replica's rows. */
  function Landed(rows: map<Key, Row>, c: nat, frame: Frame): map<Key, Row> {
    PutAll(Base(rows, c, frame), Carried(frame))
  }

  /** What a frame makes of the replica's cursor; a state frame can take it back. */
  function Reached(c: nat, frame: Frame): nat {
    match frame
    case RowsFrame(n, _) => Later(n, c)
    case AckFrame(_, n) => Later(n, c)
    case StateFrame(n, _, _, _) => n
  }

  /** Only rows the server has. */
  predicate Known(v: Server, frame: Frame) {
    forall r | r in Carried(frame) :: KeyOf(r) in v.rows
  }

  /** The frames on the way take a trailing replica, one by one, to where the server is. */
  ghost predicate Leads(v: Server, rows: map<Key, Row>, c: nat, frames: seq<Frame>)
    decreases |frames|
  {
    Trails(v, rows, c) &&
    if frames == [] then c == v.seq_ && HasAll(v, rows)
    else Known(v, frames[0]) && Leads(v, Landed(rows, c, frames[0]), Reached(c, frames[0]), frames[1..])
  }

  /** A full answer at the head leads any replica there, and the frames behind it further on. */
  ghost predicate Restores(v: Server, rows: map<Key, Row>, c: nat, frames: seq<Frame>) {
    && HeadFull(frames) && Known(v, frames[0])
    && Leads(v, Landed(rows, c, frames[0]), Reached(c, frames[0]), frames[1..])
  }

  // ── the room ────────────────────────────────────────────────────────────

  /**
   * A connection: frames on their way down, batches on their way up. `old_` is
   * a ghost of the model, as `stale` is below: the server lost its storage
   * since the connection was made.
   */
  datatype Wire = Wire(frames: seq<Frame>, up: seq<Batch>, old_: bool)

  /** A replica is stale while its rows and cursor come from before the server lost its storage. */
  datatype Replica = Replica(w: World, wire: Option<Wire>, stale: bool)

  /** A batch the server merged, and the replica whose connection it came over. */
  datatype Entry = Entry(device: nat, batch: Batch)

  /** `log` is all the server ever merged, from `since` on what it has not lost. */
  datatype Room = Room(server: Server, log: seq<Entry>, since: nat, wipes: nat, replicas: seq<Replica>)

  datatype Step =
    | Writes(i: nat, event: Event)
    | Pushes(i: nat)
    | Merges(i: nat)
    | Delivers(i: nat, order: seq<Key>, now: nat -> int)
    | Drops(i: nat)
    | Restarts(i: nat, deviceId: string, order: seq<Key>)
    | Joins(i: nat, order: seq<Key>)
    | MovesFloor(i: nat, floor: nat)
    | Wipes(i: nat)

  /** The cursor of a hello: none from a replica that never held anything. */
  function HelloCursor(s: State): Option<nat> {
    if s.serverSeq == 0 && s.pending == [] && s.generation == 0 then None else Some(s.serverSeq)
  }

  function Answer(v: Server, s: State, order: seq<Key>): Frame
    requires forall k | k in order :: k in v.rows
  {
    StateFrame(v.seq_, AnswersFull(v, HelloCursor(s)), v.gcFloor, RowsIn(v.rows, order))
  }

  ghost predicate CanAct(v: Server, r: Replica, step: Step) {
    match step
    case Writes(_, event) => event.Wrote? || event.DeletedRows?
    case Pushes(_) => r.wire.Some?
    case Merges(_) => r.wire.Some? && r.wire.value.up != []
    case Delivers(_, order, now) =>
      r.wire.Some? && r.wire.value.frames != [] && Enabled(r.w.s, EventOf(r.wire.value.frames[0], order, now))
    case Drops(_) => r.wire.Some?
    case Restarts(_, _, order) => Lists(order, r.w.s.rows.Keys)
    case Joins(_, order) => r.wire.None? && Lists(order, AnswerKeys(v, HelloCursor(r.w.s)))
    case MovesFloor(_, _) => true
    case Wipes(_) => true
  }

  /** What a step does to the replica that takes it, unless it is the server's own. */
  ghost function Acted(v: Server, r: Replica, step: Step): Replica
    requires CanAct(v, r, step)
  {
    match step
    case Writes(_, event) => r.(w := RegistryProtocol.Next(r.w, event))
    case Pushes(_) =>
      r.(w := RegistryProtocol.Next(r.w, Pushed),
         wire := Some(r.wire.value.(up := r.wire.value.up + Pushable(r.w.s.pending))))
    case Delivers(_, order, now) =>
      var frames := r.wire.value.frames;
      Replica(RegistryProtocol.Next(r.w, EventOf(frames[0], order, now)),
              Some(r.wire.value.(frames := frames[1..])),
              r.stale && !(HeadFull(frames) && !r.wire.value.old_))
    case Drops(_) => r.(w := RegistryProtocol.Next(r.w, LostConnection), wire := None)
    case Restarts(_, deviceId, order) =>
      r.(w := RegistryProtocol.Next(r.w, Restarted(deviceId, order)), wire := None)
    case Joins(_, order) => r.(wire := Some(Wire([Answer(v, r.w.s, order)], [], false)))
    case _ => r
  }

  /** The rows a merge changed go out to everyone connected; a merge that changed none says nothing. */
  function Broadcast(v: Server, ops: seq<RowOp>, frames: seq<Frame>): seq<Frame> {
    var touched := Touched(v.rows, ops, v.seq_ + 1);
    if touched == [] then frames else frames + [RowsFrame(v.seq_ + 1, touched)]
  }

  /** What a merge does to a replica: it hears of the rows and, if the batch came from it, of the ack behind them. */
  function Informed(v: Server, r: Replica, batch: Batch, sender: bool): Replica {
    match r.wire
    case None => r
    case Some(Wire(frames, up, old_)) =>
      var heard := Broadcast(v, batch.ops, frames);
      if sender && up != [] then
        r.(wire := Some(Wire(heard + [AckFrame(batch.id, Merge(v, batch.ops).seq_)], up[1..], old_)))
      else r.(wire := Some(Wire(heard, up, old_)))
  }

  /** A lost storage leaves every replica stale that has heard, or may yet hear, of what was in it. */
  function Outdated(r: Replica): Replica {
    Replica(r.w, if r.wire.Some? then Some(r.wire.value.(old_ := true)) else None,
            r.stale || r.wire.Some? || r.w.s.serverSeq > 0 || r.w.s.rows != map[])
  }

  ghost predicate CanHappen(room: Room, step: Step) {
    step.i < |room.replicas| && CanAct(room.server, room.replicas[step.i], step)
  }

  ghost function Next(room: Room, step: Step): Room
    requires CanHappen(room, step)
  {
    match step
    case MovesFloor(_, floor) => room.(server := room.server.(gcFloor := floor))
    case Wipes(_) =>
      Room(Server(map[], 0, 0), room.log, |room.log|, room.wipes + 1,
           seq(|room.replicas|, j requires 0 <= j < |room.replicas| => Outdated(room.replicas[j])))
    case Merges(i) =>
      var batch := room.replicas[i].wire.value.up[0];
      room.(server := Merge(room.server, batch.ops), log := room.log + [Entry(i, batch)],
            replicas := seq(|room.replicas|, j requires 0 <= j < |room.replicas| =>
              Informed(room.server, room.replicas[j], batch, j == i)))
    case _ =>
      room.(replicas := room.replicas[step.i := Acted(room.server, room.replicas[step.i], step)])
  }

  ghost function NewRoom(deviceIds: seq<string>): Room {
    Room(Server(map[], 0, 0), [], 0, 0,
         seq(|deviceIds|, i requires 0 <= i < |deviceIds| => Replica(Birth(deviceIds[i]), None, false)))
  }

  /** The room after a run of steps, if each could happen when it came. */
  ghost function After(room: Room, steps: seq<Step>): Option<Room> {
    if steps == [] then Some(room)
    else
      var before := After(room, steps[..|steps| - 1]);
      if before.None? || !CanHappen(before.value, steps[|steps| - 1]) then None
      else Some(Next(before.value, steps[|steps| - 1]))
  }

  // ── replicas stay on the way to the server's rows ───────────────────────

  predicate Creates(ops: seq<RowOp>, key: Key) {
    exists i | 0 <= i < |ops| :: OpKey(ops[i]) == key && ops[i].op != Update
  }

  /** Of a row the server lacks a seed is still pending. */
  ghost predicate Owed(v: Server, s: State) {
    forall k | k in s.rows && k !in v.rows :: Creates(AllOps(s.pending), k)
  }

  predicate StateFirst(frames: seq<Frame>) {
    forall k | 1 <= k < |frames| :: !frames[k].StateFrame?
  }

  /** Where a replica is: in step with the server as it is now, unless it is stale. */
  ghost predicate Standing(v: Server, r: Replica) {
    var rows, c := r.w.s.rows, r.w.s.serverSeq;
    && Sound(r.w) && OwnNames(rows)
    && (!r.stale ==> Trails(v, rows, c) && Owed(v, r.w.s))
    && match r.wire
       case None => true
       case Some(Wire(frames, _, old_)) =>
         && (old_ ==> r.stale) && StateFirst(frames)
         && (!r.stale ==> Leads(v, rows, c, frames))
         && (!old_ && HeadFull(frames) ==> Restores(v, rows, c, frames))
  }

  lemma {:induction false} LeadsThroughMerge(v: Server, ops: seq<RowOp>, rows: map<Key, Row>, c: nat,
                                             frames: seq<Frame>)
    requires ServerSound(v) && Leads(v, rows, c, frames)
    ensures Leads(Merge(v, ops), rows, c, Broadcast(v, ops, frames))
    decreases |frames|
  {
    StillTrails(v, ops, rows, c);
    if frames != [] {
      LeadsThroughMerge(v, ops, Landed(rows, c, frames[0]), Reached(c, frames[0]), frames[1..]);
      BroadcastBehind(v, ops, frames);
      StillKnown(v, ops, frames[0]);
    } else if Touched(v.rows, ops, v.seq_ + 1) != [] {
      BroadcastLevels(v, ops, rows, c);
      var heard := Broadcast(v, ops, frames);
      assert heard[0] == RowsFrame(v.seq_ + 1, Touched(v.rows, ops, v.seq_ + 1)) && heard[1..] == [];
    }
  }

  lemma BroadcastBehind(v: Server, ops: seq<RowOp>, frames: seq<Frame>)
    requires frames != []
    ensures var heard := Broadcast(v, ops, frames);
            heard != [] && heard[0] == frames[0] && heard[1..] == Broadcast(v, ops, frames[1..])
  {
  }

  lemma StillKnown(v: Server, ops: seq<RowOp>, frame: Frame)
    requires ServerSound(v) && Known(v, frame)
    ensures Known(Merge(v, ops), frame)
  {
    MergeKeepsKeys(v, ops);
  }

  /** The rows a merge changed bring a level replica level again. */
  lemma BroadcastLevels(v: Server, ops: seq<RowOp>, rows: map<Key, Row>, c: nat)
    requires ServerSound(v) && Trails(v, rows, c) && c == v.seq_ && HasAll(v, rows)
    requires Touched(v.rows, ops, v.seq_ + 1) != []
    ensures var frame := RowsFrame(v.seq_ + 1, Touched(v.rows, ops, v.seq_ + 1));
            Known(Merge(v, ops), frame) && Leads(Merge(v, ops), Landed(rows, c, frame), Reached(c, frame), [])
  {
    var touched, after := Touched(v.rows, ops, v.seq_ + 1), Merge(v, ops);
    MergeSound(v, ops);
    MergeLands(v, ops);
    PutAllNames(rows, touched);
    forall k | k in after.rows ensures k in PutAll(rows, touched) && PutAll(rows, touched)[k] == after.rows[k] {
      PutAllEither(rows, touched, k);
      PutAllEither(v.rows, touched, k);
      assert GetRow(after.rows, k) == Some(after.rows[k]);
    }
    forall r | r in touched ensures KeyOf(r) in after.rows {
      PutAllEither(v.rows, touched, KeyOf(r));
    }
  }

  lemma {:induction false} LeadsThenAck(v: Server, rows: map<Key, Row>, c: nat, frames: seq<Frame>, batch: string)
    requires Leads(v, rows, c, frames)
    ensures Leads(v, rows, c, frames + [AckFrame(batch, v.seq_)])
    decreases |frames|
  {
    var more := frames + [AckFrame(batch, v.seq_)];
    if frames != [] {
      LeadsThenAck(v, Landed(rows, c, frames[0]), Reached(c, frames[0]), frames[1..], batch);
      assert more[0] == frames[0] && more[1..] == frames[1..] + [AckFrame(batch, v.seq_)];
    } else {
      assert more[1..] == [];
    }
  }

  lemma RestoresThroughMerge(v: Server, ops: seq<RowOp>, rows: map<Key, Row>, c: nat, frames: seq<Frame>)
    requires ServerSound(v) && Restores(v, rows, c, frames)
    ensures Restores(Merge(v, ops), rows, c, Broadcast(v, ops, frames))
  {
    LeadsThroughMerge(v, ops, Landed(rows, c, frames[0]), Reached(c, frames[0]), frames[1..]);
    BroadcastBehind(v, ops, frames);
    StillKnown(v, ops, frames[0]);
  }

  lemma RestoresThenAck(v: Server, rows: map<Key, Row>, c: nat, frames: seq<Frame>, batch: string)
    requires Restores(v, rows, c, frames)
    ensures Restores(v, rows, c, frames + [AckFrame(batch, v.seq_)])
  {
    var more := frames + [AckFrame(batch, v.seq_)];
    LeadsThenAck(v, Landed(rows, c, frames[0]), Reached(c, frames[0]), frames[1..], batch);
    assert more[0] == frames[0] && more[1..] == frames[1..] + [AckFrame(batch, v.seq_)];
  }

  lemma InformedStands(v: Server, r: Replica, batch: Batch, sender: bool)
    requires ServerSound(v) && Standing(v, r)
    ensures Standing(Merge(v, batch.ops), Informed(v, r, batch, sender))
  {
    var rows, c, after := r.w.s.rows, r.w.s.serverSeq, Merge(v, batch.ops);
    if !r.stale {
      StillTrails(v, batch.ops, rows, c);
      MergeKeepsKeys(v, batch.ops);
    }
    if r.wire.Some? {
      var frames := r.wire.value.frames;
      var heard := Broadcast(v, batch.ops, frames);
      if !r.stale {
        LeadsThroughMerge(v, batch.ops, rows, c, frames);
        LeadsThenAck(after, rows, c, heard, batch.id);
      }
      if !r.wire.value.old_ && HeadFull(frames) {
        RestoresThroughMerge(v, batch.ops, rows, c, frames);
        RestoresThenAck(after, rows, c, heard, batch.id);
      }
    }
  }

  lemma {:induction false} LeadsUnderFloor(v: Server, floor: nat, rows: map<Key, Row>, c: nat, frames: seq<Frame>)
    requires Leads(v, rows, c, frames)
    ensures Leads(v.(gcFloor := floor), rows, c, frames)
    decreases |frames|
  {
    if frames != [] {
      LeadsUnderFloor(v, floor, Landed(rows, c, frames[0]), Reached(c, frames[0]), frames[1..]);
    }
  }

  lemma FloorStands(v: Server, floor: nat, r: Replica)
    requires Standing(v, r)
    ensures Standing(v.(gcFloor := floor), r)
  {
    var rows, c := r.w.s.rows, r.w.s.serverSeq;
    if r.wire.Some? {
      var frames := r.wire.value.frames;
      if !r.stale {
        LeadsUnderFloor(v, floor, rows, c, frames);
      }
      if !r.wire.value.old_ && HeadFull(frames) {
        LeadsUnderFloor(v, floor, Landed(rows, c, frames[0]), Reached(c, frames[0]), frames[1..]);
      }
    }
  }

  lemma WipeStands(v: Server, r: Replica)
    requires Standing(v, r)
    ensures Standing(Server(map[], 0, 0), Outdated(r))
  {
  }

  /** A frame does to rows and cursor what the queue of frames counts on, whether it takes the cursor on or back. */
  lemma DeliveryLands(s: State, frame: Frame, order: seq<Key>, now: nat -> int)
    requires Enabled(s, EventOf(frame, order, now))
    ensures var after := NextState(s, EventOf(frame, order, now));
            && after.rows == Landed(s.rows, s.serverSeq, frame) && after.serverSeq == Reached(s.serverSeq, frame)
            && after.gcFloor == if frame.StateFrame? then frame.gcFloor else s.gcFloor
  {
    if frame.AckFrame? {
      assert PutAll(s.rows, []) == s.rows;
    }
  }

  // ── rows the server lacks stay owed ─────────────────────────────────────

  lemma CreatesConcat(a: seq<RowOp>, b: seq<RowOp>, key: Key)
    ensures Creates(a + b, key) <==> Creates(a, key) || Creates(b, key)
  {
    var all := a + b;
    if Creates(a, key) {
      var i :| 0 <= i < |a| && OpKey(a[i]) == key && a[i].op != Update;
      assert all[i] == a[i];
    }
    if Creates(b, key) {
      var i :| 0 <= i < |b| && OpKey(b[i]) == key && b[i].op != Update;
      assert all[|a| + i] == b[i];
    }
    if Creates(all, key) {
      var i :| 0 <= i < |all| && OpKey(all[i]) == key && all[i].op != Update;
      assert if i < |a| then all[i] == a[i] else all[i] == b[i - |a|];
    }
  }

  /** What an ack takes off the queue was in the batch it retires. */
  lemma {:induction false} CreatesWithout(bs: seq<Batch>, batch: string, key: Key)
    requires Creates(AllOps(bs), key)
    ensures Creates(AllOps(Without(bs, batch)), key) || exists b | b in bs :: b.id == batch && Creates(b.ops, key)
  {
    if bs != [] {
      var front, last := bs[..|bs| - 1], bs[|bs| - 1];
      CreatesConcat(AllOps(front), last.ops, key);
      var kept := Without(front, batch);
      if last.id != batch {
        assert Without(bs, batch) == kept + [last] && (kept + [last])[..|kept|] == kept;
        CreatesConcat(AllOps(kept), last.ops, key);
      } else {
        assert Without(bs, batch) == kept && last in bs;
      }
      if Creates(AllOps(front), key) {
        CreatesWithout(front, batch, key);
        FrontMembers(bs);
      }
    }
  }

  ghost predicate AllCreatedIn(v: Server, ops: seq<RowOp>) {
    forall key | Creates(ops, key) :: key in v.rows
  }

  /** The acked batch created its rows at the server. */
  ghost predicate AckFair(v: Server, s: State, batch: string) {
    forall b | b in s.pending && b.id == batch :: AllCreatedIn(v, b.ops)
  }

  lemma OwedAfterAck(v: Server, s: State, batch: string, seq_: nat)
    requires Owed(v, s) && AckFair(v, s, batch)
    ensures Owed(v, AckBatch(s, batch, seq_))
  {
    forall k | k in s.rows && k !in v.rows ensures Creates(AllOps(Without(s.pending, batch)), k) {
      CreatesWithout(s.pending, batch, k);
    }
  }

  lemma OwedAfterMore(v: Server, s: State, after: State, ops: seq<RowOp>)
    requires Owed(v, s) && forall k | k in after.rows :: k in s.rows || k in v.rows
    requires AllOps(after.pending) == AllOps(s.pending) + ops
    ensures Owed(v, after)
  {
    forall k | k in after.rows && k !in v.rows ensures Creates(AllOps(after.pending), k) {
      CreatesConcat(AllOps(s.pending), ops, k);
    }
  }

  lemma LandedKeys(v: Server, rows: map<Key, Row>, c: nat, frame: Frame, k: Key)
    requires Known(v, frame) && k in Landed(rows, c, frame) && k !in v.rows
    ensures k in Base(rows, c, frame)
  {
    PutAllEither(Base(rows, c, frame), Carried(frame), k);
  }

  /** A full answer makes the replica seed every row the server lacks. */
  lemma SeededByFull(v: Server, s: State, frame: Frame, order: seq<Key>, now: nat -> int, k: Key)
    requires OwnNames(s.rows) && frame.StateFrame? && frame.full && Known(v, frame)
    requires Enabled(s, EventOf(frame, order, now)) && k in s.rows && k !in v.rows
    ensures Creates(AllOps(NextState(s, EventOf(frame, order, now)).pending), k)
  {
    var after, seeds := NextState(s, EventOf(frame, order, now)), SeedOps(s.rows, order);
    var mid := s.(rows := after.rows, serverSeq := frame.stateSeq, gcFloor := frame.gcFloor,
                  generation := s.generation + 1);
    EnqueueConserves(mid, seeds, now, 0);
    PutAllEither(map[], frame.rows, k);
    assert k in SeedKeys(s, frame.stateSeq, true, frame.rows);
    assert k in order;
    var i :| 0 <= i < |order| && order[i] == k;
    assert OpKey(seeds[i]) == k && seeds[i].op != Update;
    CreatesConcat(AllOps(s.pending), seeds, k);
  }

  lemma OwedAfterFull(v: Server, s: State, frame: Frame, order: seq<Key>, now: nat -> int)
    requires OwnNames(s.rows) && frame.StateFrame? && frame.full && Known(v, frame)
    requires Enabled(s, EventOf(frame, order, now))
    ensures Owed(v, NextState(s, EventOf(frame, order, now)))
  {
    var after := NextState(s, EventOf(frame, order, now));
    forall k | k in after.rows && k !in v.rows ensures Creates(AllOps(after.pending), k) {
      LandedKeys(v, s.rows, s.serverSeq, frame, k);
      SeededByFull(v, s, frame, order, now, k);
    }
  }

  lemma NoneListed(order: seq<Key>)
    requires Lists(order, {})
    ensures order == []
  {
    if order != [] {
      FrontLists(order, {});
    }
  }

  lemma OwedAfterFrame(v: Server, s: State, frame: Frame, order: seq<Key>, now: nat -> int)
    requires OwnNames(s.rows) && Known(v, frame) && Enabled(s, EventOf(frame, order, now))
    requires (frame.StateFrame? && frame.full) || Owed(v, s)
    requires frame.AckFrame? ==> AckFair(v, s, frame.batch)
    ensures Owed(v, NextState(s, EventOf(frame, order, now)))
  {
    var after := NextState(s, EventOf(frame, order, now));
    match frame {
      case AckFrame(batch, n) => OwedAfterAck(v, s, batch, n);
      case RowsFrame(_, _) =>
        OwedAfterPut(v, s, after, frame);
      case StateFrame(n, full, gcFloor, rows) =>
        if full {
          OwedAfterFull(v, s, frame, order, now);
        } else {
          NoneListed(order);
          EnqueueConserves(s.(rows := after.rows, serverSeq := n, gcFloor := gcFloor, generation := s.generation + 1),
                           [], now, 0);
          assert SeedOps(s.rows, order) == [];
          assert AllOps(s.pending) + [] == AllOps(s.pending);
          OwedAfterPut(v, s, after, frame);
        }
    }
  }

  lemma OwedAfterPut(v: Server, s: State, after: State, frame: Frame)
    requires Owed(v, s) && Known(v, frame) && after.rows == PutAll(s.rows, Carried(frame))
    requires AllOps(after.pending) == AllOps(s.pending)
    ensures Owed(v, after)
  {
    forall k | k in after.rows && k !in v.rows ensures Creates(AllOps(after.pending), k) {
      PutAllEither(s.rows, Carried(frame), k);
    }
  }

  lemma OwedAfterWrite(v: Server, s: State, e: Event)
    requires Owed(v, s) && (e.Wrote? || e.DeletedRows?)
    ensures Owed(v, NextState(s, e)) && NextState(s, e).rows == s.rows && NextState(s, e).serverSeq == s.serverSeq
  {
    match e {
      case Wrote(key, op, set_, now) =>
        var ops := [WriteOp(s, key, op, set_, now)];
        EnqueueConserves(s.(clock := Tick(s.clock, now(0))), ops, now, 1);
        OwedAfterMore(v, s, NextState(s, e), ops);
      case DeletedRows(keys, now) =>
        EnqueueConserves(s.(clock := Tick(s.clock, now(0))), DeleteOps(s, keys, now), now, 1);
        OwedAfterMore(v, s, NextState(s, e), DeleteOps(s, keys, now));
    }
  }

  /** Events that only touch the flags of the queue. */
  lemma OwedAfterFlags(v: Server, s: State, after: State, flag: bool)
    requires Owed(v, s) && after.rows == s.rows && after.pending == Flagged(s.pending, flag)
    ensures Owed(v, after)
  {
    AllOpsFlagged(s.pending, flag);
  }

  // ── a replica's own steps ───────────────────────────────────────────────

  lemma AlreadyThere(v: Server, rows: map<Key, Row>, c: nat)
    requires c == v.seq_ && OwnNames(rows) && HasAll(v, rows)
    ensures Leads(v, rows, c, [])
  {
  }

  /** The answer to a hello leads to the server a replica that trails, and restores any replica if it is full. */
  lemma JoinLeads(v: Server, s: State, order: seq<Key>)
    requires ServerSound(v) && OwnNames(s.rows) && Lists(order, AnswerKeys(v, HelloCursor(s)))
    ensures var frame := Answer(v, s, order);
            && (Trails(v, s.rows, s.serverSeq) ==> Leads(v, s.rows, s.serverSeq, [frame]))
            && (frame.full ==> Restores(v, s.rows, s.serverSeq, [frame]))
  {
    var cursor, frame := HelloCursor(s), Answer(v, s, order);
    var rows := Landed(s.rows, s.serverSeq, frame);
    assert [frame][1..] == [];
    PutAllNames(Base(s.rows, s.serverSeq, frame), frame.rows);
    if frame.full {
      FullAnswerLevels(v, Base(s.rows, s.serverSeq, frame), cursor, order);
      AlreadyThere(v, rows, v.seq_);
    } else if Trails(v, s.rows, s.serverSeq) {
      HelloLevels(v, s.rows, cursor, order);
      AlreadyThere(v, rows, v.seq_);
    }
  }

  lemma DeliveredStands(v: Server, r: Replica, order: seq<Key>, now: nat -> int)
    requires ServerSound(v) && Standing(v, r) && CanAct(v, r, Delivers(0, order, now))
    requires var frame := r.wire.value.frames[0];
             frame.AckFrame? && !r.wire.value.old_ && !r.stale ==> AckFair(v, r.w.s, frame.batch)
    ensures Standing(v, Acted(v, r, Delivers(0, order, now)))
  {
    var frames, s := r.wire.value.frames, r.w.s;
    var frame := frames[0];
    StepSound(r.w, EventOf(frame, order, now));
    DeliveryLands(s, frame, order, now);
    PutAllNames(Base(s.rows, s.serverSeq, frame), Carried(frame));
    assert forall k | 1 <= k < |frames[1..]| :: frames[1..][k] == frames[k + 1];
    assert |frames| > 1 ==> frames[1..][0] == frames[1];
    if !r.stale || (HeadFull(frames) && !r.wire.value.old_) {
      assert Leads(v, Landed(s.rows, s.serverSeq, frame), Reached(s.serverSeq, frame), frames[1..]);
      OwedAfterFrame(v, s, frame, order, now);
    }
  }

  lemma ActedStands(v: Server, r: Replica, step: Step)
    requires ServerSound(v) && Standing(v, r) && CanAct(v, r, step) && !step.Delivers?
    ensures Standing(v, Acted(v, r, step))
  {
    match step {
      case Writes(_, event) =>
        StepSound(r.w, event);
        WriteKeepsTable(r.w.s, event);
        if !r.stale {
          OwedAfterWrite(v, r.w.s, event);
        }
      case Pushes(_) =>
        StepSound(r.w, Pushed);
        if !r.stale {
          OwedAfterFlags(v, r.w.s, TakePushable(r.w.s), true);
        }
      case Drops(_) =>
        StepSound(r.w, LostConnection);
        if !r.stale {
          OwedAfterFlags(v, r.w.s, MarkDisconnected(r.w.s), false);
        }
      case Restarts(_, deviceId, order) =>
        StepSound(r.w, Restarted(deviceId, order));
        RestartKeepsReads(r.w.s, order, deviceId, ("", ""));
        RestartQueue(r.w.s, order, deviceId);
        if !r.stale {
          OwedAfterFlags(v, r.w.s, NextState(r.w.s, Restarted(deviceId, order)), false);
        }
      case Joins(_, order) => JoinLeads(v, r.w.s, order);
      case _ =>
    }
  }

  lemma WriteKeepsTable(s: State, e: Event)
    requires e.Wrote? || e.DeletedRows?
    ensures NextState(s, e).rows == s.rows && NextState(s, e).serverSeq == s.serverSeq
  {
  }

  // ── what the server merged is what the replicas cut ─────────────────────

  /** All ops the server merged, in order. */
  function MergedOps(log: seq<Entry>): seq<RowOp> {
    if log == [] then [] else MergedOps(log[..|log| - 1]) + log[|log| - 1].batch.ops
  }

  /** A batch of that id came from the `i`-th replica and was merged, at the `from`-th place or later. */
  predicate IsMerged(log: seq<Entry>, from: nat, i: nat, id: string) {
    exists k | from <= k < |log| :: log[k].device == i && log[k].batch.id == id
  }

  predicate InCut(w: World, b: Batch) {
    exists c | c in Cut(w) :: c.id == b.id && c.ops == b.ops
  }

  predicate AllInCut(w: World, bs: seq<Batch>) {
    forall k | 0 <= k < |bs| :: InCut(w, bs[k])
  }

  predicate AcksTrue(log: seq<Entry>, from: nat, i: nat, frames: seq<Frame>) {
    forall k | 0 <= k < |frames| && frames[k].AckFrame? :: IsMerged(log, from, i, frames[k].batch)
  }

  /** From where in the log the acks on a connection can come. */
  function AcksFrom(wire: Wire, since: nat): nat {
    if wire.old_ then 0 else since
  }

  /** Only merged batches are acked, and only batches the replica cut are merged or on their way. */
  ghost predicate Honest(log: seq<Entry>, since: nat, i: nat, r: Replica) {
    && since <= |log|
    && (forall id | id in r.w.acked :: IsMerged(log, 0, i, id))
    && (forall k | 0 <= k < |log| && log[k].device == i :: InCut(r.w, log[k].batch))
    && (r.wire.Some? ==>
          AcksTrue(log, AcksFrom(r.wire.value, since), i, r.wire.value.frames) && AllInCut(r.w, r.wire.value.up))
  }

  /** What the server merged and has not lost created its rows there. */
  ghost predicate CreatedSince(v: Server, log: seq<Entry>, since: nat) {
    forall k | since <= k < |log| :: AllCreatedIn(v, log[k].batch.ops)
  }

  lemma CutStays(w: World, e: Event, b: Batch)
    requires Enabled(w.s, e) && InCut(w, b)
    ensures InCut(RegistryProtocol.Next(w, e), b)
  {
    BatchesConcat(w.minted, NewBatches(w.s, e));
    var c :| c in Cut(w) && c.id == b.id && c.ops == b.ops;
    assert c in Cut(RegistryProtocol.Next(w, e));
  }

  lemma MergedStays(log: seq<Entry>, e: Entry, from: nat, i: nat, id: string)
    requires IsMerged(log, from, i, id)
    ensures IsMerged(log + [e], from, i, id)
  {
    var k :| from <= k < |log| && log[k].device == i && log[k].batch.id == id;
    assert (log + [e])[k] == log[k];
  }

  lemma {:induction false} PushableIsPending(bs: seq<Batch>, b: Batch)
    requires b in Pushable(bs)
    ensures exists p | p in bs :: p.id == b.id && p.ops == b.ops
  {
    if bs != [] {
      var front, last := bs[..|bs| - 1], bs[|bs| - 1];
      FrontMembers(bs);
      if b in Pushable(front) {
        PushableIsPending(front, b);
      } else {
        assert last in bs;
      }
    }
  }

  lemma PushableInCut(w: World, b: Batch)
    requires Sound(w) && b in Pushable(w.s.pending)
    ensures InCut(w, b)
  {
    PushableIsPending(w.s.pending, b);
    var p :| p in w.s.pending && p.id == b.id && p.ops == b.ops;
    UnackedMembers(Cut(w), w.acked, w.handed, p);
  }

  /** Batches of one id that the replica cut have the same ops. */
  lemma OneCut(w: World, a: Batch, b: Batch)
    requires Sound(w) && InCut(w, a) && InCut(w, b) && a.id == b.id
    ensures a.ops == b.ops
  {
    var cut := Cut(w);
    var c :| c in cut && c.id == a.id && c.ops == a.ops;
    var d :| d in cut && d.id == b.id && d.ops == b.ops;
    var i :| 0 <= i < |cut| && cut[i] == c;
    var j :| 0 <= j < |cut| && cut[j] == d;
    assert i == j;
  }

  /** An ack on its way to a replica in step tells of rows the server has. */
  lemma AcksAreFair(v: Server, log: seq<Entry>, since: nat, i: nat, r: Replica, batch: string)
    requires Sound(r.w) && Honest(log, since, i, r) && CreatedSince(v, log, since) && IsMerged(log, since, i, batch)
    ensures AckFair(v, r.w.s, batch)
  {
    var k :| since <= k < |log| && log[k].device == i && log[k].batch.id == batch;
    forall b | b in r.w.s.pending && b.id == batch ensures AllCreatedIn(v, b.ops) {
      UnackedMembers(Cut(r.w), r.w.acked, r.w.handed, b);
      assert InCut(r.w, b) && InCut(r.w, log[k].batch);
      OneCut(r.w, b, log[k].batch);
      assert AllCreatedIn(v, log[k].batch.ops);
    }
  }

  /** A replica's own step keeps its history honest, if its acks are. */
  lemma EventHonest(log: seq<Entry>, since: nat, i: nat, r: Replica, e: Event, up: seq<Batch>, stale: bool)
    requires Honest(log, since, i, r) && Enabled(r.w.s, e) && AllInCut(r.w, up)
    requires e.Acked? ==> IsMerged(log, 0, i, e.batch)
    ensures Honest(log, since, i, Replica(RegistryProtocol.Next(r.w, e), None, stale))
    ensures AllInCut(RegistryProtocol.Next(r.w, e), up)
  {
    var w := RegistryProtocol.Next(r.w, e);
    forall k | 0 <= k < |log| && log[k].device == i ensures InCut(w, log[k].batch) {
      CutStays(r.w, e, log[k].batch);
    }
    forall k | 0 <= k < |up| ensures InCut(w, up[k]) {
      CutStays(r.w, e, up[k]);
    }
  }

  lemma DeliveredHonest(v: Server, log: seq<Entry>, since: nat, i: nat, r: Replica, order: seq<Key>, now: nat -> int)
    requires Honest(log, since, i, r) && CanAct(v, r, Delivers(0, order, now))
    ensures Honest(log, since, i, Acted(v, r, Delivers(0, order, now)))
  {
    var frames, from := r.wire.value.frames, AcksFrom(r.wire.value, since);
    var after := Acted(v, r, Delivers(0, order, now));
    if frames[0].AckFrame? {
      assert IsMerged(log, from, i, frames[0].batch);
    }
    EventHonest(log, since, i, r, EventOf(frames[0], order, now), r.wire.value.up, after.stale);
    forall k | 0 <= k < |frames[1..]| && frames[1..][k].AckFrame? ensures IsMerged(log, from, i, frames[1..][k].batch) {
      assert frames[1..][k] == frames[k + 1];
    }
  }

  lemma ActedHonest(v: Server, log: seq<Entry>, since: nat, i: nat, r: Replica, step: Step)
    requires Sound(r.w) && Honest(log, since, i, r) && CanAct(v, r, step) && !step.Delivers?
    ensures Honest(log, since, i, Acted(v, r, step))
  {
    match step {
      case Writes(_, event) =>
        EventHonest(log, since, i, r, event, if r.wire.Some? then r.wire.value.up else [], r.stale);
      case Pushes(_) =>
        var out := r.wire.value.up + Pushable(r.w.s.pending);
        forall k | 0 <= k < |out| ensures InCut(r.w, out[k]) {
          if k >= |r.wire.value.up| {
            PushableInCut(r.w, out[k]);
          }
        }
        EventHonest(log, since, i, r, Pushed, out, r.stale);
      case Drops(_) => EventHonest(log, since, i, r, LostConnection, [], r.stale);
      case Restarts(_, deviceId, order) => EventHonest(log, since, i, r, Restarted(deviceId, order), [], r.stale);
      case _ =>
    }
  }

  lemma AcksStayTrue(log: seq<Entry>, e: Entry, from: nat, i: nat, frames: seq<Frame>, f: Frame)
    requires AcksTrue(log, from, i, frames) && (f.AckFrame? ==> IsMerged(log + [e], from, i, f.batch))
    ensures AcksTrue(log + [e], from, i, frames) && AcksTrue(log + [e], from, i, frames + [f])
  {
    forall k | 0 <= k < |frames| && frames[k].AckFrame? ensures IsMerged(log + [e], from, i, frames[k].batch) {
      MergedStays(log, e, from, i, frames[k].batch);
    }
  }

  lemma InformedHonest(v: Server, log: seq<Entry>, since: nat, j: nat, r: Replica, e: Entry)
    requires Honest(log, since, j, r)
    requires e.device == j ==> r.wire.Some? && r.wire.value.up != [] && e.batch == r.wire.value.up[0]
    ensures Honest(log + [e], since, j, Informed(v, r, e.batch, j == e.device))
  {
    forall id | id in r.w.acked ensures IsMerged(log + [e], 0, j, id) {
      MergedStays(log, e, 0, j, id);
    }
    if r.wire.Some? {
      var frames, from := r.wire.value.frames, AcksFrom(r.wire.value, since);
      var heard := Broadcast(v, e.batch.ops, frames);
      AcksStayTrue(log, e, from, j, frames, RowsFrame(v.seq_ + 1, Touched(v.rows, e.batch.ops, v.seq_ + 1)));
      if e.device == j {
        assert (log + [e])[|log|] == e;
        var ack := AckFrame(e.batch.id, Merge(v, e.batch.ops).seq_);
        forall k | 0 <= k < |heard| + 1 && (heard + [ack])[k].AckFrame?
          ensures IsMerged(log + [e], from, j, (heard + [ack])[k].batch)
        {
          if k < |heard| {
            assert heard[k].AckFrame?;
          }
        }
      }
    }
  }

  lemma WipeHonest(log: seq<Entry>, since: nat, j: nat, r: Replica)
    requires Honest(log, since, j, r)
    ensures Honest(log, |log|, j, Outdated(r))
  {
    if r.wire.Some? {
      var frames := r.wire.value.frames;
      forall k | 0 <= k < |frames| && frames[k].AckFrame? ensures IsMerged(log, 0, j, frames[k].batch) {
        assert IsMerged(log, AcksFrom(r.wire.value, since), j, frames[k].batch);
      }
    }
  }

  // ── whole runs ──────────────────────────────────────────────────────────

  ghost predicate Folded(v: Server, log: seq<Entry>) {
    forall key :: SameButSeq(GetRow(v.rows, key), Fold(None, OpsOn(MergedOps(log), key)))
  }

  ghost predicate HistorySound(v: Server, log: seq<Entry>, since: nat) {
    && ServerSound(v) && since <= |log|
    && Folded(v, log[since..]) && CreatedSince(v, log, since)
  }

  /** The `i`-th replica stands where it should, and its history is honest. */
  ghost predicate Good(v: Server, log: seq<Entry>, since: nat, i: nat, r: Replica) {
    Standing(v, r) && Honest(log, since, i, r)
  }

  ghost predicate RoomSound(room: Room) {
    && HistorySound(room.server, room.log, room.since)
    && forall i | 0 <= i < |room.replicas| :: Good(room.server, room.log, room.since, i, room.replicas[i])
  }

  lemma MergeFolded(v: Server, log: seq<Entry>, e: Entry)
    requires ServerSound(v) && Folded(v, log)
    ensures Folded(Merge(v, e.batch.ops), log + [e])
  {
    var ops := e.batch.ops;
    forall key ensures SameButSeq(GetRow(Merge(v, ops).rows, key), Fold(None, OpsOn(MergedOps(log + [e]), key))) {
      var before, mine := Fold(None, OpsOn(MergedOps(log), key)), OpsOn(ops, key);
      MergedRow(v, ops, key);
      FoldSameButSeq(GetRow(v.rows, key), before, mine);
      assert (log + [e])[..|log|] == log;
      OpsOnConcat(MergedOps(log), ops, key);
      FoldConcat(None, OpsOn(MergedOps(log), key), mine);
    }
  }

  lemma {:induction false} CreatingFolds(row: Option<Row>, ops: seq<RowOp>, key: Key)
    requires row.Some? || Creates(ops, key)
    ensures Fold(row, OpsOn(ops, key)).Some?
  {
    if ops != [] {
      var front, last := ops[..|ops| - 1], ops[|ops| - 1];
      if row.Some? || Creates(front, key) {
        CreatingFolds(row, front, key);
      } else {
        assert ops == front + [last];
        CreatesConcat(front, [last], key);
      }
      var mine := OpsOn(front, key);
      if OpKey(last) == key {
        assert OpsOn(ops, key) == mine + [last] && (mine + [last])[..|mine|] == mine;
      } else {
        assert OpsOn(ops, key) == mine;
      }
    } else {
      assert OpsOn(ops, key) == [];
    }
  }

  lemma MergeCreates(v: Server, log: seq<Entry>, since: nat, e: Entry)
    requires ServerSound(v) && CreatedSince(v, log, since)
    ensures CreatedSince(Merge(v, e.batch.ops), log + [e], since)
  {
    var after := Merge(v, e.batch.ops);
    MergeKeepsKeys(v, e.batch.ops);
    forall k | since <= k < |log| + 1 ensures AllCreatedIn(after, (log + [e])[k].batch.ops) {
      if k < |log| {
        assert AllCreatedIn(v, log[k].batch.ops);
      } else {
        forall key | Creates(e.batch.ops, key) ensures key in after.rows {
          MergedRow(v, e.batch.ops, key);
          CreatingFolds(GetRow(v.rows, key), e.batch.ops, key);
          assert GetRow(after.rows, key).Some?;
        }
      }
    }
  }

  lemma MergeHistory(v: Server, log: seq<Entry>, since: nat, e: Entry)
    requires HistorySound(v, log, since)
    ensures HistorySound(Merge(v, e.batch.ops), log + [e], since)
  {
    MergeSound(v, e.batch.ops);
    MergeFolded(v, log[since..], e);
    assert (log + [e])[since..] == log[since..] + [e];
    MergeCreates(v, log, since, e);
  }

  lemma MergeKeepsGood(v: Server, log: seq<Entry>, since: nat, j: nat, r: Replica, e: Entry)
    requires ServerSound(v) && Good(v, log, since, j, r)
    requires e.device == j ==> r.wire.Some? && r.wire.value.up != [] && e.batch == r.wire.value.up[0]
    ensures Good(Merge(v, e.batch.ops), log + [e], since, j, Informed(v, r, e.batch, j == e.device))
  {
    InformedStands(v, r, e.batch, j == e.device);
    InformedHonest(v, log, since, j, r, e);
  }

  lemma MergeStepSound(room: Room, i: nat)
    requires RoomSound(room) && CanHappen(room, Merges(i))
    ensures RoomSound(Next(room, Merges(i)))
  {
    var e := Entry(i, room.replicas[i].wire.value.up[0]);
    MergeHistory(room.server, room.log, room.since, e);
    var after := Next(room, Merges(i));
    forall j | 0 <= j < |after.replicas|
      ensures Good(after.server, after.log, after.since, j, after.replicas[j])
    {
      MergeKeepsGood(room.server, room.log, room.since, j, room.replicas[j], e);
    }
  }

  lemma FloorSound(room: Room, floor: nat)
    requires RoomSound(room)
    ensures RoomSound(room.(server := room.server.(gcFloor := floor)))
  {
    var v := room.server.(gcFloor := floor);
    forall i | 0 <= i < |room.replicas| ensures Good(v, room.log, room.since, i, room.replicas[i]) {
      assert Good(room.server, room.log, room.since, i, room.replicas[i]);
      FloorStands(room.server, floor, room.replicas[i]);
    }
    forall k | room.since <= k < |room.log| ensures AllCreatedIn(v, room.log[k].batch.ops) {
      assert AllCreatedIn(room.server, room.log[k].batch.ops);
    }
  }

  lemma WipeSound(room: Room, i: nat)
    requires RoomSound(room) && i < |room.replicas|
    ensures RoomSound(Next(room, Wipes(i)))
  {
    var after := Next(room, Wipes(i));
    assert room.log[|room.log|..] == [];
    forall j | 0 <= j < |after.replicas|
      ensures Good(after.server, after.log, after.since, j, after.replicas[j])
    {
      assert Good(room.server, room.log, room.since, j, room.replicas[j]);
      WipeStands(room.server, room.replicas[j]);
      WipeHonest(room.log, room.since, j, room.replicas[j]);
    }
  }

  lemma OwnStepKeeps(v: Server, log: seq<Entry>, since: nat, i: nat, r: Replica, step: Step)
    requires ServerSound(v) && CreatedSince(v, log, since) && Good(v, log, since, i, r) && CanAct(v, r, step)
    requires !step.Merges? && !step.MovesFloor? && !step.Wipes?
    ensures Good(v, log, since, i, Acted(v, r, step))
  {
    if step.Delivers? {
      var frame := r.wire.value.frames[0];
      if frame.AckFrame? && !r.wire.value.old_ {
        AcksAreFair(v, log, since, i, r, frame.batch);
      }
      DeliveredStands(v, r, step.order, step.now);
      DeliveredHonest(v, log, since, i, r, step.order, step.now);
    } else {
      ActedStands(v, r, step);
      ActedHonest(v, log, since, i, r, step);
    }
  }

  lemma ActStepSound(room: Room, step: Step)
    requires RoomSound(room) && CanHappen(room, step) && !step.Merges? && !step.MovesFloor? && !step.Wipes?
    ensures RoomSound(Next(room, step))
  {
    var r := Acted(room.server, room.replicas[step.i], step);
    var after := room.(replicas := room.replicas[step.i := r]);
    assert Next(room, step) == after;
    OwnStepKeeps(room.server, room.log, room.since, step.i, room.replicas[step.i], step);
    forall j | 0 <= j < |after.replicas| ensures Good(room.server, room.log, room.since, j, after.replicas[j]) {
      assert j != step.i ==> Good(room.server, room.log, room.since, j, room.replicas[j]);
    }
  }

  lemma RoomStepSound(room: Room, step: Step)
    requires RoomSound(room) && CanHappen(room, step)
    ensures RoomSound(Next(room, step))
  {
    if step.Merges? {
      MergeStepSound(room, step.i);
    } else if step.MovesFloor? {
      FloorSound(room, step.floor);
    } else if step.Wipes? {
      WipeSound(room, step.i);
    } else {
      ActStepSound(room, step);
    }
  }

  /**
   * The room over every run: the server's rows are the fold of the ops it
   * merged since it last lost its storage; each replica not stale trails the
   * server and is led to it by what is on its connection; a full answer on its
   * way restores any replica; a row the server lacks has its seed pending;
   * what is acked was merged, and what is merged was cut.
   */
  lemma {:induction false} RoomProtocol(deviceIds: seq<string>, steps: seq<Step>)
    requires After(NewRoom(deviceIds), steps).Some?
    ensures RoomSound(After(NewRoom(deviceIds), steps).value)
  {
    if steps != [] {
      RoomProtocol(deviceIds, steps[..|steps| - 1]);
      RoomStepSound(After(NewRoom(deviceIds), steps[..|steps| - 1]).value, steps[|steps| - 1]);
    }
  }

  // ── the room at rest ────────────────────────────────────────────────────

  /** The wire is up and empty, and made since the server last lost its storage: nothing is on its way. */
  predicate Drained(r: Replica) {
    r.wire.Some? && r.wire.value.frames == []
  }

  /**
   * With nothing on its way, a replica in step shows the server's row of every
   * key the server has under its own pending ops; of a row the server lacks,
   * the seed is pending.
   */
  lemma DrainedShowsServer(deviceIds: seq<string>, steps: seq<Step>, i: nat, key: Key)
    requires After(NewRoom(deviceIds), steps).Some?
    requires var room := After(NewRoom(deviceIds), steps).value;
             i < |room.replicas| && Drained(room.replicas[i]) && !room.replicas[i].stale
    ensures var room := After(NewRoom(deviceIds), steps).value;
            var s := room.replicas[i].w.s;
            && s.serverSeq == room.server.seq_
            && (key in room.server.rows ==>
                  Overlaid(s, key) == Fold(GetRow(room.server.rows, key), OpsOn(AllOps(s.pending), key)))
            && (key in s.rows && key !in room.server.rows ==> Creates(AllOps(s.pending), key))
  {
    RoomProtocol(deviceIds, steps);
    var room := After(NewRoom(deviceIds), steps).value;
    assert Good(room.server, room.log, room.since, i, room.replicas[i]);
  }

  /** What a replica cut and no longer holds was merged, with its ops. */
  lemma RetiredMeansMerged(log: seq<Entry>, since: nat, i: nat, r: Replica, c: Batch)
    requires Sound(r.w) && Honest(log, since, i, r) && c in Cut(r.w) && r.w.s.pending == []
    ensures exists e | e in log :: e.device == i && e.batch.id == c.id && e.batch.ops == c.ops
  {
    LeavesOnlyByAck(r.w, c);
    var k :| 0 <= k < |log| && log[k].device == i && log[k].batch.id == c.id;
    assert InCut(r.w, c) && InCut(r.w, log[k].batch);
    OneCut(r.w, c, log[k].batch);
    assert log[k] in log;
  }

  /**
   * A room come to rest agrees. When nothing is on its way to a replica in
   * step and it has nothing pending, it shows exactly the server's row of
   * every key; that row is the fold of all ops merged since the server last
   * lost its storage, in the order they were merged; and the batches ever
   * merged are, for each replica at rest, its own and all of them.
   */
  lemma QuietRoomAgrees(deviceIds: seq<string>, steps: seq<Step>, i: nat)
    requires After(NewRoom(deviceIds), steps).Some?
    requires var room := After(NewRoom(deviceIds), steps).value;
             i < |room.replicas| && Drained(room.replicas[i]) && !room.replicas[i].stale &&
             room.replicas[i].w.s.pending == []
    ensures var room := After(NewRoom(deviceIds), steps).value;
            var w := room.replicas[i].w;
            && w.s.rows == room.server.rows
            && (forall key :: Overlaid(w.s, key) == GetRow(room.server.rows, key))
            && room.since <= |room.log|
            && (forall key :: SameButSeq(GetRow(room.server.rows, key),
                                         Fold(None, OpsOn(MergedOps(room.log[room.since..]), key))))
            && (forall c | c in Cut(w) :: exists e | e in room.log ::
                  e.device == i && e.batch.id == c.id && e.batch.ops == c.ops)
            && (forall k | 0 <= k < |room.log| && room.log[k].device == i :: InCut(w, room.log[k].batch))
  {
    RoomProtocol(deviceIds, steps);
    var room := After(NewRoom(deviceIds), steps).value;
    var r := room.replicas[i];
    assert Good(room.server, room.log, room.since, i, r);
    QuietRows(room.server, r);
    forall c | c in Cut(r.w)
      ensures exists e | e in room.log :: e.device == i && e.batch.id == c.id && e.batch.ops == c.ops
    {
      RetiredMeansMerged(room.log, room.since, i, r, c);
    }
  }

  lemma QuietRows(v: Server, r: Replica)
    requires Standing(v, r) && Drained(r) && !r.stale && r.w.s.pending == []
    ensures r.w.s.rows == v.rows && forall key :: Overlaid(r.w.s, key) == GetRow(v.rows, key)
  {
    var s := r.w.s;
    assert AllOps(s.pending) == [];
    forall k ensures GetRow(s.rows, k) == GetRow(v.rows, k) {
      assert k in s.rows && k !in v.rows ==> Creates(AllOps(s.pending), k);
    }
    SameMaps(s.rows, v.rows);
  }

  // ── losing the storage, and coming back ─────────────────────────────────

  /** A replica that never held anything. */
  predicate IsBlank(s: State) {
    s.serverSeq == 0 && s.pending == [] && s.generation == 0
  }

  lemma JoinedStands(v: Server, r: Replica, order: seq<Key>)
    requires ServerSound(v) && Standing(v, r) && CanAct(v, r, Joins(0, order))
    ensures var joined := Acted(v, r, Joins(0, order));
            && Standing(v, joined) && joined.w == r.w
            && joined.wire == Some(Wire([Answer(v, r.w.s, order)], [], false))
            && Known(v, Answer(v, r.w.s, order))
  {
    ActedStands(v, r, Joins(0, order));
    forall row | row in RowsIn(v.rows, order) ensures KeyOf(row) in v.rows {
      var i :| 0 <= i < |order| && RowsIn(v.rows, order)[i] == row;
      assert order[i] in order;
    }
  }

  /**
   * Which rejoin brings a stale replica back. Once the answer to its hello is
   * delivered its cursor is the server's number, lower than before if need be;
   * and it is in step again, with every row the server has and a seed pending
   * for each of its own that the server lacks, if and only if it was before or
   * the answer was full: asked for with a cursor past the server's number or
   * below its floor, or with none.
   */
  lemma RejoinRecovers(v: Server, r: Replica, order: seq<Key>, seeds: seq<Key>, now: nat -> int)
    requires ServerSound(v) && Standing(v, r) && CanAct(v, r, Joins(0, order))
    requires Enabled(r.w.s, EventOf(Answer(v, r.w.s, order), seeds, now))
    ensures var joined := Acted(v, r, Joins(0, order));
            && CanAct(v, joined, Delivers(0, seeds, now))
            && var back := Acted(v, joined, Delivers(0, seeds, now));
               && back.w.s.serverSeq == v.seq_
               && (back.stale <==>
                     r.stale && !IsBlank(r.w.s) && v.gcFloor <= r.w.s.serverSeq <= v.seq_)
               && (!back.stale ==> HasAll(v, back.w.s.rows))
               && (!back.stale ==>
                     forall k | k in r.w.s.rows && k !in v.rows :: Creates(AllOps(back.w.s.pending), k))
  {
    var joined, frame := Acted(v, r, Joins(0, order)), Answer(v, r.w.s, order);
    JoinedStands(v, r, order);
    assert joined.wire.value.frames[0] == frame;
    assert CanAct(v, joined, Delivers(0, seeds, now));
    var back := Acted(v, joined, Delivers(0, seeds, now));
    DeliveryLands(r.w.s, frame, seeds, now);
    DeliveredStands(v, joined, seeds, now);
    if !back.stale {
      assert Leads(v, back.w.s.rows, back.w.s.serverSeq, []);
      forall k | k in r.w.s.rows && k !in v.rows ensures Creates(AllOps(back.w.s.pending), k) {
        if frame.full {
          SeededByFull(v, r.w.s, frame, seeds, now, k);
        } else {
          PutAllEither(r.w.s.rows, frame.rows, k);
          assert k in back.w.s.rows;
        }
      }
    }
  }

  // ── a server that loses nothing ─────────────────────────────────────────

  /** As long as the storage was never lost: no replica is stale, or has a row the server lacks. */
  ghost predicate NeverBehindIt(v: Server, r: Replica) {
    && !r.stale && r.w.s.rows.Keys <= v.rows.Keys
    && (r.wire.Some? && r.wire.value.frames != [] ==> Calm(r.w.s.rows, r.w.s.serverSeq, r.wire.value.frames[0]))
  }

  /** A state frame that takes no cursor back, and no row from the replica. */
  predicate Calm(rows: map<Key, Row>, c: nat, frame: Frame) {
    frame.StateFrame? ==> c <= frame.stateSeq && (frame.full ==> rows.Keys <= PutAll(map[], frame.rows).Keys)
  }

  lemma JoinIsCalm(v: Server, r: Replica, order: seq<Key>)
    requires ServerSound(v) && Standing(v, r) && NeverBehindIt(v, r) && CanAct(v, r, Joins(0, order))
    ensures NeverBehindIt(v, Acted(v, r, Joins(0, order)))
  {
    var frame := Answer(v, r.w.s, order);
    if frame.full {
      FullAnswerLevels(v, map[], HelloCursor(r.w.s), order);
    }
  }

  lemma OwnStepCalm(v: Server, r: Replica, step: Step)
    requires ServerSound(v) && Standing(v, r) && NeverBehindIt(v, r) && CanAct(v, r, step)
    requires !step.Merges? && !step.MovesFloor? && !step.Wipes?
    ensures NeverBehindIt(v, Acted(v, r, step))
  {
    match step {
      case Writes(_, event) => WriteKeepsTable(r.w.s, event);
      case Delivers(_, order, now) =>
        var frames, s := r.wire.value.frames, r.w.s;
        DeliveryLands(s, frames[0], order, now);
        assert Leads(v, Landed(s.rows, s.serverSeq, frames[0]), Reached(s.serverSeq, frames[0]), frames[1..]);
        forall k | k in Landed(s.rows, s.serverSeq, frames[0]) ensures k in v.rows {
          if k !in v.rows {
            LandedKeys(v, s.rows, s.serverSeq, frames[0], k);
          }
        }
        assert |frames| > 1 ==> frames[1..][0] == frames[1];
      case Restarts(_, deviceId, order) => RestartKeepsReads(r.w.s, order, deviceId, ("", ""));
      case Joins(_, order) => JoinIsCalm(v, r, order);
      case _ =>
    }
  }

  lemma InformedCalm(v: Server, r: Replica, batch: Batch, sender: bool)
    requires ServerSound(v) && NeverBehindIt(v, r)
    ensures NeverBehindIt(Merge(v, batch.ops), Informed(v, r, batch, sender))
  {
    MergeKeepsKeys(v, batch.ops);
    if r.wire.Some? && r.wire.value.frames != [] {
      assert Broadcast(v, batch.ops, r.wire.value.frames)[0] == r.wire.value.frames[0];
    }
  }

  ghost predicate AllCalm(room: Room) {
    forall i | 0 <= i < |room.replicas| :: NeverBehindIt(room.server, room.replicas[i])
  }

  lemma CalmMerge(room: Room, i: nat)
    requires RoomSound(room) && CanHappen(room, Merges(i)) && AllCalm(room)
    ensures AllCalm(Next(room, Merges(i)))
  {
    var batch, after := room.replicas[i].wire.value.up[0], Next(room, Merges(i));
    forall j | 0 <= j < |after.replicas| ensures NeverBehindIt(after.server, after.replicas[j]) {
      InformedCalm(room.server, room.replicas[j], batch, j == i);
    }
  }

  lemma CalmOwnStep(room: Room, step: Step)
    requires RoomSound(room) && CanHappen(room, step) && AllCalm(room)
    requires !step.Merges? && !step.MovesFloor? && !step.Wipes?
    ensures AllCalm(Next(room, step))
  {
    var v, r := room.server, room.replicas[step.i];
    assert Good(v, room.log, room.since, step.i, r);
    OwnStepCalm(v, r, step);
    var after := room.(replicas := room.replicas[step.i := Acted(v, r, step)]);
    assert Next(room, step) == after;
    forall j | 0 <= j < |after.replicas| ensures NeverBehindIt(v, after.replicas[j]) {
      assert j != step.i ==> NeverBehindIt(v, room.replicas[j]);
    }
  }

  lemma CalmStep(room: Room, step: Step)
    requires RoomSound(room) && CanHappen(room, step) && !step.Wipes? && AllCalm(room)
    ensures AllCalm(Next(room, step)) && Next(room, step).since == room.since
  {
    if step.Merges? {
      CalmMerge(room, step.i);
    } else if step.MovesFloor? {
      var v := room.server.(gcFloor := step.floor);
      forall j | 0 <= j < |room.replicas| ensures NeverBehindIt(v, room.replicas[j]) {
        assert NeverBehindIt(room.server, room.replicas[j]);
      }
    } else {
      CalmOwnStep(room, step);
    }
  }

  predicate NoWipes(steps: seq<Step>) {
    forall k | 0 <= k < |steps| :: !steps[k].Wipes?
  }

  lemma {:induction false} NeverWiped(deviceIds: seq<string>, steps: seq<Step>)
    requires After(NewRoom(deviceIds), steps).Some? && NoWipes(steps)
    ensures var room := After(NewRoom(deviceIds), steps).value;
            room.since == 0 && AllCalm(room)
  {
    if steps != [] {
      var front := steps[..|steps| - 1];
      NeverWiped(deviceIds, front);
      RoomProtocol(deviceIds, front);
      CalmStep(After(NewRoom(deviceIds), front).value, steps[|steps| - 1]);
    }
  }

  /** With a server that loses nothing no replica is ever stale, and no state frame makes one seed its rows again. */
  lemma JoinsSeedNothing(deviceIds: seq<string>, steps: seq<Step>, i: nat)
    requires After(NewRoom(deviceIds), steps).Some? && NoWipes(steps)
    requires i < |After(NewRoom(deviceIds), steps).value.replicas|
    ensures var r := After(NewRoom(deviceIds), steps).value.replicas[i];
            && !r.stale
            && (r.wire.Some? && r.wire.value.frames != [] && r.wire.value.frames[0].StateFrame? ==>
                  var frame := r.wire.value.frames[0];
                  SeedKeys(r.w.s, frame.stateSeq, frame.full, frame.rows) == {})
  {
    NeverWiped(deviceIds, steps);
    var room := After(NewRoom(deviceIds), steps).value;
    assert NeverBehindIt(room.server, room.replicas[i]);
  }
}
