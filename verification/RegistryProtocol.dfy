/**
 * The push queue over whole runs: any interleaving of writes, pushes, acks,
 * disconnects, restarts and server frames.
 */
module RegistryProtocol {
  import opened Wrappers
  import opened LexOrder
  import opened Hlc
  import opened Registry
  import opened RegistryReplica

  datatype Event =
    | Wrote(key: Key, op: OpKind, set_: map<string, Registry.Value>, now: nat -> int)
    | DeletedRows(keys: seq<Key>, now: nat -> int)
    | Pushed
    | Acked(batch: string, ackSeq: nat)
    | LostConnection
    | Restarted(deviceId: string, order: seq<Key>)
    | GotRows(rowsSeq: nat, frame: seq<Row>)
    | GotState(stateSeq: nat, full: bool, gcFloor: nat, frame: seq<Row>, order: seq<Key>, now: nat -> int)

  /**
   * A replica with its history: every batch ever cut, the ids acked so far, and
   * the ids handed out on the current connection.
   */
  datatype World = World(s: State, minted: seq<Minted>, acked: set<string>, handed: seq<string>)

  predicate Enabled(s: State, e: Event) {
    match e
    case Restarted(_, order) => Lists(order, s.rows.Keys)
    case GotState(seq_, full, _, frame, order, _) => Lists(order, SeedKeys(s, seq_, full, frame))
    case _ => true
  }

  function Ids(bs: seq<Batch>): seq<string> {
    seq(|bs|, i requires 0 <= i < |bs| => bs[i].id)
  }

  /** What the event enqueues, after `tick` and with the clock readings from `i` on. */
  function NewBatches(s: State, e: Event): seq<Minted>
    requires Enabled(s, e)
  {
    match e
    case Wrote(key, op, set_, now) => Mint(Tick(s.clock, now(0)), s.deviceId, [WriteOp(s, key, op, set_, now)], now, 1)
    case DeletedRows(keys, now) => Mint(Tick(s.clock, now(0)), s.deviceId, DeleteOps(s, keys, now), now, 1)
    case GotState(_, _, _, _, order, now) => Mint(s.clock, s.deviceId, SeedOps(s.rows, order), now, 0)
    case _ => []
  }

  function NextState(s: State, e: Event): State
    requires Enabled(s, e)
  {
    match e
    case Wrote(key, op, set_, now) => Write(s, key, op, set_, now)
    case DeletedRows(keys, now) => DeleteRows(s, keys, now)
    case Pushed => TakePushable(s)
    case Acked(batch, seq_) => AckBatch(s, batch, seq_)
    case LostConnection => MarkDisconnected(s)
    case Restarted(deviceId, order) => Restore(Save(s, order), deviceId).value
    case GotRows(seq_, frame) => ApplyRows(s, seq_, frame)
    case GotState(seq_, full, gcFloor, frame, order, now) => ApplyState(s, seq_, full, gcFloor, frame, order, now)
  }

  function Next(w: World, e: Event): World
    requires Enabled(w.s, e)
  {
    World(
      NextState(w.s, e),
      w.minted + NewBatches(w.s, e),
      if e.Acked? && e.batch in Ids(w.s.pending) then w.acked + {e.batch} else w.acked,
      if e.Pushed? then w.handed + Ids(Pushable(w.s.pending))
      else if e.LostConnection? || e.Restarted? then []
      else w.handed)
  }

  // ── batch ids ───────────────────────────────────────────────────────────

  predicate ClockSound(c: ClockState) {
    c.counter <= COUNTER_MAX
  }

  /** Every cut batch has 1 to 400 ops, and its stamp is later than the ones before. */
  ghost predicate MintedSound(ms: seq<Minted>, clock: ClockState) {
    && ClockSound(clock)
    && (forall i | 0 <= i < |ms| :: ClockSound(ms[i].stamp) && (ms[i].stamp == clock || Earlier(ms[i].stamp, clock)))
    && (forall i, j | 0 <= i < j < |ms| :: Earlier(ms[i].stamp, ms[j].stamp))
    && (forall i | 0 <= i < |ms| :: 1 <= |ms[i].ops| <= MAX_OPS_PER_BATCH)
  }

  lemma StampsDiffer(a: ClockState, da: string, b: ClockState, db: string)
    requires ClockSound(a) && ClockSound(b) && Earlier(a, b)
    ensures BatchId(a, da) != BatchId(b, db)
    ensures b.lastMs < MS_LIMIT ==> Less(BatchId(a, da), BatchId(b, db))
  {
    WidthMonotone(a.lastMs, b.lastMs);
    if ExtraWidth(a.lastMs, b.lastMs) == 0 {
      SameWidthOrder(a.lastMs, a.counter, da, b.lastMs, b.counter, db);
    } else {
      WiderOrder(a.lastMs, a.counter, da, b.lastMs, b.counter, db);
    }
    if b.lastMs < MS_LIMIT {
      HlcOrder(a.lastMs, a.counter, da, b.lastMs, b.counter, db);
    }
    LessOfConcat("b-", Stamp(a, da), "b-", Stamp(b, db));
    assert BatchId(a, da)[2..] == Stamp(a, da) && BatchId(b, db)[2..] == Stamp(b, db);
  }

  /** No two batches ever cut share an id; while the milliseconds keep their width, ids increase. */
  lemma BatchIdsIncrease(ms: seq<Minted>, clock: ClockState, i: nat, j: nat)
    requires MintedSound(ms, clock) && i < j < |ms|
    ensures ToBatch(ms[i]).id != ToBatch(ms[j]).id
    ensures ms[j].stamp.lastMs < MS_LIMIT ==> Less(ToBatch(ms[i]).id, ToBatch(ms[j]).id)
  {
    StampsDiffer(ms[i].stamp, ms[i].device, ms[j].stamp, ms[j].device);
  }

  lemma {:induction false} MintSound(clock: ClockState, device: string, ops: seq<RowOp>, now: nat -> int, i: nat)
    requires ClockSound(clock)
    ensures var ms := Mint(clock, device, ops, now, i);
            MintedSound(ms, LastStamp(clock, ms)) &&
            forall j | 0 <= j < |ms| :: Earlier(clock, ms[j].stamp)
    decreases |ops|
  {
    if ops != [] {
      var tick := Tick(clock, now(i));
      MintSound(tick, device, ops[ChunkSize(ops)..], now, i + 1);
    }
  }

  // ── the queue is the unacked part of the history ────────────────────────

  /** The cut batches not yet acked, in order, flagged as handed out or not. */
  function Unacked(cut: seq<Batch>, acked: set<string>, handed: seq<string>): seq<Batch> {
    if cut == [] then []
    else
      var last := cut[|cut| - 1];
      Unacked(cut[..|cut| - 1], acked, handed) +
        if last.id in acked then [] else [last.(inFlight := last.id in handed)]
  }

  predicate DistinctIds(bs: seq<Batch>) {
    forall i, j | 0 <= i < j < |bs| :: bs[i].id != bs[j].id
  }

  predicate HasId(bs: seq<Batch>, id: string) {
    exists b | b in bs :: b.id == id
  }

  /** Every batch ever cut, as it was first queued. */
  function Cut(w: World): seq<Batch> {
    ToBatches(w.minted)
  }

  ghost predicate QueueSound(cut: seq<Batch>, pending: seq<Batch>, acked: set<string>, handed: seq<string>) {
    && DistinctIds(cut)
    && pending == Unacked(cut, acked, handed)
    && (forall i, j | 0 <= i < j < |handed| :: handed[i] != handed[j])
    && (forall id | id in handed || id in acked :: HasId(cut, id))
  }

  ghost predicate Sound(w: World) {
    MintedSound(w.minted, w.s.clock) && QueueSound(Cut(w), w.s.pending, w.acked, w.handed)
  }

  lemma CutDistinct(ms: seq<Minted>, clock: ClockState)
    requires MintedSound(ms, clock)
    ensures DistinctIds(ToBatches(ms))
  {
    forall i, j | 0 <= i < j < |ms| ensures ToBatches(ms)[i].id != ToBatches(ms)[j].id {
      BatchIdsIncrease(ms, clock, i, j);
    }
  }

  lemma {:induction false} UnackedConcat(a: seq<Batch>, b: seq<Batch>, acked: set<string>, handed: seq<string>)
    ensures Unacked(a + b, acked, handed) == Unacked(a, acked, handed) + Unacked(b, acked, handed)
    decreases |b|
  {
    if b == [] {
      assert a + b == a;
    } else {
      assert (a + b)[..|a + b| - 1] == a + b[..|b| - 1];
      UnackedConcat(a, b[..|b| - 1], acked, handed);
    }
  }

  lemma FrontMembers(bs: seq<Batch>)
    requires bs != []
    ensures bs[|bs| - 1] in bs && forall b | b in bs[..|bs| - 1] :: b in bs
  {
  }

  lemma {:induction false} UnackedFresh(bs: seq<Batch>, acked: set<string>, handed: seq<string>)
    requires forall b | b in bs :: b.id !in acked && b.id !in handed && !b.inFlight
    ensures Unacked(bs, acked, handed) == bs
  {
    if bs != [] {
      var front, last := bs[..|bs| - 1], bs[|bs| - 1];
      FrontMembers(bs);
      UnackedFresh(front, acked, handed);
      assert bs == front + [last];
    }
  }

  /** The queue holds exactly the batches cut and not acked, with their ops. */
  lemma {:induction false} UnackedMembers(cut: seq<Batch>, acked: set<string>, handed: seq<string>, b: Batch)
    ensures b in Unacked(cut, acked, handed) <==>
            b.id !in acked && b.inFlight == (b.id in handed) && exists c | c in cut :: c.id == b.id && c.ops == b.ops
  {
    if cut != [] {
      var front, last := cut[..|cut| - 1], cut[|cut| - 1];
      UnackedMembers(front, acked, handed, b);
      assert forall c :: c in cut <==> c in front || c == last;
    }
  }

  lemma UnackedIds(cut: seq<Batch>, acked: set<string>, handed: seq<string>, id: string)
    ensures HasId(Unacked(cut, acked, handed), id) <==> id !in acked && HasId(cut, id)
  {
    forall b | b in cut && b.id == id && id !in acked ensures HasId(Unacked(cut, acked, handed), id) {
      UnackedMembers(cut, acked, handed, b.(inFlight := b.id in handed));
    }
    forall b | b in Unacked(cut, acked, handed) && b.id == id ensures id !in acked && HasId(cut, id) {
      UnackedMembers(cut, acked, handed, b);
    }
  }

  lemma {:induction false} UnackedAck(cut: seq<Batch>, acked: set<string>, handed: seq<string>, batch: string)
    ensures Without(Unacked(cut, acked, handed), batch) == Unacked(cut, acked + {batch}, handed)
  {
    if cut != [] {
      var front, last := cut[..|cut| - 1], cut[|cut| - 1];
      UnackedAck(front, acked, handed, batch);
      var q, before := Unacked(cut, acked, handed), Unacked(front, acked, handed);
      if last.id !in acked {
        assert q[..|q| - 1] == before;
      } else {
        assert q == before;
      }
    }
  }

  lemma {:induction false} UnackedFlags(cut: seq<Batch>, acked: set<string>, handed: seq<string>, flag: bool,
                                        after: seq<string>)
    requires forall b | b in cut && b.id !in acked :: (b.id in after) == flag
    ensures Flagged(Unacked(cut, acked, handed), flag) == Unacked(cut, acked, after)
  {
    if cut != [] {
      assert cut[|cut| - 1] in cut && forall b | b in cut[..|cut| - 1] :: b in cut;
      UnackedFlags(cut[..|cut| - 1], acked, handed, flag, after);
    }
  }

  lemma {:induction false} UnackedDistinct(cut: seq<Batch>, acked: set<string>, handed: seq<string>)
    requires DistinctIds(cut)
    ensures DistinctIds(Unacked(cut, acked, handed))
  {
    if cut != [] {
      var front, last := cut[..|cut| - 1], cut[|cut| - 1];
      UnackedDistinct(front, acked, handed);
      var q := Unacked(front, acked, handed);
      forall b | b in q ensures b.id != last.id {
        UnackedMembers(front, acked, handed, b);
      }
      assert forall i | 0 <= i < |q| :: q[i] in q;
    }
  }

  /** A push hands out the batches not in flight, once each. */
  lemma {:induction false} PushableFacts(bs: seq<Batch>)
    requires DistinctIds(bs)
    ensures DistinctIds(Pushable(bs))
    ensures forall id :: HasId(Pushable(bs), id) <==> exists b | b in bs :: b.id == id && !b.inFlight
  {
    if bs != [] {
      var front, last := bs[..|bs| - 1], bs[|bs| - 1];
      PushableFacts(front);
      var p, q := Pushable(front), Pushable(bs);
      assert forall b :: b in bs <==> b in front || b == last;
      assert forall b | b in front :: b.id != last.id;
      forall i | 0 <= i < |p| ensures p[i].id != last.id {
        assert HasId(p, p[i].id);
      }
      assert forall b :: b in q <==> b in p || (!last.inFlight && b == last.(inFlight := true));
      forall id ensures HasId(q, id) <==> exists b | b in bs :: b.id == id && !b.inFlight {
        assert HasId(q, id) <==> HasId(p, id) || (!last.inFlight && last.id == id);
      }
    }
  }

  lemma {:induction false} WithoutAbsent(bs: seq<Batch>, batch: string)
    requires !HasId(bs, batch)
    ensures Without(bs, batch) == bs
  {
    if bs != [] {
      var front, last := bs[..|bs| - 1], bs[|bs| - 1];
      FrontMembers(bs);
      assert last.id != batch && !HasId(front, batch);
      WithoutAbsent(front, batch);
      assert bs == front + [last];
    }
  }

  // ── every step keeps the queue sound ────────────────────────────────────

  lemma MintedExtends(w: World, tick: ClockState, more: seq<Minted>)
    requires MintedSound(w.minted, w.s.clock)
    requires tick == w.s.clock || Earlier(w.s.clock, tick)
    requires MintedSound(more, LastStamp(tick, more)) && ClockSound(tick)
    requires forall j | 0 <= j < |more| :: Earlier(tick, more[j].stamp)
    ensures MintedSound(w.minted + more, LastStamp(tick, more))
  {
  }

  lemma QueueExtends(cut: seq<Batch>, more: seq<Batch>, pending: seq<Batch>, acked: set<string>, handed: seq<string>)
    requires QueueSound(cut, pending, acked, handed) && DistinctIds(cut + more)
    requires forall b | b in more :: !b.inFlight
    ensures QueueSound(cut + more, pending + more, acked, handed)
  {
    forall b | b in more ensures b.id !in acked && b.id !in handed {
      var j :| 0 <= j < |more| && more[j] == b;
      assert (cut + more)[|cut| + j] == b;
      forall c | c in cut ensures c.id != b.id {
        var i :| 0 <= i < |cut| && cut[i] == c;
        assert (cut + more)[i] == c;
      }
    }
    UnackedConcat(cut, more, acked, handed);
    UnackedFresh(more, acked, handed);
    forall id | HasId(cut, id) ensures HasId(cut + more, id) {
      var b :| b in cut && b.id == id;
      assert b in cut + more;
    }
  }

  lemma BatchesConcat(a: seq<Minted>, b: seq<Minted>)
    ensures ToBatches(a + b) == ToBatches(a) + ToBatches(b)
  {
  }

  lemma EnqueueSound(w: World, s: State, ops: seq<RowOp>, now: nat -> int, i: nat)
    requires Sound(w) && s.pending == w.s.pending
    requires ClockSound(s.clock) && (s.clock == w.s.clock || Earlier(w.s.clock, s.clock))
    ensures Sound(World(Enqueue(s, ops, now, i), w.minted + Mint(s.clock, s.deviceId, ops, now, i), w.acked, w.handed))
  {
    var more := Mint(s.clock, s.deviceId, ops, now, i);
    MintSound(s.clock, s.deviceId, ops, now, i);
    MintedExtends(w, s.clock, more);
    CutDistinct(w.minted + more, LastStamp(s.clock, more));
    BatchesConcat(w.minted, more);
    QueueExtends(Cut(w), ToBatches(more), w.s.pending, w.acked, w.handed);
  }

  /** A push hands out ids that were cut and not handed out before, each once. */
  lemma PushHandsNew(cut: seq<Batch>, acked: set<string>, handed: seq<string>, out: seq<Batch>)
    requires DistinctIds(cut) && out == Pushable(Unacked(cut, acked, handed))
    ensures DistinctIds(out)
    ensures forall id | HasId(out, id) :: id !in handed && HasId(cut, id)
    ensures forall b | b in cut && b.id !in acked && b.id !in handed :: HasId(out, b.id)
  {
    var pending := Unacked(cut, acked, handed);
    UnackedDistinct(cut, acked, handed);
    PushableFacts(pending);
    forall id | HasId(out, id) ensures id !in handed && HasId(cut, id) {
      var b :| b in pending && b.id == id && !b.inFlight;
      UnackedMembers(cut, acked, handed, b);
    }
    forall b | b in cut && b.id !in acked && b.id !in handed ensures HasId(out, b.id) {
      UnackedMembers(cut, acked, handed, b.(inFlight := false));
    }
  }

  lemma PushKeepsQueue(cut: seq<Batch>, pending: seq<Batch>, acked: set<string>, handed: seq<string>)
    requires QueueSound(cut, pending, acked, handed)
    ensures QueueSound(cut, Flagged(pending, true), acked, handed + Ids(Pushable(pending)))
  {
    var out := Pushable(pending);
    var after := handed + Ids(out);
    PushHandsNew(cut, acked, handed, out);
    IdsAreIds(out);
    forall i, j | 0 <= i < j < |after| ensures after[i] != after[j] {
      if i < |handed| <= j {
        assert after[i] in handed && after[j] in Ids(out);
      }
    }
    UnackedFlags(cut, acked, handed, true, after);
  }

  lemma IdsAreIds(bs: seq<Batch>)
    ensures forall id :: id in Ids(bs) <==> HasId(bs, id)
  {
    forall b | b in bs ensures b.id in Ids(bs) {
      var i :| 0 <= i < |bs| && bs[i] == b;
      assert Ids(bs)[i] == b.id;
    }
    forall id | id in Ids(bs) ensures HasId(bs, id) {
      var i :| 0 <= i < |bs| && Ids(bs)[i] == id;
      assert bs[i] in bs;
    }
  }

  lemma AckKeepsQueue(cut: seq<Batch>, pending: seq<Batch>, acked: set<string>, handed: seq<string>, batch: string)
    requires QueueSound(cut, pending, acked, handed)
    ensures QueueSound(cut, Without(pending, batch), if batch in Ids(pending) then acked + {batch} else acked, handed)
  {
    UnackedIds(cut, acked, handed, batch);
    IdsAreIds(pending);
    if batch in Ids(pending) {
      UnackedAck(cut, acked, handed, batch);
    } else {
      WithoutAbsent(pending, batch);
    }
  }

  lemma RestartQueue(s: State, order: seq<Key>, deviceId: string)
    requires Lists(order, s.rows.Keys)
    ensures Restore(Save(s, order), deviceId).Success?
    ensures Restore(Save(s, order), deviceId).value.pending == Flagged(s.pending, false)
    ensures Restore(Save(s, order), deviceId).value.clock == s.clock
  {
  }

  /** Steps that enqueue nothing leave the history alone. */
  lemma QuietStepSound(w: World, e: Event)
    requires Sound(w) && Enabled(w.s, e) && !e.Wrote? && !e.DeletedRows? && !e.GotState?
    ensures Sound(Next(w, e))
  {
    assert w.minted + [] == w.minted;
    match e {
      case Pushed => PushKeepsQueue(Cut(w), w.s.pending, w.acked, w.handed);
      case Acked(batch, _) => AckKeepsQueue(Cut(w), w.s.pending, w.acked, w.handed, batch);
      case LostConnection => UnackedFlags(Cut(w), w.acked, w.handed, false, []);
      case Restarted(deviceId, order) =>
        RestartQueue(w.s, order, deviceId);
        UnackedFlags(Cut(w), w.acked, w.handed, false, []);
      case GotRows(_, _) =>
    }
  }

  lemma StateFrameSound(w: World, e: Event)
    requires Sound(w) && Enabled(w.s, e) && e.GotState?
    ensures Sound(Next(w, e))
  {
    var base := if e.full && e.stateSeq >= w.s.serverSeq then map[] else w.s.rows;
    EnqueueSound(w, w.s.(rows := PutAll(base, e.frame), serverSeq := e.stateSeq, gcFloor := e.gcFloor,
                         generation := w.s.generation + 1), SeedOps(w.s.rows, e.order), e.now, 0);
  }

  lemma StepSound(w: World, e: Event)
    requires Sound(w) && Enabled(w.s, e)
    ensures Sound(Next(w, e))
  {
    match e {
      case Wrote(key, op, set_, now) =>
        EnqueueSound(w, w.s.(clock := Tick(w.s.clock, now(0))), [WriteOp(w.s, key, op, set_, now)], now, 1);
      case DeletedRows(keys, now) =>
        EnqueueSound(w, w.s.(clock := Tick(w.s.clock, now(0))), DeleteOps(w.s, keys, now), now, 1);
      case GotState(_, _, _, _, _, _) => StateFrameSound(w, e);
      case _ => QuietStepSound(w, e);
    }
  }

  // ── whole runs ──────────────────────────────────────────────────────────

  function Birth(deviceId: string): World {
    World(NewState(deviceId), [], {}, [])
  }

  /** The world after a run of events, if each was possible when it came. */
  function After(w: World, events: seq<Event>): Option<World> {
    if events == [] then Some(w)
    else
      var before := After(w, events[..|events| - 1]);
      if before.None? || !Enabled(before.value.s, events[|events| - 1]) then None
      else Some(Next(before.value, events[|events| - 1]))
  }

  /**
   * The push protocol, over every run of a replica from birth: batch stamps
   * strictly increase and every batch has 1 to 400 ops; the queue is exactly
   * the batches cut and not acked, whole and in order; and no batch is handed
   * out twice on one connection.
   */
  lemma {:induction false} QueueProtocol(deviceId: string, events: seq<Event>)
    requires After(Birth(deviceId), events).Some?
    ensures Sound(After(Birth(deviceId), events).value)
    ensures forall m | m in After(Birth(deviceId), events).value.minted :: 1 <= |m.ops| <= 400
  {
    if events != [] {
      QueueProtocol(deviceId, events[..|events| - 1]);
      StepSound(After(Birth(deviceId), events[..|events| - 1]).value, events[|events| - 1]);
    }
  }

  /** Nothing leaves the queue but by its own ack: each batch ever cut is acked or pending. */
  lemma LeavesOnlyByAck(w: World, c: Batch)
    requires Sound(w) && c in Cut(w)
    ensures c.id in w.acked || exists b | b in w.s.pending :: b.id == c.id && b.ops == c.ops
  {
    UnackedMembers(Cut(w), w.acked, w.handed, c.(inFlight := c.id in w.handed));
  }

  /**
   * After a lost connection or a restart the next push hands out everything
   * unacked, in order and nothing else.
   */
  lemma ReconnectPushesAll(w: World, e: Event)
    requires Sound(w) && Enabled(w.s, e) && (e.LostConnection? || e.Restarted?)
    ensures Pushable(Next(w, e).s.pending) == Flagged(Unacked(Cut(w), w.acked, w.handed), true)
  {
    if e.Restarted? {
      RestartQueue(w.s, e.order, e.deviceId);
    }
    AllPushable(w.s.pending);
  }

  // ── reads across a restart ──────────────────────────────────────────────

  lemma {:induction false} AllOpsFlagged(bs: seq<Batch>, flag: bool)
    ensures AllOps(Flagged(bs, flag)) == AllOps(bs)
  {
    if bs != [] {
      AllOpsFlagged(bs[..|bs| - 1], flag);
      var q := Flagged(bs, flag);
      assert q[..|q| - 1] == Flagged(bs[..|bs| - 1], flag);
    }
  }

  /** Rows listed in a frame land; the others stay. */
  lemma {:induction false} RowsRoundTrip(base: map<Key, Row>, rows: map<Key, Row>, order: seq<Key>, keys: set<Key>,
                                         key: Key)
    requires keys <= rows.Keys && Lists(order, keys) && forall k | k in rows :: KeyOf(rows[k]) == k
    ensures GetRow(PutAll(base, RowsIn(rows, order)), key) == if key in keys then Some(rows[key]) else GetRow(base, key)
    decreases |order|
  {
    if order != [] {
      var front, last := order[..|order| - 1], order[|order| - 1];
      assert last in order && forall k | k in front :: k in order;
      forall k | k in keys - {last} ensures k in front {
        assert k in order;
      }
      RowsRoundTrip(base, rows, front, keys - {last}, key);
      var all := RowsIn(rows, order);
      assert all[..|all| - 1] == RowsIn(rows, front) && all[|all| - 1] == rows[last];
    } else {
      assert keys == {};
    }
  }

  lemma SameMaps(a: map<Key, Row>, b: map<Key, Row>)
    requires forall k :: GetRow(a, k) == GetRow(b, k)
    ensures a == b
  {
    assert forall k :: k in a <==> GetRow(a, k).Some?;
    assert forall k :: k in b <==> GetRow(b, k).Some?;
    assert forall k | k in a :: GetRow(a, k).value == a[k] && GetRow(b, k).value == b[k];
  }

  /** Saving and restoring changes no read: rows, pending writes and the sync cursor survive. */
  lemma RestartKeepsReads(s: State, order: seq<Key>, deviceId: string, key: Key)
    requires Lists(order, s.rows.Keys) && forall k | k in s.rows :: KeyOf(s.rows[k]) == k
    ensures var restored := Restore(Save(s, order), deviceId).value;
            restored.rows == s.rows && restored.serverSeq == s.serverSeq && restored.gcFloor == s.gcFloor &&
            Overlaid(restored, key) == Overlaid(s, key) && OverlayRow(restored, key) == OverlayRow(s, key)
  {
    var restored := Restore(Save(s, order), deviceId).value;
    RestartQueue(s, order, deviceId);
    AllOpsFlagged(s.pending, false);
    assert restored.rows == PutAll(map[], RowsIn(s.rows, order));
    forall k ensures GetRow(restored.rows, k) == GetRow(s.rows, k) {
      RowsRoundTrip(map[], s.rows, order, s.rows.Keys, k);
    }
    SameMaps(restored.rows, s.rows);
  }
}
