/** Crashes: a replica comes back as it was last saved, which may be a while before it died. */
module RegistryCrash {
  import opened Wrappers
  import opened Hlc
  import opened Registry
  import opened RegistryReplica
  import opened RegistryFrames
  import opened RegistryProtocol

  /** A device: the replica, what was last saved of it, and every batch any of its lives cut. */
  datatype Device = Device(now: World, saved: World, ever: seq<Minted>)

  datatype Moment =
    | Ran(event: Event)
    | SavedSnapshot
    | Crashed(deviceId: string, order: seq<Key>)

  predicate Possible(d: Device, m: Moment) {
    match m
    case Ran(e) => Enabled(d.now.s, e)
    case SavedSnapshot => true
    case Crashed(_, order) => Lists(order, d.saved.s.rows.Keys)
  }

  function Next(d: Device, m: Moment): Device
    requires Possible(d, m)
  {
    match m
    case Ran(e) => Device(RegistryProtocol.Next(d.now, e), d.saved, d.ever + NewBatches(d.now.s, e))
    case SavedSnapshot => d.(saved := d.now)
    case Crashed(deviceId, order) => d.(now := RegistryProtocol.Next(d.saved, Restarted(deviceId, order)))
  }

  function NewDevice(deviceId: string): Device {
    Device(Birth(deviceId), Birth(deviceId), [])
  }

  /** The device after a run of moments, if each was possible when it came. */
  function After(d: Device, moments: seq<Moment>): Option<Device> {
    if moments == [] then Some(d)
    else
      var before := After(d, moments[..|moments| - 1]);
      if before.None? || !Possible(before.value, moments[|moments| - 1]) then None
      else Some(Next(before.value, moments[|moments| - 1]))
  }

  /**
   * The push protocol survives crashes, for what was saved: over every run of
   * events, saves and crashes the queue is exactly the batches of the history
   * the replica remembers that were not acked, whole and in order, and none of
   * them is handed out twice on a connection.
   */
  lemma {:induction false} CrashKeepsProtocol(deviceId: string, moments: seq<Moment>)
    requires After(NewDevice(deviceId), moments).Some?
    ensures var d := After(NewDevice(deviceId), moments).value; Sound(d.now) && Sound(d.saved)
  {
    if moments == [] {
      QueueProtocol(deviceId, []);
    } else {
      var front, last := moments[..|moments| - 1], moments[|moments| - 1];
      CrashKeepsProtocol(deviceId, front);
      var d := After(NewDevice(deviceId), front).value;
      match last {
        case Ran(e) => StepSound(d.now, e);
        case SavedSnapshot =>
        case Crashed(id, order) => StepSound(d.saved, Restarted(id, order));
      }
    }
  }

  /** A crash brings back the saved replica: its history, its acks, its reads and its whole unacked queue. */
  lemma CrashRestoresSaved(d: Device, deviceId: string, order: seq<Key>, key: Key)
    requires Sound(d.saved) && SoundRows(d.saved.s.rows) && Possible(d, Crashed(deviceId, order))
    ensures var r := Next(d, Crashed(deviceId, order)).now;
            && r.minted == d.saved.minted && r.acked == d.saved.acked && r.s.clock == d.saved.s.clock
            && OverlayRow(r.s, key) == OverlayRow(d.saved.s, key)
            && Pushable(r.s.pending) == Flagged(Unacked(Cut(d.saved), d.saved.acked, d.saved.handed), true)
  {
    RestartKeepsReads(d.saved.s, order, deviceId, key);
    ReconnectPushesAll(d.saved, Restarted(deviceId, order));
    RestartQueue(d.saved.s, order, deviceId);
    assert d.saved.minted + [] == d.saved.minted;
  }

  // ── batch ids across crashes ────────────────────────────────────────────

  /** The clock is past every stamp of every life. */
  predicate Ahead(d: Device) {
    forall i | 0 <= i < |d.ever| :: d.ever[i].stamp == d.now.s.clock || Earlier(d.ever[i].stamp, d.now.s.clock)
  }

  /** The first reading a moment takes of the wall clock, if it stamps anything. */
  function FirstReading(d: Device, m: Moment): Option<int>
    requires Possible(d, m)
  {
    match m
    case Ran(Wrote(_, _, _, now)) => Some(now(0))
    case Ran(DeletedRows(_, now)) => Some(now(0))
    case Ran(GotState(_, _, _, _, order, now)) => if order == [] then None else Some(now(0))
    case _ => None
  }

  /** A moment stamps from a clock past every stamp, or reads the wall clock past every stamped millisecond. */
  predicate ReadsAhead(d: Device, m: Moment)
    requires Possible(d, m)
  {
    FirstReading(d, m).Some? ==>
      Ahead(d) || forall i | 0 <= i < |d.ever| :: FirstReading(d, m).value > d.ever[i].stamp.lastMs
  }

  predicate Distinct(ms: seq<Minted>) {
    forall i, j | 0 <= i < j < |ms| :: ToBatch(ms[i]).id != ToBatch(ms[j]).id
  }

  predicate AllBefore(ms: seq<Minted>, later: seq<Minted>) {
    forall i, j | 0 <= i < |ms| && 0 <= j < |later| :: Earlier(ms[i].stamp, later[j].stamp)
  }

  predicate StampsSound(ms: seq<Minted>) {
    forall i | 0 <= i < |ms| :: ClockSound(ms[i].stamp)
  }

  lemma DistinctConcat(ms: seq<Minted>, later: seq<Minted>)
    requires Distinct(ms) && Distinct(later) && AllBefore(ms, later) && StampsSound(ms) && StampsSound(later)
    ensures Distinct(ms + later) && StampsSound(ms + later)
  {
    var all := ms + later;
    forall i, j | 0 <= i < j < |all| ensures ToBatch(all[i]).id != ToBatch(all[j]).id {
      if i < |ms| && j >= |ms| {
        StampsDiffer(all[i].stamp, all[i].device, all[j].stamp, all[j].device);
      }
    }
  }

  /** Distinct ids under sound stamps, all past the clock and in no earlier millisecond than the reading. */
  predicate Later(clock: ClockState, reading: int, ms: seq<Minted>) {
    && Distinct(ms) && StampsSound(ms)
    && forall j | 0 <= j < |ms| :: Earlier(clock, ms[j].stamp) && ms[j].stamp.lastMs >= reading
  }

  lemma MintIsLater(clock: ClockState, device: string, ops: seq<RowOp>, now: nat -> int, i: nat)
    requires ClockSound(clock)
    ensures Later(clock, now(i), Mint(clock, device, ops, now, i))
  {
    var ms := Mint(clock, device, ops, now, i);
    MintSound(clock, device, ops, now, i);
    forall a, b | 0 <= a < b < |ms| ensures ToBatch(ms[a]).id != ToBatch(ms[b]).id {
      BatchIdsIncrease(ms, LastStamp(clock, ms), a, b);
    }
    if ms != [] {
      assert ms[0].stamp == Tick(clock, now(i));
    }
  }

  lemma LaterThanTick(clock: ClockState, reading: int, next: int, ms: seq<Minted>)
    requires ClockSound(clock) && Later(Tick(clock, reading), next, ms)
    ensures Later(clock, reading, ms)
  {
  }

  /** Every batch an event cuts is stamped past the clock it found, and in no earlier millisecond than it read first. */
  lemma NewIsLater(d: Device, e: Event)
    requires Sound(d.now) && Enabled(d.now.s, e)
    ensures var new_, first := NewBatches(d.now.s, e), FirstReading(d, Ran(e));
            if first.Some? then Later(d.now.s.clock, first.value, new_) else new_ == []
  {
    var clock, device := d.now.s.clock, d.now.s.deviceId;
    match e {
      case Wrote(key, op, set_, now) =>
        var tick, ops := Tick(clock, now(0)), [WriteOp(d.now.s, key, op, set_, now)];
        MintIsLater(tick, device, ops, now, 1);
        LaterThanTick(clock, now(0), now(1), Mint(tick, device, ops, now, 1));
      case DeletedRows(keys, now) =>
        var tick, ops := Tick(clock, now(0)), DeleteOps(d.now.s, keys, now);
        MintIsLater(tick, device, ops, now, 1);
        LaterThanTick(clock, now(0), now(1), Mint(tick, device, ops, now, 1));
      case GotState(_, _, _, _, order, now) =>
        MintIsLater(clock, device, SeedOps(d.now.s.rows, order), now, 0);
      case _ =>
    }
  }

  lemma StepDistinct(d: Device, m: Moment)
    requires Sound(d.now) && Possible(d, m) && ReadsAhead(d, m) && Distinct(d.ever) && StampsSound(d.ever)
    ensures Distinct(Next(d, m).ever) && StampsSound(Next(d, m).ever)
  {
    if m.Ran? {
      NewIsLater(d, m.event);
      DistinctConcat(d.ever, NewBatches(d.now.s, m.event));
    }
  }

  /** Every moment of the run, when it came, stamped past everything any life had stamped. */
  predicate AllReadAhead(d: Device, moments: seq<Moment>)
    requires After(d, moments).Some?
    decreases |moments|
  {
    moments != [] ==>
      var front := moments[..|moments| - 1];
      AllReadAhead(d, front) && ReadsAhead(After(d, front).value, moments[|moments| - 1])
  }

  /**
   * Over any run with crashes no two batches of any lives share an id, as long
   * as the first stamp after each crash reads a wall clock past every
   * millisecond ever stamped.
   */
  lemma {:induction false} IdsSurviveCrashes(deviceId: string, moments: seq<Moment>)
    requires After(NewDevice(deviceId), moments).Some? && AllReadAhead(NewDevice(deviceId), moments)
    ensures var d := After(NewDevice(deviceId), moments).value; Distinct(d.ever) && StampsSound(d.ever)
  {
    if moments != [] {
      var front := moments[..|moments| - 1];
      IdsSurviveCrashes(deviceId, front);
      CrashKeepsProtocol(deviceId, front);
      StepDistinct(After(NewDevice(deviceId), front).value, moments[|moments| - 1]);
    }
  }

  /** Without that, ids come again: a write lost in a crash and made once more at the same reading repeats its batch. */
  lemma LostWriteRepeatsItsId(d: Device, e: Event, order: seq<Key>)
    requires d.now == d.saved && e.Wrote? && Lists(order, d.saved.s.rows.Keys)
    ensures var crash := Crashed(d.saved.s.deviceId, order);
            var once := Next(d, Ran(e));
            var twice := Next(Next(once, crash), Ran(e));
            && |once.ever| > |d.ever|
            && twice.ever == once.ever + once.ever[|d.ever|..]
            && !Distinct(twice.ever)
  {
    var crash := Crashed(d.saved.s.deviceId, order);
    var once := Next(d, Ran(e));
    RestartQueue(d.saved.s, order, d.saved.s.deviceId);
    var new_ := NewBatches(d.now.s, e);
    var back := Next(once, crash);
    assert back.now.s.clock == d.now.s.clock && back.now.s.deviceId == d.now.s.deviceId;
    assert NewBatches(back.now.s, e) == new_ && |new_| > 0;
    assert once.ever[|d.ever|..] == new_;
    var twice := Next(back, Ran(e));
    assert twice.ever[|d.ever|] == new_[0] && twice.ever[|once.ever|] == new_[0];
  }
}
