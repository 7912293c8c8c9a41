/** What a state frame does to rows that carry pending ops. */
module RegistryPending {
  import opened Wrappers
  import opened LexOrder
  import opened Registry
  import opened RegistryMerge
  import opened RegistryConvergence
  import opened RegistryRedelivery
  import opened RegistryReplica
  import opened RegistryFrames

  predicate OnlyUpdates(ops: seq<RowOp>) {
    forall i | 0 <= i < |ops| :: ops[i].op == Update
  }

  lemma FoldSnoc(row: Option<Row>, ops: seq<RowOp>, op: RowOp)
    ensures Fold(row, ops + [op]) == Step(Fold(row, ops), op)
  {
    assert (ops + [op])[..|ops|] == ops;
  }

  lemma {:induction false} UpdatesOfNothing(ops: seq<RowOp>)
    requires OnlyUpdates(ops)
    ensures Fold(None, ops) == None
  {
    if ops != [] {
      UpdatesOfNothing(ops[..|ops| - 1]);
    }
  }

  /** Where, from `i` on, the first op stands that is not an update. */
  function LeadingFrom(ops: seq<RowOp>, i: nat): (n: nat)
    requires i <= |ops|
    ensures i <= n <= |ops| && (n < |ops| ==> ops[n].op != Update)
    ensures forall j | i <= j < n :: ops[j].op == Update
    decreases |ops| - i
  {
    if i < |ops| && ops[i].op == Update then LeadingFrom(ops, i + 1) else i
  }

  /** How many updates stand at the head of a queue, before anything that can create a row. */
  function Leading(ops: seq<RowOp>): (n: nat)
    ensures n <= |ops|
  {
    LeadingFrom(ops, 0)
  }

  /** With no row to find, leading updates leave no trace. */
  lemma LeadingLost(ops: seq<RowOp>)
    ensures Fold(None, ops) == Fold(None, ops[Leading(ops)..])
  {
    var n := Leading(ops);
    UpdatesOfNothing(ops[..n]);
    FoldConcat(None, ops[..n], ops[n..]);
    assert ops[..n] + ops[n..] == ops;
  }

  /** A seed behind the pending ops of the row it was made from. */
  lemma SeedBehind(row: Row, ops: seq<RowOp>)
    requires WellFormed(row)
    ensures var before, op := Fold(Some(row), ops), RowToSeedOp(row);
            Step(before, op) == before <==> Deaf(before, op)
  {
    SeedIsNoOpOnItself(row);
    RedeliveryExactly(Some(row), RowToSeedOp(row), ops);
    ChangedIffDiffers(Fold(Some(row), ops), RowToSeedOp(row));
  }

  /**
   * What a frame does to the overlay of a row it does not mention, pending ops
   * and all. A delta leaves it alone, and so does any frame if the row is only
   * pending. A server that lost its storage leaves it alone if and only if the
   * overlay is deaf to the row's seed: it does not show the row, or shows it
   * with every field of the server's copy as new. A full replacement puts the
   * seed behind the pending ops, so updates at the head of the queue find no row
   * and are lost; what follows them, and the seed, make up the row.
   */
  lemma StateFrameOverPending(s: State, seq_: nat, full: bool, gcFloor: nat, frame: seq<Row>, order: seq<Key>,
                              now: nat -> int, key: Key)
    requires SoundRows(s.rows) && Lists(order, SeedKeys(s, seq_, full, frame))
    requires forall r | r in frame :: KeyOf(r) != key
    ensures var before, after := Overlaid(s, key), Overlaid(ApplyState(s, seq_, full, gcFloor, frame, order, now), key);
            && (!full || key !in s.rows ==> after == before)
            && (full && key in s.rows && seq_ < s.serverSeq ==>
                  (after == before <==> Deaf(before, RowToSeedOp(s.rows[key]))))
            && (full && key in s.rows && seq_ >= s.serverSeq ==>
                  var pending := OpsOn(AllOps(s.pending), key);
                  after == Fold(None, pending[Leading(pending)..] + [RowToSeedOp(s.rows[key])]))
  {
    UnmentionedOverlay(s, seq_, full, gcFloor, frame, order, now, key);
    var pending := OpsOn(AllOps(s.pending), key);
    PutAllElsewhere(map[], frame, key);
    if !full || key !in s.rows {
      assert pending + [] == pending;
    } else {
      var row := s.rows[key];
      assert key in SeedKeys(s, seq_, full, frame);
      FoldSnoc(if seq_ >= s.serverSeq then None else Some(row), pending, RowToSeedOp(row));
      SeedBehind(row, pending);
      LeadingLost(pending);
      FoldSnoc(None, pending[Leading(pending)..], RowToSeedOp(row));
    }
  }

  /**
   * Whatever is queued, deletes and revivals included: a row that lives after
   * the replacement is as new as a lost update if and only if every field of the
   * update was written again, by the rest of the queue or the seed, since the
   * row last came to life, under a clock no older.
   */
  lemma LostUpdateOutlived(row: Row, ops: seq<RowOp>, i: nat)
    requires i < Leading(ops) && Live(Fold(None, ops[Leading(ops)..] + [RowToSeedOp(row)]))
    ensures var rest := ops[Leading(ops)..] + [RowToSeedOp(row)];
            && LastBirth(None, rest).Some?
            && (Outdates(Fold(None, rest).value, ops[i]) <==>
                forall k | k in ops[i].Set() :: WrittenSince(rest, LastBirth(None, rest).value, k, ops[i].ClockFor(k)))
  {
    var rest := ops[Leading(ops)..] + [RowToSeedOp(row)];
    ClockSinceBirth(None, rest, "", row.kind);
    forall k | k in ops[i].Set()
      ensures NotOlder(Get(Fold(None, rest).value.clocks, k), Some(ops[i].ClockFor(k))) <==>
              WrittenSince(rest, LastBirth(None, rest).value, k, ops[i].ClockFor(k))
    {
      ClockSinceBirth(None, rest, k, ops[i].ClockFor(k));
    }
  }

  // ── fields as registers ─────────────────────────────────────────────────

  /** A field's write; a null value is a clearing. */
  datatype Written = Written(clock: Clock, value: Value)

  function FieldOf(row: Row, k: string): Option<Written> {
    if k in row.clocks then Some(Written(row.clocks[k], if k in row.fields then row.fields[k] else Null)) else None
  }

  function WriteOf(op: RowOp, k: string): Option<Written> {
    if k in op.Set() then Some(Written(op.ClockFor(k), op.Set()[k])) else None
  }

  /** The newer of two writes, the first if neither is. */
  function Winner(a: Option<Written>, b: Option<Written>): Option<Written> {
    if b.Some? && (a.None? || Less(a.value.clock, b.value.clock)) then b else a
  }

  /** The newest write to a field, the first of several as new. */
  function NewestWrite(ops: seq<RowOp>, k: string): Option<Written> {
    if ops == [] then None else Winner(NewestWrite(ops[..|ops| - 1], k), WriteOf(ops[|ops| - 1], k))
  }

  /** What a reader sees of a field. */
  function Shown(w: Option<Written>): Option<Written> {
    if w.Some? && w.value.value == Null then None else w
  }

  predicate NoDeletes(ops: seq<RowOp>) {
    forall i | 0 <= i < |ops| :: ops[i].op != Delete
  }

  /** Where nothing is deleted a field is its register: the newest of what it was and what was written. */
  lemma {:induction false} FoldField(start: Row, ops: seq<RowOp>, k: string)
    requires WellFormed(start) && !start.deleted && NoDeletes(ops)
    ensures var r := Fold(Some(start), ops);
            && Live(r) && WellFormed(r.value) && KeyOf(r.value) == KeyOf(start)
            && FieldOf(r.value, k) == Winner(FieldOf(start, k), NewestWrite(ops, k))
  {
    TotalOrder();
    if ops != [] {
      var n := |ops| - 1;
      FoldField(start, ops[..n], k);
      var mid := Fold(Some(start), ops[..n]).value;
      MergedWellFormed(mid, ops[n]);
      MergedField(mid, ops[n], k);
      WinnerTwice(FieldOf(start, k), NewestWrite(ops[..n], k), WriteOf(ops[n], k));
    }
  }

  lemma WinnerTwice(a: Option<Written>, b: Option<Written>, c: Option<Written>)
    ensures Winner(Winner(a, b), c) == Winner(a, Winner(b, c))
  {
    TotalOrder();
  }

  /** From nothing, an upsert first starts a bare row. */
  lemma {:induction false} FoldFromUpsert(ops: seq<RowOp>)
    requires ops != [] && ops[0].op == Upsert
    ensures Fold(None, ops) == Fold(Some(FreshRow(ops[0].kind, ops[0].id)), ops)
    decreases |ops|
  {
    if |ops| > 1 {
      FoldFromUpsert(ops[..|ops| - 1]);
    } else {
      assert ops[..0] == [];
    }
  }

  lemma SameShownFields(a: Row, b: Row)
    requires WellFormed(a) && WellFormed(b) && !a.deleted && !b.deleted && KeyOf(a) == KeyOf(b)
    ensures SameShown(a, b) <==> forall k :: Shown(FieldOf(a, k)) == Shown(FieldOf(b, k))
  {
    if forall k :: Shown(FieldOf(a, k)) == Shown(FieldOf(b, k)) {
      forall k
        ensures Get(a.fields, k) == Get(b.fields, k) && (k in a.fields ==> Get(a.clocks, k) == Get(b.clocks, k))
      {
        assert Shown(FieldOf(a, k)) == Shown(FieldOf(b, k));
      }
      SameGets(a, b);
    }
  }

  /** A field before the replacement: the server's own write, then all that is pending. */
  function Before(row: Row, ops: seq<RowOp>, k: string): Option<Written> {
    Winner(FieldOf(row, k), NewestWrite(ops, k))
  }

  /** A field after it: what is pending behind the leading updates, then what the seed carries. */
  function Replaced(row: Row, ops: seq<RowOp>, k: string): Option<Written> {
    Winner(NewestWrite(ops[Leading(ops)..], k), Shown(FieldOf(row, k)))
  }

  lemma SeedWrites(row: Row, k: string)
    requires WellFormed(row) && !row.deleted
    ensures WriteOf(RowToSeedOp(row), k) == Shown(FieldOf(row, k))
  {
  }

  lemma NewestSnoc(ops: seq<RowOp>, op: RowOp, k: string)
    ensures NewestWrite(ops + [op], k) == Winner(NewestWrite(ops, k), WriteOf(op, k))
  {
    assert (ops + [op])[..|ops|] == ops;
  }

  /** What can make up a row after the replacement: of the row's name, deleting nothing, creating first. */
  predicate Rebuilds(rest: seq<RowOp>, key: Key) {
    && (forall i | 0 <= i < |rest| :: rest[i].op != Delete && OpKey(rest[i]) == key)
    && (rest != [] ==> rest[0].op == Upsert)
  }

  lemma SuffixRebuilds(ops: seq<RowOp>, n: nat, key: Key)
    requires NoDeletes(ops) && n <= |ops| && forall i | 0 <= i < |ops| :: OpKey(ops[i]) == key
    requires n < |ops| ==> ops[n].op != Update
    ensures Rebuilds(ops[n..], key)
  {
  }

  lemma SeedRebuildsToo(rest: seq<RowOp>, seed: RowOp, key: Key)
    requires Rebuilds(rest, key) && seed.op == Upsert && OpKey(seed) == key
    ensures Rebuilds(rest + [seed], key)
  {
  }

  lemma FromNothing(ops: seq<RowOp>, key: Key, k: string)
    requires ops != [] && Rebuilds(ops, key)
    ensures var r := Fold(None, ops);
            && Live(r) && WellFormed(r.value) && KeyOf(r.value) == key
            && FieldOf(r.value, k) == NewestWrite(ops, k)
  {
    var start := FreshRow(ops[0].kind, ops[0].id);
    assert OpKey(ops[0]) == key;
    FoldFromUpsert(ops);
    FoldField(start, ops, k);
  }

  lemma RebuiltField(row: Row, rest: seq<RowOp>, k: string)
    requires WellFormed(row) && !row.deleted && Rebuilds(rest, KeyOf(row))
    ensures var r := Fold(None, rest + [RowToSeedOp(row)]);
            && Live(r) && WellFormed(r.value) && KeyOf(r.value) == KeyOf(row)
            && FieldOf(r.value, k) == Winner(NewestWrite(rest, k), Shown(FieldOf(row, k)))
  {
    var seed := RowToSeedOp(row);
    SeedRebuildsToo(rest, seed, KeyOf(row));
    FromNothing(rest + [seed], KeyOf(row), k);
    NewestSnoc(rest, seed, k);
    SeedWrites(row, k);
  }

  lemma ReplacedField(row: Row, ops: seq<RowOp>, k: string)
    requires WellFormed(row) && !row.deleted && NoDeletes(ops)
    requires forall i | 0 <= i < |ops| :: OpKey(ops[i]) == KeyOf(row)
    ensures var r := Fold(None, ops[Leading(ops)..] + [RowToSeedOp(row)]);
            && Live(r) && WellFormed(r.value) && KeyOf(r.value) == KeyOf(row)
            && FieldOf(r.value, k) == Replaced(row, ops, k)
  {
    SuffixRebuilds(ops, Leading(ops), KeyOf(row));
    RebuiltField(row, ops[Leading(ops)..], k);
  }

  /**
   * What a full replacement does to the pending ops of a live row it lacks, when
   * none is a delete. Readers see the same before and after if and only if each
   * field does: before, it shows the newest of the server's own write and all
   * pending ones; after, the newest of those behind the leading updates and of
   * the server's write if that showed. With only updates pending the row reads
   * as the server had it, and that is no change if and only if of every field
   * no pending write was newer, or it showed neither then nor before them.
   */
  lemma PendingUpdatesLost(row: Row, ops: seq<RowOp>)
    requires WellFormed(row) && !row.deleted && NoDeletes(ops)
    requires forall i | 0 <= i < |ops| :: OpKey(ops[i]) == KeyOf(row)
    ensures var before, after := Fold(Some(row), ops), Fold(None, ops[Leading(ops)..] + [RowToSeedOp(row)]);
            && Live(before) && Live(after)
            && (ReadsSame(before, after) <==> forall k :: Shown(Before(row, ops, k)) == Shown(Replaced(row, ops, k)))
            && (OnlyUpdates(ops) ==>
                && ReadsSame(after, Some(row))
                && (ReadsSame(before, after) <==>
                    forall k :: NoneLands(row, ops, k) || (k !in row.fields && k !in before.value.fields)))
  {
    FoldField(row, ops, "");
    ReplacedField(row, ops, "");
    var before, after := Fold(Some(row), ops).value, Fold(None, ops[Leading(ops)..] + [RowToSeedOp(row)]).value;
    forall k ensures FieldOf(before, k) == Before(row, ops, k) && FieldOf(after, k) == Replaced(row, ops, k) {
      FoldField(row, ops, k);
      ReplacedField(row, ops, k);
    }
    SameShownFields(before, after);
    if OnlyUpdates(ops) {
      assert Leading(ops) == |ops| && ops[|ops|..] == [];
      OnlyUpdatesLost(row, ops);
    }
  }

  // ── nothing but updates ─────────────────────────────────────────────────

  /** No pending write to `k` beats the row's. */
  predicate NoneLands(row: Row, ops: seq<RowOp>, k: string) {
    forall op | op in ops && k in op.Set() :: !Newer(op.ClockFor(k), Get(row.clocks, k))
  }

  lemma LandedClock(row: Row, ops: seq<RowOp>, k: string)
    requires WellFormed(row) && !row.deleted && OnlyUpdates(ops)
    ensures var r := Fold(Some(row), ops);
            && r.Some? && !r.value.deleted && WellFormed(r.value) && KeyOf(r.value) == KeyOf(row)
            && (NoneLands(row, ops, k) <==> Get(r.value.clocks, k) == Get(row.clocks, k))
            && (NoneLands(row, ops, k) ==> Get(r.value.fields, k) == Get(row.fields, k))
  {
    TotalOrder();
    FieldSettles(row, ops, k);
    FoldWellFormed(Some(row), ops);
  }

  lemma SameGets(a: Row, b: Row)
    requires forall k :: Get(a.fields, k) == Get(b.fields, k)
    ensures a.fields == b.fields
  {
    forall k ensures (k in a.fields <==> k in b.fields) && (k in a.fields ==> a.fields[k] == b.fields[k]) {
      assert Get(a.fields, k) == Get(b.fields, k);
    }
  }

  lemma OnlyUpdatesLost(row: Row, ops: seq<RowOp>)
    requires WellFormed(row) && !row.deleted && OnlyUpdates(ops)
    ensures var before, after := Fold(Some(row), ops), Fold(None, [] + [RowToSeedOp(row)]);
            && before.Some? && ReadsSame(after, Some(row))
            && (ReadsSame(before, after) <==>
                forall k :: NoneLands(row, ops, k) || (k !in row.fields && k !in before.value.fields))
  {
    SeedRebuilds(row);
    FoldSnoc(None, [], RowToSeedOp(row));
    LandedClock(row, ops, "");
    var before := Fold(Some(row), ops).value;
    forall k
      ensures NoneLands(row, ops, k) <==> Get(before.clocks, k) == Get(row.clocks, k)
      ensures NoneLands(row, ops, k) ==> Get(before.fields, k) == Get(row.fields, k)
    {
      LandedClock(row, ops, k);
    }
    if forall k :: NoneLands(row, ops, k) || (k !in row.fields && k !in before.fields) {
      forall k ensures Get(before.fields, k) == Get(row.fields, k) {
        assert NoneLands(row, ops, k) || (k !in row.fields && k !in before.fields);
      }
      SameGets(before, row);
    }
  }
}
