/**
 * The room's server as the repository stands it in: it merges pushed batches
 * with the replicas' own merge, numbers the rows they changed, and answers a
 * hello with the rows past the caller's cursor.
 */
module RegistryServer {
  import opened Wrappers
  import opened Registry
  import opened RegistryMerge
  import opened RegistryReplica
  import opened RegistryProtocol

  datatype Server = Server(rows: map<Key, Row>, seq_: nat, gcFloor: nat)

  // ── a push ──────────────────────────────────────────────────────────────

  function Others(frame: seq<Row>, key: Key): seq<Row> {
    if frame == [] then []
    else
      var last := frame[|frame| - 1];
      Others(frame[..|frame| - 1], key) + if KeyOf(last) == key then [] else [last]
  }

  /** One op of a pushed batch: a row it changed is numbered `n` and moves to the end of the list. */
  function Touch(rows: map<Key, Row>, touched: seq<Row>, op: RowOp, n: nat): seq<Row> {
    var merged := ApplyOp(GetRow(PutAll(rows, touched), OpKey(op)), op);
    if merged.row.Some? && merged.changed then Others(touched, OpKey(op)) + [merged.row.value.(serverSeq := n)]
    else touched
  }

  /** The rows a pushed batch changes, as they are after it. */
  function Touched(rows: map<Key, Row>, ops: seq<RowOp>, n: nat): seq<Row> {
    if ops == [] then [] else Touch(rows, Touched(rows, ops[..|ops| - 1], n), ops[|ops| - 1], n)
  }

  /** The server's number moves only when something changed. */
  function Stored(v: Server, touched: seq<Row>): Server {
    if touched == [] then v else v.(rows := PutAll(v.rows, touched), seq_ := v.seq_ + 1)
  }

  function Merge(v: Server, ops: seq<RowOp>): Server {
    Stored(v, Touched(v.rows, ops, v.seq_ + 1))
  }

  // ── a hello ─────────────────────────────────────────────────────────────

  predicate AnswersFull(v: Server, cursor: Option<nat>) {
    match cursor
    case None => true
    case Some(c) => c < v.gcFloor || c > v.seq_
  }

  /** The keys of the rows a hello is answered with. */
  function AnswerKeys(v: Server, cursor: Option<nat>): set<Key> {
    set k | k in v.rows && (AnswersFull(v, cursor) || v.rows[k].serverSeq > cursor.GetOr(0))
  }

  // ── what a push leaves ──────────────────────────────────────────────────

  /** Rows sit under their own names, numbered by a batch that was merged. */
  ghost predicate ServerSound(v: Server) {
    forall k | k in v.rows :: KeyOf(v.rows[k]) == k && 1 <= v.rows[k].serverSeq <= v.seq_
  }

  /** Equal but for the number of the batch that last changed them. */
  predicate SameButSeq(a: Option<Row>, b: Option<Row>) {
    a.Some? == b.Some? && (a.Some? ==> a.value == b.value.(serverSeq := a.value.serverSeq))
  }

  lemma {:induction false} PutOthers(rows: map<Key, Row>, frame: seq<Row>, key: Key, row: Row)
    requires KeyOf(row) == key
    ensures PutAll(rows, Others(frame, key))[key := row] == PutAll(rows, frame)[key := row]
  {
    if frame != [] {
      var front, last := frame[..|frame| - 1], frame[|frame| - 1];
      PutOthers(rows, front, key, row);
      if KeyOf(last) != key {
        var kept := Others(front, key);
        assert (kept + [last])[..|kept|] == kept;
        assert PutAll(rows, front)[KeyOf(last) := last][key := row]
            == PutAll(rows, front)[key := row][KeyOf(last) := last];
        assert PutAll(rows, kept)[KeyOf(last) := last][key := row]
            == PutAll(rows, kept)[key := row][KeyOf(last) := last];
      } else {
        assert Others(frame, key) == Others(front, key);
      }
    }
  }

  ghost predicate OwnNames(rows: map<Key, Row>) {
    forall k | k in rows :: KeyOf(rows[k]) == k
  }

  lemma NamesPut(rows: map<Key, Row>, row: Row)
    requires OwnNames(rows)
    ensures OwnNames(rows[KeyOf(row) := row])
  {
  }

  /** One op, seen in the table: the row it changed is replaced by the merge, under the batch's number. */
  lemma TouchLands(rows: map<Key, Row>, touched: seq<Row>, op: RowOp, n: nat)
    requires OwnNames(PutAll(rows, touched))
    ensures OwnNames(PutAll(rows, Touch(rows, touched, op, n)))
    ensures var before, after := PutAll(rows, touched), PutAll(rows, Touch(rows, touched, op, n));
            var row := GetRow(before, OpKey(op));
            after == if Step(row, op) == row then before else before[OpKey(op) := Step(row, op).value.(serverSeq := n)]
  {
    var before := PutAll(rows, touched);
    var row := GetRow(before, OpKey(op));
    ChangedIffDiffers(row, op);
    if Step(row, op) != row {
      var last := Step(row, op).value.(serverSeq := n);
      assert KeyOf(last) == OpKey(op);
      NamesPut(before, last);
      var kept := Others(touched, OpKey(op));
      assert (kept + [last])[..|kept|] == kept;
      PutOthers(rows, touched, OpKey(op), last);
    }
  }

  lemma WritesSeqless(base: Row, op: RowOp, n: nat)
    ensures Merged(base.(serverSeq := n), op, op.Set().Keys) == Merged(base, op, op.Set().Keys).(serverSeq := n)
  {
    assert Winners(base.(serverSeq := n), op, op.Set().Keys) == Winners(base, op, op.Set().Keys);
  }

  /** The merge neither reads nor writes the number. */
  lemma SeqPassesThrough(row: Row, op: RowOp, n: nat)
    ensures Step(Some(row), op).Some?
    ensures Step(Some(row.(serverSeq := n)), op) == Some(Step(Some(row), op).value.(serverSeq := n))
  {
    assert AllClocks(row.(serverSeq := n)) == AllClocks(row);
    WritesSeqless(if row.deleted then row.(deleted := false, fields := map[], clocks := map[]) else row, op, n);
  }

  lemma StepSameButSeq(a: Option<Row>, b: Option<Row>, op: RowOp)
    requires SameButSeq(a, b)
    ensures SameButSeq(Step(a, op), Step(b, op)) && (a.Some? ==> Step(a, op).Some?)
  {
    if b.Some? {
      SeqPassesThrough(b.value, op, a.value.serverSeq);
    }
  }

  lemma {:induction false} FoldSameButSeq(a: Option<Row>, b: Option<Row>, ops: seq<RowOp>)
    requires SameButSeq(a, b)
    ensures SameButSeq(Fold(a, ops), Fold(b, ops)) && (a.Some? ==> Fold(a, ops).Some?)
  {
    if ops != [] {
      var front, last := ops[..|ops| - 1], ops[|ops| - 1];
      FoldSameButSeq(a, b, front);
      StepSameButSeq(Fold(a, front), Fold(b, front), last);
    }
  }

  /** What a push makes of one row: the fold of its ops, numbered `n` if that changed it. */
  predicate Through(before: Option<Row>, after: Option<Row>, mine: seq<RowOp>, n: nat) {
    && SameButSeq(after, Fold(before, mine))
    && (before.Some? ==> after.Some?)
    && (after == before || (after.Some? && after.value.serverSeq == n))
  }

  lemma ThroughOne(start: Option<Row>, before: Option<Row>, mine: seq<RowOp>, op: RowOp, n: nat)
    requires Through(start, before, mine, n)
    ensures Through(start, if Step(before, op) == before || Step(before, op).None? then before
                           else Some(Step(before, op).value.(serverSeq := n)), mine + [op], n)
  {
    assert (mine + [op])[..|mine|] == mine;
    StepSameButSeq(before, Fold(start, mine), op);
  }

  lemma {:induction false} TouchedNames(rows: map<Key, Row>, ops: seq<RowOp>, n: nat)
    requires OwnNames(rows)
    ensures OwnNames(PutAll(rows, Touched(rows, ops, n)))
  {
    if ops != [] {
      TouchedNames(rows, ops[..|ops| - 1], n);
      TouchLands(rows, Touched(rows, ops[..|ops| - 1], n), ops[|ops| - 1], n);
    }
  }

  lemma {:induction false} TouchedRow(rows: map<Key, Row>, ops: seq<RowOp>, n: nat, key: Key)
    requires OwnNames(rows)
    ensures Through(GetRow(rows, key), GetRow(PutAll(rows, Touched(rows, ops, n)), key), OpsOn(ops, key), n)
  {
    if ops != [] {
      var front, op := ops[..|ops| - 1], ops[|ops| - 1];
      TouchedRow(rows, front, n, key);
      TouchedNames(rows, front, n);
      var before := PutAll(rows, Touched(rows, front, n));
      TouchLands(rows, Touched(rows, front, n), op, n);
      if OpKey(op) == key {
        ThroughOne(GetRow(rows, key), GetRow(before, key), OpsOn(front, key), op, n);
        assert OpsOn(ops, key) == OpsOn(front, key) + [op];
      } else {
        assert OpsOn(ops, key) == OpsOn(front, key);
      }
    }
  }

  lemma {:induction false} OthersAmong(frame: seq<Row>, key: Key, row: Row)
    requires row in Others(frame, key)
    ensures row in frame
  {
    if frame != [] && row != frame[|frame| - 1] {
      OthersAmong(frame[..|frame| - 1], key, row);
    }
  }

  lemma StoredLands(v: Server, touched: seq<Row>)
    ensures Stored(v, touched).rows == PutAll(v.rows, touched)
    ensures v.seq_ <= Stored(v, touched).seq_ <= v.seq_ + 1
  {
  }

  lemma MergeIs(v: Server, ops: seq<RowOp>, touched: seq<Row>)
    requires touched == Touched(v.rows, ops, v.seq_ + 1)
    ensures Merge(v, ops) == Stored(v, touched)
  {
  }

  lemma MergeLands(v: Server, ops: seq<RowOp>)
    ensures Merge(v, ops).rows == PutAll(v.rows, Touched(v.rows, ops, v.seq_ + 1))
    ensures v.seq_ <= Merge(v, ops).seq_ <= v.seq_ + 1
  {
    var touched := Touched(v.rows, ops, v.seq_ + 1);
    StoredLands(v, touched);
    MergeIs(v, ops, touched);
  }

  lemma ThroughNumbered(before: Option<Row>, after: Option<Row>, mine: seq<RowOp>, n: nat)
    requires Through(before, after, mine, n) && (before.Some? ==> before.value.serverSeq < n)
    ensures after != before <==> after.Some? && after.value.serverSeq >= n
  {
  }

  /** A row's table entry after a push; the number says whether the push changed it. */
  lemma MergedRow(v: Server, ops: seq<RowOp>, key: Key)
    requires ServerSound(v)
    ensures var before, after := GetRow(v.rows, key), GetRow(Merge(v, ops).rows, key);
            Through(before, after, OpsOn(ops, key), v.seq_ + 1) &&
            (after != before <==> after.Some? && after.value.serverSeq > v.seq_)
  {
    MergeLands(v, ops);
    TouchedRow(v.rows, ops, v.seq_ + 1, key);
    ThroughNumbered(GetRow(v.rows, key), GetRow(Merge(v, ops).rows, key), OpsOn(ops, key), v.seq_ + 1);
  }

  lemma MergeSound(v: Server, ops: seq<RowOp>)
    requires ServerSound(v)
    ensures ServerSound(Merge(v, ops))
  {
    var after := Merge(v, ops);
    MergeLands(v, ops);
    TouchedNames(v.rows, ops, v.seq_ + 1);
    forall k | k in after.rows ensures KeyOf(after.rows[k]) == k && 1 <= after.rows[k].serverSeq <= after.seq_ {
      NumberedWithin(v, ops, k);
    }
  }

  lemma NumberedWithin(v: Server, ops: seq<RowOp>, key: Key)
    requires ServerSound(v) && key in Merge(v, ops).rows
    ensures 1 <= Merge(v, ops).rows[key].serverSeq <= Merge(v, ops).seq_
  {
    TouchedRow(v.rows, ops, v.seq_ + 1, key);
    MergeLands(v, ops);
  }

  // ── what a hello brings ─────────────────────────────────────────────────

  /** A replica on its way: every row the server last changed at or before the cursor is as the server has it. */
  ghost predicate Trails(v: Server, rows: map<Key, Row>, c: nat) {
    && c <= v.seq_ && OwnNames(rows)
    && forall k | k in v.rows && v.rows[k].serverSeq <= c :: k in rows && rows[k] == v.rows[k]
  }

  /** It has no row of its own besides. */
  ghost predicate Behind(v: Server, rows: map<Key, Row>, c: nat) {
    Trails(v, rows, c) && rows.Keys <= v.rows.Keys
  }

  /** It has every row of the server's. */
  ghost predicate HasAll(v: Server, rows: map<Key, Row>) {
    forall k | k in v.rows :: k in rows && rows[k] == v.rows[k]
  }

  /** What a frame makes of a row does not depend on the row, if the frame has it at all. */
  lemma {:induction false} PutAllEither(rows: map<Key, Row>, frame: seq<Row>, key: Key)
    ensures GetRow(PutAll(rows, frame), key) ==
            if exists r | r in frame :: KeyOf(r) == key then GetRow(PutAll(map[], frame), key) else GetRow(rows, key)
    ensures (exists r | r in frame :: KeyOf(r) == key) <==> key in PutAll(map[], frame)
  {
    if frame != [] {
      var front, last := frame[..|frame| - 1], frame[|frame| - 1];
      PutAllEither(rows, front, key);
      assert forall r :: r in frame <==> r in front || r == last;
    }
  }

  lemma {:induction false} PutAllNames(rows: map<Key, Row>, frame: seq<Row>)
    requires OwnNames(rows)
    ensures OwnNames(PutAll(rows, frame))
  {
    if frame != [] {
      PutAllNames(rows, frame[..|frame| - 1]);
      NamesPut(PutAll(rows, frame[..|frame| - 1]), frame[|frame| - 1]);
    }
  }

  /** A push leaves a replica trailing that trailed before. */
  lemma StillTrails(v: Server, ops: seq<RowOp>, rows: map<Key, Row>, c: nat)
    requires ServerSound(v) && Trails(v, rows, c)
    ensures Trails(Merge(v, ops), rows, c)
  {
    var after := Merge(v, ops);
    forall k | k in after.rows && after.rows[k].serverSeq <= c ensures k in rows && rows[k] == after.rows[k] {
      MergedRow(v, ops, k);
      assert GetRow(after.rows, k) == GetRow(v.rows, k);
    }
    MergeLands(v, ops);
  }

  /** The server forgets no row. */
  lemma MergeKeepsKeys(v: Server, ops: seq<RowOp>)
    requires ServerSound(v)
    ensures v.rows.Keys <= Merge(v, ops).rows.Keys
  {
    forall k | k in v.rows ensures k in Merge(v, ops).rows {
      MergedRow(v, ops, k);
      assert GetRow(Merge(v, ops).rows, k).Some?;
    }
  }

  lemma AnswerLands(v: Server, base: map<Key, Row>, cursor: Option<nat>, order: seq<Key>, k: Key)
    requires ServerSound(v) && Lists(order, AnswerKeys(v, cursor))
    ensures GetRow(PutAll(base, RowsIn(v.rows, order)), k) ==
            if k in v.rows && (AnswersFull(v, cursor) || v.rows[k].serverSeq > cursor.GetOr(0))
            then Some(v.rows[k]) else GetRow(base, k)
  {
    RowsRoundTrip(base, v.rows, order, AnswerKeys(v, cursor), k);
  }

  /** A full answer levels any replica at all. */
  lemma FullAnswerLevels(v: Server, base: map<Key, Row>, cursor: Option<nat>, order: seq<Key>)
    requires ServerSound(v) && AnswersFull(v, cursor) && Lists(order, AnswerKeys(v, cursor))
    ensures HasAll(v, PutAll(base, RowsIn(v.rows, order)))
  {
    forall k | k in v.rows
      ensures k in PutAll(base, RowsIn(v.rows, order)) && PutAll(base, RowsIn(v.rows, order))[k] == v.rows[k]
    {
      AnswerLands(v, base, cursor, order, k);
    }
  }

  /**
   * A delta levels a replica, of whatever past, if and only if the replica
   * already has every row numbered up to its cursor. One whose cursor comes
   * from before the server lost its storage need not, once the server has
   * counted past that cursor again: the rows in between are then never sent.
   */
  lemma DeltaLevelsExactly(v: Server, rows: map<Key, Row>, c: nat, order: seq<Key>)
    requires ServerSound(v) && !AnswersFull(v, Some(c)) && Lists(order, AnswerKeys(v, Some(c)))
    ensures HasAll(v, PutAll(rows, RowsIn(v.rows, order))) <==>
            forall k | k in v.rows && v.rows[k].serverSeq <= c :: k in rows && rows[k] == v.rows[k]
  {
    var after := PutAll(rows, RowsIn(v.rows, order));
    forall k | k in v.rows
      ensures k in after && after[k] == v.rows[k] <==>
              v.rows[k].serverSeq <= c ==> k in rows && rows[k] == v.rows[k]
    {
      AnswerLands(v, rows, Some(c), order, k);
      assert k in after <==> GetRow(after, k).Some?;
      assert k in rows <==> GetRow(rows, k).Some?;
    }
  }

  /** The answer to a hello, delta or full, levels every replica that trails by its cursor. */
  lemma HelloLevels(v: Server, rows: map<Key, Row>, cursor: Option<nat>, order: seq<Key>)
    requires ServerSound(v) && Trails(v, rows, cursor.GetOr(0)) && Lists(order, AnswerKeys(v, cursor))
    ensures HasAll(v, PutAll(if AnswersFull(v, cursor) then map[] else rows, RowsIn(v.rows, order)))
  {
    if AnswersFull(v, cursor) {
      FullAnswerLevels(v, map[], cursor, order);
    } else {
      DeltaLevelsExactly(v, rows, cursor.value, order);
    }
  }

  /** If the replica is merely behind, the two tables are then the same. */
  lemma HelloCatchesUp(v: Server, rows: map<Key, Row>, cursor: Option<nat>, order: seq<Key>)
    requires ServerSound(v) && Behind(v, rows, cursor.GetOr(0)) && Lists(order, AnswerKeys(v, cursor))
    ensures PutAll(if AnswersFull(v, cursor) then map[] else rows, RowsIn(v.rows, order)) == v.rows
  {
    var base := if AnswersFull(v, cursor) then map[] else rows;
    forall k ensures GetRow(PutAll(base, RowsIn(v.rows, order)), k) == GetRow(v.rows, k) {
      AnswerLands(v, base, cursor, order, k);
    }
    SameMaps(PutAll(base, RowsIn(v.rows, order)), v.rows);
  }

  /** A replica that has heard of everything is answered with nothing. */
  lemma NothingNewToSend(v: Server, c: nat)
    requires ServerSound(v) && c == v.seq_ && v.gcFloor <= c
    ensures AnswerKeys(v, Some(c)) == {}
  {
  }

  /**
   * Why an ack must stay behind the rows it covers. An ack moves the cursor to
   * `n` and brings no rows; the next delta answer still levels the replica if
   * and only if it already has every row numbered past its old cursor and up
   * to `n`. A row it lacks there is never sent again until it next changes.
   */
  lemma AckedAheadExactly(v: Server, rows: map<Key, Row>, c: nat, n: nat, order: seq<Key>)
    requires ServerSound(v) && Behind(v, rows, c) && c <= n <= v.seq_ && v.gcFloor <= n
    requires Lists(order, AnswerKeys(v, Some(n)))
    ensures PutAll(rows, RowsIn(v.rows, order)) == v.rows <==>
            forall k | k in v.rows && c < v.rows[k].serverSeq <= n :: GetRow(rows, k) == Some(v.rows[k])
  {
    var after := PutAll(rows, RowsIn(v.rows, order));
    if forall k | k in v.rows && c < v.rows[k].serverSeq <= n :: GetRow(rows, k) == Some(v.rows[k]) {
      forall k | k in v.rows && v.rows[k].serverSeq <= n ensures k in rows && rows[k] == v.rows[k] {
        assert v.rows[k].serverSeq > c ==> GetRow(rows, k) == Some(v.rows[k]);
      }
      HelloCatchesUp(v, rows, Some(n), order);
    }
    forall k | k in v.rows && v.rows[k].serverSeq <= n ensures GetRow(after, k) == GetRow(rows, k) {
      RowsRoundTrip(rows, v.rows, order, AnswerKeys(v, Some(n)), k);
    }
  }

  // ── the list of touched rows ────────────────────────────────────────────

  /** The first row of that name in the list. */
  function Find(frame: seq<Row>, key: Key): Option<Row> {
    if frame == [] then None
    else
      var last := frame[|frame| - 1];
      var earlier := Find(frame[..|frame| - 1], key);
      if earlier.Some? then earlier else if KeyOf(last) == key then Some(last) else None
  }

  predicate NamedOnce(frame: seq<Row>) {
    forall i, j | 0 <= i < j < |frame| :: KeyOf(frame[i]) != KeyOf(frame[j])
  }

  lemma {:induction false} FindLooksUp(rows: map<Key, Row>, frame: seq<Row>, key: Key)
    requires NamedOnce(frame)
    ensures GetRow(PutAll(rows, frame), key) == if Find(frame, key).Some? then Find(frame, key) else GetRow(rows, key)
    ensures Find(frame, key).Some? <==> exists r | r in frame :: KeyOf(r) == key
  {
    if frame != [] {
      var front, last := frame[..|frame| - 1], frame[|frame| - 1];
      FindLooksUp(rows, front, key);
      assert forall r :: r in frame <==> r in front || r == last;
    }
  }

  lemma {:induction false} OthersNamedOnce(frame: seq<Row>, key: Key, row: Row)
    requires NamedOnce(frame) && KeyOf(row) == key
    ensures NamedOnce(Others(frame, key) + [row])
  {
    var kept := Others(frame, key);
    if frame != [] {
      var front, last := frame[..|frame| - 1], frame[|frame| - 1];
      OthersNamedOnce(front, key, row);
      var before := Others(front, key);
      assert forall i | 0 <= i < |before| :: (before + [row])[i] == before[i];
      assert (before + [row])[|before|] == row;
      if KeyOf(last) != key {
        forall i | 0 <= i < |before| ensures KeyOf(before[i]) != KeyOf(last) {
          OthersAmong(front, key, before[i]);
          var j :| 0 <= j < |front| && front[j] == before[i];
          assert KeyOf(frame[j]) != KeyOf(frame[|frame| - 1]);
        }
        assert kept == before + [last];
      } else {
        assert kept == before;
      }
    }
  }

  /** The row an op of a pushed batch meets: as the batch has left it, or as the table has it. */
  function Met(rows: map<Key, Row>, touched: seq<Row>, key: Key): Option<Row> {
    var found := Find(touched, key);
    if found.Some? then found else GetRow(rows, key)
  }

  /** One turn of the op loop. */
  lemma TouchTurn(rows: map<Key, Row>, touched: seq<Row>, op: RowOp, n: nat)
    requires NamedOnce(touched) && OwnNames(PutAll(rows, touched))
    ensures var merged := ApplyOp(Met(rows, touched, OpKey(op)), op);
            Touch(rows, touched, op, n) ==
              if merged.row.Some? && merged.changed
              then Others(touched, OpKey(op)) + [merged.row.value.(serverSeq := n)] else touched
    ensures NamedOnce(Touch(rows, touched, op, n))
  {
    var key := OpKey(op);
    FindLooksUp(rows, touched, key);
    var merged := ApplyOp(Met(rows, touched, key), op);
    if merged.row.Some? && merged.changed {
      assert KeyOf(merged.row.value) == key;
      OthersNamedOnce(touched, key, merged.row.value.(serverSeq := n));
    }
  }

  /** No row is broadcast twice in one frame. */
  lemma {:induction false} TouchedOnce(rows: map<Key, Row>, ops: seq<RowOp>, n: nat)
    requires OwnNames(rows)
    ensures NamedOnce(Touched(rows, ops, n))
  {
    if ops != [] {
      TouchedOnce(rows, ops[..|ops| - 1], n);
      TouchedNames(rows, ops[..|ops| - 1], n);
      TouchTurn(rows, Touched(rows, ops[..|ops| - 1], n), ops[|ops| - 1], n);
    }
  }

  /** A list of touched rows as the op loop keeps it: each row once, each under its name. */
  ghost predicate Tidy(rows: map<Key, Row>, touched: seq<Row>) {
    NamedOnce(touched) && OwnNames(PutAll(rows, touched))
  }

  lemma TouchedNext(rows: map<Key, Row>, ops: seq<RowOp>, i: nat, n: nat)
    requires i < |ops| && OwnNames(rows)
    ensures Tidy(rows, Touched(rows, ops[..i], n))
    ensures Touched(rows, ops[..i + 1], n) == Touch(rows, Touched(rows, ops[..i], n), ops[i], n)
  {
    TouchedNames(rows, ops[..i], n);
    TouchedOnce(rows, ops[..i], n);
    assert ops[..i + 1][..i] == ops[..i];
  }

  lemma PutNext(rows: map<Key, Row>, frame: seq<Row>, j: nat)
    requires j < |frame|
    ensures PutAll(rows, frame[..j + 1]) == PutAll(rows, frame[..j])[KeyOf(frame[j]) := frame[j]]
  {
    assert frame[..j + 1][..j] == frame[..j];
  }

  // ── the server as it is kept ────────────────────────────────────────────

  /** One op of a push: says whether it changed its row, and lists that row last if it did. */
  method TouchInPlace(rows: map<Key, Row>, touched: seq<Row>, op: RowOp, n: nat)
    returns (after: seq<Row>, changed: bool)
    requires Tidy(rows, touched)
    ensures after == Touch(rows, touched, op, n)
    ensures if changed then after != [] else after == touched
  {
    TouchTurn(rows, touched, op, n);
    var key := OpKey(op);
    var next, differs := ApplyOpInPlace(Met(rows, touched, key), op);
    if next.None? || !differs {
      return touched, false;
    }
    return Others(touched, key) + [next.value.(serverSeq := n)], true;
  }

  class RegistryServer {
    var rows: map<Key, Row>
    var seq_: nat
    var gcFloor: nat

    constructor ()
      ensures Value() == Server(map[], 0, 0)
    {
      rows, seq_, gcFloor := map[], 0, 0;
    }

    /** The server as a value. */
    function Value(): Server
      reads this
    {
      Server(rows, seq_, gcFloor)
    }

    /** The op loop: each op meets the row as the batch has left it so far. */
    method Collect(ops: seq<RowOp>) returns (applied: nat, touched: seq<Row>)
      requires OwnNames(rows)
      ensures touched == Touched(rows, ops, seq_ + 1) && (applied > 0 <==> touched != [])
    {
      var table, n := rows, seq_ + 1;
      applied, touched := 0, [];
      var i := 0;
      while i < |ops|
        invariant i <= |ops|
        invariant touched == Touched(table, ops[..i], n)
        invariant applied > 0 <==> touched != []
      {
        TouchedNext(table, ops, i, n);
        var changed: bool;
        touched, changed := TouchInPlace(table, touched, ops[i], n);
        if changed {
          applied := applied + 1;
        }
        i := i + 1;
      }
      assert ops[..i] == ops;
    }

    method Store(applied: nat, touched: seq<Row>)
      requires applied > 0 <==> touched != []
      modifies this`rows, this`seq_
      ensures Server(rows, seq_, gcFloor) == Stored(Server(old(rows), old(seq_), gcFloor), touched)
    {
      if applied == 0 {
        return;
      }
      seq_ := seq_ + 1;
      var j := 0;
      ghost var was := rows;
      assert touched[..0] == [];
      while j < |touched|
        invariant j <= |touched| && seq_ == old(seq_) + 1
        invariant rows == PutAll(was, touched[..j])
      {
        PutNext(was, touched, j);
        rows := rows[KeyOf(touched[j]) := touched[j]];
        j := j + 1;
      }
      assert touched[..j] == touched;
    }

    /** Merges a batch, as `MergeIs` puts it; gives back the number for its ack and the rows to broadcast, each once. */
    method Push(ops: seq<RowOp>) returns (ackSeq: nat, touched: seq<Row>)
      requires OwnNames(rows)
      modifies this`rows, this`seq_
      ensures Server(rows, seq_, gcFloor) == Stored(Server(old(rows), old(seq_), gcFloor), touched) && ackSeq == seq_
      ensures touched == Touched(old(rows), ops, old(seq_) + 1)
    {
      var applied: nat;
      applied, touched := Collect(ops);
      Store(applied, touched);
      ackSeq := seq_;
    }

    /** The storage is lost: no row, no number, no floor. */
    method Reset()
      modifies this
      ensures Value() == Server(map[], 0, 0)
    {
      rows, seq_, gcFloor := map[], 0, 0;
    }

    /** Answers a hello: the rows past the cursor, or all of them, in the order the table is walked in. */
    method Hello(cursor: Option<nat>) returns (full: bool, answer: seq<Row>, ghost order: seq<Key>)
      ensures full == AnswersFull(Value(), cursor)
      ensures Lists(order, AnswerKeys(Value(), cursor)) && answer == RowsIn(rows, order)
    {
      full := match cursor case None => true case Some(c) => c < gcFloor || c > seq_;
      answer, order := [], [];
      var left := rows.Keys;
      while left != {}
        invariant left <= rows.Keys
        invariant Lists(order, AnswerKeys(Value(), cursor) - left) && answer == RowsIn(rows, order)
      {
        var key :| key in left;
        if full || rows[key].serverSeq > cursor.GetOr(0) {
          answer, order := answer + [rows[key]], order + [key];
        }
        left := left - {key};
      }
    }
  }
}
