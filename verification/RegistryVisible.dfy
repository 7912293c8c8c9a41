/**
 * Creates, deletes and revivals in any order: which rows exist at the end, and
 * exactly when their visible fields do not depend on the delivery order.
 */
module RegistryVisible {
  import opened Wrappers
  import opened LexOrder
  import opened Registry
  import opened RegistryMerge
  import opened RegistryConvergence

  /** What a reader is shown: the fields of a live row. */
  function Visible(row: Option<Row>): Option<map<string, Value>> {
    if row.Some? && !row.value.deleted then Some(row.value.fields) else None
  }

  /** An ordinary local write: a delete, or an upsert that writes something under its own stamp. */
  predicate Plain(op: RowOp) {
    match op.op
    case Delete => op.writes.None?
    case Upsert => op.Set() != map[] && forall k | k in op.Set() :: op.ClockFor(k) == op.hlc
    case Update => false
  }

  predicate DistinctStamps(ops: seq<RowOp>) {
    forall i, j | 0 <= i < j < |ops| :: ops[i].hlc != ops[j].hlc
  }

  predicate PlainRun(ops: seq<RowOp>) {
    (forall op | op in ops :: Plain(op)) && DistinctStamps(ops)
  }

  predicate IsNewest(ops: seq<RowOp>, op: RowOp) {
    op in ops && forall o | o in ops :: o.hlc == op.hlc || Less(o.hlc, op.hlc)
  }

  lemma {:induction false} NewestExists(ops: seq<RowOp>) returns (op: RowOp)
    requires ops != []
    ensures IsNewest(ops, op)
  {
    TotalOrder();
    op := ops[|ops| - 1];
    if |ops| > 1 {
      var front := ops[..|ops| - 1];
      var best := NewestExists(front);
      assert forall o | o in ops :: o in front || o == op;
      if Less(op.hlc, best.hlc) {
        op := best;
      }
    }
  }

  lemma SameStampSameOp(ops: seq<RowOp>, a: RowOp, b: RowOp)
    requires DistinctStamps(ops) && a in ops && b in ops && a.hlc == b.hlc
    ensures a == b
  {
    var i :| 0 <= i < |ops| && ops[i] == a;
    var j :| 0 <= j < |ops| && ops[j] == b;
  }

  lemma PlainPrefix(ops: seq<RowOp>)
    requires PlainRun(ops) && ops != []
    ensures PlainRun(ops[..|ops| - 1]) && Plain(ops[|ops| - 1])
    ensures forall o | o in ops[..|ops| - 1] :: o in ops && o.hlc != ops[|ops| - 1].hlc
    ensures forall o | o in ops :: o in ops[..|ops| - 1] || o == ops[|ops| - 1]
  {
    assert ops[|ops| - 1] in ops;
  }

  // ── existence ───────────────────────────────────────────────────────────

  /** A plain write newer than all of a row's clocks becomes its newest clock. */
  lemma NewerUpsertTops(row: Option<Row>, op: RowOp)
    requires WellFormedOrMissing(row) && Plain(op) && op.op == Upsert
    requires row.Some? ==> Newer(op.hlc, MaxClock(row.value))
    ensures var r := Step(row, op);
            r.Some? && !r.value.deleted && MaxClock(r.value) == Some(op.hlc)
  {
    TotalOrder();
    var base := if row.None? then FreshRow(op.kind, op.id)
                else if row.value.deleted then row.value.(deleted := false, fields := map[], clocks := map[])
                else row.value;
    if row.Some? && row.value.deleted {
      TombstoneMax(row.value);
    }
    assert AllClocks(base) <= if row.Some? then AllClocks(row.value) else {};
    var r := Merged(base, op, op.Set().Keys);
    assert Step(row, op) == Some(r);
    forall c | c in AllClocks(r) ensures c == op.hlc || Less(c, op.hlc) {
      if c in r.clocks.Values {
        var f :| f in r.clocks && r.clocks[f] == c;
        MergedField(base, op, f);
        assert f in base.clocks ==> base.clocks[f] in AllClocks(base);
      }
    }
    var k :| k in op.Set();
    MergedField(base, op, k);
    assert k in base.clocks ==> base.clocks[k] in AllClocks(base);
    assert r.clocks[k] in AllClocks(r);
    MaxClockIs(r, op.hlc);
  }

  /** A plain write older than the row's newest clock neither creates, deletes nor tops anything. */
  lemma OlderOpKeepsMax(row: Row, op: RowOp)
    requires WellFormed(row) && Plain(op) && MaxClock(row).Some? && Less(op.hlc, MaxClock(row).value)
    ensures var r := Step(Some(row), op);
            r.Some? && r.value.deleted == row.deleted && MaxClock(r.value) == MaxClock(row)
  {
    TotalOrder();
    if row.deleted {
      TombstoneMax(row);
    } else if op.op == Upsert {
      var r := Merged(row, op, op.Set().Keys);
      StepMonotone(row, op);
      var m := MaxClock(r).value;
      if m in r.clocks.Values {
        var f :| f in r.clocks && r.clocks[f] == m;
        MergedField(row, op, f);
        assert f in row.clocks ==> row.clocks[f] in AllClocks(row);
      }
    }
  }

  /**
   * Existence converges: whatever order creates, deletes and revivals arrive
   * in, the row ends live exactly when the newest of them is an upsert, and
   * its newest clock is the greatest stamp seen.
   */
  lemma {:induction false} Existence(ops: seq<RowOp>, newest: RowOp)
    requires PlainRun(ops) && IsNewest(ops, newest)
    ensures var r := Fold(None, ops);
            r.Some? && WellFormed(r.value) && MaxClock(r.value) == Some(newest.hlc) &&
            (r.value.deleted <==> newest.op == Delete)
    decreases |ops|
  {
    TotalOrder();
    var front, last := ops[..|ops| - 1], ops[|ops| - 1];
    PlainPrefix(ops);
    FoldWellFormed(None, ops);
    assert Fold(None, ops) == Step(Fold(None, front), last);
    if front != [] {
      var before := NewestExists(front);
      Existence(front, before);
      var row := Fold(None, front).value;
      if Less(last.hlc, before.hlc) {
        OlderOpKeepsMax(row, last);
        SameStampSameOp(ops, newest, before);
      } else {
        SameStampSameOp(ops, newest, last);
        if last.op == Upsert {
          NewerUpsertTops(Some(row), last);
        } else {
          if row.deleted { TombstoneMax(row); }
          TombstoneMax(Step(Some(row), last).value);
        }
      }
    } else {
      assert newest == last;
      if last.op == Upsert {
        NewerUpsertTops(None, last);
      } else {
        TombstoneMax(Tombstone(last.kind, last.id, last.hlc));
      }
    }
  }

  // ── permutations of plain runs ──────────────────────────────────────────

  lemma {:induction false} DistinctCounts(ops: seq<RowOp>, op: RowOp)
    requires DistinctStamps(ops)
    ensures multiset(ops)[op] <= 1
  {
    if ops != [] {
      var front, last := ops[..|ops| - 1], ops[|ops| - 1];
      DistinctCounts(front, op);
      assert ops == front + [last];
      if last == op {
        assert op !in front;
      }
    }
  }

  lemma TwiceCounts(ops: seq<RowOp>, i: nat, j: nat)
    requires i < j < |ops| && ops[i] == ops[j]
    ensures multiset(ops)[ops[i]] >= 2
  {
    assert ops == ops[..j] + ops[j..];
    assert ops[i] in ops[..j] && ops[j] in ops[j..];
  }

  lemma PlainPermutation(a: seq<RowOp>, b: seq<RowOp>)
    requires Permutation(a, b) && PlainRun(a)
    ensures PlainRun(b)
  {
    SameMembers(a, b);
    forall i, j | 0 <= i < j < |b| ensures b[i].hlc != b[j].hlc {
      assert b[i] in b && b[j] in b;
      if b[i].hlc == b[j].hlc {
        SameStampSameOp(a, b[i], b[j]);
        TwiceCounts(b, i, j);
        DistinctCounts(a, b[i]);
      }
    }
  }

  /** Existence does not depend on the order. */
  lemma ExistenceConverges(a: seq<RowOp>, b: seq<RowOp>)
    requires Permutation(a, b) && PlainRun(a) && a != []
    ensures Fold(None, a).Some? && Fold(None, b).Some?
    ensures Fold(None, a).value.deleted == Fold(None, b).value.deleted
    ensures MaxClock(Fold(None, a).value) == MaxClock(Fold(None, b).value)
  {
    SameMembers(a, b);
    PlainPermutation(a, b);
    var newest := NewestExists(a);
    Existence(a, newest);
    Existence(b, newest);
  }

  // ── visible fields ──────────────────────────────────────────────────────

  predicate OutlivesDeletes(ops: seq<RowOp>, op: RowOp) {
    forall d | d in ops && d.op == Delete :: Less(d.hlc, op.hlc)
  }

  /** Every clock on the row was put there by an op of the run, and so was every field. */
  ghost predicate FromOps(row: Option<Row>, ops: seq<RowOp>) {
    row.Some? ==>
      && (row.value.delHlc.Some? ==> exists d | d in ops :: d.op == Delete && d.hlc == row.value.delHlc.value)
      && (forall k | k in row.value.clocks :: exists op | op in ops :: k in op.Set() && op.hlc == row.value.clocks[k])
      && (forall k | k in row.value.fields ::
            exists op | op in ops :: k in op.Set() && op.Set()[k] == row.value.fields[k])
  }

  lemma {:induction false} FoldFromOps(ops: seq<RowOp>)
    requires forall op | op in ops :: Plain(op)
    ensures FromOps(Fold(None, ops), ops)
  {
    if ops != [] {
      var front, last := ops[..|ops| - 1], ops[|ops| - 1];
      assert last in ops && forall o | o in front :: o in ops;
      FoldFromOps(front);
      var mid := Fold(None, front);
      if last.op == Upsert {
        var base := if mid.None? then FreshRow(last.kind, last.id)
                    else if mid.value.deleted then mid.value.(deleted := false, fields := map[], clocks := map[])
                    else mid.value;
        if Step(mid, last) != mid {
          var r := Merged(base, last, last.Set().Keys);
          assert Step(mid, last) == Some(r);
          forall k | k in r.clocks ensures exists op | op in ops :: k in op.Set() && op.hlc == r.clocks[k] {
            MergedField(base, last, k);
          }
          forall k | k in r.fields ensures exists op | op in ops :: k in op.Set() && op.Set()[k] == r.fields[k] {
            MergedField(base, last, k);
          }
        }
      }
    }
  }

  /** A write newer than the tombstone and the field's clock, if any, lands. */
  lemma FreshWriteLands(row: Option<Row>, w: RowOp, k: string)
    requires Plain(w) && w.op == Upsert && k in w.Set()
    requires row.Some? && row.value.deleted ==> Newer(w.hlc, row.value.delHlc)
    requires row.Some? && !row.value.deleted ==> Newer(w.hlc, Get(row.value.clocks, k))
    ensures var r := Step(row, w);
            r.Some? && !r.value.deleted && HoldsWrite(r.value, w, k)
  {
    var base := if row.None? then FreshRow(w.kind, w.id)
                else if row.value.deleted then row.value.(deleted := false, fields := map[], clocks := map[])
                else row.value;
    assert Step(row, w) == Some(Merged(base, w, w.Set().Keys));
    MergedField(base, w, k);
  }

  /** No older delete, and no older write to the field, dislodges it. */
  lemma HeldWriteStays(row: Row, w: RowOp, k: string, op: RowOp)
    requires k in w.Set() && Plain(w) && Plain(op) && !row.deleted && HoldsWrite(row, w, k)
    requires op.op == Delete || k in op.Set() ==> Less(op.hlc, w.hlc)
    ensures var r := Step(Some(row), op);
            r.Some? && !r.value.deleted && HoldsWrite(r.value, w, k)
  {
    TotalOrder();
    assert row.clocks[k] in AllClocks(row);
    if op.op == Upsert {
      MergedField(row, op, k);
    }
  }

  /** A field's newest write that is newer than every delete shows in every order. */
  lemma {:induction false} TopWriteShows(ops: seq<RowOp>, w: RowOp, k: string)
    requires PlainRun(ops) && w in ops && k in w.Set() && OutlivesDeletes(ops, w) && NothingNewer(ops, k, w.hlc)
    ensures var r := Fold(None, ops);
            r.Some? && !r.value.deleted && HoldsWrite(r.value, w, k)
    decreases |ops|
  {
    var front, last := ops[..|ops| - 1], ops[|ops| - 1];
    PlainPrefix(ops);
    var mid := Fold(None, front);
    if last == w {
      FoldFromOps(front);
      FoldWellFormed(None, front);
      forall c | mid.Some? && (mid.value.delHlc == Some(c) || Get(mid.value.clocks, k) == Some(c))
        ensures Less(c, w.hlc)
      {
        Trichotomy(c, w.hlc);
      }
      FreshWriteLands(mid, w, k);
    } else {
      TopWriteShows(front, w, k);
      assert last in ops && last.hlc != w.hlc;
      Trichotomy(last.hlc, w.hlc);
      HeldWriteStays(mid.value, w, k, last);
    }
  }

  /** Some write to `k` is newer than every delete. */
  predicate HasSurvivingWrite(ops: seq<RowOp>, k: string) {
    exists w :: w in ops && k in w.Set() && OutlivesDeletes(ops, w)
  }

  /** Every field that is ever given a value has a write newer than every delete. */
  predicate WritesSurvive(ops: seq<RowOp>) {
    forall u, k | u in ops && k in u.Set() && u.Set()[k] != Null :: HasSurvivingWrite(ops, k)
  }

  lemma {:induction false} GreatestWriter(ops: seq<RowOp>, w: RowOp, k: string) returns (top: RowOp)
    requires w in ops && k in w.Set() && forall op | op in ops :: Plain(op)
    ensures top in ops && k in top.Set() && NothingNewer(ops, k, top.hlc) && !Less(top.hlc, w.hlc)
    decreases |ops|
  {
    TotalOrder();
    var front, last := ops[..|ops| - 1], ops[|ops| - 1];
    assert last in ops && forall o | o in ops :: o in front || o == last;
    if w in front {
      top := GreatestWriter(front, w, k);
      if k in last.Set() && Less(top.hlc, last.hlc) {
        top := last;
      }
    } else if exists o :: o in front && k in o.Set() {
      var o :| o in front && k in o.Set();
      top := GreatestWriter(front, o, k);
      if Less(top.hlc, last.hlc) {
        top := last;
      }
    } else {
      top := last;
    }
  }

  /** When writes survive, each visible field is settled by the set of ops alone. */
  lemma SurvivingFieldsConverge(a: seq<RowOp>, b: seq<RowOp>, k: string)
    requires Permutation(a, b) && PlainRun(a) && PlainRun(b) && a != [] && WritesSurvive(a)
    requires var r := Fold(None, a); r.Some? && !r.value.deleted
    requires var r := Fold(None, b); r.Some? && !r.value.deleted
    ensures Get(Fold(None, a).value.fields, k) == Get(Fold(None, b).value.fields, k)
  {
    TotalOrder();
    SameMembers(a, b);
    if HasSurvivingWrite(a, k) {
      var w :| w in a && k in w.Set() && OutlivesDeletes(a, w);
      var top := GreatestWriter(a, w, k);
      assert OutlivesDeletes(a, top) && OutlivesDeletes(b, top);
      TopWriteShows(a, top, k);
      TopWriteShows(b, top, k);
    } else {
      FoldFromOps(a);
      FoldFromOps(b);
      FoldWellFormed(None, a);
      FoldWellFormed(None, b);
    }
  }

  lemma SurvivingWritesConverge(a: seq<RowOp>, b: seq<RowOp>)
    requires Permutation(a, b) && PlainRun(a) && a != []
    requires (exists d :: IsNewest(a, d) && d.op == Delete) || WritesSurvive(a)
    ensures Visible(Fold(None, a)) == Visible(Fold(None, b))
  {
    PlainPermutation(a, b);
    ExistenceConverges(a, b);
    var newest := NewestExists(a);
    Existence(a, newest);
    if exists d :: IsNewest(a, d) && d.op == Delete {
      var d :| IsNewest(a, d) && d.op == Delete;
      Existence(a, d);
    } else if newest.op == Upsert {
      var f, g := Fold(None, a).value.fields, Fold(None, b).value.fields;
      forall k ensures Get(f, k) == Get(g, k) {
        SurvivingFieldsConverge(a, b, k);
      }
      assert forall k :: (k in f <==> Get(f, k).Some?) && (k in g <==> Get(g, k).Some?);
      assert f == g;
    }
  }

  // ── the orders that diverge ─────────────────────────────────────────────

  function Older(ops: seq<RowOp>, c: Clock): seq<RowOp> {
    if ops == [] then []
    else Older(ops[..|ops| - 1], c) + (if Less(ops[|ops| - 1].hlc, c) then [ops[|ops| - 1]] else [])
  }

  function NotOlderOps(ops: seq<RowOp>, c: Clock): seq<RowOp> {
    if ops == [] then []
    else NotOlderOps(ops[..|ops| - 1], c) + (if Less(ops[|ops| - 1].hlc, c) then [] else [ops[|ops| - 1]])
  }

  lemma {:induction false} SplitPermutes(ops: seq<RowOp>, c: Clock)
    ensures Permutation(Older(ops, c) + NotOlderOps(ops, c), ops)
    ensures forall o | o in Older(ops, c) :: o in ops && Less(o.hlc, c)
    ensures forall o | o in NotOlderOps(ops, c) :: o in ops && !Less(o.hlc, c)
  {
    if ops != [] {
      SplitPermutes(ops[..|ops| - 1], c);
      assert ops == ops[..|ops| - 1] + [ops[|ops| - 1]];
    }
  }

  /** Ops that do not write `k` do not bring it onto a row that lacks it. */
  lemma {:induction false} UnwrittenStaysAbsent(row: Row, ops: seq<RowOp>, k: string)
    requires k !in row.fields && k !in row.clocks && forall o | o in ops :: k !in o.Set()
    ensures var r := Fold(Some(row), ops);
            r.Some? && k !in r.value.fields && k !in r.value.clocks
  {
    if ops != [] {
      var front, last := ops[..|ops| - 1], ops[|ops| - 1];
      assert last in ops && forall o | o in front :: o in ops;
      UnwrittenStaysAbsent(row, front, k);
      var mid := Fold(Some(row), front).value;
      if last.op != Delete {
        MergedField(if mid.deleted then mid.(deleted := false, fields := map[], clocks := map[]) else mid, last, k);
      }
    }
  }

  /** A delete after everything older wipes the row; nothing after it writes `k`. */
  lemma SortedOrderHides(past: seq<RowOp>, d: RowOp, future: seq<RowOp>, k: string)
    requires PlainRun(past + [d]) && d.op == Delete
    requires forall o | o in past :: Less(o.hlc, d.hlc)
    requires forall o | o in future :: k !in o.Set()
    ensures var r := Fold(None, (past + [d]) + future);
            r.Some? && k !in r.value.fields && k !in r.value.clocks
  {
    assert d in past + [d];
    Existence(past + [d], d);
    FoldConcat(None, past + [d], future);
    UnwrittenStaysAbsent(Fold(None, past + [d]).value, future, k);
  }

  lemma PlainTake(ops: seq<RowOp>, n: nat)
    requires PlainRun(ops) && n <= |ops|
    ensures PlainRun(ops[..n])
    ensures forall o | o in ops[..n] :: o in ops
  {
  }

  /** Delivered last of all, an old write lands in the row revived after the delete. */
  lemma LateWriteShows(past: seq<RowOp>, d: RowOp, future: seq<RowOp>, u: RowOp, newest: RowOp, k: string)
    requires var ops := (past + [d]) + future + [u];
             PlainRun(ops) && IsNewest(ops, newest) && newest.op == Upsert && newest != u
    requires d.op == Delete && k in u.Set() && u.Set()[k] != Null
    requires forall o | o in past :: Less(o.hlc, d.hlc)
    requires forall o | o in future :: k !in o.Set()
    ensures var r := Fold(None, (past + [d]) + future + [u]);
            r.Some? && !r.value.deleted && k in r.value.fields
  {
    var rest := (past + [d]) + future;
    var ops := rest + [u];
    assert ops[..|ops| - 1] == rest && ops[|ops| - 1] == u;
    PlainPrefix(ops);
    PlainTake(rest, |past| + 1);
    assert rest[..|past| + 1] == past + [d];
    assert IsNewest(rest, newest);
    Existence(rest, newest);
    SortedOrderHides(past, d, future, k);
    assert Fold(None, ops) == Step(Fold(None, rest), u);
    FreshWriteLands(Fold(None, rest), u, k);
  }

  lemma {:induction false} NewestDelete(ops: seq<RowOp>, d0: RowOp) returns (d: RowOp)
    requires d0 in ops && d0.op == Delete
    ensures d in ops && d.op == Delete && forall o | o in ops && o.op == Delete :: o.hlc == d.hlc || Less(o.hlc, d.hlc)
    decreases |ops|
  {
    TotalOrder();
    var front, last := ops[..|ops| - 1], ops[|ops| - 1];
    assert forall o | o in ops :: o in front || o == last;
    d := last;
    if exists o :: o in front && o.op == Delete {
      var o :| o in front && o.op == Delete;
      var best := NewestDelete(front, o);
      if last.op != Delete || Less(last.hlc, best.hlc) {
        d := best;
      }
    }
  }

  /** The newest delete outranks a write that does not survive, and later ops do not write its field. */
  lemma LostWriteFacts(ops: seq<RowOp>, u: RowOp, k: string) returns (d: RowOp)
    requires PlainRun(ops) && u in ops && k in u.Set() && !HasSurvivingWrite(ops, k)
    ensures d in ops && d.op == Delete && Less(u.hlc, d.hlc)
    ensures forall o | o in ops && o != d && !Less(o.hlc, d.hlc) :: k !in o.Set()
  {
    TotalOrder();
    var d0 :| d0 in ops && d0.op == Delete && !Less(d0.hlc, u.hlc);
    d := NewestDelete(ops, d0);
    if u.hlc == d.hlc {
      SameStampSameOp(ops, u, d);
    }
    forall o | o in ops && o != d && !Less(o.hlc, d.hlc) ensures k !in o.Set() {
      if o.hlc == d.hlc {
        SameStampSameOp(ops, o, d);
      }
      assert OutlivesDeletes(ops, o);
    }
  }

  lemma TakeOut(ops: seq<RowOp>, op: RowOp) returns (rest: seq<RowOp>)
    requires op in ops
    ensures multiset(ops) == multiset(rest) + multiset{op}
    ensures forall o | o in rest :: o in ops
    ensures DistinctStamps(ops) ==> DistinctStamps(rest) && op !in rest
  {
    var i :| 0 <= i < |ops| && ops[i] == op;
    rest := ops[..i] + ops[i + 1..];
    ToFrontPermutes(ops, i);
  }

  /** `ops` regrouped around `d`, with `u` taken out. */
  lemma AroundDelete(ops: seq<RowOp>, d: RowOp, u: RowOp) returns (past: seq<RowOp>, future: seq<RowOp>)
    requires DistinctStamps(ops) && d in ops && u in ops && d != u
    ensures multiset(ops) == multiset(past) + multiset{d} + multiset(future) + multiset{u}
    ensures forall o | o in past :: o in ops && Less(o.hlc, d.hlc)
    ensures forall o | o in future :: o in ops && o != d && !Less(o.hlc, d.hlc)
  {
    var others := TakeOut(ops, u);
    assert d in others by {
      assert d in multiset(ops);
      assert d in multiset(others);
    }
    var rest := TakeOut(others, d);
    SplitPermutes(rest, d.hlc);
    past, future := Older(rest, d.hlc), NotOlderOps(rest, d.hlc);
  }

  /** Two orders of a run, around the newest delete `d`: `u` among the past, and `u` last of all. */
  lemma TwoOrders(ops: seq<RowOp>, past: seq<RowOp>, d: RowOp, future: seq<RowOp>, u: RowOp)
    requires PlainRun(ops)
    requires multiset(ops) == multiset(past) + multiset{d} + multiset(future) + multiset{u}
    ensures var a := ([u] + past + [d]) + future;
            Permutation(a, ops) && PlainRun(a) && PlainRun([u] + past + [d])
    ensures var b := (past + [d]) + future + [u];
            Permutation(b, ops) && PlainRun(b)
  {
    var a, b := ([u] + past + [d]) + future, (past + [d]) + future + [u];
    assert Permutation(a, ops) && Permutation(b, ops);
    PlainPermutation(ops, a);
    PlainPermutation(ops, b);
    PlainTake(a, |past| + 2);
    assert [u] + past + [d] == a[..|past| + 2];
  }

  lemma LostWritesDiverge(ops: seq<RowOp>, newest: RowOp, u: RowOp, k: string)
      returns (a: seq<RowOp>, b: seq<RowOp>)
    requires PlainRun(ops) && IsNewest(ops, newest) && newest.op == Upsert
    requires u in ops && k in u.Set() && u.Set()[k] != Null && !HasSurvivingWrite(ops, k)
    ensures Permutation(a, ops) && Permutation(b, ops)
    ensures Visible(Fold(None, a)) != Visible(Fold(None, b))
  {
    var d := LostWriteFacts(ops, u, k);
    Trichotomy(u.hlc, d.hlc);
    var past, future := AroundDelete(ops, d, u);
    TwoOrders(ops, past, d, future, u);
    a := ([u] + past + [d]) + future;
    b := (past + [d]) + future + [u];
    SortedOrderHides([u] + past, d, future, k);
    assert newest != u by {
      Trichotomy(d.hlc, newest.hlc);
    }
    SameMembers(b, ops);
    LateWriteShows(past, d, future, u, newest, k);
  }

  /**
   * Convergence of what readers see, exactly. A set of plain creates and
   * deletes shows the same fields in every delivery order if and only if the
   * newest of them is a delete, or every field that is ever given a value has
   * a write newer than every delete.
   */
  lemma VisibleConvergence(ops: seq<RowOp>, newest: RowOp)
    requires PlainRun(ops) && IsNewest(ops, newest)
    ensures (forall other | Permutation(other, ops) :: Visible(Fold(None, other)) == Visible(Fold(None, ops)))
       <==> newest.op == Delete || WritesSurvive(ops)
  {
    if newest.op == Delete || WritesSurvive(ops) {
      forall other | Permutation(other, ops) ensures Visible(Fold(None, other)) == Visible(Fold(None, ops)) {
        SurvivingWritesConverge(ops, other);
      }
    } else {
      assert newest.op == Upsert;
      var u, k :| u in ops && k in u.Set() && u.Set()[k] != Null && !HasSurvivingWrite(ops, k);
      var a, b := LostWritesDiverge(ops, newest, u, k);
      assert Permutation(a, ops) && Permutation(b, ops);
    }
  }
}
