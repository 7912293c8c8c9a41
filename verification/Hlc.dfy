/**
 * Hybrid logical clocks: stamps written as strings that should sort as the
 * stamps do, and the clock that hands a device its stamps.
 */
module Hlc {
  import opened LexOrder
  import opened Decimal

  const COUNTER_MAX: nat := 999_999

  /** Where the fixed-width encoding of milliseconds runs out of digits. */
  const MS_LIMIT: nat := 10_000_000_000_000

  /** Three fields with dashes between them. */
  function Join(first: string, second: string, third: string): string {
    first + ("-" + (second + ("-" + third)))
  }

  /** Milliseconds are never negative here: the source starts at 0 and only moves up. */
  function EncodeHlc(ms: nat, counter: nat, device: string): string {
    Join(ZeroPad(Render(ms), 13), ZeroPad(Render(counter), 6), device)
  }

  /** The order the encoding stands for. */
  predicate StampLess(ms1: nat, counter1: nat, device1: string, ms2: nat, counter2: nat, device2: string) {
    ms1 < ms2 || (ms1 == ms2 && (counter1 < counter2 || (counter1 == counter2 && Less(device1, device2))))
  }

  lemma Widths(ms: nat, counter: nat)
    requires counter <= COUNTER_MAX
    ensures |ZeroPad(Render(counter), 6)| == 6
    ensures |ZeroPad(Render(ms), 13)| == 13 <==> ms < MS_LIMIT
    ensures |ZeroPad(Render(ms), 13)| >= 13
  {
    RenderFits(counter, 6);
    RenderFits(ms, 13);
    assert Pow10(6) == 1_000_000 && Pow10(13) == MS_LIMIT by {
      assert Pow10(3) == 1000;
      assert Pow10(6) == 1000 * Pow10(3);
      assert Pow10(9) == 1000 * Pow10(6);
      assert Pow10(12) == 1000 * Pow10(9);
    }
  }

  /** How many digits wider than `ms1`'s field the field of `ms2` is. */
  function ExtraWidth(ms1: nat, ms2: nat): int {
    |ZeroPad(Render(ms2), 13)| - |ZeroPad(Render(ms1), 13)|
  }

  lemma DashCancels(u: string, v: string)
    ensures Less("-" + u, "-" + v) <==> Less(u, v)
  {
    LessOfConcat("-", u, "-", v);
    Trichotomy("-", "-");
  }

  /** Dash-separated fields of equal widths compare field by field. */
  lemma JoinOrder(p1: string, q1: string, d1: string, p2: string, q2: string, d2: string)
    requires |p1| == |p2| && |q1| == |q2|
    ensures Less(Join(p1, q1, d1), Join(p2, q2, d2))
       <==> Less(p1, p2) || (p1 == p2 && (Less(q1, q2) || (q1 == q2 && Less(d1, d2))))
  {
    var r1, r2 := q1 + ("-" + d1), q2 + ("-" + d2);
    LessOfConcat(p1, "-" + r1, p2, "-" + r2);
    DashCancels(r1, r2);
    LessOfConcat(q1, "-" + d1, q2, "-" + d2);
    DashCancels(d1, d2);
  }

  /** Equally wide fields: string order is exactly stamp order. */
  lemma SameWidthLess(ms1: nat, counter1: nat, device1: string, ms2: nat, counter2: nat, device2: string)
    requires counter1 <= COUNTER_MAX && counter2 <= COUNTER_MAX
    requires ExtraWidth(ms1, ms2) == 0
    ensures Less(EncodeHlc(ms1, counter1, device1), EncodeHlc(ms2, counter2, device2))
       <==> StampLess(ms1, counter1, device1, ms2, counter2, device2)
  {
    Widths(ms1, counter1);
    Widths(ms2, counter2);
    var p1, p2 := ZeroPad(Render(ms1), 13), ZeroPad(Render(ms2), 13);
    var q1, q2 := ZeroPad(Render(counter1), 6), ZeroPad(Render(counter2), 6);
    NumeralOrder(p1, p2);
    NumeralOrder(q1, q2);
    JoinOrder(p1, q1, device1, p2, q2, device2);
  }

  lemma SameWidthOrder(ms1: nat, counter1: nat, device1: string, ms2: nat, counter2: nat, device2: string)
    requires counter1 <= COUNTER_MAX && counter2 <= COUNTER_MAX
    requires ExtraWidth(ms1, ms2) == 0
    ensures Less(EncodeHlc(ms1, counter1, device1), EncodeHlc(ms2, counter2, device2))
       <==> StampLess(ms1, counter1, device1, ms2, counter2, device2)
    ensures EncodeHlc(ms1, counter1, device1) == EncodeHlc(ms2, counter2, device2)
       <==> ms1 == ms2 && counter1 == counter2 && device1 == device2
  {
    SameWidthLess(ms1, counter1, device1, ms2, counter2, device2);
    SameWidthLess(ms2, counter2, device2, ms1, counter1, device1);
    Trichotomy(EncodeHlc(ms1, counter1, device1), EncodeHlc(ms2, counter2, device2));
    Trichotomy(device1, device2);
  }

  /**
   * Up to the width the encoding was made for, strings compare as their
   * stamps do: by milliseconds, then counter, then device.
   */
  lemma HlcOrder(ms1: nat, counter1: nat, device1: string, ms2: nat, counter2: nat, device2: string)
    requires ms1 < MS_LIMIT && ms2 < MS_LIMIT
    requires counter1 <= COUNTER_MAX && counter2 <= COUNTER_MAX
    ensures Less(EncodeHlc(ms1, counter1, device1), EncodeHlc(ms2, counter2, device2))
       <==> StampLess(ms1, counter1, device1, ms2, counter2, device2)
  {
    Widths(ms1, counter1);
    Widths(ms2, counter2);
    SameWidthOrder(ms1, counter1, device1, ms2, counter2, device2);
  }

  /**
   * When the later stamp needs more digits, the strings still compare the
   * right way exactly when the shorter number does not exceed the leading
   * digits of the longer one.
   */
  lemma WiderOrder(ms1: nat, counter1: nat, device1: string, ms2: nat, counter2: nat, device2: string)
    requires ExtraWidth(ms1, ms2) > 0
    ensures Less(EncodeHlc(ms1, counter1, device1), EncodeHlc(ms2, counter2, device2))
       <==> ms1 <= ms2 / Pow10(ExtraWidth(ms1, ms2))
    ensures EncodeHlc(ms1, counter1, device1) != EncodeHlc(ms2, counter2, device2)
  {
    var p1, p2 := ZeroPad(Render(ms1), 13), ZeroPad(Render(ms2), 13);
    var rest1 := "-" + (ZeroPad(Render(counter1), 6) + ("-" + device1));
    var rest2 := "-" + (ZeroPad(Render(counter2), 6) + ("-" + device2));
    var n := |p1|;
    var head, tail := p2[..n], p2[n..];
    assert head == p2[..|p2| - ExtraWidth(ms1, ms2)];
    ValueOfPrefix(p2, ExtraWidth(ms1, ms2));
    NumeralOrder(p1, head);
    LessOfConcat(p1, rest1, head, tail + rest2);
    assert head + (tail + rest2) == p2 + rest2;
    assert IsDigit(tail[0]) by { assert tail[0] == p2[n]; }
    assert (tail + rest2)[0] == tail[0] && rest1[0] == '-';
    assert Less(rest1, tail + rest2);
    assert (p1 + rest1)[n] == '-' && (p2 + rest2)[n] == p2[n];
  }

  /** The monotonic source's state. */
  datatype ClockState = ClockState(lastMs: nat, counter: nat)

  const InitialClock := ClockState(0, 0)

  function Tick(c: ClockState, nowMs: int): ClockState {
    if nowMs > c.lastMs then ClockState(nowMs, 0)
    else if c.counter + 1 > COUNTER_MAX then ClockState(c.lastMs + 1, 0)
    else ClockState(c.lastMs, c.counter + 1)
  }

  function Stamp(c: ClockState, device: string): string {
    EncodeHlc(c.lastMs, c.counter, device)
  }

  predicate Earlier(a: ClockState, b: ClockState) {
    a.lastMs < b.lastMs || (a.lastMs == b.lastMs && a.counter < b.counter)
  }

  class HlcClock {
    var lastMs: nat
    var counter: nat

    constructor (state: ClockState)
      ensures State() == state
    {
      lastMs := state.lastMs;
      counter := state.counter;
    }

    function State(): ClockState
      reads this
    {
      ClockState(lastMs, counter)
    }

    /** Stamps one write. The wall clock may read anything, earlier values included. */
    method Next(nowMs: int, device: string) returns (hlc: string)
      modifies this
      ensures State() == Tick(old(State()), nowMs)
      ensures Earlier(old(State()), State())
      ensures hlc == Stamp(State(), device)
    {
      if nowMs > lastMs {
        lastMs := nowMs;
        counter := 0;
      } else {
        counter := counter + 1;
        if counter > 999_999 {
          lastMs := lastMs + 1;
          counter := 0;
        }
      }
      hlc := EncodeHlc(lastMs, counter, device);
    }
  }

  /**
   * One stamped write of a run. A restart from a snapshot of that very moment
   * leaves no step of its own, though the device name may change; restarts
   * from an older snapshot are two runs from one saved state.
   */
  datatype Reading = Reading(nowMs: int, device: string)

  function ClockAfter(c: ClockState, readings: seq<Reading>): ClockState {
    if readings == [] then c else Tick(ClockAfter(c, readings[..|readings| - 1]), readings[|readings| - 1].nowMs)
  }

  /** The `i`-th string a run emits. */
  function Emitted(c: ClockState, readings: seq<Reading>, i: nat): string
    requires i < |readings|
  {
    Stamp(ClockAfter(c, readings[..i + 1]), readings[i].device)
  }

  lemma {:induction false} ClockRunOrder(c: ClockState, readings: seq<Reading>, i: nat)
    requires c.counter <= COUNTER_MAX && i < |readings|
    ensures Earlier(ClockAfter(c, readings[..i]), ClockAfter(c, readings))
    ensures ClockAfter(c, readings).counter <= COUNTER_MAX
    decreases |readings|
  {
    var front := readings[..|readings| - 1];
    if i < |front| {
      ClockRunOrder(c, front, i);
      assert front[..i] == readings[..i];
    } else {
      assert readings[..i] == front;
      if front != [] {
        ClockRunOrder(c, front, 0);
      }
    }
  }

  /**
   * No run emits a stamp twice, whatever the wall clock does and however wide
   * the milliseconds grow; a later stamp sorts after an earlier one exactly
   * while the width holds or the leading digits keep up; and the counter never
   * leaves its six digits.
   */
  lemma ClockRun(c: ClockState, readings: seq<Reading>, i: nat, j: nat)
    requires c.counter <= COUNTER_MAX
    requires i < j < |readings|
    ensures Emitted(c, readings, i) != Emitted(c, readings, j)
    ensures var a, b := ClockAfter(c, readings[..i + 1]).lastMs, ClockAfter(c, readings[..j + 1]).lastMs;
            0 <= ExtraWidth(a, b) &&
            (Less(Emitted(c, readings, i), Emitted(c, readings, j))
             <==> ExtraWidth(a, b) == 0 || a <= b / Pow10(ExtraWidth(a, b)))
    ensures ClockAfter(c, readings[..j + 1]).lastMs < MS_LIMIT ==>
              Less(Emitted(c, readings, i), Emitted(c, readings, j))
    ensures ClockAfter(c, readings).counter <= COUNTER_MAX
  {
    ClockRunOrder(c, readings, 0);
    var first, second := readings[..i + 1], readings[..j + 1];
    ClockRunOrder(c, first, 0);
    ClockRunOrder(c, second, i + 1);
    assert second[..i + 1] == first;
    var a, b := ClockAfter(c, first), ClockAfter(c, second);
    WidthMonotone(a.lastMs, b.lastMs);
    Widths(a.lastMs, a.counter);
    Widths(b.lastMs, b.counter);
    if ExtraWidth(a.lastMs, b.lastMs) == 0 {
      SameWidthOrder(a.lastMs, a.counter, readings[i].device, b.lastMs, b.counter, readings[j].device);
    } else {
      WiderOrder(a.lastMs, a.counter, readings[i].device, b.lastMs, b.counter, readings[j].device);
    }
  }

  lemma WidthMonotone(a: nat, b: nat)
    requires a <= b
    ensures ExtraWidth(a, b) >= 0
  {
    var w := |ZeroPad(Render(b), 13)|;
    RenderFits(b, w);
    RenderFits(a, w);
  }

  // ── restarts from an older snapshot ─────────────────────────────────────

  /** The clock behind the `i`-th string of a run. */
  function At(c: ClockState, readings: seq<Reading>, i: nat): ClockState
    requires i < |readings|
  {
    ClockAfter(c, readings[..i + 1])
  }

  /** The first clock a run from `c` can show at millisecond `ms`. */
  function FirstAt(c: ClockState, ms: nat): ClockState {
    if ms == c.lastMs then ClockState(ms, c.counter + 1) else ClockState(ms, 0)
  }

  /** A run that stamps a millisecond at all stamps its first clock there. */
  lemma {:induction false} FirstIsStamped(c: ClockState, readings: seq<Reading>, i: nat) returns (k: nat)
    requires c.counter <= COUNTER_MAX && i < |readings|
    ensures k <= i && At(c, readings, k) == FirstAt(c, At(c, readings, i).lastMs)
    decreases i
  {
    k := i;
    assert readings[..i + 1][..i] == readings[..i];
    assert At(c, readings, i) == Tick(ClockAfter(c, readings[..i]), readings[i].nowMs);
    if i > 0 {
      assert readings[..i][..0] == [];
      ClockRunOrder(c, readings[..i], 0);
      if At(c, readings, i - 1).lastMs == At(c, readings, i).lastMs {
        k := FirstIsStamped(c, readings, i - 1);
      }
    }
  }

  /** Two runs from one saved clock, the one lost in a crash and the one after it, stamp the same clock. */
  predicate Repeats(c: ClockState, lost: seq<Reading>, after: seq<Reading>) {
    exists i, j | 0 <= i < |lost| && 0 <= j < |after| :: At(c, lost, i) == At(c, after, j)
  }

  /** They stamp in the same millisecond. */
  predicate SharesMs(c: ClockState, lost: seq<Reading>, after: seq<Reading>) {
    exists i, j | 0 <= i < |lost| && 0 <= j < |after| :: At(c, lost, i).lastMs == At(c, after, j).lastMs
  }

  /** A clock restored from an older snapshot repeats a stamp exactly when it stamps a lost millisecond again. */
  lemma RepeatsExactly(c: ClockState, lost: seq<Reading>, after: seq<Reading>)
    requires c.counter <= COUNTER_MAX
    ensures Repeats(c, lost, after) <==> SharesMs(c, lost, after)
  {
    if SharesMs(c, lost, after) {
      var i, j :| 0 <= i < |lost| && 0 <= j < |after| && At(c, lost, i).lastMs == At(c, after, j).lastMs;
      var k := FirstIsStamped(c, lost, i);
      var l := FirstIsStamped(c, after, j);
      assert At(c, lost, k) == At(c, after, l);
    }
  }

  /** How many stamps of the run before the `i`-th share its millisecond. */
  function Rank(c: ClockState, readings: seq<Reading>, i: nat): nat
    requires i < |readings|
  {
    if i == 0 || At(c, readings, i - 1).lastMs != At(c, readings, i).lastMs then 0 else Rank(c, readings, i - 1) + 1
  }

  lemma AtTicks(c: ClockState, readings: seq<Reading>, i: nat)
    requires i < |readings|
    ensures At(c, readings, i) == Tick(if i == 0 then c else At(c, readings, i - 1), readings[i].nowMs)
  {
    assert readings[..i + 1][..i] == readings[..i];
    assert At(c, readings, i) == Tick(ClockAfter(c, readings[..i]), readings[i].nowMs);
  }

  /** A clock is the first of its millisecond, counted up by the stamps before it there. */
  lemma {:induction false} RankCounts(c: ClockState, readings: seq<Reading>, i: nat)
    requires i < |readings|
    ensures At(c, readings, i).lastMs >= c.lastMs
    ensures var at := At(c, readings, i);
            at.counter == FirstAt(c, at.lastMs).counter + Rank(c, readings, i)
    decreases i
  {
    AtTicks(c, readings, i);
    if i > 0 {
      RankCounts(c, readings, i - 1);
    }
  }

  lemma {:induction false} CounterFits(c: ClockState, readings: seq<Reading>, i: nat)
    requires c.counter <= COUNTER_MAX && i < |readings|
    ensures At(c, readings, i).counter <= COUNTER_MAX
    decreases i
  {
    AtTicks(c, readings, i);
    if i > 0 {
      CounterFits(c, readings, i - 1);
    }
  }

  /**
   * Exactly when a string emitted before a crash is emitted again after the
   * restart: from the same device, in the same millisecond, and after as many
   * stamps of its life in that millisecond.
   */
  lemma SameStampExactly(c: ClockState, lost: seq<Reading>, i: nat, after: seq<Reading>, j: nat)
    requires c.counter <= COUNTER_MAX && i < |lost| && j < |after|
    ensures Emitted(c, lost, i) == Emitted(c, after, j) <==>
            && lost[i].device == after[j].device && At(c, lost, i).lastMs == At(c, after, j).lastMs
            && Rank(c, lost, i) == Rank(c, after, j)
  {
    RankCounts(c, lost, i);
    RankCounts(c, after, j);
    CounterFits(c, lost, i);
    CounterFits(c, after, j);
    StampsEqual(At(c, lost, i), lost[i].device, At(c, after, j), after[j].device);
  }

  /** Different clocks or devices give different strings. */
  lemma StampsEqual(a: ClockState, da: string, b: ClockState, db: string)
    requires a.counter <= COUNTER_MAX && b.counter <= COUNTER_MAX
    ensures Stamp(a, da) == Stamp(b, db) <==> a == b && da == db
  {
    if Earlier(a, b) {
      LaterDiffers(a, da, b, db);
    } else if Earlier(b, a) {
      LaterDiffers(b, db, a, da);
    } else {
      SameWidthOrder(a.lastMs, a.counter, da, b.lastMs, b.counter, db);
    }
  }

  lemma LaterDiffers(a: ClockState, da: string, b: ClockState, db: string)
    requires a.counter <= COUNTER_MAX && b.counter <= COUNTER_MAX && Earlier(a, b)
    ensures Stamp(a, da) != Stamp(b, db)
  {
    WidthMonotone(a.lastMs, b.lastMs);
    Widths(a.lastMs, a.counter);
    Widths(b.lastMs, b.counter);
    if ExtraWidth(a.lastMs, b.lastMs) == 0 {
      SameWidthOrder(a.lastMs, a.counter, da, b.lastMs, b.counter, db);
    } else {
      WiderOrder(a.lastMs, a.counter, da, b.lastMs, b.counter, db);
    }
  }

  /** Everything after the restart is later than everything lost. */
  predicate AllLater(c: ClockState, lost: seq<Reading>, after: seq<Reading>) {
    forall i, j | 0 <= i < |lost| && 0 <= j < |after| :: Earlier(At(c, lost, i), At(c, after, j))
  }

  lemma RunStarts(c: ClockState, readings: seq<Reading>)
    requires readings != []
    ensures Earlier(c, At(c, readings, 0)) && At(c, readings, 0) == Tick(c, readings[0].nowMs)
  {
    assert readings[..1][..0] == [];
    assert ClockAfter(c, readings[..1]) == Tick(c, readings[0].nowMs);
  }

  lemma RunEnds(c: ClockState, readings: seq<Reading>, i: nat)
    requires c.counter <= COUNTER_MAX && i < |readings|
    ensures At(c, readings, i) == ClockAfter(c, readings) || Earlier(At(c, readings, i), ClockAfter(c, readings))
  {
    if i + 1 < |readings| {
      ClockRunOrder(c, readings, i + 1);
    } else {
      assert readings[..i + 1] == readings;
    }
  }

  lemma RunReaches(c: ClockState, readings: seq<Reading>, i: nat)
    requires c.counter <= COUNTER_MAX && i < |readings|
    ensures At(c, readings, i) == ClockAfter(c, readings) || Earlier(At(c, readings, i), ClockAfter(c, readings))
    ensures At(c, readings, 0) == At(c, readings, i) || Earlier(At(c, readings, 0), At(c, readings, i))
    ensures Earlier(c, At(c, readings, 0)) && At(c, readings, 0) == Tick(c, readings[0].nowMs)
    ensures At(c, readings, i).counter <= COUNTER_MAX
  {
    RunStarts(c, readings);
    RunEnds(c, readings, i);
    RunEnds(c, readings[..i + 1], 0);
    assert readings[..i + 1][..1] == readings[..1];
    ClockRunOrder(c, readings[..i + 1], 0);
  }

  /**
   * The promise never to go back holds across a restart from an older
   * snapshot exactly when the first clock reading after it is past the newest
   * millisecond stamped before the crash.
   */
  lemma RestartKeepsOrder(c: ClockState, lost: seq<Reading>, after: seq<Reading>)
    requires c.counter <= COUNTER_MAX && lost != [] && after != []
    ensures AllLater(c, lost, after) <==> after[0].nowMs > ClockAfter(c, lost).lastMs
  {
    var top := ClockAfter(c, lost);
    assert lost[..|lost|] == lost;
    RunReaches(c, lost, |lost| - 1);
    RunReaches(c, after, 0);
    if after[0].nowMs > top.lastMs {
      forall i, j | 0 <= i < |lost| && 0 <= j < |after| ensures Earlier(At(c, lost, i), At(c, after, j)) {
        RunReaches(c, lost, i);
        RunReaches(c, after, j);
      }
    } else {
      RunReaches(c, lost, 0);
      assert !Earlier(At(c, lost, |lost| - 1), At(c, after, 0));
    }
  }

  /** With the wall clock no further than the snapshot on both sides, the first stamp comes again. */
  lemma RegressedRestartRepeats(c: ClockState, lost: seq<Reading>, after: seq<Reading>)
    requires lost != [] && after != [] && lost[0].device == after[0].device
    requires lost[0].nowMs <= c.lastMs && after[0].nowMs <= c.lastMs
    ensures Emitted(c, lost, 0) == Emitted(c, after, 0)
  {
    assert lost[..1][..0] == [] && after[..1][..0] == [];
    assert ClockAfter(c, lost[..1]) == Tick(c, lost[0].nowMs) && ClockAfter(c, after[..1]) == Tick(c, after[0].nowMs);
  }

  /** The clock promise fails at the first stamp with fourteen digits. */
  lemma FourteenDigitsSortEarlier(device: string)
    ensures Tick(ClockState(9_999_999_999_999, 0), 10_000_000_000_000) == ClockState(10_000_000_000_000, 0)
    ensures Less(Stamp(ClockState(10_000_000_000_000, 0), device), Stamp(ClockState(9_999_999_999_999, 0), device))
  {
    Widths(9_999_999_999_999, 0);
    Widths(10_000_000_000_000, 0);
    RenderFits(10_000_000_000_000, 14);
    assert Pow10(14) == 10 * MS_LIMIT by {
      assert Pow10(3) == 1000;
      assert Pow10(6) == 1000 * Pow10(3);
      assert Pow10(9) == 1000 * Pow10(6);
      assert Pow10(12) == 1000 * Pow10(9);
    }
    assert ExtraWidth(9_999_999_999_999, 10_000_000_000_000) == 1;
    WiderOrder(9_999_999_999_999, 0, device, 10_000_000_000_000, 0, device);
    assert Pow10(1) == 10;
    Trichotomy(Stamp(ClockState(9_999_999_999_999, 0), device), Stamp(ClockState(10_000_000_000_000, 0), device));
  }
}
