/** Syncing a growing fold at arbitrary moments: what the document ends up holding. */
module SegmentSync {
  import opened Wrappers
  import opened Parts
  import opened PartsFold
  import opened SessionDocs
  import TranscriptSync

  // ── one sync ────────────────────────────────────────────────────────────

  /** The document part carries the written part, up to stale decisions and uncleared extras. */
  predicate Faithful(d: DocPart, p: Part) {
    var n := ToDocPart(p);
    && d == n.(decision := d.decision, extras := d.extras)
    && d.decision.Some? == n.decision.Some?
    && d.extras == n.extras.Over(d.extras)
  }

  predicate InStep(m: Mirror) {
    |m.written| == |m.parts| && forall i | 0 <= i < |m.parts| :: Faithful(m.parts[i], m.written[i])
  }

  /** The document part after `p` was replaced by `q` in the fold. */
  function Refreshed(d: DocPart, q: Part): DocPart {
    var n := ToDocPart(q);
    n.(decision := d.decision, extras := n.extras.Over(d.extras))
  }

  lemma RefreshIsFaithful(d: DocPart, p: Part, q: Part, last: bool)
    requires Faithful(d, p) && Grows(p, q, last)
    ensures Faithful(Refreshed(d, q), q)
  {
  }

  /** One part of a sync: pushed when new, refreshed when known; it never fails. */
  lemma PartSync(m: Mirror, i: nat, q: Part, last: bool)
    requires InStep(m) && i <= |m.written| && (i < |m.written| ==> Grows(m.written[i], q, last))
    ensures var s := SyncPart(m, i, q);
            && s.error.None? && InStep(s.mirror)
            && s.mirror.written == (if i < |m.written| then m.written[i := q] else m.written + [q])
            && s.mirror.parts == (if i < |m.parts| then m.parts[i := Refreshed(m.parts[i], q)]
                                  else m.parts + [ToDocPart(q)])
  {
    if i < |m.written| {
      var p, d := m.written[i], m.parts[i];
      assert Faithful(d, p);
      RefreshIsFaithful(d, p, q, last);
      if p == q {
        assert Refreshed(d, q) == d;
        assert m.parts[i := d] == m.parts && m.written[i := q] == m.written;
      } else if p.TextPart? {
        assert q.text == p.text + q.text[|p.text|..];
        assert SyncPart(m, i, q).mirror.parts[i] == Refreshed(d, q);
      } else {
        assert Updated(d, ToDocPart(q)) == Refreshed(d, q);
      }
    }
  }

  /** The parts of a sync that has reached `n`. */
  function Upto(old_: seq<Part>, folded: seq<Part>, n: nat): seq<Part>
    requires n <= |folded| && |old_| <= |folded|
  {
    seq(if n < |old_| then |old_| else n,
        i requires 0 <= i < |folded| => if i < n || i >= |old_| then folded[i] else old_[i])
  }

  function DocUpto(m: Mirror, folded: seq<Part>, n: nat): seq<DocPart>
    requires n <= |folded| && |m.parts| <= |folded|
  {
    seq(if n < |m.parts| then |m.parts| else n,
        i requires 0 <= i < |folded| =>
          if i >= |m.parts| then ToDocPart(folded[i])
          else if i < n then Refreshed(m.parts[i], folded[i])
          else m.parts[i])
  }

  lemma UptoStep(old_: seq<Part>, folded: seq<Part>, n: nat)
    requires n < |folded| && |old_| <= |folded|
    ensures n < |old_| ==> |Upto(old_, folded, n)| == |old_| && Upto(old_, folded, n)[n] == old_[n] &&
                           Upto(old_, folded, n)[n := folded[n]] == Upto(old_, folded, n + 1)
    ensures n >= |old_| ==> |Upto(old_, folded, n)| == n &&
                            Upto(old_, folded, n) + [folded[n]] == Upto(old_, folded, n + 1)
  {
  }

  lemma DocUptoStep(m: Mirror, folded: seq<Part>, n: nat)
    requires n < |folded| && |m.parts| <= |folded|
    ensures n < |m.parts| ==>
              |DocUpto(m, folded, n)| == |m.parts| &&
              DocUpto(m, folded, n)[n := Refreshed(DocUpto(m, folded, n)[n], folded[n])] == DocUpto(m, folded, n + 1)
    ensures n >= |m.parts| ==>
              && |DocUpto(m, folded, n)| == n
              && DocUpto(m, folded, n) + [ToDocPart(folded[n])] == DocUpto(m, folded, n + 1)
  {
  }

  /** The sync has gone through the first `n` parts. */
  predicate Reached(m: Mirror, folded: seq<Part>, n: nat, s: Synced)
    requires n <= |folded| && |m.written| == |m.parts| <= |folded|
  {
    && s.error.None? && InStep(s.mirror)
    && s.mirror.written == Upto(m.written, folded, n)
    && s.mirror.parts == DocUpto(m, folded, n)
  }

  lemma SyncNext(m: Mirror, folded: seq<Part>, n: nat)
    requires InStep(m) && Extends(m.written, folded) && n < |folded|
    requires Reached(m, folded, n, SyncAll(m, folded[..n]))
    ensures Reached(m, folded, n + 1, SyncAll(m, folded[..n + 1]))
  {
    var s := SyncAll(m, folded[..n]);
    assert folded[..n + 1][..n] == folded[..n];
    assert SyncAll(m, folded[..n + 1]) == SyncPart(s.mirror, n, folded[n]);
    UptoStep(m.written, folded, n);
    DocUptoStep(m, folded, n);
    assert n < |m.written| ==> Grows(m.written[n], folded[n], n == |m.written| - 1);
    PartSync(s.mirror, n, folded[n], n == |m.written| - 1);
  }

  lemma {:induction false} SyncUpto(m: Mirror, folded: seq<Part>, n: nat)
    requires InStep(m) && Extends(m.written, folded) && n <= |folded|
    ensures Reached(m, folded, n, SyncAll(m, folded[..n]))
  {
    if n == 0 {
      assert m.parts == DocUpto(m, folded, 0) && m.written == Upto(m.written, folded, 0);
    } else {
      SyncUpto(m, folded, n - 1);
      SyncNext(m, folded, n - 1);
    }
  }

  /** A sync of an extended fold succeeds, brings the mirror up to it and refreshes every part. */
  lemma SyncFollows(m: Mirror, folded: seq<Part>)
    requires InStep(m) && Extends(m.written, folded)
    ensures var s := SyncAll(m, folded);
            && s.error.None? && InStep(s.mirror) && s.mirror.written == folded
            && forall i | 0 <= i < |folded| ::
                 s.mirror.parts[i] == if i < |m.parts| then Refreshed(m.parts[i], folded[i]) else ToDocPart(folded[i])
  {
    SyncUpto(m, folded, |folded|);
    assert folded[..|folded|] == folded;
  }

  // ── a run of syncs ──────────────────────────────────────────────────────

  /** Folds at successive ticks: each extends the one before. */
  predicate Growing(ticks: seq<seq<Part>>) {
    forall j | 0 <= j < |ticks| - 1 :: Extends(ticks[j], ticks[j + 1])
  }

  function SyncTicks(ticks: seq<seq<Part>>): Synced {
    if ticks == [] then Synced(Mirror([], []), None)
    else
      var s := SyncTicks(ticks[..|ticks| - 1]);
      if s.error.Some? then s else SyncAll(s.mirror, ticks[|ticks| - 1])
  }

  function LastTick(ticks: seq<seq<Part>>): seq<Part> {
    if ticks == [] then [] else ticks[|ticks| - 1]
  }

  /** The `i`-th part as the first tick that has it showed it. */
  function FirstShown(ticks: seq<seq<Part>>, i: nat): Part
    requires i < |LastTick(ticks)|
  {
    var front := ticks[..|ticks| - 1];
    if i < |LastTick(front)| then FirstShown(front, i) else LastTick(ticks)[i]
  }

  /** The extras the `i`-th part ever showed, the newest of each. */
  function EverShown(ticks: seq<seq<Part>>, i: nat): Extras {
    if ticks == [] then NO_EXTRAS
    else
      var older := EverShown(ticks[..|ticks| - 1], i);
      if i < |LastTick(ticks)| then ExtrasOf(LastTick(ticks)[i]).Over(older) else older
  }

  lemma LongerTicks(ticks: seq<seq<Part>>, i: nat)
    requires Growing(ticks) && ticks != [] && i >= |LastTick(ticks)|
    ensures EverShown(ticks, i) == NO_EXTRAS
    decreases |ticks|
  {
    var front := ticks[..|ticks| - 1];
    assert Growing(front);
    if front != [] {
      assert Extends(ticks[|front| - 1], ticks[|front|]);
      LongerTicks(front, i);
    }
  }

  /** The document part after a run: the last fold's, with the first-shown decision and the ever-shown extras. */
  function Held(ticks: seq<seq<Part>>, i: nat): DocPart
    requires i < |LastTick(ticks)|
  {
    ToDocPart(LastTick(ticks)[i]).(
      decision := ToDocPart(FirstShown(ticks, i)).decision, extras := EverShown(ticks, i))
  }

  lemma HeldStep(ticks: seq<seq<Part>>, i: nat)
    requires Growing(ticks) && i < |LastTick(ticks)|
    ensures var front, q := ticks[..|ticks| - 1], LastTick(ticks)[i];
            Held(ticks, i) == if i < |LastTick(front)| then Refreshed(Held(front, i), q) else ToDocPart(q)
  {
    var front, q := ticks[..|ticks| - 1], LastTick(ticks)[i];
    assert ToDocPart(q).extras == ExtrasOf(q);
    if i < |LastTick(front)| {
      assert FirstShown(ticks, i) == FirstShown(front, i);
    } else {
      if front != [] {
        LongerTicks(front, i);
      }
      assert EverShown(ticks, i) == ExtrasOf(q).Over(NO_EXTRAS) == ExtrasOf(q);
    }
  }

  /** After any run of syncs the mirror is the last fold and the document is what it should be. */
  lemma {:induction false} RunHolds(ticks: seq<seq<Part>>)
    requires Growing(ticks)
    ensures var s := SyncTicks(ticks);
            && s.error.None? && InStep(s.mirror) && s.mirror.written == LastTick(ticks)
            && forall i | 0 <= i < |LastTick(ticks)| :: s.mirror.parts[i] == Held(ticks, i)
  {
    if ticks != [] {
      var front, last := ticks[..|ticks| - 1], LastTick(ticks);
      assert Growing(front);
      RunHolds(front);
      assert front != [] ==> Extends(ticks[|front| - 1], ticks[|front|]);
      SyncFollows(SyncTicks(front).mirror, last);
      forall i | 0 <= i < |last| ensures SyncTicks(ticks).mirror.parts[i] == Held(ticks, i) {
        HeldStep(ticks, i);
      }
    }
  }

  // ── folds at arbitrary moments ──────────────────────────────────────────

  /** What the transcript shows of a part: all but decision payloads and extras. */
  function Visible(p: Part): Part {
    match p
    case ToolPart(id, call, isError, resolved, _, _, _, _, _, _) =>
      ToolPart(id, call, isError, resolved, None, None, None, None, None, None)
    case InputPart(_, requestId, questions, resolved) => InputPart(requestId, requestId, questions, resolved)
    case DecisionPart(id, _) => DecisionPart(id, [])
    case _ => p
  }

  /** The folds seen by ticks that fall after `cuts[0]`, `cuts[1]`, … events. */
  function FoldsAt(events: seq<Event>, cuts: seq<nat>): (ticks: seq<seq<Part>>)
    requires forall j | 0 <= j < |cuts| :: cuts[j] <= |events|
    ensures |ticks| == |cuts|
  {
    seq(|cuts|, j requires 0 <= j < |cuts| => FoldAll(events[..cuts[j]]))
  }

  /** Ticks at any moments after the last reset, in order, and a final one at the end. */
  predicate Schedule(events: seq<Event>, cuts: seq<nat>) {
    && cuts != [] && cuts[|cuts| - 1] == |events|
    && (forall j, k | 0 <= j <= k < |cuts| :: cuts[j] <= cuts[k])
    && NoResets(events[cuts[0]..])
  }

  lemma FoldsGrow(events: seq<Event>, cuts: seq<nat>)
    requires Schedule(events, cuts)
    ensures Growing(FoldsAt(events, cuts)) && LastTick(FoldsAt(events, cuts)) == FoldAll(events)
  {
    assert events[..|events|] == events;
    forall j | 0 <= j < |cuts| - 1 ensures Extends(FoldAll(events[..cuts[j]]), FoldAll(events[..cuts[j + 1]])) {
      var run := events[..cuts[j + 1]];
      assert run[..cuts[j]] == events[..cuts[j]];
      assert forall e | e in run[cuts[j]..] :: e in events[cuts[0]..] by {
        forall k | cuts[j] <= k < cuts[j + 1] ensures run[k] in events[cuts[0]..] {
          assert events[cuts[0]..][k - cuts[0]] == run[k];
        }
      }
      RunExtends(run, cuts[j]);
    }
  }

  /**
   * Coalescing does not matter: whatever ticks a run of events is synced at,
   * once it is finished the document reads back as the fold of all events in
   * every text body, tool call, error and resolution, question and message.
   */
  lemma Coalescing(events: seq<Event>, cuts: seq<nat>)
    requires Schedule(events, cuts)
    ensures var s, folded := SyncTicks(FoldsAt(events, cuts)), FoldAll(events);
            && s.error.None? && |s.mirror.parts| == |folded|
            && forall i | 0 <= i < |folded| :: Visible(FromDocPart(s.mirror.parts[i])) == Visible(folded[i])
  {
    FoldsGrow(events, cuts);
    FoldShape(events);
    RunHolds(FoldsAt(events, cuts));
    var s, folded := SyncTicks(FoldsAt(events, cuts)), FoldAll(events);
    forall i | 0 <= i < |folded| ensures Visible(FromDocPart(s.mirror.parts[i])) == Visible(folded[i]) {
      assert Faithful(s.mirror.parts[i], folded[i]) && PartShape(folded[i], i);
      FaithfulIsVisible(s.mirror.parts[i], folded[i], i);
    }
  }

  lemma FaithfulIsVisible(d: DocPart, p: Part, i: nat)
    requires Faithful(d, p) && PartShape(p, i)
    ensures Visible(FromDocPart(d)) == Visible(p)
  {
    KindsDiffer();
  }

  // ── exactly what coalescing can change ──────────────────────────────────

  /** Nothing shown in `a` is missing from `b`. */
  predicate Covers(b: Extras, a: Extras) {
    && (a.output.Some? ==> b.output.Some?) && (a.diff.Some? ==> b.diff.Some?)
    && (a.outputRef.Some? ==> b.outputRef.Some?) && (a.outputBytes.Some? ==> b.outputBytes.Some?)
    && (a.diffRef.Some? ==> b.diffRef.Some?) && (a.diffStats.Some? ==> b.diffStats.Some?)
  }

  /** No tick showed an extra of the `i`-th part that is gone in `last`. */
  predicate NeverCleared(ticks: seq<seq<Part>>, i: nat, last: Extras) {
    forall j | 0 <= j < |ticks| && i < |ticks[j]| :: Covers(last, ExtrasOf(ticks[j][i]))
  }

  /** The extras ever shown are covered by `last` exactly when no tick showed one it lacks. */
  lemma {:induction false} EverShownCovered(ticks: seq<seq<Part>>, i: nat, last: Extras)
    ensures Covers(last, EverShown(ticks, i)) <==> NeverCleared(ticks, i, last)
  {
    if ticks != [] {
      var front := ticks[..|ticks| - 1];
      EverShownCovered(front, i, last);
      assert forall j | 0 <= j < |front| :: front[j] == ticks[j];
      assert ticks[|front|] == LastTick(ticks);
    }
  }

  lemma {:induction false} FirstShownKind(ticks: seq<seq<Part>>, i: nat)
    requires Growing(ticks) && i < |LastTick(ticks)|
    ensures SameKindAndId(FirstShown(ticks, i), LastTick(ticks)[i])
    decreases |ticks|
  {
    var front := ticks[..|ticks| - 1];
    if i < |LastTick(front)| {
      assert Growing(front) && Extends(ticks[|front| - 1], ticks[|front|]);
      FirstShownKind(front, i);
      assert Grows(LastTick(front)[i], LastTick(ticks)[i], i == |LastTick(front)| - 1);
    }
  }

  /**
   * A synced part reads back whole exactly when, for a decision, its payload
   * is the one first synced, and, for a tool, no synced extra was cleared.
   */
  lemma ReadsBackExactly(ticks: seq<seq<Part>>, i: nat)
    requires Growing(ticks) && i < |LastTick(ticks)|
    ensures var p, first := LastTick(ticks)[i], FirstShown(ticks, i);
            && i < |SyncTicks(ticks).mirror.parts|
            && (FromDocPart(SyncTicks(ticks).mirror.parts[i]) == Canonical(p) <==>
                (p.DecisionPart? ==> first.DecisionPart? && first.event == p.event) &&
                (p.ToolPart? ==> NeverCleared(ticks, i, ExtrasOf(p))))
  {
    RunHolds(ticks);
    FirstShownKind(ticks, i);
    KindsDiffer();
    var p, shown := LastTick(ticks)[i], EverShown(ticks, i);
    EverShownCovered(ticks, i, ExtrasOf(p));
    assert shown == ExtrasOf(p).Over(EverShown(ticks[..|ticks| - 1], i));
    assert Covers(ExtrasOf(p), shown) <==> shown == ExtrasOf(p);
    assert SyncTicks(ticks).mirror.parts[i] == Held(ticks, i);
  }

  lemma OneDecision(id: string, first: Json, second: Json)
    ensures var a, b := DecisionPart("decision-" + id, first), DecisionPart("decision-" + id, second);
            && FoldAll([Decision(id, first)]) == [a]
            && FoldAll([Decision(id, first), Decision(id, second)]) == [b]
  {
    var e := [Decision(id, first)];
    assert e[..0] == [] && (e + [Decision(id, second)])[..1] == e;
    assert FoldAll([]) == [] && FirstDecision([], "decision-" + id) == None;
    RefreshedDecision(id, first, second);
  }

  lemma RefreshedDecision(id: string, first: Json, second: Json)
    ensures var a, b := DecisionPart("decision-" + id, first), DecisionPart("decision-" + id, second);
            Folded([a], Decision(id, second)) == [b]
  {
    assert FirstDecision([DecisionPart("decision-" + id, first)], "decision-" + id) == Some(0);
  }

  lemma TwoTicks(a: Part, b: Part)
    requires a.DecisionPart? && b.DecisionPart? && a.id == b.id
    ensures SyncTicks([[a], [b]]).mirror.parts == [ToDocPart(a)]
    ensures SyncTicks([[b]]).mirror.parts == [ToDocPart(b)]
  {
    assert [[a], [b]][..1] == [[a]];
    RunHolds([[a], [b]]);
    RunHolds([[b]]);
    assert FirstShown([[a], [b]], 0) == FirstShown([[a]], 0) == a;
    assert FirstShown([[b]], 0) == b;
    assert EverShown([[a]], 0) == NO_EXTRAS && EverShown([[b]], 0) == NO_EXTRAS;
    assert Held([[a], [b]], 0) == ToDocPart(a);
  }

  /** A decision refreshed between two syncs keeps its first payload; coalesced into one sync it shows the last. */
  lemma DecisionsKeepTheirFirstPayload(id: string, first: Json, second: Json)
    ensures var events := [Decision(id, first), Decision(id, second)];
            && SyncTicks(FoldsAt(events, [1, 2])).mirror.parts == [ToDocPart(DecisionPart("decision-" + id, first))]
            && SyncTicks(FoldsAt(events, [2])).mirror.parts == [ToDocPart(DecisionPart("decision-" + id, second))]
  {
    var events := [Decision(id, first), Decision(id, second)];
    assert events[..1] == [Decision(id, first)] && events[..2] == events;
    OneDecision(id, first, second);
    var a, b := DecisionPart("decision-" + id, first), DecisionPart("decision-" + id, second);
    assert FoldsAt(events, [1, 2]) == [[a], [b]];
    assert FoldsAt(events, [2]) == [[b]];
    TwoTicks(a, b);
  }

  /** A tool's result with stats, then the same result without. */
  function TwoResults(id: string, call: Json, stats: Json): seq<Event> {
    [ToolCall(id, call), ToolResult(id, false, Some(stats)), ToolResult(id, false, None)]
  }

  function FinishedTool(id: string, call: Json, stats: Option<Json>): Part {
    ToolPart(id, call, false, true, None, None, None, None, None, stats)
  }

  lemma TwoResultsFold(id: string, call: Json, stats: Json)
    ensures var events := TwoResults(id, call, stats);
            && FoldAll(events[..2]) == [FinishedTool(id, call, Some(stats))]
            && FoldAll(events) == [FinishedTool(id, call, None)]
  {
    var events := TwoResults(id, call, stats);
    assert events[..2][..1] == [ToolCall(id, call)] && events[..2] == events[..3][..2];
    assert FoldAll([ToolCall(id, call)]) == [FreshTool(id, call)] by {
      assert [ToolCall(id, call)][..0] == [] && FirstTool([], id) == None;
    }
    assert events[..2] == [ToolCall(id, call), ToolResult(id, false, Some(stats))];
    assert WithResults([FreshTool(id, call)], id, false, Some(stats)) == [FinishedTool(id, call, Some(stats))];
  }

  /** Stats synced once stay in the document when a later result clears them; in one coalesced sync they never show. */
  lemma ClearedStatsStay(id: string, call: Json, stats: Json)
    ensures var events := TwoResults(id, call, stats);
            var twice := SyncTicks(FoldsAt(events, [2, 3])).mirror.parts;
            var once := SyncTicks(FoldsAt(events, [3])).mirror.parts;
            && FoldAll(events) == [FinishedTool(id, call, None)]
            && |twice| == |once| == 1
            && twice[0].extras.diffStats == Some(stats) && once[0].extras.diffStats == None
  {
    var events := TwoResults(id, call, stats);
    TwoResultsFold(id, call, stats);
    var a, b := FinishedTool(id, call, Some(stats)), FinishedTool(id, call, None);
    assert events[..3] == events;
    assert FoldsAt(events, [2, 3]) == [[a], [b]] && FoldsAt(events, [3]) == [[b]];
    assert [[a], [b]][..1] == [[a]];
    RunHolds([[a], [b]]);
    RunHolds([[b]]);
    assert EverShown([[a]], 0) == ExtrasOf(a) && EverShown([[b]], 0) == NO_EXTRAS;
  }

  /** A fold, and what the document holds of it, can be diffed by text appends: its text parts have distinct ids. */
  lemma FoldsAreDiffable(events: seq<Event>, ds: seq<DocPart>)
    requires |ds| == |FoldAll(events)| && forall i | 0 <= i < |ds| :: Faithful(ds[i], FoldAll(events)[i])
    ensures TranscriptSync.TextIdsUnique(FromDocParts(ds))
  {
    FoldShape(events);
    var folded, back := FoldAll(events), FromDocParts(ds);
    forall i, j | 0 <= i < j < |back| && back[i].TextPart? && back[j].TextPart? ensures back[i].id != back[j].id {
      TextIsFaithful(ds[i], folded[i]);
      TextIsFaithful(ds[j], folded[j]);
      assert !SameKindAndId(folded[i], folded[j]);
    }
  }

  lemma TextIsFaithful(d: DocPart, p: Part)
    requires Faithful(d, p) && FromDocPart(d).TextPart?
    ensures p.TextPart? && FromDocPart(d).id == p.id
  {
    KindsDiffer();
  }
}
