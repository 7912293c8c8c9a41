/** Folding agent events into the parts of one assistant segment. */
module PartsFold {
  import opened Wrappers
  import opened Parts
  import opened Sequences
  import Decimal

  /** Agent events; a tool result carries its diff as the stats the fold derives from it. */
  datatype Event =
    | SessionStarted
    | Steered
    | TextDelta(text: Text)
    | ToolCall(id: string, call: Json)
    | ToolResult(id: string, isError: bool, stats: Option<Json>)
    | InputRequested(requestId: string, questions: Json)
    | InputResolved(requestId: string)
    | Decision(eventId: string, event: Json)
    | Error(message: Text)
    | Done(error: Option<Text>)
    | Silent

  predicate IsReset(event: Event) {
    event.SessionStarted? || event.Steered?
  }

  predicate NoResets(events: seq<Event>) {
    forall e | e in events :: !IsReset(e)
  }

  // ── one event ───────────────────────────────────────────────────────────

  function FreshTool(id: string, call: Json): Part {
    ToolPart(id, call, false, false, None, None, None, None, None, None)
  }

  predicate IsTool(p: Part, id: string) {
    p.ToolPart? && p.id == id
  }

  predicate IsDecision(p: Part, id: string) {
    p.DecisionPart? && p.id == id
  }

  /** The first tool part called `id`. */
  function FirstTool(parts: seq<Part>, id: string): (at: Option<nat>)
    ensures at.Some? ==> at.value < |parts| && IsTool(parts[at.value], id) &&
                         forall i | 0 <= i < at.value :: !IsTool(parts[i], id)
    ensures at.None? ==> forall i | 0 <= i < |parts| :: !IsTool(parts[i], id)
  {
    FindFirst(parts, (p: Part) => IsTool(p, id))
  }

  function FirstDecision(parts: seq<Part>, id: string): (at: Option<nat>)
    ensures at.Some? ==> at.value < |parts| && IsDecision(parts[at.value], id) &&
                         forall i | 0 <= i < at.value :: !IsDecision(parts[i], id)
    ensures at.None? ==> forall i | 0 <= i < |parts| :: !IsDecision(parts[i], id)
  {
    FindFirst(parts, (p: Part) => IsDecision(p, id))
  }

  predicate HasId(parts: seq<Part>, id: string) {
    exists i | 0 <= i < |parts| :: parts[i].id == id
  }

  /** Outputs and inline diffs never enter the parts; stats do. */
  function WithResult(p: Part, id: string, isError: bool, stats: Option<Json>): Part {
    if IsTool(p, id) then
      p.(isError := isError, resolved := true, output := None, outputBytes := None, diff := None, diffStats := stats)
    else p
  }

  function WithAnswer(p: Part, requestId: string): Part {
    if p.InputPart? && p.requestId == requestId then InputPart(p.id, p.requestId, p.questions, true) else p
  }

  function WithResults(parts: seq<Part>, id: string, isError: bool, stats: Option<Json>): (r: seq<Part>)
    ensures |r| == |parts|
  {
    seq(|parts|, i requires 0 <= i < |parts| => WithResult(parts[i], id, isError, stats))
  }

  function WithAnswers(parts: seq<Part>, requestId: string): (r: seq<Part>)
    ensures |r| == |parts|
  {
    seq(|parts|, i requires 0 <= i < |parts| => WithAnswer(parts[i], requestId))
  }

  function Numbered(prefix: string, n: nat): string {
    prefix + Decimal.Render(n)
  }

  function WithError(parts: seq<Part>, message: Text): seq<Part> {
    parts + [ErrorPart(Numbered("e", |parts|), message)]
  }

  function EndsInText(parts: seq<Part>): bool {
    parts != [] && parts[|parts| - 1].TextPart?
  }

  function Folded(parts: seq<Part>, event: Event): seq<Part> {
    match event
    case SessionStarted => []
    case Steered => []
    case TextDelta(text) =>
      if EndsInText(parts) then
        var n := |parts| - 1;
        parts[n := parts[n].(text := parts[n].text + text)]
      else parts + [TextPart(Numbered("t", |parts|), text)]
    case ToolCall(id, call) =>
      (match FirstTool(parts, id)
       case Some(i) => parts[i := parts[i].(call := call)]
       case None => parts + [FreshTool(id, call)])
    case ToolResult(id, isError, stats) => WithResults(parts, id, isError, stats)
    case InputRequested(requestId, questions) =>
      if HasId(parts, "in-" + requestId) then parts
      else parts + [InputPart("in-" + requestId, requestId, questions, false)]
    case InputResolved(requestId) => WithAnswers(parts, requestId)
    case Decision(eventId, event) =>
      (match FirstDecision(parts, "decision-" + eventId)
       case Some(i) => parts[i := parts[i].(event := event)]
       case None => parts + [DecisionPart("decision-" + eventId, event)])
    case Error(message) => WithError(parts, message)
    case Done(error) => if error.Some? then WithError(parts, error.value) else parts
    case Silent => parts
  }

  function FoldAll(events: seq<Event>): seq<Part> {
    if events == [] then [] else Folded(FoldAll(events[..|events| - 1]), events[|events| - 1])
  }

  /** The accumulator a segment's events are folded into. */
  class PartsAccumulator {
    var parts: seq<Part>

    constructor ()
      ensures parts == []
    {
      parts := [];
    }

    method Fold(event: Event)
      modifies this
      ensures parts == Folded(old(parts), event)
    {
      match event {
        case SessionStarted => parts := [];
        case Steered => parts := [];
        case TextDelta(text) =>
          if parts != [] && parts[|parts| - 1].TextPart? {
            var tail := parts[|parts| - 1];
            parts := parts[|parts| - 1 := tail.(text := tail.text + text)];
          } else {
            parts := parts + [TextPart(Numbered("t", |parts|), text)];
          }
        case ToolCall(id, call) =>
          var i := 0;
          while i < |parts| && !IsTool(parts[i], id)
            invariant i <= |parts| && parts == old(parts)
            invariant forall j | 0 <= j < i :: !IsTool(parts[j], id)
          {
            i := i + 1;
          }
          if i < |parts| {
            parts := parts[i := parts[i].(call := call)];
          } else {
            parts := parts + [FreshTool(id, call)];
          }
        case ToolResult(id, isError, stats) =>
          var i := 0;
          while i < |parts|
            invariant i <= |parts| == |old(parts)|
            invariant forall j | 0 <= j < i :: parts[j] == WithResult(old(parts)[j], id, isError, stats)
            invariant forall j | i <= j < |parts| :: parts[j] == old(parts)[j]
          {
            if IsTool(parts[i], id) {
              parts := parts[i := parts[i].(isError := isError, resolved := true, output := None,
                                            outputBytes := None, diff := None, diffStats := stats)];
            }
            i := i + 1;
          }
          assert parts == WithResults(old(parts), id, isError, stats);
        case InputRequested(requestId, questions) =>
          var id := "in-" + requestId;
          var i := 0;
          while i < |parts| && parts[i].id != id
            invariant i <= |parts| && parts == old(parts)
            invariant forall j | 0 <= j < i :: parts[j].id != id
          {
            i := i + 1;
          }
          if i == |parts| {
            parts := parts + [InputPart(id, requestId, questions, false)];
          }
        case InputResolved(requestId) =>
          var i := 0;
          while i < |parts|
            invariant i <= |parts| == |old(parts)|
            invariant forall j | 0 <= j < i :: parts[j] == WithAnswer(old(parts)[j], requestId)
            invariant forall j | i <= j < |parts| :: parts[j] == old(parts)[j]
          {
            if parts[i].InputPart? && parts[i].requestId == requestId {
              parts := parts[i := InputPart(parts[i].id, parts[i].requestId, parts[i].questions, true)];
            }
            i := i + 1;
          }
          assert parts == WithAnswers(old(parts), requestId);
        case Decision(eventId, event) =>
          var id := "decision-" + eventId;
          var i := 0;
          while i < |parts| && !IsDecision(parts[i], id)
            invariant i <= |parts| && parts == old(parts)
            invariant forall j | 0 <= j < i :: !IsDecision(parts[j], id)
          {
            i := i + 1;
          }
          if i < |parts| {
            parts := parts[i := parts[i].(event := event)];
          } else {
            parts := parts + [DecisionPart(id, event)];
          }
        case Error(message) => parts := parts + [ErrorPart(Numbered("e", |parts|), message)];
        case Done(error) =>
          if error.Some? {
            parts := parts + [ErrorPart(Numbered("e", |parts|), error.value)];
          }
        case Silent =>
      }
    }
  }

  // ── the shape every fold keeps ──────────────────────────────────────────

  predicate PartShape(p: Part, i: nat) {
    match p
    case TextPart(id, _) => id == Numbered("t", i)
    case ToolPart(_, _, isError, resolved, output, diff, outputRef, outputBytes, diffRef, diffStats) =>
      output.None? && diff.None? && outputRef.None? && outputBytes.None? && diffRef.None? &&
      (!resolved ==> !isError && diffStats.None?)
    case InputPart(id, requestId, _, _) => id == "in-" + requestId
    case ErrorPart(id, _) => id == Numbered("e", i)
    case DecisionPart(id, _) => "decision-" <= id
  }

  predicate SameKindAndId(p: Part, q: Part) {
    p.id == q.id && p.TextPart? == q.TextPart? && p.ToolPart? == q.ToolPart? && p.InputPart? == q.InputPart? &&
    p.ErrorPart? == q.ErrorPart?
  }

  predicate NoTextAfterText(parts: seq<Part>, i: nat) {
    0 < i < |parts| && parts[i].TextPart? ==> !parts[i - 1].TextPart?
  }

  /** Ids say where text and errors stand, no two parts of a kind share one, and text never follows text. */
  predicate Shape(parts: seq<Part>) {
    && (forall i | 0 <= i < |parts| :: PartShape(parts[i], i))
    && (forall i, j | 0 <= i < j < |parts| :: !SameKindAndId(parts[i], parts[j]))
    && (forall i: nat | i < |parts| :: NoTextAfterText(parts, i))
  }

  lemma NumberedInjective(prefix: string, m: nat, n: nat)
    ensures Numbered(prefix, m) == Numbered(prefix, n) ==> m == n
  {
    assert Numbered(prefix, m)[|prefix|..] == Decimal.Render(m);
    assert Numbered(prefix, n)[|prefix|..] == Decimal.Render(n);
  }

  lemma PushKeepsShape(parts: seq<Part>, p: Part)
    requires Shape(parts) && PartShape(p, |parts|)
    requires forall q | q in parts :: !SameKindAndId(q, p)
    requires p.TextPart? ==> !EndsInText(parts)
    ensures Shape(parts + [p])
  {
    var all := parts + [p];
    forall i: nat | i < |all| ensures NoTextAfterText(all, i) {
      assert i < |parts| ==> NoTextAfterText(parts, i);
    }
    forall i, j | 0 <= i < j < |all| ensures !SameKindAndId(all[i], all[j]) {
      assert i < |parts| && parts[i] in parts;
    }
  }

  lemma NumberedIsNew(parts: seq<Part>, p: Part)
    requires Shape(parts) && PartShape(p, |parts|) && (p.TextPart? || p.ErrorPart?)
    ensures forall q | q in parts :: !SameKindAndId(q, p)
  {
    forall i | 0 <= i < |parts| ensures !SameKindAndId(parts[i], p) {
      if p.TextPart? {
        NumberedInjective("t", i, |parts|);
      } else {
        NumberedInjective("e", i, |parts|);
      }
    }
  }

  /** Parts that change payloads only: kinds, ids and the tool rule stay. */
  predicate Relabelled(a: seq<Part>, b: seq<Part>) {
    |a| == |b| && forall i | 0 <= i < |a| :: SameKindAndId(a[i], b[i]) && (PartShape(a[i], i) ==> PartShape(b[i], i))
  }

  lemma RelabelKeepsShape(a: seq<Part>, b: seq<Part>)
    requires Shape(a) && Relabelled(a, b)
    ensures Shape(b)
  {
    forall i: nat | i < |b| ensures NoTextAfterText(b, i) {
      assert NoTextAfterText(a, i);
    }
    forall i, j | 0 <= i < j < |b| ensures !SameKindAndId(b[i], b[j]) {
      assert !SameKindAndId(a[i], a[j]);
    }
  }

  lemma FoldKeepsShape(parts: seq<Part>, event: Event)
    requires Shape(parts)
    ensures Shape(Folded(parts, event))
  {
    var next := Folded(parts, event);
    if |next| == |parts| {
      RelabelKeepsShape(parts, next);
    } else if next != [] {
      var p := next[|parts|];
      assert next == parts + [p];
      assert PartShape(p, |parts|);
      if p.TextPart? || p.ErrorPart? {
        NumberedIsNew(parts, p);
      }
      PushKeepsShape(parts, p);
    }
  }

  lemma {:induction false} FoldShape(events: seq<Event>)
    ensures Shape(FoldAll(events))
  {
    if events != [] {
      FoldShape(events[..|events| - 1]);
      FoldKeepsShape(FoldAll(events[..|events| - 1]), events[|events| - 1]);
    }
  }

  // ── what a non-reset event may change ───────────────────────────────────

  /** How a part may go on: only the last may grow text, and nothing is unresolved again. */
  predicate Grows(p: Part, q: Part, last: bool) {
    && SameKindAndId(p, q)
    && match p
       case TextPart(_, text) => text <= q.text && (last || text == q.text)
       case ToolPart(_, _, _, resolved, _, _, _, _, _, _) => resolved ==> q.resolved
       case InputPart(_, requestId, questions, resolved) =>
         q.requestId == requestId && q.questions == questions && (resolved ==> q.resolved)
       case ErrorPart(_, message) => q.message == message
       case DecisionPart(_, _) => true
  }

  predicate Extends(a: seq<Part>, b: seq<Part>) {
    |a| <= |b| && forall i | 0 <= i < |a| :: Grows(a[i], b[i], i == |a| - 1)
  }

  /** The invariant the incremental writer relies on. */
  lemma FoldExtends(parts: seq<Part>, event: Event)
    requires !IsReset(event)
    ensures Extends(parts, Folded(parts, event))
    ensures |Folded(parts, event)| <= |parts| + 1
  {
  }

  lemma ExtendsTransitive(a: seq<Part>, b: seq<Part>, c: seq<Part>)
    requires Extends(a, b) && Extends(b, c)
    ensures Extends(a, c)
  {
    forall i | 0 <= i < |a| ensures Grows(a[i], c[i], i == |a| - 1) {
      assert Grows(a[i], b[i], i == |a| - 1) && Grows(b[i], c[i], i == |b| - 1);
    }
  }

  /** Between resets the fold only extends the list and its last text. */
  lemma {:induction false} RunExtends(events: seq<Event>, m: nat)
    requires m <= |events| && NoResets(events[m..])
    ensures Extends(FoldAll(events[..m]), FoldAll(events))
    decreases |events|
  {
    if m == |events| {
      assert events[..m] == events;
    } else {
      var front, e := events[..|events| - 1], events[|events| - 1];
      assert front[..m] == events[..m];
      assert forall x | x in front[m..] :: x in events[m..];
      assert e == events[m..][|events| - m - 1];
      RunExtends(front, m);
      FoldExtends(FoldAll(front), e);
      ExtendsTransitive(FoldAll(events[..m]), FoldAll(front), FoldAll(events));
    }
  }

  lemma FoldSnoc(events: seq<Event>, e: Event)
    ensures FoldAll(events + [e]) == Folded(FoldAll(events), e)
  {
    assert (events + [e])[..|events|] == events;
  }

  /** A reset forgets everything before it, so replaying a turn from its start is safe. */
  lemma {:induction false} ReplaySafe(before: seq<Event>, reset: Event, turn: seq<Event>)
    requires IsReset(reset)
    ensures FoldAll(before + [reset] + turn) == FoldAll(turn)
    decreases |turn|
  {
    if turn == [] {
      FoldSnoc(before, reset);
      assert before + [reset] + turn == before + [reset];
    } else {
      var front, last := turn[..|turn| - 1], turn[|turn| - 1];
      ReplaySafe(before, reset, front);
      FoldSnoc(before + [reset] + front, last);
      assert before + [reset] + turn == (before + [reset] + front) + [last];
    }
  }

  // ── what the parts say about the events ─────────────────────────────────

  function TextOf(parts: seq<Part>): Text {
    if parts == [] then []
    else
      var p := parts[|parts| - 1];
      TextOf(parts[..|parts| - 1]) + if p.TextPart? then p.text else []
  }

  function Deltas(events: seq<Event>): Text {
    if events == [] then []
    else
      var e := events[|events| - 1];
      Deltas(events[..|events| - 1]) + if e.TextDelta? then e.text else []
  }

  lemma {:induction false} SameText(a: seq<Part>, b: seq<Part>)
    requires |a| == |b|
    requires forall i | 0 <= i < |a| ::
               a[i].TextPart? == b[i].TextPart? && (a[i].TextPart? ==> a[i].text == b[i].text)
    ensures TextOf(a) == TextOf(b)
  {
    if a != [] {
      SameText(a[..|a| - 1], b[..|b| - 1]);
    }
  }

  lemma FoldConservesText(parts: seq<Part>, event: Event)
    requires !IsReset(event)
    ensures TextOf(Folded(parts, event)) == TextOf(parts) + if event.TextDelta? then event.text else []
  {
    var next := Folded(parts, event);
    if |next| > |parts| {
      assert next[..|parts|] == parts;
    } else if event.TextDelta? {
      var n := |parts| - 1;
      assert next[..n] == parts[..n];
      assert (TextOf(parts[..n]) + parts[n].text) + event.text == TextOf(parts[..n]) + (parts[n].text + event.text);
    } else {
      SameText(parts, next);
    }
  }

  /** No delta is lost, doubled or reordered: the text parts spell the deltas. */
  lemma {:induction false} TextConserved(events: seq<Event>)
    requires NoResets(events)
    ensures TextOf(FoldAll(events)) == Deltas(events)
  {
    if events != [] {
      var front := events[..|events| - 1];
      assert forall e | e in front :: e in events;
      TextConserved(front);
      FoldConservesText(FoldAll(front), events[|events| - 1]);
    }
  }

  /** One tool as its own state machine over the events. */
  datatype Tool = Absent | Called(call: Json, outcome: Option<bool>, stats: Option<Json>)

  function ToolStep(t: Tool, id: string, event: Event): Tool {
    if IsReset(event) then Absent
    else if event.ToolCall? && event.id == id then
      if t.Absent? then Called(event.call, None, None) else t.(call := event.call)
    else if event.ToolResult? && event.id == id && t.Called? then
      t.(outcome := Some(event.isError), stats := event.stats)
    else t
  }

  function ToolRun(events: seq<Event>, id: string): Tool {
    if events == [] then Absent else ToolStep(ToolRun(events[..|events| - 1], id), id, events[|events| - 1])
  }

  function Shown(p: Part): Tool
    requires p.ToolPart?
  {
    Called(p.call, if p.resolved then Some(p.isError) else None, p.diffStats)
  }

  function ToolIn(parts: seq<Part>, id: string): Tool {
    match FirstTool(parts, id)
    case None => Absent
    case Some(i) => Shown(parts[i])
  }

  lemma ToolsStay(parts: seq<Part>, next: seq<Part>, id: string)
    requires Extends(parts, next)
    ensures forall i | 0 <= i < |parts| :: IsTool(parts[i], id) == IsTool(next[i], id)
    ensures FirstTool(parts, id).Some? ==> FirstTool(next, id) == FirstTool(parts, id)
    ensures FirstTool(parts, id).None? && FirstTool(next, id).Some? ==> FirstTool(next, id).value >= |parts|
  {
    forall i | 0 <= i < |parts| ensures IsTool(parts[i], id) == IsTool(next[i], id) {
      assert Grows(parts[i], next[i], i == |parts| - 1);
    }
  }

  /** What one event does to the tool part at `i`. */
  lemma KnownToolStep(parts: seq<Part>, id: string, i: nat, event: Event)
    requires !IsReset(event) && FirstTool(parts, id) == Some(i)
    ensures i < |Folded(parts, event)| && Folded(parts, event)[i].ToolPart?
    ensures Shown(Folded(parts, event)[i]) == ToolStep(Shown(parts[i]), id, event)
  {
    match event {
      case ToolCall(other, call) => KnownCallStep(parts, id, i, other, call);
      case ToolResult(other, isError, stats) =>
        assert WithResults(parts, other, isError, stats)[i] == WithResult(parts[i], other, isError, stats);
      case Decision(eventId, payload) =>
        var at := FirstDecision(parts, "decision-" + eventId);
        assert at.Some? ==> at.value != i;
      case _ =>
    }
  }

  lemma KnownCallStep(parts: seq<Part>, id: string, i: nat, other: string, call: Json)
    requires FirstTool(parts, id) == Some(i)
    ensures var next := Folded(parts, ToolCall(other, call));
            i < |next| && next[i] == if other == id then parts[i].(call := call) else parts[i]
  {
    var at := FirstTool(parts, other);
    assert at.Some? && other != id ==> at.value != i;
  }

  lemma NewToolStep(parts: seq<Part>, id: string, event: Event)
    requires !IsReset(event) && FirstTool(parts, id).None?
    ensures ToolIn(Folded(parts, event), id) == ToolStep(Absent, id, event)
  {
    FoldExtends(parts, event);
    var next := Folded(parts, event);
    ToolsStay(parts, next, id);
    if event.ToolCall? && event.id == id {
      assert next == parts + [FreshTool(id, event.call)];
      assert FirstTool(next, id) == Some(|parts|);
    } else {
      assert |next| > |parts| ==> !IsTool(next[|parts|], id);
      assert FirstTool(next, id).None?;
    }
  }

  lemma ToolInStep(parts: seq<Part>, id: string, event: Event)
    ensures ToolIn(Folded(parts, event), id) == ToolStep(ToolIn(parts, id), id, event)
  {
    if !IsReset(event) {
      match FirstTool(parts, id) {
        case None => NewToolStep(parts, id, event);
        case Some(i) =>
          FoldExtends(parts, event);
          ToolsStay(parts, Folded(parts, event), id);
          KnownToolStep(parts, id, i, event);
      }
    }
  }

  /** Every tool part shows exactly what the events said of that tool, whatever else interleaved. */
  lemma {:induction false} ToolFollowsEvents(events: seq<Event>, id: string)
    ensures ToolIn(FoldAll(events), id) == ToolRun(events, id)
  {
    if events != [] {
      var front := events[..|events| - 1];
      ToolFollowsEvents(front, id);
      ToolInStep(FoldAll(front), id, events[|events| - 1]);
    }
  }
}
