/** What each question, error and decision shows, told from the events alone. */
module PartsFollow {
  import opened Wrappers
  import opened Parts
  import opened PartsFold

  // ── questions ───────────────────────────────────────────────────────────

  datatype Question = Question(questions: Json, answered: bool)

  /**
   * One request over the events since the last reset. A tool that goes by the
   * id the question's part would have takes its place if it was called before.
   */
  datatype Request = Request(shown: Option<Question>, taken: bool)

  function RequestStep(r: Request, requestId: string, event: Event): Request {
    if IsReset(event) then Request(None, false)
    else match event
      case ToolCall(id, _) => if id == "in-" + requestId then r.(taken := true) else r
      case InputRequested(id, questions) =>
        if id == requestId && r.shown.None? && !r.taken then r.(shown := Some(Question(questions, false))) else r
      case InputResolved(id) =>
        if id == requestId && r.shown.Some? then r.(shown := Some(Question(r.shown.value.questions, true))) else r
      case _ => r
  }

  function RequestRun(events: seq<Event>, requestId: string): Request {
    if events == [] then Request(None, false)
    else RequestStep(RequestRun(events[..|events| - 1], requestId), requestId, events[|events| - 1])
  }

  predicate Asks(p: Part, requestId: string, q: Question) {
    p.InputPart? && p.requestId == requestId && p.questions == q.questions && p.resolved == q.answered
  }

  predicate AsksIt(p: Part, requestId: string) {
    p.InputPart? && p.requestId == requestId
  }

  /** The parts show this of the request: one part with its questions and whether it was answered, or none. */
  ghost predicate ShowsRequest(parts: seq<Part>, requestId: string, r: Request) {
    && (match r.shown
        case None => forall i | 0 <= i < |parts| :: !AsksIt(parts[i], requestId)
        case Some(q) =>
          && (exists i | 0 <= i < |parts| :: AsksIt(parts[i], requestId))
          && forall i | 0 <= i < |parts| && AsksIt(parts[i], requestId) :: Asks(parts[i], requestId, q))
    && (r.taken <==> exists i | 0 <= i < |parts| :: IsTool(parts[i], "in-" + requestId))
  }

  lemma InputIdsDiffer(a: string, b: string)
    ensures "in-" + a == "in-" + b <==> a == b
  {
    assert ("in-" + a)[3..] == a && ("in-" + b)[3..] == b;
  }

  /** Only a question of that request or a tool can go by its part's id. */
  lemma WhoHasInputId(p: Part, i: nat, requestId: string)
    requires PartShape(p, i)
    ensures p.id == "in-" + requestId <==> AsksIt(p, requestId) || IsTool(p, "in-" + requestId)
  {
    match p {
      case TextPart(id, _) => assert id[0] == 't';
      case ErrorPart(id, _) => assert id[0] == 'e';
      case DecisionPart(id, _) => assert id[0] == 'd';
      case InputPart(_, other, _, _) => InputIdsDiffer(other, requestId);
      case _ =>
    }
  }

  lemma RequestedStep(parts: seq<Part>, requestId: string, r: Request, id: string, questions: Json)
    requires Shape(parts) && ShowsRequest(parts, requestId, r)
    ensures ShowsRequest(Folded(parts, InputRequested(id, questions)), requestId,
                         RequestStep(r, requestId, InputRequested(id, questions)))
  {
    forall i | 0 <= i < |parts|
      ensures parts[i].id == "in-" + id <==> AsksIt(parts[i], id) || IsTool(parts[i], "in-" + id)
    {
      WhoHasInputId(parts[i], i, id);
    }
    var next := Folded(parts, InputRequested(id, questions));
    if HasId(parts, "in-" + id) {
      assert next == parts;
    } else {
      assert forall i | 0 <= i < |parts| :: next[i] == parts[i];
      assert next[|parts|] == InputPart("in-" + id, id, questions, false);
    }
  }

  lemma CalledStep(parts: seq<Part>, requestId: string, r: Request, id: string, call: Json)
    requires ShowsRequest(parts, requestId, r)
    ensures ShowsRequest(Folded(parts, ToolCall(id, call)), requestId, RequestStep(r, requestId, ToolCall(id, call)))
  {
    var next := Folded(parts, ToolCall(id, call));
    assert forall i | 0 <= i < |parts| ::
        AsksIt(next[i], requestId) == AsksIt(parts[i], requestId) &&
        (AsksIt(parts[i], requestId) ==> next[i] == parts[i]) &&
        IsTool(next[i], "in-" + requestId) == IsTool(parts[i], "in-" + requestId);
    match FirstTool(parts, id) {
      case Some(i) => assert IsTool(next[i], id);
      case None => assert next[|parts|] == FreshTool(id, call);
    }
  }

  /** Events that leave questions and tool ids where they are. */
  lemma UnrelatedStep(parts: seq<Part>, next: seq<Part>, requestId: string, r: Request)
    requires ShowsRequest(parts, requestId, r) && |parts| <= |next|
    requires forall i | 0 <= i < |parts| ::
               (AsksIt(parts[i], requestId) || AsksIt(next[i], requestId) ==> next[i] == parts[i]) &&
               IsTool(next[i], "in-" + requestId) == IsTool(parts[i], "in-" + requestId)
    requires forall i | |parts| <= i < |next| :: !next[i].InputPart? && !next[i].ToolPart?
    ensures ShowsRequest(next, requestId, r)
  {
    if exists i | 0 <= i < |parts| :: AsksIt(parts[i], requestId) {
      var i :| 0 <= i < |parts| && AsksIt(parts[i], requestId);
      assert AsksIt(next[i], requestId);
    }
    if exists i | 0 <= i < |parts| :: IsTool(parts[i], "in-" + requestId) {
      var i :| 0 <= i < |parts| && IsTool(parts[i], "in-" + requestId);
      assert IsTool(next[i], "in-" + requestId);
    }
  }

  lemma AnsweredStep(parts: seq<Part>, requestId: string, r: Request, id: string)
    requires ShowsRequest(parts, requestId, r)
    ensures ShowsRequest(Folded(parts, InputResolved(id)), requestId, RequestStep(r, requestId, InputResolved(id)))
  {
    var next := Folded(parts, InputResolved(id));
    forall i | 0 <= i < |parts|
      ensures next[i] == WithAnswer(parts[i], id) && AsksIt(next[i], requestId) == AsksIt(parts[i], requestId) &&
              IsTool(next[i], "in-" + requestId) == IsTool(parts[i], "in-" + requestId)
    {
    }
    if exists i | 0 <= i < |parts| :: AsksIt(parts[i], requestId) {
      var i :| 0 <= i < |parts| && AsksIt(parts[i], requestId);
      assert AsksIt(next[i], requestId);
    }
    if exists i | 0 <= i < |parts| :: IsTool(parts[i], "in-" + requestId) {
      var i :| 0 <= i < |parts| && IsTool(parts[i], "in-" + requestId);
      assert IsTool(next[i], "in-" + requestId);
    }
  }

  lemma RequestShownStep(parts: seq<Part>, requestId: string, r: Request, event: Event)
    requires Shape(parts) && ShowsRequest(parts, requestId, r)
    ensures ShowsRequest(Folded(parts, event), requestId, RequestStep(r, requestId, event))
  {
    match event {
      case InputRequested(id, questions) => RequestedStep(parts, requestId, r, id, questions);
      case InputResolved(id) => AnsweredStep(parts, requestId, r, id);
      case ToolCall(id, call) => CalledStep(parts, requestId, r, id, call);
      case SessionStarted =>
      case Steered =>
      case _ => OtherShownStep(parts, requestId, r, event);
    }
  }

  lemma OtherShownStep(parts: seq<Part>, requestId: string, r: Request, event: Event)
    requires ShowsRequest(parts, requestId, r)
    requires event.TextDelta? || event.ToolResult? || event.Decision? || event.Error? || event.Done? || event.Silent?
    ensures ShowsRequest(Folded(parts, event), requestId, r)
  {
    match event {
      case ToolResult(id, isError, stats) => UnrelatedStep(parts, WithResults(parts, id, isError, stats), requestId, r);
      case Decision(_, _) => UnrelatedStep(parts, Folded(parts, event), requestId, r);
      case TextDelta(_) => UnrelatedStep(parts, Folded(parts, event), requestId, r);
      case Error(message) => UnrelatedStep(parts, WithError(parts, message), requestId, r);
      case Done(error) =>
        if error.Some? {
          UnrelatedStep(parts, WithError(parts, error.value), requestId, r);
        }
      case Silent =>
    }
  }

  /**
   * Every question shows exactly what the events since the last reset said of
   * it: there from its first request on with the questions first asked, and
   * answered once answered after that.
   */
  lemma {:induction false} InputFollowsEvents(events: seq<Event>, requestId: string)
    ensures ShowsRequest(FoldAll(events), requestId, RequestRun(events, requestId))
  {
    if events != [] {
      var front := events[..|events| - 1];
      InputFollowsEvents(front, requestId);
      FoldShape(front);
      RequestShownStep(FoldAll(front), requestId, RequestRun(front, requestId), events[|events| - 1]);
    }
  }

  // ── errors ──────────────────────────────────────────────────────────────

  /** The messages of the error parts, in order. */
  function ErrorsIn(parts: seq<Part>): seq<Text> {
    if parts == [] then []
    else
      var last := parts[|parts| - 1];
      if last.ErrorPart? then ErrorsIn(parts[..|parts| - 1]) + [last.message] else ErrorsIn(parts[..|parts| - 1])
  }

  /** What went wrong since the last reset: errors, and a turn that ended in one. */
  function Failures(events: seq<Event>): seq<Text> {
    if events == [] then []
    else
      var before, e := Failures(events[..|events| - 1]), events[|events| - 1];
      if IsReset(e) then []
      else if e.Error? then before + [e.message]
      else if e.Done? && e.error.Some? then before + [e.error.value]
      else before
  }

  lemma {:induction false} SameErrors(a: seq<Part>, b: seq<Part>)
    requires |a| == |b|
    requires forall i | 0 <= i < |a| :: a[i].ErrorPart? == b[i].ErrorPart? && (a[i].ErrorPart? ==> a[i] == b[i])
    ensures ErrorsIn(a) == ErrorsIn(b)
  {
    if a != [] {
      SameErrors(a[..|a| - 1], b[..|b| - 1]);
    }
  }

  lemma ErrorsStep(parts: seq<Part>, event: Event)
    requires !IsReset(event)
    ensures ErrorsIn(Folded(parts, event)) ==
            if event.Error? then ErrorsIn(parts) + [event.message]
            else if event.Done? && event.error.Some? then ErrorsIn(parts) + [event.error.value]
            else ErrorsIn(parts)
  {
    var next := Folded(parts, event);
    if |next| > |parts| {
      assert next[..|next| - 1] == parts;
    } else {
      SameErrors(parts, next);
    }
  }

  /** The error parts are exactly the failures, none lost, doubled or reordered. */
  lemma {:induction false} ErrorsFollowEvents(events: seq<Event>)
    ensures ErrorsIn(FoldAll(events)) == Failures(events)
  {
    if events != [] {
      var front, e := events[..|events| - 1], events[|events| - 1];
      ErrorsFollowEvents(front);
      if !IsReset(e) {
        ErrorsStep(FoldAll(front), e);
      }
    }
  }

  // ── decisions ───────────────────────────────────────────────────────────

  /** The last payload of a decision since the last reset. */
  function LastDecision(events: seq<Event>, eventId: string): Option<Json> {
    if events == [] then None
    else
      var before, e := LastDecision(events[..|events| - 1], eventId), events[|events| - 1];
      if IsReset(e) then None else if e.Decision? && e.eventId == eventId then Some(e.event) else before
  }

  predicate Decides(p: Part, eventId: string) {
    IsDecision(p, "decision-" + eventId)
  }

  /** One part with that payload, or none. */
  ghost predicate ShowsDecision(parts: seq<Part>, eventId: string, payload: Option<Json>) {
    match payload
    case None => forall i | 0 <= i < |parts| :: !Decides(parts[i], eventId)
    case Some(event) =>
      exists i | 0 <= i < |parts| ::
        && Decides(parts[i], eventId) && parts[i].event == event
        && forall j | 0 <= j < |parts| && j != i :: !Decides(parts[j], eventId)
  }

  lemma DecisionIdsDiffer(a: string, b: string)
    ensures "decision-" + a == "decision-" + b <==> a == b
  {
    assert ("decision-" + a)[9..] == a && ("decision-" + b)[9..] == b;
  }

  lemma SameDecisions(parts: seq<Part>, next: seq<Part>, eventId: string, payload: Option<Json>)
    requires ShowsDecision(parts, eventId, payload) && |parts| <= |next|
    requires forall i | 0 <= i < |parts| ::
               Decides(next[i], eventId) == Decides(parts[i], eventId) &&
               (Decides(parts[i], eventId) ==> next[i] == parts[i])
    requires forall i | |parts| <= i < |next| :: !Decides(next[i], eventId)
    ensures ShowsDecision(next, eventId, payload)
  {
    if payload.Some? {
      var i :| 0 <= i < |parts| && Decides(parts[i], eventId) && parts[i].event == payload.value &&
               forall j | 0 <= j < |parts| && j != i :: !Decides(parts[j], eventId);
      assert Decides(next[i], eventId);
    }
  }

  lemma DecidedStep(parts: seq<Part>, eventId: string, payload: Option<Json>, id: string, event: Json)
    requires ShowsDecision(parts, eventId, payload)
    ensures ShowsDecision(Folded(parts, Decision(id, event)), eventId, if id == eventId then Some(event) else payload)
  {
    var next, at := Folded(parts, Decision(id, event)), FirstDecision(parts, "decision-" + id);
    DecisionIdsDiffer(id, eventId);
    if id != eventId {
      SameDecisions(parts, next, eventId, payload);
    } else if at.Some? {
      assert Decides(parts[at.value], eventId);
      assert forall j | 0 <= j < |parts| && j != at.value :: next[j] == parts[j];
      assert Decides(next[at.value], eventId) && next[at.value].event == event;
    } else {
      assert forall j | 0 <= j < |parts| :: next[j] == parts[j] && !Decides(parts[j], eventId);
      assert Decides(next[|parts|], eventId) && next[|parts|].event == event;
    }
  }

  lemma DecisionShownStep(parts: seq<Part>, eventId: string, payload: Option<Json>, event: Event)
    requires ShowsDecision(parts, eventId, payload) && !IsReset(event)
    ensures ShowsDecision(Folded(parts, event), eventId,
                          if event.Decision? && event.eventId == eventId then Some(event.event) else payload)
  {
    if event.Decision? {
      DecidedStep(parts, eventId, payload, event.eventId, event.event);
    } else {
      SameDecisions(parts, Folded(parts, event), eventId, payload);
    }
  }

  /** Every decision shows once, with the payload it had last. */
  lemma {:induction false} DecisionsFollowEvents(events: seq<Event>, eventId: string)
    ensures ShowsDecision(FoldAll(events), eventId, LastDecision(events, eventId))
  {
    if events != [] {
      var front, e := events[..|events| - 1], events[|events| - 1];
      DecisionsFollowEvents(front, eventId);
      if !IsReset(e) {
        DecisionShownStep(FoldAll(front), eventId, LastDecision(front, eventId), e);
      }
    }
  }

  // ── events that say nothing to a reader ─────────────────────────────────

  predicate IsQuiet(event: Event) {
    event.Silent? || (event.Done? && event.error.None?)
  }

  lemma Regrouped(before: seq<Event>, quiet: Event, front: seq<Event>, last: Event)
    ensures before + [quiet] + (front + [last]) == (before + [quiet] + front) + [last]
    ensures before + (front + [last]) == (before + front) + [last]
  {
  }

  /** A turn that ends well, usage, activity and the like leave no trace: the fold is the same without them. */
  lemma {:induction false} QuietLeavesNoTrace(before: seq<Event>, quiet: Event, rest: seq<Event>)
    requires IsQuiet(quiet)
    ensures FoldAll(before + [quiet] + rest) == FoldAll(before + rest)
    decreases |rest|
  {
    if rest == [] {
      FoldSnoc(before, quiet);
      assert before + [quiet] + rest == before + [quiet] && before + rest == before;
    } else {
      var front, last := rest[..|rest| - 1], rest[|rest| - 1];
      assert rest == front + [last];
      Regrouped(before, quiet, front, last);
      QuietLeavesNoTrace(before, quiet, front);
      FoldSnoc(before + [quiet] + front, last);
      FoldSnoc(before + front, last);
    }
  }
}
