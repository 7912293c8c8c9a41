/** Terminal output: what is buffered for replay, and what each subscriber gets. */
module Terminals {
  import opened Wrappers

  const MAX_REPLAY_BYTES: nat := 1024 * 1024

  /** Output (base64 text) or the shell's exit, each stamped with a seq. */
  datatype TerminalEvent = Data(seq_: nat, data: string) | Exit(seq_: nat, exitCode: int) {
    function Bytes(): nat {
      match this
      case Data(_, data) => |data|
      case Exit(_, _) => 16
    }
  }

  function TotalBytes(events: seq<TerminalEvent>): nat {
    if events == [] then 0 else events[0].Bytes() + TotalBytes(events[1..])
  }

  /** Buffered events, and the running count of their bytes. */
  datatype Window = Window(events: seq<TerminalEvent>, bytes: int)

  /** The receiving end of one subscription: what it was sent, and whether anyone still listens. */
  datatype Stream = Stream(received: seq<TerminalEvent>, attached: bool)

  datatype Term = Term(
    replay: seq<TerminalEvent>,
    replayBytes: int,
    seq_: nat,
    exited: bool,
    subscribers: seq<nat>,
    streams: seq<Stream>)

  const OPENED := Term([], 0, 0, false, [], [])

  // ── emitting ────────────────────────────────────────────────────────────

  /** Drops from the front until the window fits or one event is left. */
  function Trimmed(w: Window): Window
    decreases |w.events|
  {
    if w.bytes > MAX_REPLAY_BYTES && |w.events| > 1
    then Trimmed(Window(w.events[1..], w.bytes - w.events[0].Bytes()))
    else w
  }

  function Sent(streams: seq<Stream>, to: nat, event: TerminalEvent): (r: seq<Stream>)
    ensures |r| == |streams|
  {
    if to < |streams| && streams[to].attached
    then streams[to := streams[to].(received := streams[to].received + [event])]
    else streams
  }

  predicate Listens(streams: seq<Stream>, id: nat) {
    id < |streams| && streams[id].attached
  }

  function SentAll(streams: seq<Stream>, to: seq<nat>, event: TerminalEvent): (r: seq<Stream>)
    ensures |r| == |streams|
  {
    if to == [] then streams else Sent(SentAll(streams, to[..|to| - 1], event), to[|to| - 1], event)
  }

  /** The subscribers whose send succeeded. */
  function Retained(streams: seq<Stream>, subscribers: seq<nat>): seq<nat> {
    if subscribers == [] then []
    else
      var id := subscribers[|subscribers| - 1];
      Retained(streams, subscribers[..|subscribers| - 1]) + if Listens(streams, id) then [id] else []
  }

  function Emitted(t: Term, event: TerminalEvent): Term {
    var w := Trimmed(Window(t.replay + [event], t.replayBytes + event.Bytes()));
    Term(w.events, w.bytes, t.seq_, t.exited || event.Exit?,
         if event.Exit? then [] else Retained(t.streams, t.subscribers),
         SentAll(t.streams, t.subscribers, event))
  }

  function Output(t: Term, data: string): Term {
    Emitted(t.(seq_ := t.seq_ + 1), Data(t.seq_ + 1, data))
  }

  function Exited(t: Term, exitCode: int): Term {
    Emitted(t.(seq_ := t.seq_ + 1), Exit(t.seq_ + 1, exitCode))
  }

  // ── subscribing ─────────────────────────────────────────────────────────

  function NewerThan(events: seq<TerminalEvent>, after: nat): seq<TerminalEvent> {
    if events == [] then []
    else
      var e := events[|events| - 1];
      NewerThan(events[..|events| - 1], after) + if e.seq_ > after then [e] else []
  }

  /** A new subscription: the replay past its cursor, then the live tail while the shell runs. */
  function Subscribed(t: Term, afterSeq: Option<nat>): Term {
    t.(streams := t.streams + [Stream(NewerThan(t.replay, afterSeq.GetOr(0)), true)],
       subscribers := if t.exited then t.subscribers else t.subscribers + [|t.streams|])
  }

  /** The viewer goes away; the terminal only notices at its next send. */
  function Detached(t: Term, id: nat): Term {
    if id < |t.streams| then t.(streams := t.streams[id := t.streams[id].(attached := false)]) else t
  }

  class LiveTerminal {
    var replay: seq<TerminalEvent>
    var replayBytes: int
    var seq_: nat
    var exited: bool
    var subscribers: seq<nat>
    var streams: seq<Stream>

    constructor ()
      ensures Value() == OPENED
    {
      replay, replayBytes, seq_, exited, subscribers, streams := [], 0, 0, false, [], [];
    }

    function Value(): Term
      reads this
    {
      Term(replay, replayBytes, seq_, exited, subscribers, streams)
    }

    method NextSeq() returns (next: nat)
      modifies this`seq_
      ensures seq_ == old(seq_) + 1 && next == seq_
    {
      seq_ := seq_ + 1;
      next := seq_;
    }

    /** Appends to the replay window and drops from its front until it fits. */
    method PushReplay(event: TerminalEvent)
      modifies this`replay, this`replayBytes
      ensures Window(replay, replayBytes) ==
              Trimmed(Window(old(replay) + [event], old(replayBytes) + event.Bytes()))
    {
      replay := replay + [event];
      replayBytes := replayBytes + event.Bytes();
      while replayBytes > MAX_REPLAY_BYTES && |replay| > 1
        invariant Trimmed(Window(replay, replayBytes)) ==
                  Trimmed(Window(old(replay) + [event], old(replayBytes) + event.Bytes()))
        decreases |replay|
      {
        var dropped := replay[0];
        replay := replay[1..];
        replayBytes := replayBytes - dropped.Bytes();
      }
    }

    /** Sends to every subscriber and keeps those whose send succeeded. */
    method FanOut(event: TerminalEvent)
      modifies this`subscribers, this`streams
      ensures streams == SentAll(old(streams), old(subscribers), event)
      ensures subscribers == Retained(old(streams), old(subscribers))
    {
      var all, kept := subscribers, [];
      var i := 0;
      while i < |all|
        invariant i <= |all| && all == old(subscribers)
        invariant streams == SentAll(old(streams), all[..i], event) && kept == Retained(old(streams), all[..i])
      {
        assert all[..i + 1][..i] == all[..i];
        SendsKeepAttached(old(streams), all[..i], event, all[i]);
        if all[i] < |streams| && streams[all[i]].attached {
          streams := streams[all[i] := streams[all[i]].(received := streams[all[i]].received + [event])];
          kept := kept + [all[i]];
        }
        i := i + 1;
      }
      assert all[..i] == all;
      subscribers := kept;
    }

    /** Buffers an event and sends it to the live subscribers; an exit ends every stream. */
    method Emit(event: TerminalEvent)
      modifies this
      ensures Value() == Emitted(old(Value()), event)
    {
      PushReplay(event);
      FanOut(event);
      if event.Exit? {
        exited := true;
        subscribers := [];
      }
    }

    /** Replays what the cursor has not seen, then tails live output. */
    method Subscribe(afterSeq: Option<nat>) returns (id: nat)
      modifies this`subscribers, this`streams
      ensures Value() == Subscribed(old(Value()), afterSeq) && id == |old(streams)|
    {
      var after := afterSeq.GetOr(0);
      var backlog: seq<TerminalEvent> := [];
      var i := 0;
      while i < |replay|
        invariant i <= |replay| && backlog == NewerThan(replay[..i], after)
        invariant streams == old(streams) && subscribers == old(subscribers)
      {
        assert replay[..i + 1][..i] == replay[..i];
        if replay[i].seq_ > after {
          backlog := backlog + [replay[i]];
        }
        i := i + 1;
      }
      assert replay[..i] == replay;
      id := |streams|;
      streams := streams + [Stream(backlog, true)];
      if !exited {
        subscribers := subscribers + [id];
      }
    }
  }

  lemma {:induction false} BytesPush(events: seq<TerminalEvent>, event: TerminalEvent)
    ensures TotalBytes(events + [event]) == TotalBytes(events) + event.Bytes()
  {
    if events != [] {
      BytesPush(events[1..], event);
      assert (events + [event])[1..] == events[1..] + [event];
    }
  }

  lemma {:induction false} SendsKeepAttached(streams: seq<Stream>, to: seq<nat>, event: TerminalEvent, id: nat)
    ensures Listens(SentAll(streams, to, event), id) == Listens(streams, id)
  {
    if to != [] {
      SendsKeepAttached(streams, to[..|to| - 1], event, id);
    }
  }

  // ── the window ──────────────────────────────────────────────────────────

  /** The longest end of the history within the cap, or its last event alone. */
  predicate IsWindow(history: seq<TerminalEvent>, from: nat) {
    && from <= |history|
    && (TotalBytes(history[from..]) <= MAX_REPLAY_BYTES || from == |history| - 1)
    && (from > 0 ==> from < |history| && TotalBytes(history[from - 1..]) > MAX_REPLAY_BYTES)
  }

  lemma {:induction false} BytesOfSuffix(history: seq<TerminalEvent>, a: nat, b: nat)
    requires a <= b <= |history|
    ensures TotalBytes(history[b..]) <= TotalBytes(history[a..])
    decreases b - a
  {
    if a < b {
      BytesOfSuffix(history, a + 1, b);
      assert history[a..][1..] == history[a + 1..];
    }
  }

  /** There is only one such window. */
  lemma WindowIsUnique(history: seq<TerminalEvent>, a: nat, b: nat)
    requires IsWindow(history, a) && IsWindow(history, b)
    ensures a == b
  {
    if a < b {
      BytesOfSuffix(history, a, b - 1);
    } else if b < a {
      BytesOfSuffix(history, b, a - 1);
    }
  }

  /** Trimming from any start at or before the window finds it. */
  lemma {:induction false} TrimFindsWindow(history: seq<TerminalEvent>, from: nat) returns (to: nat)
    requires from < |history| && (from > 0 ==> TotalBytes(history[from - 1..]) > MAX_REPLAY_BYTES)
    ensures from <= to && IsWindow(history, to)
    ensures Trimmed(Window(history[from..], TotalBytes(history[from..]))) ==
            Window(history[to..], TotalBytes(history[to..]))
    decreases |history| - from
  {
    var events := history[from..];
    assert events[1..] == history[from + 1..];
    if TotalBytes(events) > MAX_REPLAY_BYTES && |events| > 1 {
      to := TrimFindsWindow(history, from + 1);
    } else {
      to := from;
    }
  }

  /** One more event: the trimmed buffer is again the window. */
  lemma PushKeepsWindow(history: seq<TerminalEvent>, from: nat, e: TerminalEvent) returns (to: nat)
    requires IsWindow(history, from)
    ensures IsWindow(history + [e], to)
    ensures Trimmed(Window(history[from..] + [e], TotalBytes(history[from..]) + e.Bytes())) ==
            Window((history + [e])[to..], TotalBytes((history + [e])[to..]))
  {
    var more := history + [e];
    assert more[from..] == history[from..] + [e];
    BytesPush(history[from..], e);
    if from > 0 {
      assert more[from - 1..] == history[from - 1..] + [e];
      BytesPush(history[from - 1..], e);
    }
    to := TrimFindsWindow(more, from);
  }

  // ── runs ────────────────────────────────────────────────────────────────

  datatype Step =
    | PutOut(data: string)
    | ShellExits(exitCode: int)
    | Join(afterSeq: Option<nat>)
    | Leave(id: nat)

  function Next(t: Term, step: Step): Term {
    match step
    case PutOut(data) => Output(t, data)
    case ShellExits(exitCode) => Exited(t, exitCode)
    case Join(afterSeq) => Subscribed(t, afterSeq)
    case Leave(id) => Detached(t, id)
  }

  function After(steps: seq<Step>): Term {
    if steps == [] then OPENED else Next(After(steps[..|steps| - 1]), steps[|steps| - 1])
  }

  /** Everything the terminal ever emitted. */
  function History(steps: seq<Step>): seq<TerminalEvent> {
    if steps == [] then []
    else History(steps[..|steps| - 1]) + NewEvents(After(steps[..|steps| - 1]), steps[|steps| - 1])
  }

  function NewEvents(t: Term, step: Step): seq<TerminalEvent> {
    match step
    case PutOut(data) => [Data(t.seq_ + 1, data)]
    case ShellExits(exitCode) => [Exit(t.seq_ + 1, exitCode)]
    case Join(_) => []
    case Leave(_) => []
  }

  predicate Emits(step: Step) {
    step.PutOut? || step.ShellExits?
  }

  /** The pump stamps one exit and then stops. */
  predicate ExitIsLast(steps: seq<Step>) {
    forall i, j | 0 <= i < j < |steps| && steps[i].ShellExits? :: !Emits(steps[j])
  }

  predicate Numbered(history: seq<TerminalEvent>) {
    forall i | 0 <= i < |history| :: history[i].seq_ == i + 1
  }

  /** The buffer holds the history from `from` on, which is its window, and the counters are exact. */
  predicate Buffers(t: Term, history: seq<TerminalEvent>, from: nat) {
    && Numbered(history) && t.seq_ == |history| && IsWindow(history, from)
    && t.replay == history[from..] && t.replayBytes == TotalBytes(t.replay)
  }

  lemma StepBuffers(t: Term, step: Step, history: seq<TerminalEvent>, from: nat) returns (to: nat)
    requires Buffers(t, history, from)
    ensures Buffers(Next(t, step), history + NewEvents(t, step), to)
    ensures !Emits(step) ==> to == from
  {
    if Emits(step) {
      to := PushKeepsWindow(history, from, NewEvents(t, step)[0]);
    } else {
      to := from;
      assert history + [] == history;
    }
  }

  /**
   * Over any run the replay buffer is exactly the longest end of everything
   * emitted that fits the cap, or the last event alone; its byte counter is
   * exact; and seqs count the events from one.
   */
  lemma {:induction false} ReplayIsWindow(steps: seq<Step>) returns (from: nat)
    ensures Buffers(After(steps), History(steps), from)
  {
    from := 0;
    if steps != [] {
      var front := steps[..|steps| - 1];
      from := ReplayIsWindow(front);
      from := StepBuffers(After(front), steps[|steps| - 1], History(front), from);
    }
  }

  // ── subscribers ─────────────────────────────────────────────────────────

  lemma {:induction false} NewerIsSuffix(events: seq<TerminalEvent>, first: nat, after: nat)
    requires forall i | 0 <= i < |events| :: events[i].seq_ == first + i + 1
    ensures NewerThan(events, after) ==
            events[if after <= first then 0 else if after - first <= |events| then after - first else |events|..]
  {
    if events != [] {
      NewerIsSuffix(events[..|events| - 1], first, after);
    }
  }

  /**
   * The place in a history of `length` events, of which the last `kept` are
   * buffered, that a subscriber is owed from: past its cursor or the oldest
   * kept, whichever is later; only what is still to come, for a cursor ahead.
   */
  function FirstOwed(length: nat, kept: nat, after: nat): nat {
    if after > length then length else if after + kept > length then after else length - kept
  }

  /** Where in the history each subscription starts. */
  function Starts(steps: seq<Step>): seq<nat> {
    if steps == [] then []
    else
      var front, step := steps[..|steps| - 1], steps[|steps| - 1];
      Starts(front) + NewStart(After(front), |History(front)|, step)
  }

  function NewStart(t: Term, length: nat, step: Step): seq<nat> {
    if step.Join? then [FirstOwed(length, |t.replay|, step.afterSeq.GetOr(0))] else []
  }

  /** The stream received a gapless stretch of the history from `start`, all of it while attached. */
  predicate Follows(s: Stream, history: seq<TerminalEvent>, start: nat) {
    && start + |s.received| <= |history|
    && s.received == history[start..start + |s.received|]
    && (s.attached ==> start + |s.received| == |history|)
  }

  predicate Distinct(ids: seq<nat>) {
    forall i, j | 0 <= i < j < |ids| :: ids[i] != ids[j]
  }

  /** Senders are listed once each, and every attached stream of a running shell is among them. */
  predicate Listed(t: Term) {
    && Distinct(t.subscribers)
    && (forall id | id in t.subscribers :: id < |t.streams|)
    && (forall id | 0 <= id < |t.streams| && t.streams[id].attached && !t.exited :: id in t.subscribers)
  }

  predicate AllFollow(t: Term, history: seq<TerminalEvent>, starts: seq<nat>) {
    |starts| == |t.streams| && forall id | 0 <= id < |t.streams| :: Follows(t.streams[id], history, starts[id])
  }

  lemma {:induction false} SentOnce(streams: seq<Stream>, to: seq<nat>, event: TerminalEvent)
    requires Distinct(to)
    ensures forall id | 0 <= id < |streams| ::
              SentAll(streams, to, event)[id] ==
              if id in to && streams[id].attached then streams[id].(received := streams[id].received + [event])
              else streams[id]
  {
    if to != [] {
      var front, last := to[..|to| - 1], to[|to| - 1];
      SentOnce(streams, front, event);
      assert last !in front;
      assert forall id | 0 <= id < |streams| :: id in to <==> id in front || id == last;
    }
  }

  lemma {:induction false} RetainedFacts(streams: seq<Stream>, ids: seq<nat>)
    requires Distinct(ids)
    ensures forall id :: id in Retained(streams, ids) <==> id in ids && Listens(streams, id)
    ensures Distinct(Retained(streams, ids))
  {
    if ids != [] {
      var front, last := ids[..|ids| - 1], ids[|ids| - 1];
      RetainedFacts(streams, front);
      assert last !in front;
      assert forall id :: id in ids <==> id in front || id == last;
    }
  }

  lemma EmitFollows(t: Term, event: TerminalEvent, history: seq<TerminalEvent>, starts: seq<nat>)
    requires Listed(t) && AllFollow(t, history, starts) && !t.exited
    ensures Listed(Emitted(t, event)) && AllFollow(Emitted(t, event), history + [event], starts)
  {
    SentOnce(t.streams, t.subscribers, event);
    RetainedFacts(t.streams, t.subscribers);
    var next := Emitted(t, event);
    forall id | 0 <= id < |t.streams|
      ensures Follows(next.streams[id], history + [event], starts[id])
    {
      assert Follows(t.streams[id], history, starts[id]);
    }
  }

  lemma JoinLists(t: Term, afterSeq: Option<nat>)
    requires Listed(t)
    ensures Listed(Subscribed(t, afterSeq))
  {
    assert |t.streams| !in t.subscribers;
  }

  lemma Backlog(t: Term, after: nat, history: seq<TerminalEvent>, from: nat)
    requires Buffers(t, history, from)
    ensures FirstOwed(|history|, |t.replay|, after) <= |history|
    ensures NewerThan(t.replay, after) == history[FirstOwed(|history|, |t.replay|, after)..]
  {
    NewerIsSuffix(t.replay, from, after);
  }

  lemma JoinFollows(t: Term, afterSeq: Option<nat>, history: seq<TerminalEvent>, from: nat, starts: seq<nat>)
    requires AllFollow(t, history, starts) && Buffers(t, history, from)
    ensures AllFollow(Subscribed(t, afterSeq), history, starts + NewStart(t, |history|, Join(afterSeq)))
  {
    Backlog(t, afterSeq.GetOr(0), history, from);
    var next, more := Subscribed(t, afterSeq), starts + NewStart(t, |history|, Join(afterSeq));
    forall id | 0 <= id < |next.streams| ensures Follows(next.streams[id], history, more[id]) {
      assert id < |t.streams| ==> Follows(t.streams[id], history, starts[id]);
    }
  }

  lemma StepFollows(t: Term, step: Step, history: seq<TerminalEvent>, from: nat, starts: seq<nat>)
    requires Listed(t) && AllFollow(t, history, starts) && Buffers(t, history, from)
    requires Emits(step) ==> !t.exited
    ensures Listed(Next(t, step))
    ensures AllFollow(Next(t, step), history + NewEvents(t, step), starts + NewStart(t, |history|, step))
  {
    assert starts + [] == starts && history + [] == history;
    match step {
      case PutOut(_) => EmitFollows(t.(seq_ := t.seq_ + 1), NewEvents(t, step)[0], history, starts);
      case ShellExits(_) => EmitFollows(t.(seq_ := t.seq_ + 1), NewEvents(t, step)[0], history, starts);
      case Join(afterSeq) =>
        JoinLists(t, afterSeq);
        JoinFollows(t, afterSeq, history, from, starts);
      case Leave(id) =>
        forall k | 0 <= k < |t.streams| ensures Follows(Detached(t, id).streams[k], history, starts[k]) {
          assert Follows(t.streams[k], history, starts[k]);
        }
    }
  }

  lemma {:induction false} RunsUntilExit(steps: seq<Step>)
    requires forall i | 0 <= i < |steps| :: !steps[i].ShellExits?
    ensures !After(steps).exited
  {
    if steps != [] {
      RunsUntilExit(steps[..|steps| - 1]);
      assert !steps[|steps| - 1].ShellExits?;
    }
  }

  /**
   * Over any run in which the exit is the last event, every subscriber has
   * received exactly the events from where it starts, once each, in order,
   * with no gap between replay and live tail, and up to the newest one for as
   * long as it stays attached.
   */
  lemma {:induction false} SubscribersFollow(steps: seq<Step>)
    requires ExitIsLast(steps)
    ensures Listed(After(steps)) && AllFollow(After(steps), History(steps), Starts(steps))
  {
    if steps != [] {
      var front, step := steps[..|steps| - 1], steps[|steps| - 1];
      assert ExitIsLast(front);
      SubscribersFollow(front);
      var from := ReplayIsWindow(front);
      if Emits(step) {
        assert forall i | 0 <= i < |front| :: front[i] == steps[i];
        RunsUntilExit(front);
      }
      StepFollows(After(front), step, History(front), from, Starts(front));
    }
  }

  /**
   * A subscriber with a cursor no further than the current seq starts right
   * after it, or at the oldest event kept; nothing else of the history is lost
   * to it. A cursor ahead of the terminal gets the live tail only.
   */
  lemma JoinStartsWhereOwed(steps: seq<Step>, afterSeq: Option<nat>)
    ensures var t, history := After(steps), History(steps);
            var starts := Starts(steps + [Join(afterSeq)]);
            var after := afterSeq.GetOr(0);
            && |t.replay| <= |history| && t.replay == history[|history| - |t.replay|..]
            && starts != []
            && starts[|starts| - 1] ==
               (if after > t.seq_ then |history|
                else if after > |history| - |t.replay| then after else |history| - |t.replay|)
  {
    var more := steps + [Join(afterSeq)];
    assert more[..|more| - 1] == steps;
    var from := ReplayIsWindow(steps);
  }

  // ── the end of the shell, and the size of the buffer ────────────────────

  predicate HasExited(steps: seq<Step>) {
    exists i | 0 <= i < |steps| :: steps[i].ShellExits?
  }

  /** The exit ends every stream for good: nobody is listed after it, and who joins later is not either. */
  lemma {:induction false} ExitEndsStreams(steps: seq<Step>)
    ensures After(steps).exited <==> HasExited(steps)
    ensures HasExited(steps) ==> After(steps).subscribers == []
  {
    if steps != [] {
      var front, last := steps[..|steps| - 1], steps[|steps| - 1];
      ExitEndsStreams(front);
      assert HasExited(steps) <==> HasExited(front) || last.ShellExits? by {
        assert forall i | 0 <= i < |front| :: front[i] == steps[i];
      }
    }
  }

  /** The output among the events, end to end. */
  function OutputOf(events: seq<TerminalEvent>): string {
    if events == [] then "" else (if events[0].Data? then events[0].data else "") + OutputOf(events[1..])
  }

  function ExitsIn(events: seq<TerminalEvent>): nat {
    if events == [] then 0 else (if events[0].Exit? then 1 else 0) + ExitsIn(events[1..])
  }

  lemma {:induction false} BytesAre(events: seq<TerminalEvent>)
    ensures TotalBytes(events) == |OutputOf(events)| + 16 * ExitsIn(events)
  {
    if events != [] {
      BytesAre(events[1..]);
    }
  }

  /**
   * What is kept for replay is at most a megabyte of output, unless it is one
   * event alone; and one event more of the history would have been too much.
   */
  lemma ReplayFits(steps: seq<Step>)
    ensures var t, history := After(steps), History(steps);
            && |t.replay| <= |history| && t.replay == history[|history| - |t.replay|..]
            && (|t.replay| > 1 ==> |OutputOf(t.replay)| + 16 * ExitsIn(t.replay) <= 1_048_576)
            && (|t.replay| < |history| ==>
                  var more := history[|history| - |t.replay| - 1..];
                  |OutputOf(more)| + 16 * ExitsIn(more) > 1_048_576)
  {
    var from := ReplayIsWindow(steps);
    var t, history := After(steps), History(steps);
    BytesAre(t.replay);
    if from > 0 {
      BytesAre(history[from - 1..]);
    }
  }
}
