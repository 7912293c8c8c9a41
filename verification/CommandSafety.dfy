/** No command runs twice, whatever crashes and whatever is lost. */
module CommandSafety {
  import opened Wrappers
  import opened Sequences
  import opened Commands

  /** What can happen to a chat with one drainer. */
  datatype Step =
    | DrainTurn(r: Reading)
    | Crash(r: Reading, ran: bool)
    | NewPass
    | Arrive(command: Command)
    | Cancel(at: nat, device: string)
    | LoseStatus(at: nat)

  function Fresh(chat: Chat): Pass {
    Pass(chat, {}, None)
  }

  /** The turn dies after the ledger write; the side effect may or may not have happened. */
  function Crashed(p: Pass, r: Reading, ran: bool): Chat {
    if p.stop.Some? || r.readFails then p.chat
    else match Pick(p.chat.commands, p.skipped, p.chat.processed - r.findFaults)
      case None => p.chat
      case Some(at) =>
        if r.markFails then p.chat
        else
          var id := p.chat.commands[at].id;
          if ran && DispositionAt(p.chat, r, at).Execute?
          then Marked(p.chat, id).(executed := p.chat.executed + [id])
          else Marked(p.chat, id)
  }

  function Next(p: Pass, step: Step): Pass {
    match step
    case DrainTurn(r) => Turn(p, r)
    case Crash(r, ran) => Fresh(Crashed(p, r, ran))
    case NewPass => Fresh(p.chat)
    case Arrive(c) => p.(chat := p.chat.(commands := p.chat.commands + [c]))
    case Cancel(at, device) =>
      if at < |p.chat.commands| && p.chat.commands[at].CanComposerCancel(device)
      then p.(chat := p.chat.(commands := p.chat.commands[at := p.chat.commands[at].(status := Cancelled)]))
      else p
    case LoseStatus(at) =>
      if at < |p.chat.commands|
      then p.(chat := p.chat.(commands := p.chat.commands[at := p.chat.commands[at].(status := Pending)]))
      else p
  }

  function After(p: Pass, steps: seq<Step>): Pass {
    if steps == [] then p else Next(After(p, steps[..|steps| - 1]), steps[|steps| - 1])
  }

  /** Everything executed is in the ledger. */
  predicate Ledgered(chat: Chat) {
    forall id | id in chat.executed :: id in chat.processed
  }

  /** Both ledger reads of one turn can fail: the scan's, and the evaluation's. */
  predicate ReadsFailTwice(step: Step) {
    (step.DrainTurn? || step.Crash?) && step.r.findFaults != {} && step.r.evalFault
  }

  predicate Steady(steps: seq<Step>) {
    forall i | 0 <= i < |steps| :: !ReadsFailTwice(steps[i])
  }

  /** How one step can grow the executed commands: by one id, ledgered first. */
  lemma StepExecutes(p: Pass, step: Step)
    requires Ledgered(p.chat)
    ensures Ledgered(Next(p, step).chat)
    ensures Next(p, step).chat.executed == p.chat.executed ||
            exists id :: Next(p, step).chat.executed == p.chat.executed + [id] &&
                         (!ReadsFailTwice(step) ==> id !in p.chat.processed)
  {
    if step.DrainTurn? || step.Crash? {
      var r := step.r;
      var seen := p.chat.processed - r.findFaults;
      if p.stop.None? && !r.readFails && !r.markFails && Pick(p.chat.commands, p.skipped, seen).Some? {
        var at := Pick(p.chat.commands, p.skipped, seen).value;
        PickedStepExecutes(p, step, at);
      }
    }
  }

  lemma PickedStepExecutes(p: Pass, step: Step, at: nat)
    requires Ledgered(p.chat) && (step.DrainTurn? || step.Crash?) && p.stop.None?
    requires !step.r.readFails && !step.r.markFails
    requires Pick(p.chat.commands, p.skipped, p.chat.processed - step.r.findFaults) == Some(at)
    ensures var id := p.chat.commands[at].id;
            && Ledgered(Next(p, step).chat)
            && (Next(p, step).chat.executed == p.chat.executed ||
                (Next(p, step).chat.executed == p.chat.executed + [id] &&
                 (!ReadsFailTwice(step) ==> id !in p.chat.processed)))
  {
    var id := p.chat.commands[at].id;
    assert DispositionAt(p.chat, step.r, at).Execute? ==> id !in p.chat.processed || step.r.evalFault;
    assert id !in p.chat.processed || id in step.r.findFaults;
  }

  /**
   * Over any run of drains, crashes, arrivals, cancellations and lost
   * statuses every executed id is in the ledger; and no id is executed twice
   * unless both ledger reads of one turn failed.
   */
  lemma {:induction false} AtMostOnce(p: Pass, steps: seq<Step>)
    requires Ledgered(p.chat) && Unique(p.chat.executed)
    ensures Ledgered(After(p, steps).chat)
    ensures Steady(steps) ==> Unique(After(p, steps).chat.executed)
  {
    if steps != [] {
      var front, step := steps[..|steps| - 1], steps[|steps| - 1];
      AtMostOnce(p, front);
      var q := After(p, front);
      StepExecutes(q, step);
      if Steady(steps) {
        assert Steady(front) && !ReadsFailTwice(step);
        var before, now := q.chat.executed, Next(q, step).chat.executed;
        if now != before {
          var id :| now == before + [id] && id !in q.chat.processed;
          assert id !in before;
        }
      }
    }
  }

  /** The command a drain's turn picks, if it gets that far. */
  function PickedBy(p: Pass, r: Reading): (at: Option<nat>)
    ensures at.Some? ==> at.value < |p.chat.commands|
  {
    if p.stop.Some? || r.readFails || r.markFails then None
    else Pick(p.chat.commands, p.skipped, p.chat.processed - r.findFaults)
  }

  /**
   * A turn that lives to run what it picked, an id that ran before: the scan's
   * read of that id failed, the evaluation's read failed too, and the command
   * would be due if it were new.
   */
  predicate Reruns(p: Pass, step: Step) {
    && (step.DrainTurn? || (step.Crash? && step.ran))
    && var at := PickedBy(p, step.r);
       && at.Some?
       && var c := p.chat.commands[at.value];
          && c.id in p.chat.executed && c.id in step.r.findFaults && step.r.evalFault
          && Evaluate(c, false, step.r.now, p.chat.commands, step.r.messages).Execute?
  }

  /** A step runs an id that ran before exactly then; else it runs a new one or none. */
  lemma RerunsExactly(p: Pass, step: Step)
    requires Ledgered(p.chat)
    ensures var was, now := p.chat.executed, Next(p, step).chat.executed;
            && (now == was || exists id :: now == was + [id] && (id in was <==> Reruns(p, step)))
            && (Reruns(p, step) ==> now != was)
  {
    if step.DrainTurn? || step.Crash? {
      var at := PickedBy(p, step.r);
      if at.Some? {
        var c := p.chat.commands[at.value];
        assert c.id in p.chat.executed ==> c.id in step.r.findFaults;
        if step.DrainTurn? || step.ran {
          assert DispositionAt(p.chat, step.r, at.value).Execute? ==>
            Next(p, step).chat.executed == p.chat.executed + [c.id];
        }
      }
    }
  }

  ghost predicate NoReruns(p: Pass, steps: seq<Step>)
    decreases |steps|
  {
    steps != [] ==>
      var front := steps[..|steps| - 1];
      NoReruns(p, front) && !Reruns(After(p, front), steps[|steps| - 1])
  }

  lemma UniqueSnoc(s: seq<string>, x: string)
    ensures Unique(s + [x]) <==> Unique(s) && x !in s
  {
    var t := s + [x];
    assert t[|s|] == x;
    if Unique(t) {
      forall i, j | 0 <= i < j < |s| ensures s[i] != s[j] {
        assert t[i] == s[i] && t[j] == s[j];
      }
      forall i | 0 <= i < |s| ensures s[i] != x {
        assert t[i] == s[i];
      }
    }
  }

  /** Over any run no command runs twice if and only if no step is such a rerun. */
  lemma {:induction false} OnceExactly(p: Pass, steps: seq<Step>)
    requires Ledgered(p.chat) && Unique(p.chat.executed)
    ensures Ledgered(After(p, steps).chat)
    ensures Unique(After(p, steps).chat.executed) <==> NoReruns(p, steps)
  {
    if steps != [] {
      var front, step := steps[..|steps| - 1], steps[|steps| - 1];
      OnceExactly(p, front);
      var q := After(p, front);
      StepExecutes(q, step);
      RerunsExactly(q, step);
      var was, now := q.chat.executed, Next(q, step).chat.executed;
      if now != was {
        var id :| now == was + [id] && (id in was <==> Reruns(q, step));
        UniqueSnoc(was, id);
      }
    }
  }

  /**
   * While a ledger's reads and the status writes fail, every turn runs the
   * same command again and none ends the drain.
   */
  lemma {:induction false} FailedReadsRunEveryTurn(id: string, issued: int, n: nat)
    ensures var c := Command(id, Run, "dev", issued, None, None, Pending, None);
            var blind := Reading(false, {id}, true, issued, [], false, Applied, None, true);
            After(Fresh(Chat([c], {}, [])), seq(n, _ => DrainTurn(blind))) ==
            Fresh(Chat([c], if n == 0 then {} else {id}, seq(n, _ => id)))
  {
    var c := Command(id, Run, "dev", issued, None, None, Pending, None);
    var blind := Reading(false, {id}, true, issued, [], false, Applied, None, true);
    if n > 0 {
      FailedReadsRunEveryTurn(id, issued, n - 1);
      var steps := seq(n, _ => DrainTurn(blind));
      assert steps[..n - 1] == seq(n - 1, _ => DrainTurn(blind));
      OneTurn(c, if n == 1 then {} else {id}, seq(n - 1, _ => id), blind);
      assert seq(n - 1, _ => id) + [id] == seq(n, _ => id);
    }
  }

  lemma OneTurn(c: Command, processed: set<string>, executed: seq<string>, r: Reading)
    requires c.kind.Run? && c.status.Pending? && c.expiresAt.None? && r.now == c.issuedAt
    requires !r.readFails && !r.markFails && r.statusFails
    requires c.id in processed ==> c.id in r.findFaults && r.evalFault
    ensures Turn(Fresh(Chat([c], processed, executed)), r) ==
            Fresh(Chat([c], processed + {c.id}, executed + [c.id]))
  {
    assert Pick([c], {}, processed - r.findFaults) == Some(0);
  }

  /** A cancellation touches one command at most: one still pending, and issued by the device that cancels. */
  lemma CancelExactly(p: Pass, at: nat, device: string, k: nat)
    requires k < |p.chat.commands|
    ensures var after, c := Next(p, Cancel(at, device)).chat, p.chat.commands[k];
            && |after.commands| == |p.chat.commands| && after.processed == p.chat.processed
            && after.executed == p.chat.executed
            && after.commands[k] ==
               if k == at && c.status == Pending && c.issuedBy == device then c.(status := Cancelled) else c
  {
  }

  // ── a drain whose scans fail ────────────────────────────────────────────

  function IdsOf(commands: seq<Command>): set<string> {
    set k | 0 <= k < |commands| :: commands[k].id
  }

  /** What is left to look at: ids not skipped, and ids not in the ledger. */
  function Unseen(p: Pass): nat {
    var ids := IdsOf(p.chat.commands);
    |ids - p.skipped| + |ids - p.chat.processed|
  }

  /** Only the scan's ledger reads may fail. */
  predicate OnlyScansFail(r: Reading) {
    !r.readFails && !r.evalFault && !r.markFails
  }

  lemma TakenOff(ids: set<string>, seen: set<string>, id: string)
    requires id in ids && id !in seen
    ensures |ids - (seen + {id})| == |ids - seen| - 1
  {
    assert ids - (seen + {id}) == (ids - seen) - {id};
  }

  lemma DisposedIds(chat: Chat, r: Reading, at: nat)
    requires at < |chat.commands|
    ensures IdsOf(Disposed(chat, r, at).commands) == IdsOf(chat.commands)
    ensures Disposed(chat, r, at).processed == chat.processed + {chat.commands[at].id}
  {
    var after := Disposed(chat, r, at).commands;
    assert |after| == |chat.commands| && forall k | 0 <= k < |after| :: after[k].id == chat.commands[k].id;
    forall id | id in IdsOf(chat.commands) ensures id in IdsOf(after) {
      var k :| 0 <= k < |chat.commands| && chat.commands[k].id == id;
      assert after[k].id == id;
    }
  }

  /** What a turn does to the two: a skipped id was in the ledger, any other goes into it. */
  lemma TurnTakes(p: Pass, r: Reading) returns (id: string)
    requires p.stop.None? && OnlyScansFail(r) && Turn(p, r).stop.None?
    ensures id in IdsOf(p.chat.commands) && IdsOf(Turn(p, r).chat.commands) == IdsOf(p.chat.commands)
    ensures if id in p.chat.processed
            then id !in p.skipped && Turn(p, r).skipped == p.skipped + {id} &&
                 Turn(p, r).chat.processed == p.chat.processed
            else Turn(p, r).skipped == p.skipped && Turn(p, r).chat.processed == p.chat.processed + {id}
  {
    var at := Pick(p.chat.commands, p.skipped, p.chat.processed - r.findFaults).value;
    id := p.chat.commands[at].id;
    DisposedIds(p.chat, r, at);
    assert id in p.chat.processed ==> p.chat.processed + {id} == p.chat.processed;
  }

  lemma TurnLooksAtMore(p: Pass, r: Reading)
    requires p.stop.None? && OnlyScansFail(r) && Turn(p, r).stop.None?
    ensures Unseen(Turn(p, r)) < Unseen(p)
  {
    var id := TurnTakes(p, r);
    TakenOff(IdsOf(p.chat.commands), if id in p.chat.processed then p.skipped else p.chat.processed, id);
  }

  lemma {:induction false} DrainLooksAtMore(p: Pass, readings: seq<Reading>)
    requires forall k | 0 <= k < |readings| :: OnlyScansFail(readings[k])
    requires Drain(p, readings).stop.None?
    ensures Unseen(Drain(p, readings)) + |readings| <= Unseen(p)
  {
    if readings != [] {
      var front := readings[..|readings| - 1];
      assert forall k | 0 <= k < |front| :: front[k] == readings[k];
      DrainLooksAtMore(p, front);
      TurnLooksAtMore(Drain(p, front), readings[|readings| - 1]);
    }
  }

  /**
   * Failing scans do not keep a drain going: whatever reads of the scan fail,
   * it ends within two turns an id and one more, as what a turn skips is
   * skipped for the rest of the pass.
   */
  lemma ScanFaultsEnd(chat: Chat, readings: seq<Reading>)
    requires forall k | 0 <= k < |readings| :: OnlyScansFail(readings[k])
    requires |readings| > 2 * |IdsOf(chat.commands)|
    ensures Drain(Fresh(chat), readings).stop.Some?
  {
    var ids := IdsOf(chat.commands);
    if Drain(Fresh(chat), readings).stop.None? {
      DrainLooksAtMore(Fresh(chat), readings);
      FewerLeft(ids, chat.processed);
      FewerLeft(ids, {});
    }
  }

  lemma {:induction false} FewerLeft(ids: set<string>, seen: set<string>)
    ensures |ids - seen| <= |ids|
  {
    if ids != {} {
      var id :| id in ids;
      FewerLeft(ids - {id}, seen);
      if id in seen {
        assert ids - seen == (ids - {id}) - seen;
      } else {
        assert ids - seen == ((ids - {id}) - seen) + {id};
      }
    }
  }
}
