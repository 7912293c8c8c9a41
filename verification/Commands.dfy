/** The command ledger: evaluating one pending command, and draining them all. */
module Commands {
  import opened Wrappers
  import opened Sequences

  const COMMAND_DEFAULT_TTL_MS: int := 24 * 60 * 60 * 1000

  datatype Kind = Run | Steer | Interrupt | RespondInput

  datatype CommandStatus = Pending | Applied | Rejected | Expired | Superseded | Cancelled

  /** A command entry; `basedOnTurn` is the turn an interrupt aims at. */
  datatype Command = Command(
    id: string,
    kind: Kind,
    issuedBy: string,
    issuedAt: int,
    basedOnTurn: Option<string>,
    expiresAt: Option<int>,
    status: CommandStatus,
    resolution: Option<string>)
  {
    function EffectiveExpiry(): int {
      expiresAt.GetOr(issuedAt + COMMAND_DEFAULT_TTL_MS)
    }

    predicate CanComposerCancel(device: string) {
      status.Pending? && issuedBy == device
    }
  }

  datatype Disposition = Skip | Expire | Supersede | Execute

  predicate NewerOfKind(entry: Command, other: Command) {
    other.id != entry.id && other.kind == entry.kind && other.status.Pending? && other.issuedAt > entry.issuedAt
  }

  predicate HasNewer(entry: Command, commands: seq<Command>) {
    exists k | 0 <= k < |commands| :: NewerOfKind(entry, commands[k])
  }

  /** The turn has been, and is not the last one. */
  predicate TurnIsOver(turn: string, messages: seq<string>) {
    turn in messages && messages[|messages| - 1] != turn
  }

  function Evaluate(entry: Command, seenProcessed: bool, now: int, commands: seq<Command>, messages: seq<string>):
    Disposition
  {
    if seenProcessed then Skip
    else if now >= entry.EffectiveExpiry() then Expire
    else if (entry.kind.Steer? || entry.kind.Interrupt?) && HasNewer(entry, commands) then Supersede
    else if entry.kind.Interrupt? && entry.basedOnTurn.Some? && TurnIsOver(entry.basedOnTurn.value, messages) then
      Supersede
    else Execute
  }

  // ── one turn of the drain loop ──────────────────────────────────────────

  /** What the loop meets in one turn: clock, transcript, and which calls fail. */
  datatype Reading = Reading(
    readFails: bool,
    findFaults: set<string>,
    evalFault: bool,
    now: int,
    messages: seq<string>,
    markFails: bool,
    outcome: CommandStatus,
    resolution: Option<string>,
    statusFails: bool)

  /** A chat's commands, the durable ledger, and what has been executed so far, in order. */
  datatype Chat = Chat(commands: seq<Command>, processed: set<string>, executed: seq<string>)

  datatype Stop = Drained | ReadFailed | LedgerFailed

  datatype Pass = Pass(chat: Chat, skipped: set<string>, stop: Option<Stop>)

  predicate Eligible(c: Command, skipped: set<string>, seen: set<string>) {
    c.status.Pending? && c.id !in skipped && c.id !in seen
  }

  /** The first eligible command. */
  function Pick(commands: seq<Command>, skipped: set<string>, seen: set<string>): (at: Option<nat>)
    ensures at.Some? ==> at.value < |commands| && Eligible(commands[at.value], skipped, seen) &&
                         forall k | 0 <= k < at.value :: !Eligible(commands[k], skipped, seen)
    ensures at.None? ==> forall k | 0 <= k < |commands| :: !Eligible(commands[k], skipped, seen)
  {
    FindFirst(commands, (c: Command) => Eligible(c, skipped, seen))
  }

  function FirstCalled(commands: seq<Command>, id: string): (at: Option<nat>)
    ensures at.Some? ==> at.value < |commands| && commands[at.value].id == id &&
                         forall k | 0 <= k < at.value :: commands[k].id != id
    ensures at.None? ==> forall k | 0 <= k < |commands| :: commands[k].id != id
  {
    FindFirst(commands, (c: Command) => c.id == id)
  }

  function WithOutcome(c: Command, status: CommandStatus, resolution: Option<string>): Command {
    c.(status := status, resolution := if resolution.Some? then resolution else c.resolution)
  }

  /** Writes an outcome on the first entry called `id`; a resolution is only ever added. */
  function Resolved(commands: seq<Command>, id: string, status: CommandStatus, resolution: Option<string>):
    (r: seq<Command>)
    ensures |r| == |commands|
  {
    match FirstCalled(commands, id)
    case None => commands
    case Some(i) => commands[i := WithOutcome(commands[i], status, resolution)]
  }

  function ResolvedUnlessLost(chat: Chat, r: Reading, id: string, status: CommandStatus, resolution: Option<string>):
    Chat
  {
    if r.statusFails then chat else chat.(commands := Resolved(chat.commands, id, status, resolution))
  }

  /** How the picked command is disposed of; its ledger read may fail a second time. */
  function DispositionAt(chat: Chat, r: Reading, at: nat): Disposition
    requires at < |chat.commands|
  {
    var c := chat.commands[at];
    Evaluate(c, c.id in chat.processed && !r.evalFault, r.now, chat.commands, r.messages)
  }

  /** Marked in the ledger before anything else happens. */
  function Marked(chat: Chat, id: string): Chat {
    chat.(processed := chat.processed + {id})
  }

  /** The command at `at` marked, then skipped, resolved or executed and resolved. */
  function Disposed(chat: Chat, r: Reading, at: nat): Chat
    requires at < |chat.commands|
  {
    var id := chat.commands[at].id;
    var marked := Marked(chat, id);
    match DispositionAt(chat, r, at)
    case Skip => marked
    case Expire => ResolvedUnlessLost(marked, r, id, Expired, None)
    case Supersede => ResolvedUnlessLost(marked, r, id, Superseded, None)
    case Execute =>
      ResolvedUnlessLost(marked.(executed := marked.executed + [id]), r, id, r.outcome, r.resolution)
  }

  function Turn(p: Pass, r: Reading): Pass {
    if p.stop.Some? then p
    else if r.readFails then p.(stop := Some(ReadFailed))
    else match Pick(p.chat.commands, p.skipped, p.chat.processed - r.findFaults)
      case None => p.(stop := Some(Drained))
      case Some(at) =>
        if r.markFails then p.(stop := Some(LedgerFailed))
        else Pass(Disposed(p.chat, r, at),
                  if DispositionAt(p.chat, r, at).Skip? then p.skipped + {p.chat.commands[at].id} else p.skipped,
                  None)
  }

  /** A drain given the readings it will meet; running out of them is the process dying between turns. */
  function Drain(p: Pass, readings: seq<Reading>): Pass {
    if readings == [] then p else Turn(Drain(p, readings[..|readings| - 1]), readings[|readings| - 1])
  }

  lemma {:induction false} StoppedForGood(p: Pass, readings: seq<Reading>, n: nat)
    requires n <= |readings| && Drain(p, readings[..n]).stop.Some?
    ensures Drain(p, readings) == Drain(p, readings[..n])
    decreases |readings|
  {
    if n == |readings| {
      assert readings[..n] == readings;
    } else {
      assert readings[..|readings| - 1][..n] == readings[..n];
      StoppedForGood(p, readings[..|readings| - 1], n);
    }
  }

  class ChatHost {
    var commands: seq<Command>
    var processed: set<string>
    var executed: seq<string>

    constructor (chat: Chat)
      ensures Value() == chat
    {
      commands := chat.commands;
      processed := chat.processed;
      executed := chat.executed;
    }

    function Value(): Chat
      reads this
    {
      Chat(commands, processed, executed)
    }

    method SetCommandStatus(id: string, status: CommandStatus, resolution: Option<string>)
      modifies this`commands
      ensures commands == Resolved(old(commands), id, status, resolution)
    {
      var i := 0;
      while i < |commands| && commands[i].id != id
        invariant i <= |commands| && commands == old(commands)
        invariant forall k | 0 <= k < i :: commands[k].id != id
      {
        i := i + 1;
      }
      if i < |commands| {
        commands := commands[i := WithOutcome(commands[i], status, resolution)];
      }
    }

    /** One turn of the drain: evaluate, mark in the ledger, execute, write the outcome. */
    method TakeTurn(r: Reading, skipped: set<string>) returns (stop: Option<Stop>, skipped': set<string>)
      modifies this
      ensures Pass(Value(), skipped', stop) == Turn(Pass(old(Value()), skipped, None), r)
    {
      skipped' := skipped;
      if r.readFails {
        return Some(ReadFailed), skipped;
      }
      var i := 0;
      while i < |commands| && !Eligible(commands[i], skipped, processed - r.findFaults)
        invariant i <= |commands| && Value() == old(Value())
        invariant forall j | 0 <= j < i :: !Eligible(commands[j], skipped, processed - r.findFaults)
      {
        i := i + 1;
      }
      if i == |commands| {
        return Some(Drained), skipped;
      }
      assert Pick(commands, skipped, processed - r.findFaults) == Some(i);
      var entry := commands[i];
      var disposition := Evaluate(entry, entry.id in processed && !r.evalFault, r.now, commands, r.messages);
      if r.markFails {
        return Some(LedgerFailed), skipped;
      }
      processed := processed + {entry.id};
      stop := None;
      match disposition {
        case Skip => skipped' := skipped + {entry.id};
        case Expire => if !r.statusFails { SetCommandStatus(entry.id, Expired, None); }
        case Supersede => if !r.statusFails { SetCommandStatus(entry.id, Superseded, None); }
        case Execute =>
          executed := executed + [entry.id];
          if !r.statusFails { SetCommandStatus(entry.id, r.outcome, r.resolution); }
      }
    }

    /** Drains pending commands, turn after turn, until nothing is left or a call fails. */
    method DrainCommands(readings: seq<Reading>) returns (stop: Option<Stop>, skipped: set<string>)
      modifies this
      ensures Pass(Value(), skipped, stop) == Drain(Pass(old(Value()), {}, None), readings)
    {
      stop, skipped := None, {};
      var k := 0;
      while k < |readings|
        invariant k <= |readings| && stop.None?
        invariant Drain(Pass(old(Value()), {}, None), readings[..k]) == Pass(Value(), skipped, None)
      {
        assert readings[..k + 1][..k] == readings[..k];
        stop, skipped := TakeTurn(readings[k], skipped);
        k := k + 1;
        if stop.Some? {
          StoppedForGood(Pass(old(Value()), {}, None), readings, k);
          return;
        }
      }
      assert readings[..k] == readings;
    }
  }
}
