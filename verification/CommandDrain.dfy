/** A drain left to itself: it ends, empties the queue in document order, and runs only the newest steer. */
module CommandDrain {
  import opened Wrappers
  import opened Sequences
  import opened Commands

  /** Nothing fails in this turn but, perhaps, the status write. */
  predicate Faithful(r: Reading) {
    !r.readFails && r.findFaults == {} && !r.evalFault && !r.markFails
  }

  predicate AllFaithful(readings: seq<Reading>) {
    forall i | 0 <= i < |readings| :: Faithful(readings[i])
  }

  function Start(chat: Chat): Pass {
    Pass(chat, {}, None)
  }

  /** The measure: ids pending in the document and not in the ledger. */
  function Waiting(chat: Chat): set<string> {
    set k | 0 <= k < |chat.commands| && Eligible(chat.commands[k], {}, chat.processed) :: chat.commands[k].id
  }

  lemma {:induction false} DrainFront(p: Pass, readings: seq<Reading>)
    requires readings != []
    ensures Drain(p, readings) == Drain(Turn(p, readings[0]), readings[1..])
  {
    var n := |readings| - 1;
    if n == 0 {
      assert readings[..0] == [] && readings[1..] == [];
    } else {
      assert readings[1..][..n - 1] == readings[..n][1..];
      DrainFront(p, readings[..n]);
    }
  }

  // ── one turn ────────────────────────────────────────────────────────────

  /** Same entries but for status and resolution. */
  predicate SameEntries(a: seq<Command>, b: seq<Command>) {
    |a| == |b| && forall k | 0 <= k < |a| :: b[k] == a[k].(status := b[k].status, resolution := b[k].resolution)
  }

  /** What disposing of the command at `at` leaves: only the first entry of its id is touched. */
  lemma DisposedFacts(chat: Chat, r: Reading, at: nat)
    requires at < |chat.commands|
    ensures var next, id := Disposed(chat, r, at), chat.commands[at].id;
            && SameEntries(chat.commands, next.commands)
            && next.processed == chat.processed + {id}
            && (forall k | 0 <= k < |chat.commands| && FirstCalled(chat.commands, id) != Some(k) ::
                  next.commands[k] == chat.commands[k])
            && next.executed ==
               chat.executed + (if DispositionAt(chat, r, at).Execute? then [id] else [])
  {
    assert chat.executed + [] == chat.executed;
  }

  lemma FaithfulTurn(chat: Chat, r: Reading)
    requires Faithful(r)
    ensures match Pick(chat.commands, {}, chat.processed)
            case None => Turn(Start(chat), r) == Start(chat).(stop := Some(Drained))
            case Some(at) => Turn(Start(chat), r) == Start(Disposed(chat, r, at))
  {
    assert chat.processed - r.findFaults == chat.processed;
  }

  lemma TurnShrinks(chat: Chat, r: Reading, at: nat)
    requires Pick(chat.commands, {}, chat.processed) == Some(at)
    ensures Waiting(Disposed(chat, r, at)) == Waiting(chat) - {chat.commands[at].id}
    ensures chat.commands[at].id in Waiting(chat)
  {
    DisposedFacts(chat, r, at);
    var next, id := Disposed(chat, r, at), chat.commands[at].id;
    forall k | 0 <= k < |chat.commands|
      ensures Eligible(next.commands[k], {}, next.processed) <==>
              Eligible(chat.commands[k], {}, chat.processed) && chat.commands[k].id != id
      ensures next.commands[k].id == chat.commands[k].id
    {
    }
  }

  lemma WaitingIsEmpty(chat: Chat)
    ensures Pick(chat.commands, {}, chat.processed).None? <==> Waiting(chat) == {}
  {
    match Pick(chat.commands, {}, chat.processed) {
      case None =>
      case Some(at) => assert chat.commands[at].id in Waiting(chat);
    }
  }

  // ── termination ─────────────────────────────────────────────────────────

  /** With nothing eligible the first turn ends the drain. */
  lemma NothingLeft(chat: Chat, readings: seq<Reading>)
    requires AllFaithful(readings) && readings != [] && Pick(chat.commands, {}, chat.processed).None?
    ensures Drain(Start(chat), readings) == Start(chat).(stop := Some(Drained))
  {
    assert readings[..1] == [readings[0]] && [readings[0]][..0] == [];
    assert Drain(Start(chat), readings[..1]) == Turn(Start(chat), readings[0]);
    FaithfulTurn(chat, readings[0]);
    StoppedForGood(Start(chat), readings, 1);
  }

  lemma TakeOut<T>(done: set<T>, waiting: set<T>, id: T)
    requires id in waiting
    ensures (done + {id}) + (waiting - {id}) == done + waiting
    ensures |waiting - {id}| == |waiting| - 1
  {
  }

  /** One faithful turn of a drain that has something to do. */
  lemma DrainStep(chat: Chat, readings: seq<Reading>, at: nat) returns (next: Chat)
    requires AllFaithful(readings) && readings != [] && Pick(chat.commands, {}, chat.processed) == Some(at)
    ensures next == Disposed(chat, readings[0], at)
    ensures Drain(Start(chat), readings) == Drain(Start(next), readings[1..])
    ensures AllFaithful(readings[1..])
  {
    next := Disposed(chat, readings[0], at);
    DrainFront(Start(chat), readings);
    FaithfulTurn(chat, readings[0]);
  }

  /** A drain that meets no failing read ends within one turn more than there are waiting ids, with none left. */
  lemma {:induction false} DrainEmpties(chat: Chat, readings: seq<Reading>)
    requires AllFaithful(readings) && |readings| > |Waiting(chat)|
    ensures var end := Drain(Start(chat), readings);
            && end.stop == Some(Drained) && Waiting(end.chat) == {}
            && end.chat.processed == chat.processed + Waiting(chat)
    decreases |readings|
  {
    WaitingIsEmpty(chat);
    match Pick(chat.commands, {}, chat.processed) {
      case None => NothingLeft(chat, readings);
      case Some(at) =>
        var id := chat.commands[at].id;
        var next := DrainStep(chat, readings, at);
        TurnShrinks(chat, readings[0], at);
        TakeOut(chat.processed, Waiting(chat), id);
        DrainEmpties(next, readings[1..]);
        assert next.processed == chat.processed + {id} by {
          DisposedFacts(chat, readings[0], at);
        }
    }
  }

  // ── the find-first loop is one sweep in document order ──────────────────

  /** One left-to-right pass over the commands: the final chat, and the places of the commands that ran. */
  datatype Swept = Swept(chat: Chat, ran: seq<nat>)

  function Sweep(chat: Chat, i: nat, readings: seq<Reading>): (s: Swept)
    requires i <= |chat.commands|
    ensures |s.chat.commands| == |chat.commands|
    decreases |chat.commands| - i
  {
    if i == |chat.commands| then Swept(chat, [])
    else if !Eligible(chat.commands[i], {}, chat.processed) then Sweep(chat, i + 1, readings)
    else if readings == [] then Swept(chat, [])
    else
      var rest := Sweep(Disposed(chat, readings[0], i), i + 1, readings[1..]);
      if DispositionAt(chat, readings[0], i).Execute? then rest.(ran := [i] + rest.ran) else rest
  }

  /** Nothing is eligible up to a place once the command there has been disposed of. */
  lemma NoneUpto(chat: Chat, r: Reading, i: nat)
    requires i < |chat.commands| && forall k | 0 <= k < i :: !Eligible(chat.commands[k], {}, chat.processed)
    ensures var next := Disposed(chat, r, i);
            |next.commands| == |chat.commands| &&
            forall k | 0 <= k < i + 1 :: !Eligible(next.commands[k], {}, next.processed)
  {
    DisposedFacts(chat, r, i);
  }

  /** Re-reading the list and taking the first eligible command every turn is that sweep. */
  lemma {:induction false} DrainIsSweep(chat: Chat, i: nat, readings: seq<Reading>)
    requires AllFaithful(readings) && i <= |chat.commands|
    requires forall k | 0 <= k < i :: !Eligible(chat.commands[k], {}, chat.processed)
    ensures Drain(Start(chat), readings).chat == Sweep(chat, i, readings).chat
    decreases |chat.commands| - i
  {
    if i == |chat.commands| {
      if readings != [] {
        NothingLeft(chat, readings);
      }
    } else if !Eligible(chat.commands[i], {}, chat.processed) {
      DrainIsSweep(chat, i + 1, readings);
    } else if readings != [] {
      var next := DrainStep(chat, readings, i);
      NoneUpto(chat, readings[0], i);
      DrainIsSweep(next, i + 1, readings[1..]);
    }
  }

  /** Two pending steers, or two pending interrupts, of which the later in the list was issued later. */
  predicate Outranked(commands: seq<Command>, a: nat, b: nat) {
    && a < b < |commands| && commands[a].status.Pending? && commands[b].status.Pending?
    && (commands[a].kind.Steer? || commands[a].kind.Interrupt?) && commands[b].kind == commands[a].kind
    && commands[a].id != commands[b].id && commands[a].issuedAt < commands[b].issuedAt
  }

  lemma OutrankedIsNotRun(chat: Chat, r: Reading, a: nat, b: nat)
    requires Outranked(chat.commands, a, b) && Eligible(chat.commands[a], {}, chat.processed)
    ensures DispositionAt(chat, r, a).Expire? || DispositionAt(chat, r, a).Supersede?
  {
    assert NewerOfKind(chat.commands[a], chat.commands[b]);
  }

  lemma OutrankedIsResolved(chat: Chat, r: Reading, a: nat, b: nat)
    requires Outranked(chat.commands, a, b) && Eligible(chat.commands[a], {}, chat.processed)
    requires !r.statusFails && FirstCalled(chat.commands, chat.commands[a].id) == Some(a)
    ensures var c := Disposed(chat, r, a).commands[a]; c.status.Expired? || c.status.Superseded?
  {
    OutrankedIsNotRun(chat, r, a, b);
  }

  /** One step of the sweep, and what it leaves of the chat. */
  lemma SweepStep(chat: Chat, i: nat, readings: seq<Reading>) returns (next: Chat, runs: bool)
    requires i < |chat.commands| && Eligible(chat.commands[i], {}, chat.processed) && readings != []
    ensures |next.commands| == |chat.commands|
    ensures var rest := Sweep(next, i + 1, readings[1..]);
            Sweep(chat, i, readings) == if runs then Swept(rest.chat, [i] + rest.ran) else rest
    ensures SameEntries(chat.commands, next.commands)
    ensures next.processed == chat.processed + {chat.commands[i].id}
    ensures next.executed == if runs then chat.executed + [chat.commands[i].id] else chat.executed
    ensures forall k | 0 <= k < |chat.commands| && FirstCalled(chat.commands, chat.commands[i].id) != Some(k) ::
              next.commands[k] == chat.commands[k]
    ensures (exists b :: Outranked(chat.commands, i, b)) ==> !runs
  {
    next := Disposed(chat, readings[0], i);
    runs := DispositionAt(chat, readings[0], i).Execute?;
    DisposedFacts(chat, readings[0], i);
    assert chat.executed + [] == chat.executed;
    if b :| Outranked(chat.commands, i, b) {
      OutrankedIsNotRun(chat, readings[0], i, b);
    }
  }

  predicate Increasing(places: seq<nat>, from: nat) {
    (forall a | 0 <= a < |places| :: from <= places[a]) && forall a, b | 0 <= a < b < |places| :: places[a] < places[b]
  }

  function IdsAt(commands: seq<Command>, places: seq<nat>): seq<string>
    requires forall a | 0 <= a < |places| :: places[a] < |commands|
  {
    seq(|places|, a requires 0 <= a < |places| => commands[places[a]].id)
  }

  predicate PlacesIn(commands: seq<Command>, places: seq<nat>) {
    forall a | 0 <= a < |places| :: places[a] < |commands|
  }

  lemma SameIds(a: seq<Command>, b: seq<Command>, places: seq<nat>)
    requires SameEntries(a, b) && PlacesIn(a, places)
    ensures IdsAt(a, places) == IdsAt(b, places)
  {
  }

  lemma OneMorePlace(commands: seq<Command>, i: nat, places: seq<nat>)
    requires i < |commands| && PlacesIn(commands, places) && Increasing(places, i + 1)
    ensures PlacesIn(commands, [i] + places) && Increasing([i] + places, i)
    ensures IdsAt(commands, [i] + places) == [commands[i].id] + IdsAt(commands, places)
  {
  }

  /** What runs in a sweep runs in document order. */
  lemma {:induction false} SweepRunsInOrder(chat: Chat, i: nat, readings: seq<Reading>)
    requires i <= |chat.commands|
    ensures var s := Sweep(chat, i, readings);
            && Increasing(s.ran, i) && PlacesIn(chat.commands, s.ran)
            && s.chat.executed == chat.executed + IdsAt(chat.commands, s.ran)
    decreases |chat.commands| - i
  {
    if i == |chat.commands| {
      assert IdsAt(chat.commands, []) == [];
    } else if !Eligible(chat.commands[i], {}, chat.processed) {
      SweepRunsInOrder(chat, i + 1, readings);
    } else if readings == [] {
      assert IdsAt(chat.commands, []) == [];
    } else {
      var next, runs := SweepStep(chat, i, readings);
      SweepRunsInOrder(next, i + 1, readings[1..]);
      var rest := Sweep(next, i + 1, readings[1..]).ran;
      SameIds(chat.commands, next.commands, rest);
      OneMorePlace(chat.commands, i, rest);
      Regroup(chat.executed, chat.commands[i].id, IdsAt(chat.commands, rest));
    }
  }

  // ── which commands get a turn, and what each turn sees ──────────────────

  /** The places of the commands that are due: from each on, the first eligible of its id. */
  function Due(commands: seq<Command>, processed: set<string>, i: nat): seq<nat>
    requires i <= |commands|
    decreases |commands| - i
  {
    if i == |commands| then []
    else if Eligible(commands[i], {}, processed) then [i] + Due(commands, processed + {commands[i].id}, i + 1)
    else Due(commands, processed, i + 1)
  }

  /** Due are exactly the pending commands not in the ledger, an id's first one only. */
  lemma {:induction false} DueExactly(commands: seq<Command>, processed: set<string>, i: nat, p: nat)
    requires i <= |commands|
    ensures p in Due(commands, processed, i) <==>
            && i <= p < |commands| && Eligible(commands[p], {}, processed)
            && forall k | i <= k < p :: !(Eligible(commands[k], {}, processed) && commands[k].id == commands[p].id)
    decreases |commands| - i
  {
    if i < |commands| {
      var next := if Eligible(commands[i], {}, processed) then processed + {commands[i].id} else processed;
      DueExactly(commands, next, i + 1, p);
    }
  }

  lemma {:induction false} DuePlaces(commands: seq<Command>, processed: set<string>, i: nat)
    requires i <= |commands|
    ensures var due := Due(commands, processed, i);
            |due| <= |commands| - i && PlacesIn(commands, due)
    decreases |commands| - i
  {
    if i < |commands| {
      var next := if Eligible(commands[i], {}, processed) then processed + {commands[i].id} else processed;
      DuePlaces(commands, next, i + 1);
    }
  }

  predicate SameFrom(a: seq<Command>, b: seq<Command>, i: nat) {
    |a| == |b| && forall k | i <= k < |a| :: a[k] == b[k]
  }

  lemma {:induction false} DueSame(a: seq<Command>, b: seq<Command>, processed: set<string>, i: nat)
    requires i <= |a| && SameFrom(a, b, i)
    ensures Due(a, processed, i) == Due(b, processed, i)
    decreases |a| - i
  {
    if i < |a| {
      DueSame(a, b, if Eligible(a[i], {}, processed) then processed + {a[i].id} else processed, i + 1);
    }
  }

  /** One turn of the sweep: its place, the chat it found and what it read. */
  datatype TurnTaken = TurnTaken(place: nat, before: Chat, reading: Reading)

  function Turns(chat: Chat, i: nat, readings: seq<Reading>): seq<TurnTaken>
    requires i <= |chat.commands|
    decreases |chat.commands| - i
  {
    if i == |chat.commands| then []
    else if !Eligible(chat.commands[i], {}, chat.processed) then Turns(chat, i + 1, readings)
    else if readings == [] then []
    else [TurnTaken(i, chat, readings[0])] + Turns(Disposed(chat, readings[0], i), i + 1, readings[1..])
  }

  /** Disposing of an entry leaves everything behind it as it was. */
  lemma DisposedSameFrom(chat: Chat, r: Reading, i: nat)
    requires i < |chat.commands|
    ensures SameFrom(chat.commands, Disposed(chat, r, i).commands, i + 1)
    ensures SameEntries(chat.commands, Disposed(chat, r, i).commands)
    ensures Disposed(chat, r, i).processed == chat.processed + {chat.commands[i].id}
  {
    DisposedFacts(chat, r, i);
  }

  lemma {:induction false} TurnsAreDue(chat: Chat, i: nat, readings: seq<Reading>)
    requires i <= |chat.commands| && |readings| >= |chat.commands| - i
    ensures var turns, due := Turns(chat, i, readings), Due(chat.commands, chat.processed, i);
            |turns| == |due| && forall n | 0 <= n < |due| :: turns[n].place == due[n]
    decreases |chat.commands| - i
  {
    if i < |chat.commands| {
      if !Eligible(chat.commands[i], {}, chat.processed) {
        TurnsAreDue(chat, i + 1, readings);
      } else {
        var next := Disposed(chat, readings[0], i);
        DisposedSameFrom(chat, readings[0], i);
        DueSame(chat.commands, next.commands, next.processed, i + 1);
        TurnsAreDue(next, i + 1, readings[1..]);
      }
    }
  }

  /** The `n`-th turn took the `n`-th reading, and found everything from its place on as the sweep did. */
  predicate TurnFound(chat: Chat, t: TurnTaken) {
    && t.place < |chat.commands|
    && SameEntries(chat.commands, t.before.commands) && SameFrom(chat.commands, t.before.commands, t.place)
    && Eligible(t.before.commands[t.place], {}, t.before.processed)
  }

  lemma TurnFoundBefore(chat: Chat, r: Reading, i: nat, t: TurnTaken)
    requires i < |chat.commands| && TurnFound(Disposed(chat, r, i), t) && t.place > i
    ensures TurnFound(chat, t)
  {
    DisposedSameFrom(chat, r, i);
  }

  lemma {:induction false} TurnAt(chat: Chat, i: nat, readings: seq<Reading>, n: nat)
    requires i <= |chat.commands| && n < |Turns(chat, i, readings)|
    ensures var t := Turns(chat, i, readings)[n];
            && n < |readings| && t.reading == readings[n] && t.place >= i && TurnFound(chat, t)
            && (t.place in Sweep(chat, i, readings).ran <==> DispositionAt(t.before, t.reading, t.place).Execute?)
    decreases |chat.commands| - i
  {
    if !Eligible(chat.commands[i], {}, chat.processed) {
      TurnAt(chat, i + 1, readings, n);
    } else {
      var next := Disposed(chat, readings[0], i);
      SweepRunsInOrder(next, i + 1, readings[1..]);
      if n > 0 {
        TurnAt(next, i + 1, readings[1..], n - 1);
        TurnFoundBefore(chat, readings[0], i, Turns(next, i + 1, readings[1..])[n - 1]);
      }
    }
  }

  lemma {:induction false} RanHadTurn(chat: Chat, i: nat, readings: seq<Reading>, p: nat) returns (n: nat)
    requires i <= |chat.commands| && p in Sweep(chat, i, readings).ran
    ensures n < |Turns(chat, i, readings)| && Turns(chat, i, readings)[n].place == p
    decreases |chat.commands| - i
  {
    if !Eligible(chat.commands[i], {}, chat.processed) {
      n := RanHadTurn(chat, i + 1, readings, p);
    } else if p == i {
      n := 0;
    } else {
      var next := Disposed(chat, readings[0], i);
      n := RanHadTurn(next, i + 1, readings[1..], p);
      n := n + 1;
    }
  }

  // ── steers and interrupts ───────────────────────────────────────────────

  /** A sweep that has passed a command's place never touches its outcome again. */
  lemma {:induction false} SweepKeepsOutcomes(chat: Chat, i: nat, readings: seq<Reading>, at: nat)
    requires i <= |chat.commands| && at < |chat.commands| && chat.commands[at].id in chat.processed
    ensures Sweep(chat, i, readings).chat.commands[at] == chat.commands[at]
    decreases |chat.commands| - i
  {
    if i < |chat.commands| {
      if !Eligible(chat.commands[i], {}, chat.processed) {
        SweepKeepsOutcomes(chat, i + 1, readings, at);
      } else if readings != [] {
        var next, _ := SweepStep(chat, i, readings);
        SweepKeepsOutcomes(next, i + 1, readings[1..], at);
      }
    }
  }

  /** An outranked steer or interrupt does not run. */
  lemma {:induction false} SweepSkipsOutranked(chat: Chat, i: nat, readings: seq<Reading>, a: nat, b: nat)
    requires i <= |chat.commands| && Outranked(chat.commands, a, b)
    ensures a !in Sweep(chat, i, readings).ran
    decreases |chat.commands| - i
  {
    SweepRunsInOrder(chat, i, readings);
    if i <= a {
      if !Eligible(chat.commands[i], {}, chat.processed) {
        SweepSkipsOutranked(chat, i + 1, readings, a, b);
      } else if readings != [] {
        var next, runs := SweepStep(chat, i, readings);
        if i < a {
          assert Outranked(next.commands, a, b);
          SweepSkipsOutranked(next, i + 1, readings[1..], a, b);
        } else {
          SweepRunsInOrder(next, i + 1, readings[1..]);
        }
      }
    }
  }

  /** It ends expired or superseded, if its outcome can be written. */
  lemma {:induction false} SweepResolvesOutranked(chat: Chat, i: nat, readings: seq<Reading>, a: nat, b: nat)
    requires i <= a && Outranked(chat.commands, a, b) && chat.commands[a].id !in chat.processed
    requires FirstCalled(chat.commands, chat.commands[a].id) == Some(a)
    requires |readings| > |chat.commands| - i && forall k | 0 <= k < |readings| :: !readings[k].statusFails
    ensures Sweep(chat, i, readings).chat.commands[a].status.Expired? ||
            Sweep(chat, i, readings).chat.commands[a].status.Superseded?
    decreases |chat.commands| - i
  {
    if !Eligible(chat.commands[i], {}, chat.processed) {
      SweepResolvesOutranked(chat, i + 1, readings, a, b);
    } else {
      var next := Disposed(chat, readings[0], i);
      DisposedSameFrom(chat, readings[0], i);
      assert Sweep(chat, i, readings).chat == Sweep(next, i + 1, readings[1..]).chat;
      if i < a {
        assert chat.commands[i].id != chat.commands[a].id;
        SameFirst(chat.commands, next.commands, chat.commands[a].id);
        SweepResolvesOutranked(next, i + 1, readings[1..], a, b);
      } else {
        OutrankedIsResolved(chat, readings[0], a, b);
        SweepKeepsOutcomes(next, i + 1, readings[1..], a);
      }
    }
  }

  lemma SameFirst(a: seq<Command>, b: seq<Command>, id: string)
    requires SameEntries(a, b)
    ensures FirstCalled(a, id) == FirstCalled(b, id)
  {
    assert forall k | 0 <= k < |a| :: a[k].id == b[k].id;
  }

  // ── the whole drain ─────────────────────────────────────────────────────

  /** The pending steers, or interrupts, carry distinct ids and stand in the order they were issued. */
  predicate IssuedInOrder(commands: seq<Command>, kind: Kind) {
    forall a, b | 0 <= a < b < |commands| && commands[a].status.Pending? && commands[b].status.Pending? &&
                  commands[a].kind == kind && commands[b].kind == kind ::
      commands[a].id != commands[b].id && commands[a].issuedAt < commands[b].issuedAt
  }

  /** No status write puts a command back to pending. */
  predicate OutcomesFinal(readings: seq<Reading>) {
    forall n | 0 <= n < |readings| :: !readings[n].outcome.Pending?
  }

  /** The `m`-th turn writes the outcome of the command at `k`: the first entry of the id it takes. */
  predicate Resolves(commands: seq<Command>, due: seq<nat>, readings: seq<Reading>, m: nat, k: nat)
    requires PlacesIn(commands, due)
  {
    m < |due| && m < |readings| && FirstCalled(commands, commands[due[m]].id) == Some(k) && !readings[m].statusFails
  }

  /** The command at `k`, pending when the drain began, is still pending at the `n`-th turn. */
  predicate PendingAt(commands: seq<Command>, due: seq<nat>, readings: seq<Reading>, n: nat, k: nat)
    requires PlacesIn(commands, due) && k < |commands|
  {
    commands[k].status.Pending? && forall m | 0 <= m < n :: !Resolves(commands, due, readings, m, k)
  }

  /** What one turn does to pending entries. */
  lemma DisposedPending(chat: Chat, r: Reading, i: nat, k: nat)
    requires i < |chat.commands| && k < |chat.commands| && Eligible(chat.commands[i], {}, chat.processed)
    requires !r.outcome.Pending? && Faithful(r)
    ensures var next := Disposed(chat, r, i).commands;
            |next| == |chat.commands| &&
            (next[k].status.Pending? <==>
              chat.commands[k].status.Pending? &&
              !(FirstCalled(chat.commands, chat.commands[i].id) == Some(k) && !r.statusFails))
  {
    DisposedFacts(chat, r, i);
  }

  /** A later turn resolves the same entry, whether told from before this turn or after it. */
  lemma ResolvesLater(a: seq<Command>, b: seq<Command>, i: nat, due: seq<nat>, readings: seq<Reading>, m: nat, k: nat)
    requires SameEntries(a, b) && i < |a| && PlacesIn(a, due) && PlacesIn(b, due) && PlacesIn(a, [i] + due)
    requires readings != []
    ensures Resolves(a, [i] + due, readings, m + 1, k) <==> Resolves(b, due, readings[1..], m, k)
  {
    if m < |due| && m + 1 < |readings| {
      assert ([i] + due)[m + 1] == due[m] && readings[1..][m] == readings[m + 1];
      SameFirst(a, b, a[due[m]].id);
    }
  }

  lemma PendingLater(a: seq<Command>, b: seq<Command>, i: nat, due: seq<nat>, readings: seq<Reading>, n: nat, k: nat)
    requires SameEntries(a, b) && i < |a| && PlacesIn(a, due) && PlacesIn(b, due) && PlacesIn(a, [i] + due)
    requires readings != [] && n > 0 && k < |a|
    requires b[k].status.Pending? <==> a[k].status.Pending? && !Resolves(a, [i] + due, readings, 0, k)
    ensures PendingAt(a, [i] + due, readings, n, k) <==> PendingAt(b, due, readings[1..], n - 1, k)
  {
    forall m: nat ensures Resolves(a, [i] + due, readings, m + 1, k) <==> Resolves(b, due, readings[1..], m, k) {
      ResolvesLater(a, b, i, due, readings, m, k);
    }
    if PendingAt(b, due, readings[1..], n - 1, k) {
      forall m | 0 <= m < n ensures !Resolves(a, [i] + due, readings, m, k) {
        if m > 0 {
          assert !Resolves(b, due, readings[1..], m - 1, k);
        }
      }
    }
    if PendingAt(a, [i] + due, readings, n, k) {
      assert !Resolves(a, [i] + due, readings, 0, k);
      forall m | 0 <= m < n - 1 ensures !Resolves(b, due, readings[1..], m, k) {
        assert !Resolves(a, [i] + due, readings, m + 1, k);
      }
    }
  }

  /** At its turn a command finds exactly those entries pending whose outcome no turn before has written. */
  lemma {:induction false} TurnFindsPending(chat: Chat, i: nat, readings: seq<Reading>, n: nat, k: nat)
    requires i <= |chat.commands| && n < |Turns(chat, i, readings)| && k < |chat.commands|
    requires AllFaithful(readings) && OutcomesFinal(readings)
    ensures var due, now := Due(chat.commands, chat.processed, i), Turns(chat, i, readings)[n].before.commands;
            && PlacesIn(chat.commands, due) && |now| == |chat.commands|
            && (now[k].status.Pending? <==> PendingAt(chat.commands, due, readings, n, k))
    decreases |chat.commands| - i
  {
    DuePlaces(chat.commands, chat.processed, i);
    if !Eligible(chat.commands[i], {}, chat.processed) {
      TurnFindsPending(chat, i + 1, readings, n, k);
    } else if n > 0 {
      var next := Disposed(chat, readings[0], i);
      var due := Due(next.commands, next.processed, i + 1);
      DisposedSameFrom(chat, readings[0], i);
      DueSame(chat.commands, next.commands, next.processed, i + 1);
      assert Due(chat.commands, chat.processed, i) == [i] + due;
      TurnFindsPending(next, i + 1, readings[1..], n - 1, k);
      DisposedPending(chat, readings[0], i, k);
      PendingLater(chat.commands, next.commands, i, due, readings, n, k);
    }
  }

  /** Past its own expiry, or a day after it was issued if it has none. */
  predicate IsLate(c: Command, now: int) {
    match c.expiresAt
    case Some(expiry) => now >= expiry
    case None => now >= c.issuedAt + 86_400_000
  }

  /** At the `n`-th turn another steer or interrupt like the one it takes is pending, and was issued later. */
  predicate OutrankedAt(commands: seq<Command>, due: seq<nat>, readings: seq<Reading>, n: nat)
    requires PlacesIn(commands, due) && n < |due|
  {
    var c := commands[due[n]];
    (c.kind.Steer? || c.kind.Interrupt?) &&
    exists k | 0 <= k < |commands| ::
      && commands[k].kind == c.kind && commands[k].id != c.id && commands[k].issuedAt > c.issuedAt
      && PendingAt(commands, due, readings, n, k)
  }

  /** An interrupt of a turn that stands in the transcript and is not its last one. */
  predicate IsMoot(c: Command, messages: seq<string>) {
    && c.kind.Interrupt? && c.basedOnTurn.Some?
    && exists m | 0 <= m < |messages| - 1 ::
         messages[m] == c.basedOnTurn.value && messages[|messages| - 1] != c.basedOnTurn.value
  }

  /** When the `n`-th due command runs, told from the list as the drain found it and what its turns read. */
  predicate DueToRun(commands: seq<Command>, due: seq<nat>, readings: seq<Reading>, n: nat)
    requires PlacesIn(commands, due) && n < |due| && n < |readings|
  {
    var c, r := commands[due[n]], readings[n];
    !IsLate(c, r.now) && !OutrankedAt(commands, due, readings, n) && !IsMoot(c, r.messages)
  }

  /** What outranks a command at its turn are the entries newer than it that it finds pending. */
  lemma NewerAtTurn(commands: seq<Command>, now: seq<Command>, p: nat, k: nat)
    requires p < |commands| && k < |commands| && SameEntries(commands, now) && SameFrom(commands, now, p)
    requires now[k].status.Pending? ==> commands[k].status.Pending?
    ensures NewerOfKind(now[p], now[k]) <==> NewerOfKind(commands[p], commands[k]) && now[k].status.Pending?
  {
  }

  lemma TurnRunsExactly(chat: Chat, readings: seq<Reading>, n: nat)
    requires AllFaithful(readings) && OutcomesFinal(readings) && n < |Turns(chat, 0, readings)|
    requires |readings| >= |chat.commands|
    ensures var due := Due(chat.commands, chat.processed, 0);
            && PlacesIn(chat.commands, due) && n < |due| && n < |readings|
            && (due[n] in Sweep(chat, 0, readings).ran <==> DueToRun(chat.commands, due, readings, n))
  {
    var due, t := Due(chat.commands, chat.processed, 0), Turns(chat, 0, readings)[n];
    TurnsAreDue(chat, 0, readings);
    TurnAt(chat, 0, readings, n);
    DuePlaces(chat.commands, chat.processed, 0);
    var now := t.before.commands;
    forall k | 0 <= k < |now|
      ensures NewerOfKind(now[t.place], now[k]) <==>
              NewerOfKind(chat.commands[t.place], chat.commands[k]) && PendingAt(chat.commands, due, readings, n, k)
    {
      TurnFindsPending(chat, 0, readings, n, k);
      NewerAtTurn(chat.commands, now, t.place, k);
    }
    assert HasNewer(now[t.place], now) <==>
           exists k | 0 <= k < |chat.commands| :: NewerOfKind(chat.commands[t.place], chat.commands[k]) &&
                                                  PendingAt(chat.commands, due, readings, n, k);
    OutrankedIsNewer(chat.commands, due, readings, n);
    MootIsOver(chat.commands[t.place], t.reading.messages);
  }

  lemma MootIsOver(c: Command, messages: seq<string>)
    ensures IsMoot(c, messages) <==>
            c.kind.Interrupt? && c.basedOnTurn.Some? && TurnIsOver(c.basedOnTurn.value, messages)
  {
    if c.kind.Interrupt? && c.basedOnTurn.Some? && TurnIsOver(c.basedOnTurn.value, messages) {
      var m :| 0 <= m < |messages| && messages[m] == c.basedOnTurn.value;
    }
  }

  lemma OutrankedIsNewer(commands: seq<Command>, due: seq<nat>, readings: seq<Reading>, n: nat)
    requires PlacesIn(commands, due) && n < |due|
    ensures OutrankedAt(commands, due, readings, n) <==>
            var c := commands[due[n]];
            (c.kind.Steer? || c.kind.Interrupt?) &&
            exists k | 0 <= k < |commands| :: NewerOfKind(c, commands[k]) && PendingAt(commands, due, readings, n, k)
  {
    var c := commands[due[n]];
    forall k | 0 <= k < |commands| && PendingAt(commands, due, readings, n, k)
      ensures NewerOfKind(c, commands[k]) <==>
              commands[k].kind == c.kind && commands[k].id != c.id && commands[k].issuedAt > c.issuedAt
    {
    }
  }

  /**
   * What a drain with no arrivals and no failing ledger or document read runs,
   * exactly. The `n`-th turn takes the `n`-th due command; and that command is
   * executed if and only if it is not past its expiry, or a day old if it has
   * none; no later issued steer or interrupt like it is still pending, wherever
   * in the list; and the turn it interrupts is the last of the transcript, or
   * not in it.
   */
  lemma DrainRunsExactly(chat: Chat, readings: seq<Reading>) returns (ran: seq<nat>)
    requires AllFaithful(readings) && OutcomesFinal(readings) && |readings| > |chat.commands|
    ensures var due := Due(chat.commands, chat.processed, 0);
            && |due| < |readings| && PlacesIn(chat.commands, due) && PlacesIn(chat.commands, ran)
            && Increasing(ran, 0)
            && Drain(Start(chat), readings).chat.executed == chat.executed + IdsAt(chat.commands, ran)
            && (forall p | p in ran :: p in due)
            && forall n | 0 <= n < |due| :: due[n] in ran <==> DueToRun(chat.commands, due, readings, n)
  {
    DrainIsSweep(chat, 0, readings);
    SweepRunsInOrder(chat, 0, readings);
    TurnsAreDue(chat, 0, readings);
    DuePlaces(chat.commands, chat.processed, 0);
    ran := Sweep(chat, 0, readings).ran;
    var due := Due(chat.commands, chat.processed, 0);
    forall n | 0 <= n < |due| ensures due[n] in ran <==> DueToRun(chat.commands, due, readings, n) {
      TurnRunsExactly(chat, readings, n);
    }
    forall p | p in ran ensures p in due {
      var n := RanHadTurn(chat, 0, readings, p);
    }
  }

  /** The status a due command ends with, once it can be written. */
  function EndStatus(commands: seq<Command>, due: seq<nat>, readings: seq<Reading>, n: nat): CommandStatus
    requires PlacesIn(commands, due) && n < |due| && n < |readings|
  {
    var c, r := commands[due[n]], readings[n];
    if IsLate(c, r.now) then Expired
    else if OutrankedAt(commands, due, readings, n) || IsMoot(c, r.messages) then Superseded
    else r.outcome
  }

  /** What the sweep leaves of the command a turn took. */
  predicate EndsAsDisposed(end: seq<Command>, t: TurnTaken) {
    t.place < |t.before.commands| == |end| &&
    end[t.place] == Disposed(t.before, t.reading, t.place).commands[t.place]
  }

  lemma SweepFront(chat: Chat, i: nat, readings: seq<Reading>)
    requires i < |chat.commands| && Eligible(chat.commands[i], {}, chat.processed) && readings != []
    ensures var next := Disposed(chat, readings[0], i);
            && |next.commands| == |chat.commands|
            && Sweep(chat, i, readings).chat == Sweep(next, i + 1, readings[1..]).chat
            && Turns(chat, i, readings) == [TurnTaken(i, chat, readings[0])] + Turns(next, i + 1, readings[1..])
  {
  }

  lemma FirstTurnEnds(chat: Chat, i: nat, readings: seq<Reading>)
    requires i < |chat.commands| && Eligible(chat.commands[i], {}, chat.processed) && readings != []
    ensures EndsAsDisposed(Sweep(chat, i, readings).chat.commands, TurnTaken(i, chat, readings[0]))
  {
    var next := Disposed(chat, readings[0], i);
    DisposedSameFrom(chat, readings[0], i);
    SweepFront(chat, i, readings);
    SweepKeepsOutcomes(next, i + 1, readings[1..], i);
  }

  lemma {:induction false} TurnOutcome(chat: Chat, i: nat, readings: seq<Reading>, n: nat, t: TurnTaken)
    requires i <= |chat.commands| && n < |Turns(chat, i, readings)| && t == Turns(chat, i, readings)[n]
    ensures EndsAsDisposed(Sweep(chat, i, readings).chat.commands, t)
    decreases |chat.commands| - i
  {
    if !Eligible(chat.commands[i], {}, chat.processed) {
      TurnOutcome(chat, i + 1, readings, n, t);
    } else {
      SweepFront(chat, i, readings);
      if n > 0 {
        TurnOutcome(Disposed(chat, readings[0], i), i + 1, readings[1..], n - 1, t);
      } else {
        FirstTurnEnds(chat, i, readings);
      }
    }
  }

  /** A turn whose status write goes through leaves its command as the disposition says. */
  lemma DisposedEnds(chat: Chat, r: Reading, i: nat)
    requires i < |chat.commands| && Eligible(chat.commands[i], {}, chat.processed) && !r.statusFails
    requires FirstCalled(chat.commands, chat.commands[i].id) == Some(i)
    ensures var c, end := chat.commands[i], Disposed(chat, r, i).commands;
            && |end| == |chat.commands|
            && end[i].status == (match DispositionAt(chat, r, i)
                                 case Expire => Expired
                                 case Supersede => Superseded
                                 case _ => r.outcome)
            && end[i].resolution == (if DispositionAt(chat, r, i).Execute? && r.resolution.Some? then r.resolution
                                     else c.resolution)
            && end[i] == c.(status := end[i].status, resolution := end[i].resolution)
  {
  }

  lemma TurnDisposes(chat: Chat, readings: seq<Reading>, n: nat)
    requires AllFaithful(readings) && OutcomesFinal(readings) && n < |Turns(chat, 0, readings)|
    requires |readings| >= |chat.commands|
    ensures var due, t := Due(chat.commands, chat.processed, 0), Turns(chat, 0, readings)[n];
            && PlacesIn(chat.commands, due) && n < |due| && n < |readings| && TurnFound(chat, t)
            && t.place == due[n] && t.reading == readings[n]
            && (DispositionAt(t.before, t.reading, t.place).Expire? <==>
                  IsLate(chat.commands[due[n]], readings[n].now))
            && (DispositionAt(t.before, t.reading, t.place).Execute? <==> DueToRun(chat.commands, due, readings, n))
            && !DispositionAt(t.before, t.reading, t.place).Skip?
  {
    TurnsAreDue(chat, 0, readings);
    TurnAt(chat, 0, readings, n);
    TurnRunsExactly(chat, readings, n);
  }

  /**
   * How it ends for every due command whose status can be written and whose id
   * no earlier entry has: expired if late at its turn, superseded if outranked
   * or moot then, else with the outcome and the resolution of its run. Nothing
   * else of the entry changes.
   */
  lemma DrainResolvesExactly(chat: Chat, readings: seq<Reading>, n: nat)
    requires AllFaithful(readings) && OutcomesFinal(readings) && |readings| > |chat.commands|
    requires var due := Due(chat.commands, chat.processed, 0);
             PlacesIn(chat.commands, due) && n < |due| && n < |readings| && !readings[n].statusFails &&
             FirstCalled(chat.commands, chat.commands[due[n]].id) == Some(due[n])
    ensures var due, end := Due(chat.commands, chat.processed, 0), Drain(Start(chat), readings).chat.commands;
            var c := chat.commands[due[n]];
            && |end| == |chat.commands|
            && end[due[n]] == c.(
                 status := EndStatus(chat.commands, due, readings, n),
                 resolution := if DueToRun(chat.commands, due, readings, n) && readings[n].resolution.Some?
                               then readings[n].resolution else c.resolution)
  {
    DrainIsSweep(chat, 0, readings);
    TurnsAreDue(chat, 0, readings);
    TurnDisposes(chat, readings, n);
    var t := Turns(chat, 0, readings)[n];
    TurnOutcome(chat, 0, readings, n, t);
    SameFirst(chat.commands, t.before.commands, chat.commands[t.place].id);
    DisposedEnds(t.before, t.reading, t.place);
  }

  /** A later entry of the list, pending when the drain began, is a steer or interrupt like this one. */
  predicate HasLater(commands: seq<Command>, p: nat)
    requires p < |commands|
  {
    (commands[p].kind.Steer? || commands[p].kind.Interrupt?) &&
    exists b | p < b < |commands| :: commands[b].status.Pending? && commands[b].kind == commands[p].kind
  }

  /** With steers and interrupts issued in list order, being outranked is having a later one behind. */
  lemma OutrankedInOrder(commands: seq<Command>, processed: set<string>, readings: seq<Reading>, n: nat)
    requires IssuedInOrder(commands, Steer) && IssuedInOrder(commands, Interrupt)
    requires n < |Due(commands, processed, 0)|
    ensures var due := Due(commands, processed, 0);
            PlacesIn(commands, due) && (OutrankedAt(commands, due, readings, n) <==> HasLater(commands, due[n]))
  {
    DuePlaces(commands, processed, 0);
    var due := Due(commands, processed, 0);
    var p := due[n];
    DueExactly(commands, processed, 0, p);
    if OutrankedAt(commands, due, readings, n) {
      OutrankedIsNewer(commands, due, readings, n);
      var k :| 0 <= k < |commands| && NewerOfKind(commands[p], commands[k]) && PendingAt(commands, due, readings, n, k);
      assert IssuedInOrder(commands, commands[p].kind);
      assert k > p;
    }
    if HasLater(commands, p) {
      LaterOutranks(commands, processed, readings, n);
    }
  }

  lemma LaterOutranks(commands: seq<Command>, processed: set<string>, readings: seq<Reading>, n: nat)
    requires IssuedInOrder(commands, Steer) && IssuedInOrder(commands, Interrupt)
    requires var due := Due(commands, processed, 0);
             PlacesIn(commands, due) && n < |due| && commands[due[n]].status.Pending? && HasLater(commands, due[n])
    ensures OutrankedAt(commands, Due(commands, processed, 0), readings, n)
  {
    var due := Due(commands, processed, 0);
    var p := due[n];
    assert IssuedInOrder(commands, commands[p].kind);
    var b :| p < b < |commands| && commands[b].status.Pending? && commands[b].kind == commands[p].kind;
    forall m | 0 <= m < n ensures !Resolves(commands, due, readings, m, b) {
      DueIncreases(commands, processed, 0, m, n);
    }
    assert PendingAt(commands, due, readings, n, b);
  }

  lemma {:induction false} DueIncreases(commands: seq<Command>, processed: set<string>, i: nat, m: nat, n: nat)
    requires i <= |commands| && m <= n < |Due(commands, processed, i)|
    ensures var due := Due(commands, processed, i);
            i <= due[m] <= due[n] && (m < n ==> due[m] < due[n])
    decreases |commands| - i
  {
    if !Eligible(commands[i], {}, processed) {
      DueIncreases(commands, processed, i + 1, m, n);
    } else if m > 0 {
      DueIncreases(commands, processed + {commands[i].id}, i + 1, m - 1, n - 1);
    } else if n > 0 {
      DueIncreases(commands, processed + {commands[i].id}, i + 1, 0, n - 1);
    }
  }

  /** Listed the other way round both run: the newer first, and the older once the newer is resolved. */
  lemma {:induction false} NewerListedFirstLetsBothRun(newer: Command, older: Command, readings: seq<Reading>)
    requires newer.kind.Steer? && older.kind.Steer? && newer.status.Pending? && older.status.Pending?
    requires newer.id != older.id && newer.issuedAt > older.issuedAt
    requires AllFaithful(readings) && OutcomesFinal(readings) && |readings| > 2 && !readings[0].statusFails
    requires readings[0].now < newer.EffectiveExpiry() && readings[1].now < older.EffectiveExpiry()
    ensures Drain(Start(Chat([newer, older], {}, [])), readings).chat.executed == [newer.id, older.id]
  {
    var chat := Chat([newer, older], {}, []);
    var c := chat.commands;
    var ran := DrainRunsExactly(chat, readings);
    var due := Due(c, {}, 0);
    assert Due(c, {} + {newer.id} + {older.id}, 2) == [];
    assert Due(c, {} + {newer.id}, 1) == [1] + [];
    assert due == [0] + ([1] + []);
    assert FirstCalled(c, newer.id) == Some(0);
    assert Resolves(c, due, readings, 0, 0);
    assert !NewerOfKind(c[0], c[1]) && !NewerOfKind(c[0], c[0]) && !NewerOfKind(c[1], c[1]);
    assert DueToRun(c, due, readings, 0) && DueToRun(c, due, readings, 1);
    assert due[0] in ran && due[1] in ran;
    assert ran == [0, 1] by {
      BothPlaces(ran);
    }
  }

  lemma {:induction false} IncreasingAtLeast(places: seq<nat>, a: nat)
    requires Increasing(places, 0) && a < |places|
    ensures places[a] >= a
  {
    if a > 0 {
      IncreasingAtLeast(places, a - 1);
    }
  }

  lemma BothPlaces(ran: seq<nat>)
    requires Increasing(ran, 0) && 0 in ran && 1 in ran && forall a | 0 <= a < |ran| :: ran[a] < 2
    ensures ran == [0, 1]
  {
    IncreasingAtLeast(ran, |ran| - 1);
    var i :| 0 <= i < |ran| && ran[i] == 0;
    var j :| 0 <= j < |ran| && ran[j] == 1;
    IncreasingAtLeast(ran, i);
    IncreasingAtLeast(ran, j);
  }

  /**
   * Of pending steers (or interrupts) issued in order none but the last runs,
   * whatever outcomes are written; and every earlier one ends expired or
   * superseded if its outcome can be written.
   */
  lemma DrainRunsOnlyTheNewest(chat: Chat, readings: seq<Reading>, kind: Kind) returns (ran: seq<nat>)
    requires AllFaithful(readings) && |readings| > |chat.commands| && (kind.Steer? || kind.Interrupt?)
    requires IssuedInOrder(chat.commands, kind)
    ensures var end := Drain(Start(chat), readings).chat;
            && Increasing(ran, 0) && PlacesIn(chat.commands, ran)
            && end.executed == chat.executed + IdsAt(chat.commands, ran)
            && |end.commands| == |chat.commands|
            && forall a, b | 0 <= a < b < |chat.commands| && chat.commands[a].status.Pending? &&
                             chat.commands[b].status.Pending? &&
                             chat.commands[a].kind == kind && chat.commands[b].kind == kind ::
                 && a !in ran
                 && (chat.commands[a].id !in chat.processed &&
                     FirstCalled(chat.commands, chat.commands[a].id) == Some(a) &&
                     (forall k | 0 <= k < |readings| :: !readings[k].statusFails) ==>
                       end.commands[a].status.Expired? || end.commands[a].status.Superseded?)
  {
    DrainIsSweep(chat, 0, readings);
    SweepRunsInOrder(chat, 0, readings);
    var s := Sweep(chat, 0, readings);
    ran := s.ran;
    forall a, b | 0 <= a < b < |chat.commands| && chat.commands[a].status.Pending? &&
                  chat.commands[b].status.Pending? && chat.commands[a].kind == kind && chat.commands[b].kind == kind
      ensures a !in ran
      ensures chat.commands[a].id !in chat.processed &&
              FirstCalled(chat.commands, chat.commands[a].id) == Some(a) &&
              (forall k | 0 <= k < |readings| :: !readings[k].statusFails) ==>
                s.chat.commands[a].status.Expired? || s.chat.commands[a].status.Superseded?
    {
      assert Outranked(chat.commands, a, b);
      SweepSkipsOutranked(chat, 0, readings, a, b);
      if chat.commands[a].id !in chat.processed && FirstCalled(chat.commands, chat.commands[a].id) == Some(a) &&
         (forall k | 0 <= k < |readings| :: !readings[k].statusFails) {
        SweepResolvesOutranked(chat, 0, readings, a, b);
      }
    }
  }
}
