/** Which open documents stay warm: pinning, the two budgets, and the eviction pass. */
module DocLru {
  import opened Wrappers
  import opened LexOrder
  import opened Commands

  const WARM_DOC_CAP: nat := 12
  const DOC_LRU_BYTE_BUDGET: nat := 80 * 1024 * 1024
  const RESIDENT_BYTES_PER_SNAPSHOT_BYTE: nat := 6
  const DOC_RESIDENT_FLOOR_BYTES: nat := 512 * 1024
  const EVICT_MIN_IDLE_MS: int := 30000

  /** An open document; `commands` is absent when its ledger cannot be read. */
  datatype Handle = Handle(
    lastAccess: int,
    snapshotBytes: nat,
    watchers: nat,
    docRefs: nat,
    isHost: bool,
    commands: Option<seq<Command>>)
  {
    function ResidentEstimate(): nat {
      var bytes := snapshotBytes * RESIDENT_BYTES_PER_SNAPSHOT_BYTE;
      if bytes > DOC_RESIDENT_FLOOR_BYTES then bytes else DOC_RESIDENT_FLOOR_BYTES
    }

    /** Watched, being written, or owed work by this host. `seen` is what the processed ledger answers for. */
    predicate Pinned(seen: set<string>) {
      || watchers > 0
      || docRefs > 1
      || (isHost && (commands.None? ||
                     exists k | 0 <= k < |commands.value| :: Eligible(commands.value[k], {}, seen)))
    }
  }

  type Handles = map<string, Handle>

  // ── the resident total ──────────────────────────────────────────────────

  ghost function Total(keys: set<string>, hs: Handles): nat
    requires keys <= hs.Keys
  {
    if keys == {} then 0
    else
      var k :| k in keys;
      hs[k].ResidentEstimate() + Total(keys - {k}, hs)
  }

  /** The total does not depend on the order it is summed in. */
  lemma {:induction false} TotalTakeOut(keys: set<string>, hs: Handles, k: string)
    requires keys <= hs.Keys && k in keys
    ensures Total(keys, hs) == hs[k].ResidentEstimate() + Total(keys - {k}, hs)
  {
    var j :| j in keys && Total(keys, hs) == hs[j].ResidentEstimate() + Total(keys - {j}, hs);
    if j != k {
      TotalTakeOut(keys - {j}, hs, k);
      TotalTakeOut(keys - {k}, hs, j);
      assert keys - {j} - {k} == keys - {k} - {j};
    }
  }

  predicate SubsetOf(hs: Handles, all: Handles) {
    hs.Keys <= all.Keys && forall c | c in hs :: hs[c] == all[c]
  }

  /** The total looks only at the documents summed over. */
  lemma {:induction false} TotalSame(keys: set<string>, hs: Handles, all: Handles)
    requires keys <= hs.Keys && SubsetOf(hs, all)
    ensures Total(keys, hs) == Total(keys, all)
  {
    if keys != {} {
      var k :| k in keys;
      TotalTakeOut(keys, hs, k);
      TotalTakeOut(keys, all, k);
      TotalSame(keys - {k}, hs, all);
    }
  }

  /** The documents `open` fit both budgets. */
  ghost predicate WithinBudgets(open: set<string>, all: Handles)
    requires open <= all.Keys
  {
    |open| <= WARM_DOC_CAP && Total(open, all) <= DOC_LRU_BYTE_BUDGET
  }

  method ResidentTotal(hs: Handles) returns (total: nat)
    ensures total == Total(hs.Keys, hs)
  {
    total := 0;
    var left := hs.Keys;
    while left != {}
      invariant left <= hs.Keys && total + Total(left, hs) == Total(hs.Keys, hs)
      decreases |left|
    {
      var k :| k in left;
      TotalTakeOut(left, hs, k);
      total := total + hs[k].ResidentEstimate();
      left := left - {k};
    }
  }

  /** A test on which documents are still open. */
  type Budget = set<string> -> bool

  // ── oldest first ────────────────────────────────────────────────────────

  datatype Age = Age(lastAccess: int, chat: string)

  predicate Older(a: Age, b: Age) {
    a.lastAccess < b.lastAccess || (a.lastAccess == b.lastAccess && Less(a.chat, b.chat))
  }

  predicate OldestFirst(ages: seq<Age>) {
    forall i, j | 0 <= i < j < |ages| :: Older(ages[i], ages[j])
  }

  /** One entry per open document, with the access time it had. */
  predicate AgesOf(ages: seq<Age>, hs: Handles) {
    && (forall i | 0 <= i < |ages| :: ages[i].chat in hs && ages[i].lastAccess == hs[ages[i].chat].lastAccess)
    && (forall c | c in hs :: Age(hs[c].lastAccess, c) in ages)
  }

  method InsertByAge(ages: seq<Age>, a: Age) returns (r: seq<Age>)
    requires OldestFirst(ages) && forall i | 0 <= i < |ages| :: ages[i].chat != a.chat
    ensures OldestFirst(r) && forall x :: x in r <==> x in ages || x == a
  {
    var i := 0;
    while i < |ages| && Older(ages[i], a)
      invariant i <= |ages| && forall j | 0 <= j < i :: Older(ages[j], a)
    {
      i := i + 1;
    }
    forall j | i <= j < |ages| ensures Older(a, ages[j]) {
      Trichotomy(a.chat, ages[i].chat);
      if i < j {
        OlderTransitive(a, ages[i], ages[j]);
      }
    }
    r := ages[..i] + [a] + ages[i..];
  }

  lemma OlderTransitive(a: Age, b: Age, c: Age)
    requires Older(a, b) && Older(b, c)
    ensures Older(a, c)
  {
    if a.lastAccess == c.lastAccess {
      Transitive(a.chat, b.chat, c.chat);
    }
  }

  method ByAge(hs: Handles) returns (ages: seq<Age>)
    ensures OldestFirst(ages) && AgesOf(ages, hs)
  {
    ages := [];
    var left := hs.Keys;
    while left != {}
      invariant left <= hs.Keys && OldestFirst(ages)
      invariant forall x :: x in ages <==> x.chat in hs.Keys - left && x == Age(hs[x.chat].lastAccess, x.chat)
      decreases |left|
    {
      var c :| c in left;
      forall i | 0 <= i < |ages| ensures ages[i].chat != c {
        assert ages[i] in ages;
      }
      ages := InsertByAge(ages, Age(hs[c].lastAccess, c));
      left := left - {c};
    }
    forall i | 0 <= i < |ages|
      ensures ages[i].chat in hs && ages[i].lastAccess == hs[ages[i].chat].lastAccess
    {
      assert ages[i] in ages;
    }
  }

  // ── the eviction pass ───────────────────────────────────────────────────

  /** Why the pass ended: a document too young at some moment, budgets met, or no document left to look at. */
  datatype Verdict = TooYoung(now: int) | BudgetsMet | AllLookedAt

  datatype Outcome = Outcome(open: set<string>, evicted: seq<string>, verdict: Verdict) {
    /** This outcome with what was closed before it. */
    function After(earlier: seq<string>): Outcome {
      Outcome(open, earlier + evicted, verdict)
    }
  }

  /** The budgets as a test on the documents still open. */
  ghost function Fits(all: Handles): Budget {
    open => open <= all.Keys && WithinBudgets(open, all)
  }

  ghost function PinnedAmong(hs: Handles, seen: set<string>): set<string> {
    set c | c in hs && hs[c].Pinned(seen)
  }

  predicate Idle(age: Age, now: int) {
    now - age.lastAccess >= EVICT_MIN_IDLE_MS
  }

  /** The pass over documents oldest first; `clock` is what the clock reads at each look. */
  ghost function Evict(fits: Budget, open: set<string>, pinned: set<string>, ages: seq<Age>, clock: nat -> int,
                       k: nat):
    Outcome
    requires k <= |ages|
    decreases |ages| - k
  {
    if k == |ages| then Outcome(open, [], AllLookedAt)
    else if !Idle(ages[k], clock(k)) then Outcome(open, [], TooYoung(clock(k)))
    else if fits(open) then Outcome(open, [], BudgetsMet)
    else
      var chat := ages[k].chat;
      if chat in open && chat !in pinned then
        var rest := Evict(fits, open - {chat}, pinned, ages, clock, k + 1);
        rest.After([chat])
      else Evict(fits, open, pinned, ages, clock, k + 1)
  }

  class DocHost {
    var handles: Handles
    var seen: set<string>
    var saved: seq<string>

    constructor (handles: Handles, seen: set<string>)
      ensures this.handles == handles && this.seen == seen && saved == []
    {
      this.handles := handles;
      this.seen := seen;
      saved := [];
    }

    method MeetsBudgets(ghost all: Handles) returns (met: bool)
      requires SubsetOf(handles, all)
      ensures met == Fits(all)(handles.Keys)
    {
      var count := |handles|;
      var estimate := ResidentTotal(handles);
      SameBudgets(handles, all, count, estimate);
      met := count <= WARM_DOC_CAP && estimate <= DOC_LRU_BYTE_BUDGET;
    }

    method CloseDoc(chat: string, ghost all: Handles)
      requires SubsetOf(handles, all)
      modifies this`handles, this`saved
      ensures SubsetOf(handles, all) && handles.Keys == old(handles).Keys - {chat}
      ensures saved == old(saved) + [chat]
    {
      handles := handles - {chat};
      saved := saved + [chat];
    }

    /** Over budget, closes unpinned documents from the oldest on, handing each to the snapshot store. */
    method EvictOverBudget(clock: nat -> int) returns (ghost ages: seq<Age>, ghost verdict: Verdict)
      modifies this`handles, this`saved
      ensures OldestFirst(ages) && AgesOf(ages, old(handles))
      ensures SubsetOf(handles, old(handles))
      ensures |saved| >= |old(saved)| && saved[..|old(saved)|] == old(saved)
      ensures Outcome(handles.Keys, saved[|old(saved)|..], verdict) ==
              Evict(Fits(old(handles)), old(handles).Keys, PinnedAmong(old(handles), seen), ages, clock, 0)
    {
      var byAge := ByAge(handles);
      ages := byAge;
      ghost var all, pinned := handles, PinnedAmong(handles, seen);
      ghost var fits := Fits(all);
      ghost var evicted: seq<string> := [];
      ghost var outcome := Evict(fits, all.Keys, pinned, ages, clock, 0);
      assert [] + outcome.evicted == outcome.evicted;
      var k := 0;
      while k < |byAge|
        invariant k <= |byAge| && saved == old(saved) + evicted
        invariant SubsetOf(handles, all)
        invariant outcome == Evict(fits, handles.Keys, pinned, ages, clock, k).After(evicted)
      {
        var now, age := clock(k), byAge[k];
        if now - age.lastAccess < EVICT_MIN_IDLE_MS {
          verdict := TooYoung(now);
          assert evicted + [] == evicted;
          return;
        }
        var met := MeetsBudgets(all);
        if met {
          verdict := BudgetsMet;
          assert evicted + [] == evicted;
          return;
        }
        Look(fits, handles.Keys, pinned, ages, clock, k, evicted);
        if age.chat in handles && !handles[age.chat].Pinned(seen) {
          CloseDoc(age.chat, all);
          evicted := evicted + [age.chat];
        }
        k := k + 1;
      }
      verdict := AllLookedAt;
      assert evicted + [] == evicted;
    }
  }

  lemma SameBudgets(hs: Handles, all: Handles, count: nat, estimate: nat)
    requires SubsetOf(hs, all)
    requires count == |hs| && estimate == Total(hs.Keys, hs)
    ensures Fits(all)(hs.Keys) <==> count <= WARM_DOC_CAP && estimate <= DOC_LRU_BYTE_BUDGET
  {
    TotalSame(hs.Keys, hs, all);
    assert |hs| == |hs.Keys|;
  }

  lemma Look(fits: Budget, open: set<string>, pinned: set<string>, ages: seq<Age>, clock: nat -> int,
             k: nat, evicted: seq<string>)
    requires k < |ages| && Idle(ages[k], clock(k)) && !fits(open)
    ensures var chat, o := ages[k].chat, Evict(fits, open, pinned, ages, clock, k);
            o.After(evicted) ==
            if chat in open && chat !in pinned
            then Evict(fits, open - {chat}, pinned, ages, clock, k + 1).After(evicted + [chat])
            else Evict(fits, open, pinned, ages, clock, k + 1).After(evicted)
  {
    var chat := ages[k].chat;
    var rest := Evict(fits, open - {chat}, pinned, ages, clock, k + 1);
    assert evicted + ([chat] + rest.evicted) == (evicted + [chat]) + rest.evicted;
  }

  // ── what the pass guarantees ────────────────────────────────────────────

  /** Everything already looked at and still open is pinned. */
  predicate LookedAt(open: set<string>, pinned: set<string>, ages: seq<Age>, k: nat)
    requires k <= |ages|
  {
    forall i | 0 <= i < k && ages[i].chat in open :: ages[i].chat in pinned
  }

  function AgeOf(all: Handles, chat: string): Age
    requires chat in all
  {
    Age(all[chat].lastAccess, chat)
  }

  /** One look that goes on to the next document. */
  ghost predicate GoesOn(fits: Budget, open: set<string>, ages: seq<Age>, clock: nat -> int, k: nat)
    requires k <= |ages|
  {
    k < |ages| && Idle(ages[k], clock(k)) && !fits(open)
  }

  function LeftOpen(open: set<string>, pinned: set<string>, chat: string): set<string> {
    if chat in pinned then open else open - {chat}
  }

  /**
   * When the pass ends both budgets hold, or every document still open is
   * pinned, or every one of them is pinned or was touched within the idle
   * floor at that moment.
   */
  lemma {:induction false} PassEnds(fits: Budget, all: Handles, open: set<string>, pinned: set<string>, ages: seq<Age>,
                                    clock: nat -> int, k: nat)
    requires k <= |ages| && open <= all.Keys
    requires OldestFirst(ages) && AgesOf(ages, all) && LookedAt(open, pinned, ages, k)
    ensures var o := Evict(fits, open, pinned, ages, clock, k);
            && o.open <= open
            && match o.verdict
               case BudgetsMet => fits(o.open)
               case AllLookedAt => o.open <= pinned
               case TooYoung(now) => forall c | c in o.open :: c in pinned || !Idle(AgeOf(all, c), now)
    decreases |ages| - k
  {
    if GoesOn(fits, open, ages, clock, k) {
      var chat := ages[k].chat;
      assert chat !in open ==> open - {chat} == open;
      PassEnds(fits, all, LeftOpen(open, pinned, chat), pinned, ages, clock, k + 1);
    } else {
      forall c | c in open && !(k < |ages| && Idle(ages[k], clock(k)))
        ensures c in pinned || (k < |ages| && !Idle(AgeOf(all, c), clock(k)))
      {
        var i :| 0 <= i < |ages| && ages[i] == AgeOf(all, c);
        assert k < i ==> Older(ages[k], ages[i]);
      }
    }
  }

  function Chats(evicted: seq<string>, n: nat): set<string>
    requires n <= |evicted|
  {
    set i | 0 <= i < n :: evicted[i]
  }

  lemma ChatsShift(chat: string, rest: seq<string>, n: nat)
    requires 0 < n <= |rest| + 1
    ensures Chats([chat] + rest, n) == {chat} + Chats(rest, n - 1)
  {
    var all := [chat] + rest;
    forall c | c in {chat} + Chats(rest, n - 1) ensures c in Chats(all, n) {
      if c in Chats(rest, n - 1) {
        var i :| 0 <= i < n - 1 && rest[i] == c;
        assert all[i + 1] == c;
      } else {
        assert all[0] == c;
      }
    }
    forall c | c in Chats(all, n) ensures c in {chat} + Chats(rest, n - 1) {
      var i :| 0 <= i < n && all[i] == c;
      assert i > 0 ==> rest[i - 1] == c;
    }
  }

  /** A look that closes a document, and what the rest of the pass closes. */
  lemma Closing(fits: Budget, open: set<string>, pinned: set<string>, ages: seq<Age>, clock: nat -> int, k: nat, n: nat)
    requires k <= |ages| && GoesOn(fits, open, ages, clock, k)
    requires ages[k].chat in open && ages[k].chat !in pinned
    requires var rest := Evict(fits, open - {ages[k].chat}, pinned, ages, clock, k + 1).evicted; 0 < n <= |rest| + 1
    ensures var chat := ages[k].chat;
            var evicted := Evict(fits, open, pinned, ages, clock, k).evicted;
            var rest := Evict(fits, open - {chat}, pinned, ages, clock, k + 1).evicted;
            && evicted == [chat] + rest
            && Chats(evicted, n) == {chat} + Chats(rest, n - 1)
            && open - Chats(evicted, n) == (open - {chat}) - Chats(rest, n - 1)
  {
    var chat := ages[k].chat;
    ChatsShift(chat, Evict(fits, open - {chat}, pinned, ages, clock, k + 1).evicted, n);
  }

  /** Why a document was closed. */
  ghost predicate Justified(fits: Budget, all: Handles, open: set<string>, pinned: set<string>, ages: seq<Age>,
                            clock: nat -> int,
                            k: nat, evicted: seq<string>, n: nat, place: nat)
    requires open <= all.Keys && n < |evicted|
  {
    && k <= place < |ages| && ages[place].chat == evicted[n]
    && evicted[n] in open && evicted[n] !in pinned && Idle(ages[place], clock(place))
    && !fits(open - Chats(evicted, n))
    && (forall i | k <= i < place && ages[i].chat in open ::
          ages[i].chat in pinned || ages[i].chat in Chats(evicted, n))
    && (forall m | 0 <= m < n :: evicted[m] in open && Older(AgeOf(all, evicted[m]), ages[place]))
  }

  lemma FirstIsJustified(fits: Budget, all: Handles, open: set<string>, pinned: set<string>,
                         ages: seq<Age>, clock: nat -> int, k: nat, evicted: seq<string>)
    requires k <= |ages| && open <= all.Keys && GoesOn(fits, open, ages, clock, k)
    requires ages[k].chat in open && ages[k].chat !in pinned && evicted != [] && evicted[0] == ages[k].chat
    ensures Justified(fits, all, open, pinned, ages, clock, k, evicted, 0, k)
  {
    assert open - Chats(evicted, 0) == open;
  }

  lemma SkippedIsJustified(fits: Budget, all: Handles, open: set<string>, pinned: set<string>,
                           ages: seq<Age>, clock: nat -> int, k: nat, evicted: seq<string>, n: nat, place: nat)
    requires k < |ages| && open <= all.Keys && n < |evicted|
    requires ages[k].chat in open ==> ages[k].chat in pinned
    requires Justified(fits, all, open, pinned, ages, clock, k + 1, evicted, n, place)
    ensures Justified(fits, all, open, pinned, ages, clock, k, evicted, n, place)
  {
  }

  /**
   * The `n`-th document closed was unpinned and past the idle floor when it
   * was looked at; a budget was still exceeded with those before it gone;
   * every older document was pinned or already closed; and those closed before
   * it are all older.
   */
  lemma {:induction false} EvictionIsJustified(fits: Budget, all: Handles, open: set<string>,
                                               pinned: set<string>, ages: seq<Age>, clock: nat -> int, k: nat, n: nat)
    returns (place: nat)
    requires k <= |ages| && open <= all.Keys && OldestFirst(ages) && AgesOf(ages, all)
    requires n < |Evict(fits, open, pinned, ages, clock, k).evicted|
    ensures var evicted := Evict(fits, open, pinned, ages, clock, k).evicted;
            Justified(fits, all, open, pinned, ages, clock, k, evicted, n, place)
    decreases |ages| - k
  {
    var chat := ages[k].chat;
    var evicted := Evict(fits, open, pinned, ages, clock, k).evicted;
    if chat !in open || chat in pinned {
      place := EvictionIsJustified(fits, all, open, pinned, ages, clock, k + 1, n);
      SkippedIsJustified(fits, all, open, pinned, ages, clock, k, evicted, n, place);
    } else if n == 0 {
      place := k;
      FirstIsJustified(fits, all, open, pinned, ages, clock, k, evicted);
    } else {
      var rest := Evict(fits, open - {chat}, pinned, ages, clock, k + 1).evicted;
      place := EvictionIsJustified(fits, all, open - {chat}, pinned, ages, clock, k + 1, n - 1);
      LaterIsJustified(fits, all, open, pinned, ages, clock, k, rest, n, place);
    }
  }

  lemma LaterIsJustified(fits: Budget, all: Handles, open: set<string>, pinned: set<string>, ages: seq<Age>,
                         clock: nat -> int,
                         k: nat, rest: seq<string>, n: nat, place: nat)
    requires k < |ages| && open <= all.Keys && OldestFirst(ages) && AgesOf(ages, all)
    requires ages[k].chat in open && 0 < n <= |rest|
    requires Justified(fits, all, open - {ages[k].chat}, pinned, ages, clock, k + 1, rest, n - 1, place)
    ensures Justified(fits, all, open, pinned, ages, clock, k, [ages[k].chat] + rest, n, place)
  {
    var chat := ages[k].chat;
    var evicted := [chat] + rest;
    ChatsShift(chat, rest, n);
    assert open - Chats(evicted, n) == (open - {chat}) - Chats(rest, n - 1);
    assert Older(ages[k], ages[place]);
    forall m | 0 <= m < n ensures evicted[m] in open && Older(AgeOf(all, evicted[m]), ages[place]) {
      assert m > 0 ==> evicted[m] == rest[m - 1];
    }
  }

  /** Closed documents are gone, distinct and unpinned; every other one is still open. */
  lemma {:induction false} PassKeepsTheRest(fits: Budget, open: set<string>, pinned: set<string>, ages: seq<Age>,
                                            clock: nat -> int, k: nat)
    requires k <= |ages|
    ensures var o := Evict(fits, open, pinned, ages, clock, k);
            && o.open == open - Chats(o.evicted, |o.evicted|)
            && (forall i | 0 <= i < |o.evicted| :: o.evicted[i] in open && o.evicted[i] !in pinned)
            && (forall i, j | 0 <= i < j < |o.evicted| :: o.evicted[i] != o.evicted[j])
    decreases |ages| - k
  {
    var o := Evict(fits, open, pinned, ages, clock, k);
    if GoesOn(fits, open, ages, clock, k) {
      var chat := ages[k].chat;
      if chat in open && chat !in pinned {
        PassKeepsTheRest(fits, open - {chat}, pinned, ages, clock, k + 1);
        Closing(fits, open, pinned, ages, clock, k, |o.evicted|);
      } else {
        PassKeepsTheRest(fits, open, pinned, ages, clock, k + 1);
      }
    } else {
      assert open - Chats([], 0) == open;
    }
  }

  /**
   * The whole pass: on return both budgets hold, or every open document is
   * pinned or was touched within the idle floor of the last look; and exactly
   * the documents handed to the snapshot store are gone, none of them pinned.
   */
  lemma PassOutcome(all: Handles, seen: set<string>, ages: seq<Age>, clock: nat -> int)
    requires OldestFirst(ages) && AgesOf(ages, all)
    ensures var o := Evict(Fits(all), all.Keys, PinnedAmong(all, seen), ages, clock, 0);
            && o.open <= all.Keys
            && (match o.verdict
                case BudgetsMet => WithinBudgets(o.open, all)
                case AllLookedAt => forall c | c in o.open :: all[c].Pinned(seen)
                case TooYoung(now) =>
                  forall c | c in o.open :: all[c].Pinned(seen) || now - all[c].lastAccess < EVICT_MIN_IDLE_MS)
            && (forall c | c in all :: c in o.open <==> c !in o.evicted)
            && (forall c | c in o.evicted :: c in all && !all[c].Pinned(seen))
  {
    var fits, pinned := Fits(all), PinnedAmong(all, seen);
    PassEnds(fits, all, all.Keys, pinned, ages, clock, 0);
    PassKeepsTheRest(fits, all.Keys, pinned, ages, clock, 0);
    var o := Evict(fits, all.Keys, pinned, ages, clock, 0);
    forall c | c in o.evicted ensures c in Chats(o.evicted, |o.evicted|) {
      var i :| 0 <= i < |o.evicted| && o.evicted[i] == c;
    }
  }

  // ── what the pass spares, on the documents' own fields ──────────────────

  /** This host still owes the chat work, or cannot tell. */
  predicate OwesWork(h: Handle, seen: set<string>) {
    h.isHost &&
    match h.commands
    case None => true
    case Some(commands) => exists k | 0 <= k < |commands| :: commands[k].status.Pending? && commands[k].id !in seen
  }

  /** Somebody watches it, somebody besides the handle writes it, or work is owed. */
  predicate InUse(h: Handle, seen: set<string>) {
    h.watchers >= 1 || h.docRefs >= 2 || OwesWork(h, seen)
  }

  lemma PinnedInUse(h: Handle, seen: set<string>)
    ensures h.Pinned(seen) <==> InUse(h, seen)
  {
    if h.isHost && h.commands.Some? {
      var commands := h.commands.value;
      forall k | 0 <= k < |commands|
        ensures Eligible(commands[k], {}, seen) <==> commands[k].status.Pending? && commands[k].id !in seen
      {
      }
    }
  }

  /** What a document counts for: six bytes a byte of its snapshot, and never under half a megabyte. */
  lemma EstimateIs(h: Handle)
    ensures h.ResidentEstimate() >= 6 * h.snapshotBytes && h.ResidentEstimate() >= 524_288
    ensures h.ResidentEstimate() == 6 * h.snapshotBytes || h.ResidentEstimate() == 524_288
  {
  }

  ghost function SnapshotTotal(open: set<string>, all: Handles): nat
    requires open <= all.Keys
  {
    if open == {} then 0
    else
      var k :| k in open;
      all[k].snapshotBytes + SnapshotTotal(open - {k}, all)
  }

  lemma {:induction false} TotalBounds(open: set<string>, all: Handles)
    requires open <= all.Keys
    ensures Total(open, all) >= 6 * SnapshotTotal(open, all)
    ensures Total(open, all) >= 524_288 * |open|
    ensures Total(open, all) <= 6 * SnapshotTotal(open, all) + 524_288 * |open|
  {
    if open != {} {
      var k :| k in open && SnapshotTotal(open, all) == all[k].snapshotBytes + SnapshotTotal(open - {k}, all);
      TotalTakeOut(open, all, k);
      TotalBounds(open - {k}, all);
      EstimateIs(all[k]);
      assert |open - {k}| == |open| - 1;
    }
  }

  /** Both budgets as they bear on what is open: at most twelve documents, and eighty megabytes. */
  lemma BudgetsBound(open: set<string>, all: Handles)
    requires open <= all.Keys && WithinBudgets(open, all)
    ensures |open| <= 12 && 6 * SnapshotTotal(open, all) <= 83_886_080
  {
    TotalBounds(open, all);
  }

  /**
   * The whole pass on the documents' own fields. One that is watched, written
   * by another, or owed work is still open; one that was closed is none of
   * these; and one that is none of these and past the idle floor is left open
   * only if at most twelve documents are left, and they fit the memory budget.
   */
  lemma PassSpares(all: Handles, seen: set<string>, ages: seq<Age>, clock: nat -> int)
    requires OldestFirst(ages) && AgesOf(ages, all)
    ensures var o := Evict(Fits(all), all.Keys, PinnedAmong(all, seen), ages, clock, 0);
            && o.open <= all.Keys
            && (forall c | c in all && InUse(all[c], seen) :: c in o.open)
            && (forall c | c in all && c !in o.open :: c in o.evicted)
            && (forall c | c in o.evicted :: c in all && c !in o.open && !InUse(all[c], seen))
            && (forall c | c in o.open && !InUse(all[c], seen) ::
                  || (|o.open| <= 12 && Total(o.open, all) <= 83_886_080)
                  || (o.verdict.TooYoung? && o.verdict.now - all[c].lastAccess < 30_000))
  {
    PassOutcome(all, seen, ages, clock);
    forall c | c in all ensures all[c].Pinned(seen) <==> InUse(all[c], seen) {
      PinnedInUse(all[c], seen);
    }
  }

  /**
   * Every document closed was closed with more than twelve open, or more than
   * eighty megabytes; idle for half a minute; after those used before it, and
   * by name those used at that moment; and with none of these left but in use.
   */
  lemma ClosedOnlyOverBudget(all: Handles, seen: set<string>, ages: seq<Age>, clock: nat -> int, n: nat)
    returns (place: nat)
    requires OldestFirst(ages) && AgesOf(ages, all)
    requires n < |Evict(Fits(all), all.Keys, PinnedAmong(all, seen), ages, clock, 0).evicted|
    ensures var evicted := Evict(Fits(all), all.Keys, PinnedAmong(all, seen), ages, clock, 0).evicted;
            var left := all.Keys - Chats(evicted, n);
            && place < |ages| && evicted[n] in all
            && (|left| > 12 || Total(left, all) > 83_886_080)
            && clock(place) - all[evicted[n]].lastAccess >= 30_000
            && (forall m | 0 <= m < n :: evicted[m] in all && UsedBefore(all, evicted[m], evicted[n]))
            && (forall c | c in left && UsedBefore(all, c, evicted[n]) :: InUse(all[c], seen))
  {
    place := EvictionIsJustified(Fits(all), all, all.Keys, PinnedAmong(all, seen), ages, clock, 0, n);
    var evicted := Evict(Fits(all), all.Keys, PinnedAmong(all, seen), ages, clock, 0).evicted;
    JustifiedBudget(all, seen, ages, clock, evicted, n, place);
    forall m | 0 <= m < n ensures evicted[m] in all && UsedBefore(all, evicted[m], evicted[n]) {
      EarlierIsBefore(all, seen, ages, clock, evicted, n, place, m);
    }
    forall c | c in all.Keys - Chats(evicted, n) && UsedBefore(all, c, evicted[n]) ensures InUse(all[c], seen) {
      OlderIsInUse(all, seen, ages, clock, evicted, n, place, c);
    }
  }

  lemma JustifiedBudget(all: Handles, seen: set<string>, ages: seq<Age>, clock: nat -> int, evicted: seq<string>,
                        n: nat, place: nat)
    requires OldestFirst(ages) && AgesOf(ages, all) && n < |evicted|
    requires Justified(Fits(all), all, all.Keys, PinnedAmong(all, seen), ages, clock, 0, evicted, n, place)
    ensures evicted[n] in all && clock(place) - all[evicted[n]].lastAccess >= 30_000
    ensures var left := all.Keys - Chats(evicted, n); |left| > 12 || Total(left, all) > 83_886_080
  {
    assert ages[place].lastAccess == all[ages[place].chat].lastAccess;
  }

  lemma EarlierIsBefore(all: Handles, seen: set<string>, ages: seq<Age>, clock: nat -> int, evicted: seq<string>,
                        n: nat, place: nat, m: nat)
    requires OldestFirst(ages) && AgesOf(ages, all) && m < n < |evicted|
    requires Justified(Fits(all), all, all.Keys, PinnedAmong(all, seen), ages, clock, 0, evicted, n, place)
    ensures evicted[m] in all && evicted[n] in all && UsedBefore(all, evicted[m], evicted[n])
  {
    assert ages[place].lastAccess == all[ages[place].chat].lastAccess;
    assert Older(AgeOf(all, evicted[m]), ages[place]);
  }

  lemma OlderIsInUse(all: Handles, seen: set<string>, ages: seq<Age>, clock: nat -> int, evicted: seq<string>, n: nat,
                     place: nat, c: string)
    requires OldestFirst(ages) && AgesOf(ages, all) && n < |evicted|
    requires Justified(Fits(all), all, all.Keys, PinnedAmong(all, seen), ages, clock, 0, evicted, n, place)
    requires c in all && c !in Chats(evicted, n) && UsedBefore(all, c, evicted[n])
    ensures InUse(all[c], seen)
  {
    var i :| 0 <= i < |ages| && ages[i] == AgeOf(all, c);
    assert Older(AgeOf(all, c), AgeOf(all, evicted[n]));
    assert ages[place].lastAccess == all[ages[place].chat].lastAccess;
    assert ages[place] == AgeOf(all, evicted[n]);
    OlderIsBefore(ages, i, place);
    PinnedInUse(all[c], seen);
    assert ages[i].chat in all.Keys;
  }

  predicate UsedBefore(all: Handles, a: string, b: string)
    requires a in all && b in all
  {
    all[a].lastAccess < all[b].lastAccess || (all[a].lastAccess == all[b].lastAccess && Less(a, b))
  }

  lemma OlderIsBefore(ages: seq<Age>, i: nat, j: nat)
    requires OldestFirst(ages) && i < |ages| && j < |ages| && Older(ages[i], ages[j])
    ensures i < j
  {
    if j < i {
      OlderTransitive(ages[i], ages[j], ages[i]);
      Trichotomy(ages[i].chat, ages[i].chat);
    } else if i == j {
      Trichotomy(ages[i].chat, ages[i].chat);
    }
  }
}
