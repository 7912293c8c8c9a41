/** A consumer that applies every frame holds the producer's transcript: when, and up to what. */
module TranscriptSync {
  import opened Wrappers
  import opened Sequences
  import opened Parts
  import opened Placement
  import opened TranscriptDelta

  predicate UniqueIds(entries: seq<Entry>) {
    Unique(Ids(entries))
  }

  /** No two text parts of an entry share an id. */
  predicate TextIdsUnique(parts: seq<Part>) {
    forall i, j | 0 <= i < j < |parts| && parts[i].TextPart? && parts[j].TextPart? :: parts[i].id != parts[j].id
  }

  predicate Diffable(prev: seq<Entry>, next: seq<Entry>) {
    UniqueIds(prev) && UniqueIds(next) && forall e | e in prev :: TextIdsUnique(e.parts)
  }

  // ── one text append ─────────────────────────────────────────────────────

  /** The scan finds an append exactly when it turns the old parts into the new. */
  lemma {:induction false} ScanSound(prev: seq<Part>, next: seq<Part>, entry: string)
    requires |prev| == |next|
    ensures match ScanParts(prev, next, entry)
            case Failed => true
            case Found(None) => prev == next
            case Found(Some(a)) =>
              exists i | 0 <= i < |prev| ::
                prev[i].TextPart? && prev[i].id == a.part && a.entry == entry &&
                a.len == |prev[i].text + a.text| && next == prev[i := TextPart(a.part, prev[i].text + a.text)]
  {
    if prev != [] {
      var n := |prev| - 1;
      ScanSound(prev[..n], next[..n], entry);
      assert prev == prev[..n] + [prev[n]] && next == next[..n] + [next[n]];
      match ScanParts(prev[..n], next[..n], entry)
      case Failed =>
      case Found(None) =>
        if ScanParts(prev, next, entry) != Failed && prev[n] != next[n] {
          var a := ScanParts(prev, next, entry).append.value;
          assert next[n].text == prev[n].text + a.text;
          assert next == prev[n := TextPart(a.part, prev[n].text + a.text)];
        }
      case Found(Some(a)) =>
        if ScanParts(prev, next, entry) != Failed {
          var i :| 0 <= i < n && prev[..n][i].TextPart? && prev[..n][i].id == a.part && a.entry == entry &&
                   a.len == |prev[..n][i].text + a.text| &&
                   next[..n] == prev[..n][i := TextPart(a.part, prev[..n][i].text + a.text)];
          assert next == prev[i := TextPart(a.part, prev[i].text + a.text)];
        }
    }
  }

  lemma {:induction false} FindUniqueText(parts: seq<Part>, i: nat)
    requires TextIdsUnique(parts) && i < |parts| && parts[i].TextPart?
    ensures FindText(parts, parts[i].id) == Some(i)
    decreases |parts|
  {
    var n := |parts| - 1;
    if i < n {
      FindUniqueText(parts[..n], i);
    } else {
      assert forall k | 0 <= k < n && parts[k].TextPart? :: parts[..n][k].id != parts[n].id;
    }
  }

  /** Applying the append a diff found to the old entry gives the new one. */
  lemma AppendRebuilds(current: seq<Entry>, at: nat, next: Entry, a: Append)
    requires UniqueIds(current) && at < |current| && TextIdsUnique(current[at].parts)
    requires TextAppend(current[at], next) == Some(a)
    ensures ApplyAppend(current, a) == Success(current[at := next])
  {
    var prev := current[at];
    ScanSound(prev.parts, next.parts, next.id);
    var i :| 0 <= i < |prev.parts| && prev.parts[i].TextPart? && prev.parts[i].id == a.part && a.entry == next.id &&
             a.len == |prev.parts[i].text + a.text| &&
             next.parts == prev.parts[i := TextPart(a.part, prev.parts[i].text + a.text)];
    FindUniqueText(prev.parts, i);
    assert Ids(current)[at] == a.entry;
    assert Position(Ids(current), a.entry) == Some(at);
  }

  // ── the plan behind a frame ─────────────────────────────────────────────

  /** Which entries of the new state the frame sends whole. */
  function SentFlags(prev: seq<Entry>, next: seq<Entry>): (flags: seq<bool>)
    ensures |flags| == |next|
  {
    seq(|next|, i requires 0 <= i < |next| => ChangeAt(prev, next, i).Send?)
  }

  lemma FlagsArePlan(prev: seq<Entry>, next: seq<Entry>)
    requires UniqueIds(prev) && UniqueIds(next)
    ensures Plan(Ids(prev), Ids(next), SentFlags(prev, next))
  {
    var a, b := Ids(prev), Ids(next);
    forall i: nat ensures MayStay(a, b, SentFlags(prev, next), i) {
      if i < |next| && !SentFlags(prev, next)[i] {
        var p := LastIndex(prev, next[i].id).value;
        assert a[p] == b[i] && Predecessor(a, p) == Predecessor(b, i);
      }
    }
  }

  // ── removals ────────────────────────────────────────────────────────────

  lemma {:induction false} GoneMembers(prev: seq<Entry>, next: seq<Entry>, id: string)
    ensures id in Gone(prev, next) <==> id in Ids(prev) && id !in Ids(next)
  {
    if prev != [] {
      GoneMembers(prev[..|prev| - 1], next, id);
      assert Ids(prev) == Ids(prev[..|prev| - 1]) + [prev[|prev| - 1].id];
    }
  }

  lemma {:induction false} RetainIsSurvival(entries: seq<Entry>, gone: seq<string>, next: seq<string>)
    requires forall e | e in entries :: e.id in gone <==> e.id !in next
    ensures Ids(Retain(entries, gone)) == Survivors(Ids(entries), next)
    ensures forall e | e in Retain(entries, gone) :: e in entries
  {
    if entries != [] {
      var front, last := entries[..|entries| - 1], entries[|entries| - 1];
      assert last in entries && forall e | e in front :: e in entries;
      RetainIsSurvival(front, gone, next);
      var ids := Ids(entries);
      assert ids[..|ids| - 1] == Ids(front) && ids[|ids| - 1] == last.id;
      var r := Retain(front, gone);
      if last.id !in gone {
        assert Ids(r + [last]) == Ids(r) + [last.id];
      }
    }
  }

  lemma RemovalsSurvive(prev: seq<Entry>, next: seq<Entry>)
    ensures var r := Retain(prev, Gone(prev, next));
            Ids(r) == Survivors(Ids(prev), Ids(next)) && forall e | e in r :: e in prev
  {
    forall e | e in prev ensures e.id in Gone(prev, next) <==> e.id !in Ids(next) {
      GoneMembers(prev, next, e.id);
      var i :| 0 <= i < |prev| && prev[i] == e;
      assert Ids(prev)[i] == e.id;
    }
    RetainIsSurvival(prev, Gone(prev, next), Ids(next));
  }

  // ── upserts ─────────────────────────────────────────────────────────────

  lemma DroppedIds(current: seq<Entry>, id: string)
    requires UniqueIds(current)
    ensures Ids(Dropped(current, id)) == RemoveFirst(Ids(current), id)
    ensures forall e | e in Dropped(current, id) :: e in current && e.id != id
  {
    var rest := Dropped(current, id);
    assert Ids(rest) == RemoveFirst(Ids(current), id);
    Removing(Ids(current), id);
    forall e | e in rest ensures e in current && e.id != id {
      var i :| 0 <= i < |rest| && rest[i] == e;
      assert Ids(rest)[i] == e.id;
    }
  }

  lemma InsertedIds(rest: seq<Entry>, at: nat, entry: Entry)
    requires at <= |rest|
    ensures Ids(InsertedEntry(rest, at, entry)) == Inserted(Ids(rest), at, entry.id)
    ensures forall e | e in InsertedEntry(rest, at, entry) :: e == entry || e in rest
  {
  }

  /** An upsert moves ids as `Place` does and leaves the other entries as they are. */
  lemma UpsertPlaces(current: seq<Entry>, u: Upsert)
    requires UniqueIds(current) && (u.after.Some? ==> u.after.value in Ids(current) && u.after.value != u.entry.id)
    ensures var r := ApplyUpsert(current, u);
            && r.Success?
            && Place(Ids(current), u.entry.id, u.after) == Some(Ids(r.value))
            && forall e | e in r.value :: e == u.entry || (e in current && e.id != u.entry.id)
  {
    var rest := Dropped(current, u.entry.id);
    DroppedIds(current, u.entry.id);
    Removing(Ids(current), u.entry.id);
    var at := if u.after.None? then 0 else Position(Ids(rest), u.after.value).value + 1;
    InsertedIds(rest, at, u.entry);
  }

  /** The upserts of the flagged entries, each behind its predecessor. */
  function SendList(next: seq<Entry>, flags: seq<bool>, n: nat): seq<Upsert>
    requires n <= |next| == |flags|
  {
    if n == 0 then []
    else if flags[n - 1] then
      SendList(next, flags, n - 1) + [Upsert(PredecessorId(next, n - 1), next[n - 1])]
    else SendList(next, flags, n - 1)
  }

  /** The flagged changes are the ones that send, each its own entry. */
  ghost predicate Flagging(changes: seq<Change>, next: seq<Entry>, flags: seq<bool>) {
    && |changes| == |flags| == |next|
    && forall i | 0 <= i < |next| ::
         if flags[i] then changes[i] == Send(Upsert(PredecessorId(next, i), next[i])) else !changes[i].Send?
  }

  lemma SentAreFlagged(prev: seq<Entry>, next: seq<Entry>)
    ensures Flagging(Changes(prev, next), next, SentFlags(prev, next))
  {
  }

  lemma {:induction false} UpsertsAreSendList(changes: seq<Change>, next: seq<Entry>, flags: seq<bool>, n: nat)
    requires n <= |next| && Flagging(changes, next, flags)
    ensures Upserts(changes, n) == SendList(next, flags, n)
    decreases n
  {
    if n > 0 {
      UpsertsAreSendList(changes, next, flags, n - 1);
    }
  }

  /** How many of the first `n` entries are sent whole. */
  function CountSent(flags: seq<bool>, n: nat): nat
    requires n <= |flags|
  {
    if n == 0 then 0 else CountSent(flags, n - 1) + if flags[n - 1] then 1 else 0
  }

  lemma {:induction false} SendListLength(next: seq<Entry>, flags: seq<bool>, n: nat)
    requires n <= |next| == |flags|
    ensures |SendList(next, flags, n)| == CountSent(flags, n)
  {
    if n > 0 {
      SendListLength(next, flags, n - 1);
    }
  }

  /** More than four entries, at least half of them sent whole. */
  predicate MostlySent(flags: seq<bool>) {
    |flags| > 4 && CountSent(flags, |flags|) * 2 >= |flags|
  }

  lemma ResetWhenMostlySent(prev: seq<Entry>, next: seq<Entry>)
    ensures DiffTranscript(prev, next).Reset? <==> MostlySent(SentFlags(prev, next))
  {
    var flags := SentFlags(prev, next);
    SentAreFlagged(prev, next);
    UpsertsAreSendList(Changes(prev, next), next, flags, |next|);
    SendListLength(next, flags, |next|);
  }

  /** After the first `n` changes an entry is the new one that was sent, or the old one. */
  ghost predicate Settled(prev: seq<Entry>, next: seq<Entry>, flags: seq<bool>, n: nat, e: Entry)
    requires n <= |next| == |flags|
  {
    || (exists j | 0 <= j < n :: flags[j] && e == next[j])
    || (e in prev && forall j | 0 <= j < n && flags[j] :: next[j].id != e.id)
  }

  /** The list after the frame's removals and its first `n` changes. */
  ghost predicate UpsertStage(prev: seq<Entry>, next: seq<Entry>, flags: seq<bool>, n: nat, r: seq<Entry>)
    requires n <= |next| == |flags|
  {
    && Placed(Ids(prev), Ids(next), flags, n) == Some(Ids(r))
    && forall e | e in r :: Settled(prev, next, flags, n, e)
  }

  /** The anchor of the `n`-th entry is in place by its turn. */
  lemma AnchorReady(prev: seq<string>, next: seq<string>, flags: seq<bool>, n: nat, ids: seq<string>)
    requires Plan(prev, next, flags) && n < |next| && Placed(prev, next, flags, n) == Some(ids)
    ensures Unique(ids)
    ensures n > 0 ==> next[n - 1] in ids && next[n - 1] != next[n]
  {
    EveryStage(prev, next, flags, n);
    if n > 0 {
      assert next[..n][n - 1] == next[n - 1];
    }
  }

  lemma SettledAdvances(prev: seq<Entry>, next: seq<Entry>, flags: seq<bool>, n: nat, e: Entry)
    requires n < |next| == |flags|
    requires (flags[n] && e == next[n]) || (Settled(prev, next, flags, n, e) && (!flags[n] || e.id != next[n].id))
    ensures Settled(prev, next, flags, n + 1, e)
  {
  }

  lemma AllSettledAdvance(prev: seq<Entry>, next: seq<Entry>, flags: seq<bool>, n: nat, before: seq<Entry>,
                          after: seq<Entry>)
    requires n < |next| == |flags| && flags[n]
    requires forall e | e in before :: Settled(prev, next, flags, n, e)
    requires forall e | e in after :: e == next[n] || (e in before && e.id != next[n].id)
    ensures forall e | e in after :: Settled(prev, next, flags, n + 1, e)
  {
    forall e | e in after ensures Settled(prev, next, flags, n + 1, e) {
      SettledAdvances(prev, next, flags, n, e);
    }
  }

  lemma PlacedStep(prev: seq<string>, next: seq<string>, flags: seq<bool>, n: nat, before: seq<string>,
                   after: seq<string>)
    requires n < |next| == |flags| && flags[n] && Placed(prev, next, flags, n) == Some(before)
    requires Place(before, next[n], Predecessor(next, n)) == Some(after)
    ensures Placed(prev, next, flags, n + 1) == Some(after)
  {
  }

  lemma PredecessorIds(entries: seq<Entry>, i: nat)
    requires i < |entries|
    ensures PredecessorId(entries, i) == Predecessor(Ids(entries), i)
  {
  }

  lemma SendOne(prev: seq<Entry>, next: seq<Entry>, flags: seq<bool>, n: nat, before: seq<Entry>, u: Upsert)
    requires Plan(Ids(prev), Ids(next), flags) && n < |next| && flags[n]
    requires UpsertStage(prev, next, flags, n, before) && u == Upsert(PredecessorId(next, n), next[n])
    ensures ApplyUpsert(before, u).Success? && UpsertStage(prev, next, flags, n + 1, ApplyUpsert(before, u).value)
  {
    PredecessorIds(next, n);
    AnchorReady(Ids(prev), Ids(next), flags, n, Ids(before));
    UpsertPlaces(before, u);
    var after := ApplyUpsert(before, u).value;
    PlacedStep(Ids(prev), Ids(next), flags, n, Ids(before), Ids(after));
    AllSettledAdvance(prev, next, flags, n, before, after);
  }

  lemma SkipOne(prev: seq<Entry>, next: seq<Entry>, flags: seq<bool>, n: nat, r: seq<Entry>)
    requires n < |next| == |flags| && !flags[n] && UpsertStage(prev, next, flags, n, r)
    ensures UpsertStage(prev, next, flags, n + 1, r)
  {
    forall e | e in r ensures Settled(prev, next, flags, n + 1, e) {
      SettledAdvances(prev, next, flags, n, e);
    }
  }

  lemma ApplyUpsertsSnoc(start: seq<Entry>, us: seq<Upsert>, u: Upsert)
    ensures ApplyUpserts(start, us + [u]) ==
            match ApplyUpserts(start, us) case Failure(e) => Failure(e) case Success(mid) => ApplyUpsert(mid, u)
  {
    assert (us + [u])[..|us|] == us;
  }

  lemma {:induction false} UpsertsPlace(prev: seq<Entry>, next: seq<Entry>, flags: seq<bool>, n: nat, start: seq<Entry>)
      returns (r: seq<Entry>)
    requires Plan(Ids(prev), Ids(next), flags) && n <= |next|
    requires UpsertStage(prev, next, flags, 0, start)
    ensures ApplyUpserts(start, SendList(next, flags, n)) == Success(r)
    ensures UpsertStage(prev, next, flags, n, r)
    decreases n
  {
    if n == 0 {
      r := start;
    } else {
      var before := UpsertsPlace(prev, next, flags, n - 1, start);
      r := NextPlace(prev, next, flags, n - 1, start, before);
    }
  }

  lemma NextPlace(prev: seq<Entry>, next: seq<Entry>, flags: seq<bool>, n: nat, start: seq<Entry>, before: seq<Entry>)
      returns (r: seq<Entry>)
    requires Plan(Ids(prev), Ids(next), flags) && n < |next|
    requires ApplyUpserts(start, SendList(next, flags, n)) == Success(before)
    requires UpsertStage(prev, next, flags, n, before)
    ensures ApplyUpserts(start, SendList(next, flags, n + 1)) == Success(r)
    ensures UpsertStage(prev, next, flags, n + 1, r)
  {
    if flags[n] {
      var u := Upsert(PredecessorId(next, n), next[n]);
      SendOne(prev, next, flags, n, before, u);
      ApplyUpsertsSnoc(start, SendList(next, flags, n), u);
      r := ApplyUpsert(before, u).value;
    } else {
      SkipOne(prev, next, flags, n, before);
      r := before;
    }
  }

  // ── appends ─────────────────────────────────────────────────────────────

  /** The `j`-th entry while appends are being applied and the first `n` changes are through. */
  function Midway(prev: seq<Entry>, next: seq<Entry>, n: nat, j: nat): Entry
    requires j < |next|
  {
    match ChangeAt(prev, next, j)
    case Grow(_) => if j < n then next[j] else prev[LastIndex(prev, next[j].id).value]
    case _ => next[j]
  }

  ghost predicate IsMidway(prev: seq<Entry>, next: seq<Entry>, n: nat, e: Entry) {
    exists j | 0 <= j < |next| :: e.id == next[j].id && e == Midway(prev, next, n, j)
  }

  ghost predicate AllMidway(prev: seq<Entry>, next: seq<Entry>, n: nat, current: seq<Entry>) {
    forall e | e in current :: IsMidway(prev, next, n, e)
  }

  lemma MidwayOf(prev: seq<Entry>, next: seq<Entry>, n: nat, e: Entry, j: nat)
    requires UniqueIds(next) && IsMidway(prev, next, n, e) && j < |next| && e.id == next[j].id
    ensures e == Midway(prev, next, n, j)
  {
    var k :| 0 <= k < |next| && e.id == next[k].id && e == Midway(prev, next, n, k);
    assert Ids(next)[k] == Ids(next)[j];
  }

  lemma LastIndexOfMember(entries: seq<Entry>, e: Entry)
    requires UniqueIds(entries) && e in entries
    ensures LastIndex(entries, e.id).Some? && entries[LastIndex(entries, e.id).value] == e
  {
    var i :| 0 <= i < |entries| && entries[i] == e;
    assert Ids(entries)[i] == e.id;
    var k := LastIndex(entries, e.id).value;
    assert Ids(entries)[k] == Ids(entries)[i];
  }

  lemma SentIsMidway(prev: seq<Entry>, next: seq<Entry>, k: nat)
    requires k < |next| && SentFlags(prev, next)[k]
    ensures IsMidway(prev, next, 0, next[k])
  {
    assert next[k] == Midway(prev, next, 0, k);
  }

  lemma KeptIsMidway(prev: seq<Entry>, next: seq<Entry>, e: Entry, j: nat)
    requires UniqueIds(prev) && e in prev && j < |next| && next[j].id == e.id && !SentFlags(prev, next)[j]
    ensures IsMidway(prev, next, 0, e)
  {
    LastIndexOfMember(prev, e);
    assert e == Midway(prev, next, 0, j);
  }

  lemma SettledIsMidway(prev: seq<Entry>, next: seq<Entry>, current: seq<Entry>)
    requires Diffable(prev, next)
    requires forall e | e in current :: Settled(prev, next, SentFlags(prev, next), |next|, e) && e.id in Ids(next)
    ensures AllMidway(prev, next, 0, current)
  {
    forall e | e in current ensures IsMidway(prev, next, 0, e) {
      if exists k | 0 <= k < |next| :: SentFlags(prev, next)[k] && e == next[k] {
        var k :| 0 <= k < |next| && SentFlags(prev, next)[k] && e == next[k];
        SentIsMidway(prev, next, k);
      } else {
        var j :| 0 <= j < |next| && Ids(next)[j] == e.id;
        KeptIsMidway(prev, next, e, j);
      }
    }
  }

  lemma MidwayAdvances(prev: seq<Entry>, next: seq<Entry>, n: nat, e: Entry)
    requires n < |next| && IsMidway(prev, next, n, e)
    requires e.id != next[n].id || !ChangeAt(prev, next, n).Grow?
    ensures IsMidway(prev, next, n + 1, e)
  {
    var k :| 0 <= k < |next| && e.id == next[k].id && e == Midway(prev, next, n, k);
    assert e == Midway(prev, next, n + 1, k);
  }

  lemma GrowStep(prev: seq<Entry>, next: seq<Entry>, n: nat, current: seq<Entry>, at: nat, a: Append)
    requires Diffable(prev, next) && n < |next| && AllMidway(prev, next, n, current)
    requires UniqueIds(current) && at < |current| && current[at].id == next[n].id
    requires ChangeAt(prev, next, n) == Grow(a)
    ensures var r := ApplyAppend(current, a);
            r.Success? && Ids(r.value) == Ids(current) && AllMidway(prev, next, n + 1, r.value)
  {
    assert current[at] in current;
    MidwayOf(prev, next, n, current[at], n);
    AppendRebuilds(current, at, next[n], a);
    var r := current[at := next[n]];
    assert Ids(r) == Ids(current);
    forall e | e in r ensures IsMidway(prev, next, n + 1, e) {
      var i :| 0 <= i < |r| && r[i] == e;
      if i == at {
        assert e == Midway(prev, next, n + 1, n);
      } else {
        assert current[i] in current && Ids(current)[i] != Ids(current)[at];
        MidwayAdvances(prev, next, n, e);
      }
    }
  }

  /** The appends grow the entries they name and touch nothing else. */
  ghost predicate AppendStage(prev: seq<Entry>, next: seq<Entry>, n: nat, ids: seq<string>,
                              r: Result<seq<Entry>, Desync>) {
    r.Success? && Ids(r.value) == ids && AllMidway(prev, next, n, r.value)
  }

  lemma ApplyAppendsSnoc(start: seq<Entry>, appends: seq<Append>, a: Append)
    ensures ApplyAppends(start, appends + [a]) ==
            match ApplyAppends(start, appends) case Failure(e) => Failure(e) case Success(mid) => ApplyAppend(mid, a)
  {
    assert (appends + [a])[..|appends|] == appends;
  }

  lemma AppendNext(prev: seq<Entry>, next: seq<Entry>, n: nat, ids: seq<string>, start: seq<Entry>)
    requires Diffable(prev, next) && n < |next| && next[n].id in ids && Unique(ids)
    requires AppendStage(prev, next, n, ids, ApplyAppends(start, Appends(Changes(prev, next), n)))
    ensures AppendStage(prev, next, n + 1, ids, ApplyAppends(start, Appends(Changes(prev, next), n + 1)))
  {
    var sofar, change := Appends(Changes(prev, next), n), ChangeAt(prev, next, n);
    var mid := ApplyAppends(start, sofar).value;
    if change.Grow? {
      ApplyAppendsSnoc(start, sofar, change.append);
      var at :| 0 <= at < |mid| && Ids(mid)[at] == next[n].id;
      GrowStep(prev, next, n, mid, at, change.append);
    } else {
      forall e | e in mid ensures IsMidway(prev, next, n + 1, e) {
        MidwayAdvances(prev, next, n, e);
      }
    }
  }

  predicate Listed(next: seq<Entry>, ids: seq<string>, i: nat) {
    i < |next| ==> next[i].id in ids
  }

  lemma {:induction false} AppendsGrow(prev: seq<Entry>, next: seq<Entry>, n: nat, ids: seq<string>, start: seq<Entry>)
    requires Diffable(prev, next) && n <= |next| && Unique(ids) && forall i: nat :: Listed(next, ids, i)
    requires AppendStage(prev, next, 0, ids, Success(start))
    ensures AppendStage(prev, next, n, ids, ApplyAppends(start, Appends(Changes(prev, next), n)))
    decreases n
  {
    if n > 0 {
      AppendsGrow(prev, next, n - 1, ids, start);
      assert Listed(next, ids, n - 1);
      AppendNext(prev, next, n - 1, ids, start);
    }
  }

  // ── the frame as a whole ────────────────────────────────────────────────

  lemma MidwayEnd(prev: seq<Entry>, next: seq<Entry>, current: seq<Entry>)
    requires UniqueIds(next) && UniqueIds(current) && AllMidway(prev, next, |next|, current)
    requires forall id :: id in Ids(current) <==> id in Ids(next)
    ensures forall e :: e in current <==> e in next
    ensures current == next <==> Ids(current) == Ids(next)
  {
    forall e | e in current ensures e in next {
      assert IsMidway(prev, next, |next|, e);
    }
    forall j | 0 <= j < |next| ensures next[j] in current {
      assert Ids(next)[j] in Ids(current);
      var i :| 0 <= i < |current| && Ids(current)[i] == next[j].id;
      assert current[i] in current;
      MidwayOf(prev, next, |next|, current[i], j);
    }
    if Ids(current) == Ids(next) {
      forall i | 0 <= i < |next| ensures current[i] == next[i] {
        assert current[i] in current && Ids(current)[i] == Ids(next)[i];
        MidwayOf(prev, next, |next|, current[i], i);
      }
    }
  }

  /** Entries left unsent behind re-sent predecessors stood in their new order before. */
  ghost predicate KeepsStrandedOrder(prev: seq<Entry>, next: seq<Entry>) {
    StrandedInOrder(Ids(prev), Ids(next), SentFlags(prev, next))
  }

  /**
   * A frame always applies to the state it was cut from, without desync, and
   * yields exactly the new entries, each once. They come in the new order
   * exactly when half of more than four entries are sent whole, which makes the
   * frame a reset, or the stranded entries kept theirs.
   */
  lemma FrameIsExact(prev: seq<Entry>, next: seq<Entry>)
    requires Diffable(prev, next)
    ensures var frame := DiffTranscript(prev, next);
            var r := ApplyFrame(prev, frame);
            && r.Success? && |r.value| == |next| && UniqueIds(r.value)
            && (forall e :: e in r.value <==> e in next)
            && (r.value == next <==> MostlySent(SentFlags(prev, next)) || KeepsStrandedOrder(prev, next))
  {
    ResetWhenMostlySent(prev, next);
    if DiffTranscript(prev, next).Delta? {
      var flags := SentFlags(prev, next);
      FlagsArePlan(prev, next);
      PassIsExact(Ids(prev), Ids(next), flags);
      RemovalsSurvive(prev, next);
      SentAreFlagged(prev, next);
      UpsertsAreSendList(Changes(prev, next), next, flags, |next|);
      var placed := UpsertsPlace(prev, next, flags, |next|, Retain(prev, Gone(prev, next)));
      forall e | e in placed ensures e.id in Ids(next) {
        var i :| 0 <= i < |placed| && placed[i] == e;
        assert Ids(placed)[i] == e.id;
      }
      SettledIsMidway(prev, next, placed);
      forall i: nat ensures Listed(next, Ids(placed), i) {
        assert i < |next| ==> Ids(next)[i] in Ids(placed);
      }
      AppendsGrow(prev, next, |next|, Ids(placed), placed);
      MidwayEnd(prev, next, ApplyAppends(placed, Appends(Changes(prev, next), |next|)).value);
    }
  }

  // ── whole streams ───────────────────────────────────────────────────────

  /** Entries in both states stand in the same relative order. */
  ghost predicate SurvivorsKeepOrder(prev: seq<Entry>, next: seq<Entry>) {
    forall i, j | 0 <= i < j < |next| && next[i].id in Ids(prev) && next[j].id in Ids(prev) ::
      Before(Ids(prev), next[i].id, next[j].id)
  }

  lemma SurvivorOrderIsExact(prev: seq<Entry>, next: seq<Entry>)
    requires Diffable(prev, next) && SurvivorsKeepOrder(prev, next)
    ensures ApplyFrame(prev, DiffTranscript(prev, next)) == Success(next)
  {
    FlagsArePlan(prev, next);
    SurvivorOrderSuffices(Ids(prev), Ids(next), SentFlags(prev, next));
    FrameIsExact(prev, next);
  }

  /** How a subscriber moves its copy along when one state becomes the next. */
  type Patch<!S> = (S, S, S) -> Result<S, Desync>

  /** What a subscriber holds after the first reset and `n` further frames. */
  function Consumer<S>(patch: Patch<S>, states: seq<S>, n: nat): Result<S, Desync>
    requires n < |states|
  {
    if n == 0 then Success(states[0])
    else match Consumer(patch, states, n - 1)
      case Failure(e) => Failure(e)
      case Success(copy) => patch(copy, states[n - 1], states[n])
  }

  /** The `i`-th change takes a copy of the old state to the new one. */
  predicate Carries<S(==)>(patch: Patch<S>, states: seq<S>, i: nat) {
    i + 1 < |states| && patch(states[i], states[i], states[i + 1]) == Success(states[i + 1])
  }

  lemma {:induction false} CarriedAlong<S>(patch: Patch<S>, states: seq<S>, n: nat)
    requires n < |states| && forall i: nat | i < n :: Carries(patch, states, i)
    ensures Consumer(patch, states, n) == Success(states[n])
  {
    if n > 0 {
      CarriedAlong(patch, states, n - 1);
      assert Carries(patch, states, n - 1);
    }
  }

  function ByFrame(copy: seq<Entry>, prev: seq<Entry>, next: seq<Entry>): Result<seq<Entry>, Desync> {
    ApplyFrame(copy, DiffTranscript(prev, next))
  }

  /** The `i`-th step of a stream leaves the entries that survive it in order. */
  ghost predicate OrderlyStep(states: seq<seq<Entry>>, i: nat) {
    i + 1 < |states| && Diffable(states[i], states[i + 1]) && SurvivorsKeepOrder(states[i], states[i + 1])
  }

  lemma OrderlyCarries(states: seq<seq<Entry>>, i: nat)
    requires OrderlyStep(states, i)
    ensures Carries(ByFrame, states, i)
  {
    SurvivorOrderIsExact(states[i], states[i + 1]);
  }

  /**
   * Over any run of transcript states whose surviving entries keep their
   * relative order, the consumer holds the producer's list after every frame.
   */
  lemma ConsumerFollows(states: seq<seq<Entry>>, n: nat)
    requires n < |states| && forall i: nat | i < n :: OrderlyStep(states, i)
    ensures Consumer(ByFrame, states, n) == Success(states[n])
  {
    forall i: nat | i < n ensures Carries(ByFrame, states, i) {
      OrderlyCarries(states, i);
    }
    CarriedAlong(ByFrame, states, n);
  }

  lemma SamePlace(entries: seq<Entry>, i: nat, k: nat)
    requires UniqueIds(entries) && i < |entries| && k < |entries| && entries[i].id == entries[k].id
    ensures i == k
  {
    assert Ids(entries)[i] == Ids(entries)[k];
  }

  lemma LastIndexIs(entries: seq<Entry>, i: nat)
    requires UniqueIds(entries) && i < |entries|
    ensures LastIndex(entries, entries[i].id) == Some(i)
  {
    var at := LastIndex(entries, entries[i].id);
    assert Ids(entries)[i] == entries[i].id;
    SamePlace(entries, at.value, i);
  }

  lemma PairSwapFlags(a: Entry, b: Entry, c: Entry, d: Entry)
    requires UniqueIds([a, b, c, d])
    ensures SentFlags([a, b, c, d], [c, d, a, b]) == [true, false, true, false]
  {
    var prev, next := [a, b, c, d], [c, d, a, b];
    LastIndexIs(prev, 0);
    LastIndexIs(prev, 1);
    LastIndexIs(prev, 2);
    LastIndexIs(prev, 3);
    assert Ids(prev)[0] == a.id && Ids(prev)[1] == b.id && Ids(prev)[2] == c.id && Ids(prev)[3] == d.id;
    assert ChangeAt(prev, next, 0).Send? && ChangeAt(prev, next, 1) == Keep;
    assert ChangeAt(prev, next, 2).Send? && ChangeAt(prev, next, 3) == Keep;
  }

  /** Swapping two adjacent pairs goes through without desync, in the wrong order. */
  lemma PairSwapMisorders(a: Entry, b: Entry, c: Entry, d: Entry)
    requires Diffable([a, b, c, d], [c, d, a, b])
    ensures var r := ApplyFrame([a, b, c, d], DiffTranscript([a, b, c, d], [c, d, a, b]));
            r.Success? && r.value != [c, d, a, b]
  {
    var prev, next := [a, b, c, d], [c, d, a, b];
    FrameIsExact(prev, next);
    PairSwapFlags(a, b, c, d);
    var p, n, flags := Ids(prev), Ids(next), SentFlags(prev, next);
    assert p[0] == a.id && p[1] == b.id && p[2] == c.id && p[3] == d.id;
    assert Stranded(flags, 1) && Stranded(flags, 3) && n[1] == d.id && n[3] == b.id;
    assert !Before(p, n[1], n[3]);
  }
}
