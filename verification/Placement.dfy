/**
 * Rebuilding a list of ids by moving some of them behind their new
 * predecessors, front to back, and leaving the others where they stand.
 */
module Placement {
  import opened Wrappers
  import opened Sequences

  /** The first position of `id`. */
  function Position(s: seq<string>, id: string): (p: Option<nat>)
    ensures p.None? <==> id !in s
    ensures p.Some? ==> p.value < |s| && s[p.value] == id && id !in s[..p.value]
  {
    if s == [] then None
    else
      var n := |s| - 1;
      assert s == s[..n] + [s[n]];
      match Position(s[..n], id)
      case Some(p) =>
        assert s[..n][..p] == s[..p];
        Some(p)
      case None => if s[n] == id then Some(n) else None
  }

  function RemoveFirst(s: seq<string>, id: string): seq<string> {
    match Position(s, id)
    case None => s
    case Some(p) => s[..p] + s[p + 1..]
  }

  /** `id` taken out if present, then put right behind `after`, or first of all. */
  function Place(s: seq<string>, id: string, after: Option<string>): Option<seq<string>> {
    var rest := RemoveFirst(s, id);
    match after
    case None => Some(Inserted(rest, 0, id))
    case Some(anchor) =>
      match Position(rest, anchor)
      case None => None
      case Some(p) => Some(Inserted(rest, p + 1, id))
  }

  /** Where `Place` inserts. */
  function PlaceIndex(s: seq<string>, id: string, after: Option<string>): (p: nat)
    requires Place(s, id, after).Some?
    ensures p <= |RemoveFirst(s, id)| && Place(s, id, after) == Some(Inserted(RemoveFirst(s, id), p, id))
    ensures after.Some? ==> p > 0 && RemoveFirst(s, id)[p - 1] == after.value
    ensures after.None? ==> p == 0
  {
    if after.None? then 0 else Position(RemoveFirst(s, id), after.value).value + 1
  }

  function Predecessor(s: seq<string>, i: nat): Option<string>
    requires i < |s|
  {
    if i == 0 then None else Some(s[i - 1])
  }

  // ── one placement ───────────────────────────────────────────────────────

  predicate PairAt(s: seq<string>, a: string, b: string, k: nat) {
    k + 1 < |s| && s[k] == a && s[k + 1] == b
  }

  ghost predicate Adjacent(s: seq<string>, a: string, b: string) {
    exists k: nat :: PairAt(s, a, b, k)
  }

  ghost predicate Before(s: seq<string>, a: string, b: string) {
    exists i, j | 0 <= i < j < |s| :: s[i] == a && s[j] == b
  }

  /** What removing one element of a duplicate-free list does and does not disturb. */
  lemma Removing(s: seq<string>, id: string)
    requires Unique(s)
    ensures var r := RemoveFirst(s, id);
            Unique(r) && id !in r && (forall x :: x in r <==> x in s && x != id) &&
            |r| == if id in s then |s| - 1 else |s|
  {
    var r := RemoveFirst(s, id);
    if id in s {
      var p := Position(s, id).value;
      assert forall k | 0 <= k < |r| :: r[k] == if k < p then s[k] else s[k + 1];
      forall x | x in s && x != id ensures x in r {
        var k :| 0 <= k < |s| && s[k] == x;
        assert r[if k < p then k else k - 1] == x;
      }
    }
  }

  lemma RemovedAt(s: seq<string>, id: string, k: nat)
    requires Unique(s) && k < |s| && s[k] != id
    ensures var r := RemoveFirst(s, id);
            match Position(s, id)
            case None => r == s
            case Some(p) => k != p && if k < p then k < |r| && r[k] == s[k] else k - 1 < |r| && r[k - 1] == s[k]
  {
  }

  lemma RemovingKeepsAdjacent(s: seq<string>, id: string, a: string, b: string)
    requires Unique(s) && a != id && b != id && Adjacent(s, a, b)
    ensures Adjacent(RemoveFirst(s, id), a, b)
  {
    var r := RemoveFirst(s, id);
    var k: nat :| PairAt(s, a, b, k);
    RemovedAt(s, id, k);
    RemovedAt(s, id, k + 1);
    var p := Position(s, id);
    var k' := if p.None? || k < p.value then k else k - 1;
    assert PairAt(r, a, b, k');
  }

  lemma RemovingKeepsBefore(s: seq<string>, id: string, a: string, b: string)
    requires Unique(s) && a != id && b != id && Before(s, a, b)
    ensures Before(RemoveFirst(s, id), a, b)
  {
    var r := RemoveFirst(s, id);
    var i, j :| 0 <= i < j < |s| && s[i] == a && s[j] == b;
    RemovedAt(s, id, i);
    RemovedAt(s, id, j);
    var p := Position(s, id);
    var i' := if p.None? || i < p.value then i else i - 1;
    var j' := if p.None? || j < p.value then j else j - 1;
    assert r[i'] == a && r[j'] == b;
  }

  function Inserted(r: seq<string>, p: nat, id: string): (t: seq<string>)
    requires p <= |r|
    ensures |t| == |r| + 1 && t[p] == id
  {
    r[..p] + [id] + r[p..]
  }

  lemma InsertedMembers(r: seq<string>, p: nat, id: string)
    requires p <= |r| && Unique(r) && id !in r
    ensures Unique(Inserted(r, p, id)) && forall x :: x in Inserted(r, p, id) <==> x in r || x == id
  {
    var t := Inserted(r, p, id);
    assert forall k | 0 <= k < |t| :: t[k] == if k < p then r[k] else if k == p then id else r[k - 1];
    forall x | x in r ensures x in t {
      var k :| 0 <= k < |r| && r[k] == x;
      assert t[if k < p then k else k + 1] == x;
    }
  }

  lemma InsertedAt(r: seq<string>, p: nat, id: string, k: nat)
    requires p <= |r| && k < |r|
    ensures Inserted(r, p, id)[if k < p then k else k + 1] == r[k]
  {
  }

  lemma PairStays(r: seq<string>, p: nat, id: string, k: nat)
    requires p <= |r| && k + 1 < |r| && k + 1 != p
    ensures Adjacent(Inserted(r, p, id), r[k], r[k + 1])
  {
    InsertedAt(r, p, id, k);
    InsertedAt(r, p, id, k + 1);
    var t, k' := Inserted(r, p, id), if k < p then k else k + 1;
    assert PairAt(t, r[k], r[k + 1], k');
  }

  lemma InsertingKeepsAdjacent(r: seq<string>, p: nat, id: string, a: string, b: string)
    requires p <= |r| && Adjacent(r, a, b) && (p == 0 || a != r[p - 1])
    ensures Adjacent(Inserted(r, p, id), a, b)
  {
    var k: nat :| PairAt(r, a, b, k);
    PairStays(r, p, id, k);
  }

  lemma InsertingKeepsBefore(r: seq<string>, p: nat, id: string, a: string, b: string)
    requires p <= |r| && Before(r, a, b)
    ensures Before(Inserted(r, p, id), a, b)
  {
    var t := Inserted(r, p, id);
    var i, j :| 0 <= i < j < |r| && r[i] == a && r[j] == b;
    var i', j' := if i < p then i else i + 1, if j < p then j else j + 1;
    assert t[i'] == r[i] && t[j'] == r[j];
  }

  /** A placement succeeds when its anchor is there, and puts `id` where it says. */
  lemma Placing(s: seq<string>, id: string, after: Option<string>)
    requires Unique(s) && (after.Some? ==> after.value in s && after.value != id)
    ensures Place(s, id, after).Some?
    ensures var t := Place(s, id, after).value;
            && Unique(t) && (forall x :: x in t <==> x in s || x == id)
            && |t| == (if id in s then |s| else |s| + 1)
            && (after.None? ==> t[0] == id)
            && (after.Some? ==> Adjacent(t, after.value, id))
  {
    Removing(s, id);
    var rest := RemoveFirst(s, id);
    var t := Place(s, id, after).value;
    if after.Some? {
      var p := Position(rest, after.value).value;
      assert PairAt(t, after.value, id, p);
    }
    InsertedMembers(rest, PlaceIndex(s, id, after), id);
  }

  /** And leaves every pair alone that it does not split or touch. */
  lemma PlacingKeepsAdjacent(s: seq<string>, id: string, after: Option<string>, a: string, b: string)
    requires Unique(s) && (after.Some? ==> after.value in s && after.value != id)
    requires a != id && b != id && Adjacent(s, a, b) && after != Some(a)
    ensures Place(s, id, after).Some? && Adjacent(Place(s, id, after).value, a, b)
  {
    Placing(s, id, after);
    var r, p := RemoveFirst(s, id), PlaceIndex(s, id, after);
    assert Unique(r) by { Removing(s, id); }
    assert Adjacent(r, a, b) by { RemovingKeepsAdjacent(s, id, a, b); }
    assert p == 0 || a != r[p - 1];
    InsertingKeepsAdjacent(r, p, id, a, b);
  }

  lemma PlacingKeepsBefore(s: seq<string>, id: string, after: Option<string>, a: string, b: string)
    requires Unique(s) && (after.Some? ==> after.value in s && after.value != id)
    requires a != id && b != id && Before(s, a, b)
    ensures Place(s, id, after).Some? && Before(Place(s, id, after).value, a, b)
  {
    Placing(s, id, after);
    var r, p := RemoveFirst(s, id), PlaceIndex(s, id, after);
    assert Before(r, a, b) by { RemovingKeepsBefore(s, id, a, b); }
    InsertingKeepsBefore(r, p, id, a, b);
  }

  lemma PlacingKeepsHead(s: seq<string>, id: string, after: Option<string>)
    requires Unique(s) && after.Some? && after.value in s && after.value != id && s[0] != id
    ensures Place(s, id, after).Some? && Place(s, id, after).value[0] == s[0]
  {
    Removing(s, id);
    RemovedAt(s, id, 0);
  }

  // ── a front-to-back pass ────────────────────────────────────────────────

  function Survivors(prev: seq<string>, next: seq<string>): seq<string> {
    if prev == [] then []
    else
      var last := prev[|prev| - 1];
      if last in next then Survivors(prev[..|prev| - 1], next) + [last] else Survivors(prev[..|prev| - 1], next)
  }

  /** The list after the first `n` ids of `next`: those `sent` are placed behind their predecessors. */
  function Placed(prev: seq<string>, next: seq<string>, sent: seq<bool>, n: nat): Option<seq<string>>
    requires |sent| == |next| && n <= |next|
  {
    if n == 0 then Some(Survivors(prev, next))
    else
      var before := Placed(prev, next, sent, n - 1);
      if before.None? || !sent[n - 1] then before
      else Place(before.value, next[n - 1], Predecessor(next, n - 1))
  }

  /** An id may stay unsent only if it was there behind the same predecessor. */
  ghost predicate StaysPut(prev: seq<string>, next: seq<string>, i: nat)
    requires i < |next|
  {
    exists p | 0 <= p < |prev| :: prev[p] == next[i] && Predecessor(prev, p) == Predecessor(next, i)
  }

  ghost predicate MayStay(prev: seq<string>, next: seq<string>, sent: seq<bool>, i: nat)
    requires |sent| == |next|
  {
    i < |next| && !sent[i] ==> StaysPut(prev, next, i)
  }

  ghost predicate Plan(prev: seq<string>, next: seq<string>, sent: seq<bool>) {
    && |sent| == |next| && Unique(prev) && Unique(next)
    && forall i: nat :: MayStay(prev, next, sent, i)
  }

  lemma {:induction false} SurvivorFacts(prev: seq<string>, next: seq<string>)
    requires Unique(prev)
    ensures var s := Survivors(prev, next);
            Unique(s) && forall x :: x in s <==> x in prev && x in next
  {
    if prev != [] {
      var front, last := prev[..|prev| - 1], prev[|prev| - 1];
      SurvivorFacts(front, next);
      assert forall x :: x in prev <==> x in front || x == last;
      assert last !in front;
    }
  }

  lemma {:induction false} SurvivorsKeepBefore(prev: seq<string>, next: seq<string>, a: string, b: string)
    requires a in next && b in next && Before(prev, a, b)
    ensures Before(Survivors(prev, next), a, b)
  {
    var front, last := prev[..|prev| - 1], prev[|prev| - 1];
    var s, t := Survivors(front, next), Survivors(prev, next);
    var i, j :| 0 <= i < j < |prev| && prev[i] == a && prev[j] == b;
    if j < |front| {
      assert front[i] == a && front[j] == b;
      SurvivorsKeepBefore(front, next, a, b);
      var i', j' :| 0 <= i' < j' < |s| && s[i'] == a && s[j'] == b;
      assert t[i'] == a && t[j'] == b;
    } else {
      assert front[i] == a;
      SurvivorStays(front, next, a);
      var i' :| 0 <= i' < |s| && s[i'] == a;
      assert t[i'] == a && t[|s|] == b;
    }
  }

  lemma {:induction false} SurvivorStays(prev: seq<string>, next: seq<string>, a: string)
    requires a in prev && a in next
    ensures a in Survivors(prev, next)
  {
    if prev[|prev| - 1] != a {
      SurvivorStays(prev[..|prev| - 1], next, a);
    }
  }

  lemma {:induction false} SurvivorsKeepAdjacent(prev: seq<string>, next: seq<string>, a: string, b: string)
    requires a in next && b in next && Adjacent(prev, a, b)
    ensures Adjacent(Survivors(prev, next), a, b)
  {
    var front, last := prev[..|prev| - 1], prev[|prev| - 1];
    var s, t := Survivors(front, next), Survivors(prev, next);
    var k: nat :| PairAt(prev, a, b, k);
    if k + 1 < |front| {
      assert PairAt(front, a, b, k);
      SurvivorsKeepAdjacent(front, next, a, b);
      var k': nat :| PairAt(s, a, b, k');
      assert PairAt(t, a, b, k');
    } else {
      LastSurvivor(front, next);
      assert PairAt(t, a, b, |s| - 1);
    }
  }

  lemma {:induction false} FirstSurvivor(prev: seq<string>, next: seq<string>)
    requires prev != [] && prev[0] in next
    ensures Survivors(prev, next) != [] && Survivors(prev, next)[0] == prev[0]
  {
    if |prev| > 1 {
      FirstSurvivor(prev[..|prev| - 1], next);
    }
  }

  lemma LastSurvivor(prev: seq<string>, next: seq<string>)
    requires prev != [] && prev[|prev| - 1] in next
    ensures var s := Survivors(prev, next);
            s != [] && s[|s| - 1] == prev[|prev| - 1]
  {
  }

  /** By stage `n` the `j`-th id stands behind its predecessor: it was placed there, or neither has moved. */
  ghost predicate Linked(next: seq<string>, sent: seq<bool>, n: nat, s: seq<string>, j: nat)
    requires |sent| == |next|
  {
    1 <= j < |next| && (if sent[j] then j < n else !sent[j - 1]) ==> Adjacent(s, next[j - 1], next[j])
  }

  /** Two ids never placed stand as they stood. */
  ghost predicate Ordered(prev: seq<string>, next: seq<string>, sent: seq<bool>, s: seq<string>, i: nat, j: nat)
    requires |sent| == |next|
  {
    i < |next| && j < |next| && !sent[i] && !sent[j] && Before(prev, next[i], next[j]) ==> Before(s, next[i], next[j])
  }

  ghost predicate HasMembers(prev: seq<string>, next: seq<string>, n: nat, s: seq<string>)
    requires n <= |next|
  {
    Unique(s) && forall x :: x in s <==> (x in prev && x in next) || x in next[..n]
  }

  ghost predicate HasHead(next: seq<string>, sent: seq<bool>, n: nat, s: seq<string>)
    requires |sent| == |next|
  {
    next != [] && (n > 0 || !sent[0]) ==> s != [] && s[0] == next[0]
  }

  /** What every stage of the pass keeps. */
  ghost predicate Stage(prev: seq<string>, next: seq<string>, sent: seq<bool>, n: nat, s: seq<string>)
    requires |sent| == |next| && n <= |next|
  {
    && HasMembers(prev, next, n, s) && HasHead(next, sent, n, s)
    && (forall j: nat :: Linked(next, sent, n, s, j))
    && (forall i: nat, j: nat :: Ordered(prev, next, sent, s, i, j))
  }

  lemma FirstHead(prev: seq<string>, next: seq<string>, sent: seq<bool>)
    requires Plan(prev, next, sent)
    ensures HasHead(next, sent, 0, Survivors(prev, next))
  {
    if next != [] && !sent[0] {
      assert MayStay(prev, next, sent, 0);
      var p :| 0 <= p < |prev| && prev[p] == next[0] && Predecessor(prev, p) == Predecessor(next, 0);
      FirstSurvivor(prev, next);
    }
  }

  lemma FirstLinked(prev: seq<string>, next: seq<string>, sent: seq<bool>, j: nat)
    requires Plan(prev, next, sent)
    ensures Linked(next, sent, 0, Survivors(prev, next), j)
  {
    if 1 <= j < |next| && !sent[j] && !sent[j - 1] {
      assert MayStay(prev, next, sent, j);
      var p :| 0 <= p < |prev| && prev[p] == next[j] && Predecessor(prev, p) == Predecessor(next, j);
      assert PairAt(prev, next[j - 1], next[j], p - 1);
      SurvivorsKeepAdjacent(prev, next, next[j - 1], next[j]);
    }
  }

  lemma FirstOrdered(prev: seq<string>, next: seq<string>, sent: seq<bool>, i: nat, j: nat)
    requires |sent| == |next|
    ensures Ordered(prev, next, sent, Survivors(prev, next), i, j)
  {
    if i < |next| && j < |next| && Before(prev, next[i], next[j]) {
      SurvivorsKeepBefore(prev, next, next[i], next[j]);
    }
  }

  lemma FirstStage(prev: seq<string>, next: seq<string>, sent: seq<bool>)
    requires Plan(prev, next, sent)
    ensures Stage(prev, next, sent, 0, Survivors(prev, next))
  {
    SurvivorFacts(prev, next);
    FirstHead(prev, next, sent);
    forall j: nat ensures Linked(next, sent, 0, Survivors(prev, next), j) {
      FirstLinked(prev, next, sent, j);
    }
    forall i: nat, j: nat ensures Ordered(prev, next, sent, Survivors(prev, next), i, j) {
      FirstOrdered(prev, next, sent, i, j);
    }
  }

  /** The `n`-th id put behind its predecessor, or first of all, turns `s` into `t`. */
  ghost predicate Places(next: seq<string>, n: nat, s: seq<string>, t: seq<string>) {
    && n < |next| && Unique(s) && Unique(next) && (n > 0 ==> next[n - 1] in s)
    && Place(s, next[n], Predecessor(next, n)) == Some(t)
  }

  lemma NextPlaces(prev: seq<string>, next: seq<string>, n: nat, s: seq<string>) returns (t: seq<string>)
    requires Unique(next) && n < |next| && HasMembers(prev, next, n, s)
    ensures Place(s, next[n], Predecessor(next, n)) == Some(t) && Places(next, n, s, t)
    ensures HasMembers(prev, next, n + 1, t)
  {
    assert n > 0 ==> next[..n][n - 1] == next[n - 1];
    assert next[..n + 1] == next[..n] + [next[n]];
    Placing(s, next[n], Predecessor(next, n));
    t := Place(s, next[n], Predecessor(next, n)).value;
  }

  lemma NextHead(next: seq<string>, sent: seq<bool>, n: nat, s: seq<string>, t: seq<string>)
    requires |sent| == |next| && Places(next, n, s, t) && HasHead(next, sent, n, s)
    ensures HasHead(next, sent, n + 1, t)
  {
    if n > 0 {
      PlacingKeepsHead(s, next[n], Predecessor(next, n));
    } else {
      Placing(s, next[n], None);
    }
  }

  lemma NextLinked(next: seq<string>, sent: seq<bool>, n: nat, s: seq<string>, t: seq<string>, j: nat)
    requires |sent| == |next| && Places(next, n, s, t) && sent[n] && Linked(next, sent, n, s, j)
    ensures Linked(next, sent, n + 1, t, j)
  {
    if 1 <= j < |next| && (if sent[j] then j < n + 1 else !sent[j - 1]) {
      if j == n {
        NewLink(next, n, s, t);
      } else {
        OldLink(next, n, s, t, j);
      }
    }
  }

  lemma NewLink(next: seq<string>, n: nat, s: seq<string>, t: seq<string>)
    requires Places(next, n, s, t) && n > 0
    ensures Adjacent(t, next[n - 1], next[n])
  {
    Placing(s, next[n], Predecessor(next, n));
  }

  lemma OldLink(next: seq<string>, n: nat, s: seq<string>, t: seq<string>, j: nat)
    requires Places(next, n, s, t) && 1 <= j < |next| && j != n && j - 1 != n && Adjacent(s, next[j - 1], next[j])
    ensures Adjacent(t, next[j - 1], next[j])
  {
    PlacingKeepsAdjacent(s, next[n], Predecessor(next, n), next[j - 1], next[j]);
  }

  lemma NextOrdered(prev: seq<string>, next: seq<string>, sent: seq<bool>, n: nat, s: seq<string>, t: seq<string>,
                    i: nat, j: nat)
    requires |sent| == |next| && Places(next, n, s, t) && sent[n] && Ordered(prev, next, sent, s, i, j)
    ensures Ordered(prev, next, sent, t, i, j)
  {
    if i < |next| && j < |next| && !sent[i] && !sent[j] && Before(prev, next[i], next[j]) {
      PlacingKeepsBefore(s, next[n], Predecessor(next, n), next[i], next[j]);
    }
  }

  lemma NextStage(prev: seq<string>, next: seq<string>, sent: seq<bool>, n: nat, s: seq<string>)
    requires Plan(prev, next, sent) && n < |next| && sent[n] && Stage(prev, next, sent, n, s)
    ensures Place(s, next[n], Predecessor(next, n)).Some?
    ensures Stage(prev, next, sent, n + 1, Place(s, next[n], Predecessor(next, n)).value)
  {
    var t := NextPlaces(prev, next, n, s);
    NextHead(next, sent, n, s, t);
    var m := n + 1;
    forall j: nat ensures Linked(next, sent, m, t, j) {
      NextLinked(next, sent, n, s, t, j);
    }
    forall i: nat, j: nat ensures Ordered(prev, next, sent, t, i, j) {
      NextOrdered(prev, next, sent, n, s, t, i, j);
    }
  }

  lemma SkipLinked(prev: seq<string>, next: seq<string>, sent: seq<bool>, n: nat, s: seq<string>, j: nat)
    requires |sent| == |next| && n < |next| && !sent[n] && Linked(next, sent, n, s, j)
    ensures Linked(next, sent, n + 1, s, j)
  {
  }

  lemma SkipStage(prev: seq<string>, next: seq<string>, sent: seq<bool>, n: nat, s: seq<string>)
    requires Plan(prev, next, sent) && n < |next| && !sent[n] && Stage(prev, next, sent, n, s)
    ensures Stage(prev, next, sent, n + 1, s)
  {
    assert MayStay(prev, next, sent, n);
    assert next[..n + 1] == next[..n] + [next[n]];
    var m := n + 1;
    forall j: nat ensures Linked(next, sent, m, s, j) {
      SkipLinked(prev, next, sent, n, s, j);
    }
  }

  ghost predicate StageReached(prev: seq<string>, next: seq<string>, sent: seq<bool>, n: nat, s: Option<seq<string>>)
    requires |sent| == |next| && n <= |next|
  {
    s.Some? && Stage(prev, next, sent, n, s.value)
  }

  lemma NextReached(prev: seq<string>, next: seq<string>, sent: seq<bool>, n: nat)
    requires Plan(prev, next, sent) && n < |next|
    requires StageReached(prev, next, sent, n, Placed(prev, next, sent, n))
    ensures StageReached(prev, next, sent, n + 1, Placed(prev, next, sent, n + 1))
  {
    var s := Placed(prev, next, sent, n).value;
    if sent[n] {
      NextStage(prev, next, sent, n, s);
    } else {
      SkipStage(prev, next, sent, n, s);
    }
  }

  lemma {:induction false} EveryStage(prev: seq<string>, next: seq<string>, sent: seq<bool>, n: nat)
    requires Plan(prev, next, sent) && n <= |next|
    ensures StageReached(prev, next, sent, n, Placed(prev, next, sent, n))
    decreases n
  {
    if n == 0 {
      FirstStage(prev, next, sent);
    } else {
      EveryStage(prev, next, sent, n - 1);
      NextReached(prev, next, sent, n - 1);
    }
  }

  // ── when the pass rebuilds the list ─────────────────────────────────────

  /** An id left in place although its predecessor was moved or rewritten. */
  predicate Stranded(sent: seq<bool>, i: nat)
    requires i < |sent|
  {
    i > 0 && !sent[i] && sent[i - 1]
  }

  /** The stranded ids stood in their new order before. */
  ghost predicate StrandedInOrder(prev: seq<string>, next: seq<string>, sent: seq<bool>)
    requires |sent| == |next|
  {
    forall i, j | 0 <= i < j < |next| && Stranded(sent, i) && Stranded(sent, j) :: Before(prev, next[i], next[j])
  }

  lemma UniqueBefore(s: seq<string>, i: nat, b: string)
    requires Unique(s) && i < |s|
    ensures Before(s, b, s[i]) ==> b in s[..i]
  {
    if Before(s, b, s[i]) {
      var k, j :| 0 <= k < j < |s| && s[k] == b && s[j] == s[i];
      assert s[..i][k] == b;
    }
  }

  lemma UniqueAdjacent(s: seq<string>, a: string, i: nat)
    requires Unique(s) && i < |s| && Adjacent(s, a, s[i])
    ensures i > 0 && s[i - 1] == a
  {
  }

  lemma NextTo(s: seq<string>, i: nat, b: string)
    requires Unique(s) && 0 < i < |s|
    ensures Adjacent(s, s[i - 1], b) ==> s[i] == b
  {
  }

  /** An id that is not stranded stands behind its predecessor, so it is the one due at `i`. */
  lemma NotStrandedIsDue(prev: seq<string>, next: seq<string>, sent: seq<bool>, s: seq<string>, i: nat, m: nat)
    requires Plan(prev, next, sent) && Stage(prev, next, sent, |next|, s) && |s| == |next|
    requires 1 <= i <= m < |next| && s[i - 1] == next[i - 1] && s[i] == next[m]
    ensures !Stranded(sent, m) ==> m == i
  {
    if !Stranded(sent, m) {
      assert Linked(next, sent, |next|, s, m);
      UniqueAdjacent(s, next[m - 1], i);
    }
  }

  /** With `s` right up to `i`, the id at `i` is right too. */
  lemma NextInLine(prev: seq<string>, next: seq<string>, sent: seq<bool>, s: seq<string>, i: nat)
    requires Plan(prev, next, sent) && Stage(prev, next, sent, |next|, s) && |s| == |next|
    requires StrandedInOrder(prev, next, sent)
    requires 1 <= i < |next| && forall k | 0 <= k < i :: s[k] == next[k]
    ensures s[i] == next[i]
  {
    if !Stranded(sent, i) {
      assert Linked(next, sent, |next|, s, i);
      NextTo(s, i, next[i]);
    } else {
      assert next[..|next|] == next;
      assert s[i] in s;
      var m :| 0 <= m < |next| && next[m] == s[i];
      assert m >= i;
      NotStrandedIsDue(prev, next, sent, s, i, m);
      UniqueBefore(s, i, next[i]);
      assert s[..i] == next[..i];
      assert next[i] !in next[..i];
      assert Ordered(prev, next, sent, s, i, m);
    }
  }

  lemma {:induction false} InOrderPrefix(prev: seq<string>, next: seq<string>, sent: seq<bool>, s: seq<string>, n: nat)
    requires Plan(prev, next, sent) && Stage(prev, next, sent, |next|, s) && |s| == |next|
    requires StrandedInOrder(prev, next, sent)
    requires n <= |next|
    ensures forall k | 0 <= k < n :: s[k] == next[k]
    decreases n
  {
    if n > 1 {
      InOrderPrefix(prev, next, sent, s, n - 1);
      NextInLine(prev, next, sent, s, n - 1);
    }
  }

  lemma {:induction false} UniqueNoLarger(a: seq<string>, b: seq<string>)
    requires Unique(a) && Unique(b) && forall x | x in a :: x in b
    ensures |a| <= |b|
    decreases |a|
  {
    if a != [] {
      var rest, x := a[..|a| - 1], a[|a| - 1];
      assert x in a && x !in rest && forall y | y in rest :: y in a;
      Removing(b, x);
      UniqueNoLarger(rest, RemoveFirst(b, x));
    }
  }

  /** The pass always ends with the right ids, and in the right order exactly when the stranded ones were. */
  lemma PassIsExact(prev: seq<string>, next: seq<string>, sent: seq<bool>)
    requires Plan(prev, next, sent)
    ensures var t := Placed(prev, next, sent, |next|);
            && t.Some? && Unique(t.value) && |t.value| == |next|
            && (forall x :: x in t.value <==> x in next)
            && (t.value == next <==> StrandedInOrder(prev, next, sent))
  {
    EveryStage(prev, next, sent, |next|);
    var s := Placed(prev, next, sent, |next|).value;
    assert next[..|next|] == next;
    UniqueNoLarger(s, next);
    UniqueNoLarger(next, s);
    if StrandedInOrder(prev, next, sent) {
      InOrderPrefix(prev, next, sent, s, |next|);
    }
    if s == next {
      forall i, j | 0 <= i < j < |next| && Stranded(sent, i) && Stranded(sent, j)
        ensures Before(prev, next[i], next[j])
      {
        KeptComparable(prev, next, sent, i, j);
        assert Ordered(prev, next, sent, s, j, i);
        UniqueBefore(s, i, next[j]);
      }
    }
  }

  lemma KeptComparable(prev: seq<string>, next: seq<string>, sent: seq<bool>, i: nat, j: nat)
    requires Plan(prev, next, sent) && i < j < |next| && !sent[i] && !sent[j]
    ensures Before(prev, next[i], next[j]) || Before(prev, next[j], next[i])
  {
    assert MayStay(prev, next, sent, i) && MayStay(prev, next, sent, j);
    var p :| 0 <= p < |prev| && prev[p] == next[i];
    var q :| 0 <= q < |prev| && prev[q] == next[j];
    assert p != q;
    if p < q {
      assert prev[p] == next[i] && prev[q] == next[j];
    } else {
      assert prev[q] == next[j] && prev[p] == next[i];
    }
  }

  /** Ids that keep their relative order are never stranded out of it. */
  lemma SurvivorOrderSuffices(prev: seq<string>, next: seq<string>, sent: seq<bool>)
    requires Plan(prev, next, sent)
    requires forall i, j | 0 <= i < j < |next| && next[i] in prev && next[j] in prev :: Before(prev, next[i], next[j])
    ensures StrandedInOrder(prev, next, sent)
  {
    forall i, j | 0 <= i < j < |next| && Stranded(sent, i) && Stranded(sent, j) ensures Before(prev, next[i], next[j]) {
      assert MayStay(prev, next, sent, i) && MayStay(prev, next, sent, j);
    }
  }
}
