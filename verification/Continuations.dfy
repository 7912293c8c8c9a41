/** Entries continued in later entries: laying a split entry out, and joining it again. */
module Continuations {
  import opened Wrappers
  import opened Parts
  import Decimal
  import SplitParts

  function ContinuationId(root: string, index: nat): string {
    root + "#c" + Decimal.Render(index)
  }

  // ── joining ─────────────────────────────────────────────────────────────

  datatype Joined = Joined(out: seq<Entry>, roots: map<string, nat>)

  predicate RootsInRange(j: Joined) {
    forall r | r in j.roots :: j.roots[r] < |j.out|
  }

  function JoinStep(j: Joined, e: Entry): (r: Joined)
    requires RootsInRange(j)
    ensures RootsInRange(r)
  {
    match e.continuationOf
    case Some(root) =>
      if root in j.roots then
        var at := j.roots[root];
        j.(out := j.out[at := j.out[at].(parts := j.out[at].parts + e.parts)])
      else j.(out := j.out + [e])
    case None => Joined(j.out + [e], j.roots[e.id := |j.out|])
  }

  function JoinAll(entries: seq<Entry>): (r: Joined)
    ensures RootsInRange(r)
  {
    if entries == [] then Joined([], map[]) else JoinStep(JoinAll(entries[..|entries| - 1]), entries[|entries| - 1])
  }

  function Join(entries: seq<Entry>): seq<Entry> {
    JoinAll(entries).out
  }

  method JoinContinuationEntries(entries: seq<Entry>) returns (out: seq<Entry>)
    ensures out == Join(entries)
  {
    var any := false;
    var k := 0;
    while k < |entries| && !any
      invariant k <= |entries|
      invariant !any ==> forall i | 0 <= i < k :: entries[i].continuationOf.None?
    {
      any := entries[k].continuationOf.Some?;
      k := k + 1;
    }
    if !any {
      RootsStay(entries);
      return entries;
    }
    out := [];
    var rootIndex: map<string, nat> := map[];
    for i := 0 to |entries|
      invariant JoinAll(entries[..i]) == Joined(out, rootIndex)
    {
      var entry := entries[i];
      assert entries[..i + 1][..i] == entries[..i];
      match entry.continuationOf {
        case Some(rootId) =>
          if rootId in rootIndex {
            var at := rootIndex[rootId];
            out := out[at := out[at].(parts := out[at].parts + entry.parts)];
          } else {
            out := out + [entry];
          }
        case None =>
          rootIndex := rootIndex[entry.id := |out|];
          out := out + [entry];
      }
    }
    assert entries[..|entries|] == entries;
  }

  lemma {:induction false} RootsStay(entries: seq<Entry>)
    requires forall i | 0 <= i < |entries| :: entries[i].continuationOf.None?
    ensures Join(entries) == entries
  {
    if entries != [] {
      RootsStay(entries[..|entries| - 1]);
    }
  }

  // ── conservation ────────────────────────────────────────────────────────

  function AllParts(entries: seq<Entry>): multiset<Part> {
    if entries == [] then multiset{}
    else AllParts(entries[..|entries| - 1]) + multiset(entries[|entries| - 1].parts)
  }

  lemma {:induction false} GrowOne(out: seq<Entry>, at: nat, parts: seq<Part>)
    requires at < |out|
    ensures AllParts(out[at := out[at].(parts := out[at].parts + parts)]) == AllParts(out) + multiset(parts)
  {
    var n := |out| - 1;
    var grown := out[at := out[at].(parts := out[at].parts + parts)];
    if at < n {
      GrowOne(out[..n], at, parts);
      assert grown[..n] == out[..n][at := out[at].(parts := out[at].parts + parts)];
    } else {
      assert grown[..n] == out[..n];
      assert multiset(out[at].parts + parts) == multiset(out[at].parts) + multiset(parts);
    }
  }

  lemma PushOne(out: seq<Entry>, e: Entry)
    ensures AllParts(out + [e]) == AllParts(out) + multiset(e.parts)
  {
    assert (out + [e])[..|out|] == out;
  }

  /** Joining conserves parts: none is lost, doubled or invented. */
  lemma {:induction false} JoinConserves(entries: seq<Entry>)
    ensures AllParts(Join(entries)) == AllParts(entries)
  {
    if entries != [] {
      var front, e := entries[..|entries| - 1], entries[|entries| - 1];
      JoinConserves(front);
      var j := JoinAll(front);
      if e.continuationOf.Some? && e.continuationOf.value in j.roots {
        GrowOne(j.out, j.roots[e.continuationOf.value], e.parts);
      } else {
        PushOne(j.out, e);
      }
    }
  }

  /** The parts of root `root` as its latest entry and the continuations after it spell them, in list order. */
  function Gathered(entries: seq<Entry>, root: string): Option<seq<Part>> {
    if entries == [] then None
    else
      var e, before := entries[|entries| - 1], Gathered(entries[..|entries| - 1], root);
      if e.continuationOf.None? && e.id == root then Some(e.parts)
      else if e.continuationOf == Some(root) && before.Some? then Some(before.value + e.parts)
      else before
  }

  /** Roots are remembered where they stand. */
  predicate RootsStand(j: Joined) {
    forall r | r in j.roots ::
      j.roots[r] < |j.out| && j.out[j.roots[r]].id == r && j.out[j.roots[r]].continuationOf.None?
  }

  predicate RootsKnown(j: Joined) {
    forall k | 0 <= k < |j.out| && j.out[k].continuationOf.None? :: j.out[k].id in j.roots
  }

  lemma StepRemembers(j: Joined, e: Entry)
    requires RootsStand(j) && RootsKnown(j)
    ensures RootsStand(JoinStep(j, e)) && RootsKnown(JoinStep(j, e))
  {
    var r := JoinStep(j, e);
    forall k | 0 <= k < |r.out| && r.out[k].continuationOf.None? ensures r.out[k].id in r.roots {
      if k < |j.out| {
        assert r.out[k].id == j.out[k].id && j.out[k].continuationOf.None?;
      }
    }
  }

  lemma {:induction false} RootsAreRemembered(entries: seq<Entry>)
    ensures RootsStand(JoinAll(entries)) && RootsKnown(JoinAll(entries))
  {
    if entries != [] {
      RootsAreRemembered(entries[..|entries| - 1]);
      StepRemembers(JoinAll(entries[..|entries| - 1]), entries[|entries| - 1]);
    }
  }

  /** Each root ends with exactly its own parts followed by those of its continuations, in list order. */
  lemma {:induction false} JoinGathers(entries: seq<Entry>, root: string)
    ensures var j, g := JoinAll(entries), Gathered(entries, root);
            && (root in j.roots <==> g.Some?)
            && (g.Some? ==> j.out[j.roots[root]].id == root && j.out[j.roots[root]].parts == g.value)
  {
    if entries != [] {
      var front, e := entries[..|entries| - 1], entries[|entries| - 1];
      JoinGathers(front, root);
      RootsAreRemembered(front);
      var j := JoinAll(front);
      if e.continuationOf.Some? && e.continuationOf.value in j.roots && e.continuationOf.value != root {
        assert root in j.roots ==> j.roots[root] != j.roots[e.continuationOf.value];
      }
    }
  }

  // ── when there is nothing to join ───────────────────────────────────────

  /** No continuation stands after its root. */
  predicate Settled(entries: seq<Entry>) {
    forall i, k | 0 <= i < k < |entries| && entries[i].continuationOf.None? ::
      entries[k].continuationOf != Some(entries[i].id)
  }

  lemma {:induction false} SettledStays(entries: seq<Entry>)
    requires Settled(entries)
    ensures Join(entries) == entries
  {
    if entries != [] {
      var front, e := entries[..|entries| - 1], entries[|entries| - 1];
      SettledStays(front);
      NoRootBefore(front, e);
      assert entries == front + [e];
    }
  }

  lemma NoRootBefore(front: seq<Entry>, e: Entry)
    requires Settled(front + [e]) && Join(front) == front
    ensures forall id | id in JoinAll(front).roots :: e.continuationOf != Some(id)
  {
    RootsAreRemembered(front);
    var all := front + [e];
    forall id | id in JoinAll(front).roots ensures e.continuationOf != Some(id) {
      var at := JoinAll(front).roots[id];
      assert all[at] == front[at] && all[|front|] == e;
    }
  }

  lemma StepSettles(j: Joined, e: Entry)
    requires RootsStand(j) && RootsKnown(j) && Settled(j.out)
    ensures Settled(JoinStep(j, e).out)
  {
    var r := JoinStep(j, e);
    forall i, k | 0 <= i < k < |r.out| && r.out[i].continuationOf.None?
      ensures r.out[k].continuationOf != Some(r.out[i].id)
    {
      assert r.out[i].id == j.out[i].id && j.out[i].continuationOf.None?;
      assert k < |j.out| ==> r.out[k].continuationOf == j.out[k].continuationOf;
    }
  }

  lemma {:induction false} JoinSettles(entries: seq<Entry>)
    ensures Settled(Join(entries)) && |Join(entries)| <= |entries|
    ensures |Join(entries)| == |entries| ==> Join(entries) == entries
  {
    if entries != [] {
      JoinSettles(entries[..|entries| - 1]);
      RootsAreRemembered(entries[..|entries| - 1]);
      StepSettles(JoinAll(entries[..|entries| - 1]), entries[|entries| - 1]);
    }
  }

  /**
   * Joining settles: a joined list is left as it is, so joining twice is
   * joining once, and a list is left as it is exactly when no continuation
   * stands after its root.
   */
  lemma JoinIsIdempotent(entries: seq<Entry>)
    ensures Join(Join(entries)) == Join(entries)
    ensures Join(entries) == entries <==> Settled(entries)
  {
    JoinSettles(entries);
    SettledStays(Join(entries));
    if Settled(entries) {
      SettledStays(entries);
    }
  }

  // ── a split entry ───────────────────────────────────────────────────────

  /** The entry that holds the `index`-th chunk: the root itself, or a continuation of it. */
  function ChunkEntry(root: Entry, chunk: seq<Part>, index: nat): Entry {
    if index == 0 then root.(parts := chunk)
    else root.(id := ContinuationId(root.id, index), parts := chunk, continuationOf := Some(root.id))
  }

  function Laid(root: Entry, chunks: seq<seq<Part>>): seq<Entry> {
    if chunks == [] then []
    else Laid(root, chunks[..|chunks| - 1]) + [ChunkEntry(root, chunks[|chunks| - 1], |chunks| - 1)]
  }

  function SplitEntry(root: Entry): seq<Entry> {
    Laid(root, SplitParts.Chunks(root.parts))
  }

  function SplitEntries(roots: seq<Entry>): seq<Entry> {
    if roots == [] then [] else SplitEntries(roots[..|roots| - 1]) + SplitEntry(roots[|roots| - 1])
  }

  function Expanded(roots: seq<Entry>): (es: seq<Entry>)
    ensures |es| == |roots|
  {
    seq(|roots|, i requires 0 <= i < |roots| => roots[i].(parts := SplitParts.Expand(roots[i].parts)))
  }

  lemma {:induction false} LaidJoins(before: seq<Entry>, root: Entry, chunks: seq<seq<Part>>)
    requires root.continuationOf.None? && chunks != []
    ensures var j := JoinAll(before + Laid(root, chunks));
            && j.out == Join(before) + [root.(parts := SplitParts.Join(chunks))]
            && root.id in j.roots && j.roots[root.id] == |Join(before)|
    decreases |chunks|
  {
    var n := |chunks| - 1;
    var front, e := before + Laid(root, chunks[..n]), ChunkEntry(root, chunks[n], n);
    assert before + Laid(root, chunks) == front + [e];
    JoinSnoc(front, e);
    if n == 0 {
      assert front == before;
      assert [] + chunks[0] == chunks[0];
    } else {
      LaidJoins(before, root, chunks[..n]);
      OneMoreChunk(JoinAll(front), Join(before), root, SplitParts.Join(chunks[..n]), e);
    }
  }

  lemma JoinSnoc(entries: seq<Entry>, e: Entry)
    ensures JoinAll(entries + [e]) == JoinStep(JoinAll(entries), e)
  {
    assert (entries + [e])[..|entries|] == entries;
  }

  lemma OneMoreChunk(j: Joined, before: seq<Entry>, root: Entry, parts: seq<Part>, e: Entry)
    requires RootsInRange(j) && j.out == before + [root.(parts := parts)]
    requires root.id in j.roots && j.roots[root.id] == |before| && e.continuationOf == Some(root.id)
    ensures JoinStep(j, e) == j.(out := before + [root.(parts := parts + e.parts)])
  {
  }

  lemma SplitEntryJoins(before: seq<Entry>, root: Entry)
    requires root.continuationOf.None?
    ensures Join(before + SplitEntry(root)) == Join(before) + [root.(parts := SplitParts.Expand(root.parts))]
  {
    SplitParts.PackKeeps(SplitParts.Expand(root.parts));
    LaidJoins(before, root, SplitParts.Chunks(root.parts));
  }

  lemma ExpandedMore(roots: seq<Entry>)
    requires roots != []
    ensures var front, root := roots[..|roots| - 1], roots[|roots| - 1];
            Expanded(roots) == Expanded(front) + [root.(parts := SplitParts.Expand(root.parts))]
  {
  }

  /** Laying out split entries and joining them gives the entries back, with only oversized texts cut. */
  lemma {:induction false} SplitThenJoin(roots: seq<Entry>)
    requires forall i | 0 <= i < |roots| :: roots[i].continuationOf.None?
    ensures Join(SplitEntries(roots)) == Expanded(roots)
  {
    if roots != [] {
      var front, root := roots[..|roots| - 1], roots[|roots| - 1];
      SplitThenJoin(front);
      var before := SplitEntries(front);
      SplitEntryJoins(before, root);
      ExpandedMore(roots);
    }
  }
}
