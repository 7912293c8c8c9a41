/** What a frame carries, entry by entry, and what a copy that has diverged cannot get past. */
module TranscriptFrames {
  import opened Wrappers
  import opened Parts
  import opened Placement
  import opened TranscriptDelta

  // ── what is sent as text, and what whole ────────────────────────────────

  /** The parts differ in one, a text that grew at its end. */
  predicate PartGrown(prev: seq<Part>, next: seq<Part>, k: nat) {
    && k < |prev| == |next|
    && prev[k].TextPart? && next[k].TextPart? && prev[k].id == next[k].id
    && prev[k].text < next[k].text
    && forall i | 0 <= i < |prev| && i != k :: prev[i] == next[i]
  }

  /** The entries differ in that, and in nothing else. */
  predicate EntryGrown(prev: Entry, next: Entry, k: nat) {
    next == prev.(parts := next.parts) && PartGrown(prev.parts, next.parts, k)
  }

  /** The append that tells of it. */
  function Growth(prev: Entry, next: Entry, k: nat): Append
    requires EntryGrown(prev, next, k)
  {
    Append(next.id, next.parts[k].id, next.parts[k].text[|prev.parts[k].text|..], |next.parts[k].text|)
  }

  predicate GrownIn(prev: seq<Part>, next: seq<Part>, k: nat, a: Append, entry: string) {
    PartGrown(prev, next, k) && a == Append(entry, next[k].id, next[k].text[|prev[k].text|..], |next[k].text|)
  }

  /** What a scan says of the parts. */
  ghost predicate ScanTells(prev: seq<Part>, next: seq<Part>, entry: string, scan: Scan) {
    match scan
    case Found(None) => prev == next
    case Found(Some(a)) => exists k :: GrownIn(prev, next, k, a, entry)
    case Failed => prev != next && forall k :: !PartGrown(prev, next, k)
  }

  lemma GrownFront(prev: seq<Part>, next: seq<Part>, k: nat)
    requires |prev| == |next| > 0 && PartGrown(prev, next, k)
    ensures var n := |prev| - 1;
            if k < n then PartGrown(prev[..n], next[..n], k) && prev[n] == next[n] else prev[..n] == next[..n]
  {
  }

  lemma {:induction false} ScanIsExact(prev: seq<Part>, next: seq<Part>, entry: string)
    requires |prev| == |next|
    ensures ScanTells(prev, next, entry, ScanParts(prev, next, entry))
  {
    if prev != [] {
      var n := |prev| - 1;
      ScanIsExact(prev[..n], next[..n], entry);
      assert prev == prev[..n] + [prev[n]] && next == next[..n] + [next[n]];
      forall k: nat | PartGrown(prev, next, k)
        ensures if k < n then PartGrown(prev[..n], next[..n], k) && prev[n] == next[n] else prev[..n] == next[..n]
      {
        GrownFront(prev, next, k);
      }
      match ScanParts(prev[..n], next[..n], entry) {
        case Failed =>
        case Found(None) =>
          if prev[n].TextPart? && next[n].TextPart? && prev[n].id == next[n].id && prev[n] != next[n] {
            assert prev[n].text <= next[n].text ==> prev[n].text < next[n].text;
            assert prev[n].text < next[n].text <==> PartGrown(prev, next, n);
            assert PartGrown(prev, next, n) ==>
                     GrownIn(prev, next, n,
                             Append(entry, next[n].id, next[n].text[|prev[n].text|..], |next[n].text|), entry);
          }
        case Found(Some(a)) =>
          var k :| GrownIn(prev[..n], next[..n], k, a, entry);
          if prev[n] == next[n] {
            assert GrownIn(prev, next, k, a, entry);
          }
      }
    }
  }

  lemma OneGrowth(prev: seq<Part>, next: seq<Part>, k: nat, j: nat)
    requires PartGrown(prev, next, k) && PartGrown(prev, next, j)
    ensures k == j
  {
    assert prev[k] != next[k];
  }

  /** A change goes as a text append exactly when it is one text grown at its end, and the append says so. */
  lemma TextAppendExactly(prev: Entry, next: Entry)
    ensures TextAppend(prev, next).Some? <==> exists k :: EntryGrown(prev, next, k)
    ensures forall k | EntryGrown(prev, next, k) :: TextAppend(prev, next) == Some(Growth(prev, next, k))
  {
    if SameHeader(prev, next) {
      ScanIsExact(prev.parts, next.parts, next.id);
      forall k: nat | EntryGrown(prev, next, k) ensures TextAppend(prev, next) == Some(Growth(prev, next, k)) {
        assert PartGrown(prev.parts, next.parts, k) && prev.parts[k] != next.parts[k];
        var a := TextAppend(prev, next).value;
        var j :| GrownIn(prev.parts, next.parts, j, a, next.id);
        OneGrowth(prev.parts, next.parts, k, j);
      }
      if TextAppend(prev, next).Some? {
        var j :| GrownIn(prev.parts, next.parts, j, TextAppend(prev, next).value, next.id);
        assert EntryGrown(prev, next, j);
      }
    }
  }

  predicate SamePlace(prev: seq<Entry>, next: seq<Entry>, p: nat, i: nat)
    requires p < |prev| && i < |next|
  {
    if i == 0 || p == 0 then i == p else prev[p - 1].id == next[i - 1].id
  }

  /**
   * What the frame says of each entry. Nothing, if it is as it was behind the
   * same predecessor; its new text alone, if that is all that changed there;
   * and the whole entry behind its predecessor in every other case.
   */
  lemma ChangeExactly(prev: seq<Entry>, next: seq<Entry>, i: nat)
    requires i < |next|
    ensures var at, change := LastIndex(prev, next[i].id), Changes(prev, next)[i];
            var known := at.Some? && SamePlace(prev, next, at.value, i);
            && (change.Keep? <==> known && prev[at.value] == next[i])
            && (change.Grow? <==> known && exists k :: EntryGrown(prev[at.value], next[i], k))
            && (known ==> forall k | EntryGrown(prev[at.value], next[i], k) ::
                  change == Grow(Growth(prev[at.value], next[i], k)))
            && (change.Send? ==> change.upsert == Upsert(if i == 0 then None else Some(next[i - 1].id), next[i]))
  {
    var at := LastIndex(prev, next[i].id);
    if at.Some? {
      TextAppendExactly(prev[at.value], next[i]);
      forall k: nat | EntryGrown(prev[at.value], next[i], k) ensures prev[at.value] != next[i] {
        assert prev[at.value].parts[k] != next[i].parts[k];
      }
    }
  }

  lemma {:induction false} UpsertsAre(changes: seq<Change>, n: nat, u: Upsert)
    requires n <= |changes|
    ensures u in Upserts(changes, n) <==> exists i | 0 <= i < n :: changes[i] == Send(u)
  {
    if n > 0 {
      UpsertsAre(changes, n - 1, u);
      assert changes[n - 1].Send? ==> changes[n - 1] == Send(changes[n - 1].upsert);
    }
  }

  lemma {:induction false} AppendsAre(changes: seq<Change>, n: nat, a: Append)
    requires n <= |changes|
    ensures a in Appends(changes, n) <==> exists i | 0 <= i < n :: changes[i] == Grow(a)
  {
    if n > 0 {
      AppendsAre(changes, n - 1, a);
      assert changes[n - 1].Grow? ==> changes[n - 1] == Grow(changes[n - 1].append);
    }
  }

  predicate DistinctIn(entries: seq<Entry>) {
    forall i, j | 0 <= i < j < |entries| :: entries[i].id != entries[j].id
  }

  /** A streaming entry costs its new text only: it goes as an append, and not whole. */
  lemma StreamedTextIsAppended(prev: seq<Entry>, next: seq<Entry>, i: nat, p: nat, k: nat)
    requires DistinctIn(prev) && DistinctIn(next) && i < |next| && p < |prev|
    requires EntryGrown(prev[p], next[i], k) && SamePlace(prev, next, p, i)
    ensures match DiffTranscript(prev, next)
            case Reset(_) => true
            case Delta(upsert, append, _, _) =>
              && Growth(prev[p], next[i], k) in append
              && forall u | u in upsert :: u.entry.id != next[i].id
  {
    var changes := Changes(prev, next);
    LastOfDistinct(prev, p);
    ChangeExactly(prev, next, i);
    AppendsAre(changes, |next|, Growth(prev[p], next[i], k));
    forall u | u in Upserts(changes, |next|) ensures u.entry.id != next[i].id {
      UpsertsAre(changes, |next|, u);
      var j :| 0 <= j < |next| && changes[j] == Send(u);
      ChangeExactly(prev, next, j);
      assert j != i;
    }
  }

  lemma {:induction false} LastOfDistinct(entries: seq<Entry>, p: nat)
    requires DistinctIn(entries) && p < |entries|
    ensures LastIndex(entries, entries[p].id) == Some(p)
  {
    var at := LastIndex(entries, entries[p].id);
    assert entries[p].id == Ids(entries)[p];
    assert at.Some?;
  }

  // ── what a diverged copy cannot get past ────────────────────────────────

  /** The text a frame appended to has the length the producer sees. */
  predicate HasText(entries: seq<Entry>, a: Append) {
    exists i, p | 0 <= i < |entries| && 0 <= p < |entries[i].parts| ::
      && entries[i].id == a.entry && entries[i].parts[p].TextPart? && entries[i].parts[p].id == a.part
      && |entries[i].parts[p].text| == a.len
  }

  lemma AppendChecks(current: seq<Entry>, a: Append)
    requires ApplyAppend(current, a).Success?
    ensures HasText(ApplyAppend(current, a).value, a)
  {
    var at := Position(Ids(current), a.entry).value;
    var p := FindText(current[at].parts, a.part).value;
    var result := ApplyAppend(current, a).value;
    assert result[at].id == a.entry && result[at].parts[p].id == a.part && |result[at].parts[p].text| == a.len;
  }

  lemma AppendElsewhere(current: seq<Entry>, a: Append, b: Append)
    requires ApplyAppend(current, a).Success? && HasText(current, b) && a.entry != b.entry
    ensures HasText(ApplyAppend(current, a).value, b)
  {
    var at := Position(Ids(current), a.entry).value;
    var i, p :| 0 <= i < |current| && 0 <= p < |current[i].parts| &&
                current[i].id == b.entry && current[i].parts[p].TextPart? && current[i].parts[p].id == b.part &&
                |current[i].parts[p].text| == b.len;
    assert i != at;
    assert ApplyAppend(current, a).value[i] == current[i];
  }

  predicate DistinctTargets(appends: seq<Append>) {
    forall i, j | 0 <= i < j < |appends| :: appends[i].entry != appends[j].entry
  }

  lemma {:induction false} AppendsCheck(current: seq<Entry>, appends: seq<Append>)
    requires DistinctTargets(appends) && ApplyAppends(current, appends).Success?
    ensures forall a | a in appends :: HasText(ApplyAppends(current, appends).value, a)
  {
    if appends != [] {
      var front, last := appends[..|appends| - 1], appends[|appends| - 1];
      AppendsCheck(current, front);
      var mid := ApplyAppends(current, front).value;
      AppendChecks(mid, last);
      forall a | a in appends ensures HasText(ApplyAppends(current, appends).value, a) {
        if a != last {
          var i :| 0 <= i < |appends| && appends[i] == a;
          assert front[i] == a;
          AppendElsewhere(mid, last, a);
        }
      }
    }
  }

  /**
   * A copy that has lost or gained an entry, or bytes of a text that grows, is
   * told so: on whatever list a frame is applied, it goes through only if the
   * result has as many entries as the producer's, and every text it appended to
   * has the length the producer sees.
   */
  lemma DivergedCopiesAreNoticed(current: seq<Entry>, frame: Frame)
    requires frame.Delta? && DistinctTargets(frame.append) && ApplyFrame(current, frame).Success?
    ensures |ApplyFrame(current, frame).value| == frame.count
    ensures forall a | a in frame.append :: HasText(ApplyFrame(current, frame).value, a)
  {
    AppendsCheck(ApplyUpserts(Retain(current, frame.remove), frame.upsert).value, frame.append);
  }

  lemma {:induction false} AppendTargets(changes: seq<Change>, next: seq<Entry>, n: nat)
    requires n <= |changes| == |next| && DistinctIn(next)
    requires forall i | 0 <= i < |changes| && changes[i].Grow? :: changes[i].append.entry == next[i].id
    ensures DistinctTargets(Appends(changes, n))
  {
    if n > 0 {
      AppendTargets(changes, next, n - 1);
      if changes[n - 1].Grow? {
        var before, last := Appends(changes, n - 1), changes[n - 1].append;
        forall i | 0 <= i < |before| ensures before[i].entry != last.entry {
          AppendsAre(changes, n - 1, before[i]);
          var j :| 0 <= j < n - 1 && changes[j] == Grow(before[i]);
        }
      }
    }
  }

  /** So it is with every frame between two states: the count is the new state's, and no entry grows twice. */
  lemma FramesCount(prev: seq<Entry>, next: seq<Entry>)
    requires DistinctIn(next)
    ensures match DiffTranscript(prev, next)
            case Reset(entries) => |entries| == |next|
            case Delta(_, append, _, count) => count == |next| && DistinctTargets(append)
  {
    var changes := Changes(prev, next);
    forall i | 0 <= i < |changes| && changes[i].Grow? ensures changes[i].append.entry == next[i].id {
      ChangeExactly(prev, next, i);
      var at := LastIndex(prev, next[i].id);
      var k :| EntryGrown(prev[at.value], next[i], k);
    }
    AppendTargets(changes, next, |next|);
  }

  predicate LandsAt(r: seq<Entry>, i: nat, u: Upsert) {
    && i < |r| && r[i] == u.entry
    && match u.after
       case None => i == 0
       case Some(anchor) => i > 0 && r[i - 1].id == anchor
  }

  /** An upsert goes in right behind its anchor, or first; one whose anchor the copy lacks is noticed. */
  lemma UpsertLandsBehind(current: seq<Entry>, u: Upsert)
    ensures match ApplyUpsert(current, u)
            case Success(r) => exists i: nat :: LandsAt(r, i, u)
            case Failure(e) =>
              u.after.Some? && e == MissingAnchor(u.after.value) &&
              forall k | 0 <= k < |current| && current[k].id != u.entry.id :: current[k].id != u.after.value
  {
    var rest := Dropped(current, u.entry.id);
    if u.after.Some? {
      var at := Position(Ids(rest), u.after.value);
      if at.Some? {
        assert LandsAt(InsertedEntry(rest, at.value + 1, u.entry), at.value + 1, u);
      } else {
        forall k | 0 <= k < |current| && current[k].id != u.entry.id ensures current[k].id != u.after.value {
          DroppedKeeps(current, u.entry.id, k);
          var j :| 0 <= j < |rest| && rest[j] == current[k];
          assert Ids(rest)[j] == rest[j].id;
        }
      }
    } else {
      assert LandsAt(InsertedEntry(rest, 0, u.entry), 0, u);
    }
  }

  lemma DroppedKeeps(current: seq<Entry>, id: string, k: nat)
    requires k < |current| && current[k].id != id
    ensures exists j | 0 <= j < |Dropped(current, id)| :: Dropped(current, id)[j] == current[k]
  {
    var at, rest := Position(Ids(current), id), Dropped(current, id);
    if at.Some? {
      if k < at.value {
        assert rest[k] == current[k];
      } else {
        assert rest[k - 1] == current[k];
      }
    } else {
      assert rest[k] == current[k];
    }
  }
}
