/** Splitting an oversized part list into chunks under the inline cap, and joining them. */
module SplitParts {
  import opened Parts
  import opened Sequences
  import opened Utf8
  import Decimal
  import PartsFold

  /** Most bytes one entry may hold before it is continued in another. */
  const MSG_INLINE_MAX: nat := 262144

  // ── cutting a text ──────────────────────────────────────────────────────

  /** The nearest boundary at or before `end`. */
  function StepBack(t: Text, end: nat): (e: nat)
    requires end <= |t|
    ensures e <= end && IsBoundary(t, e)
    ensures forall k | e < k <= end :: !IsBoundary(t, k)
  {
    if IsBoundary(t, end) then end else StepBack(t, end - 1)
  }

  function PieceEnd(t: Text, start: nat): (end: nat)
    requires start < |t|
    ensures start < end <= |t|
  {
    var limit := if start + MSG_INLINE_MAX < |t| then start + MSG_INLINE_MAX else |t|;
    var end := StepBack(t, limit);
    if end <= start then |t| else end
  }

  function PieceId(id: string, piece: nat): string {
    if piece == 0 then id else id + "~" + Decimal.Render(piece)
  }

  function Pieces(id: string, t: Text, start: nat, piece: nat): seq<Part>
    requires start <= |t|
    decreases |t| - start
  {
    if start == |t| then []
    else
      var end := PieceEnd(t, start);
      [TextPart(PieceId(id, piece), t[start..end])] + Pieces(id, t, end, piece + 1)
  }

  predicate Oversized(p: Part) {
    p.TextPart? && |p.text| > MSG_INLINE_MAX
  }

  function PartPieces(p: Part): seq<Part> {
    if Oversized(p) then Pieces(p.id, p.text, 0, 0) else [p]
  }

  /** The parts with every oversized text cut up. */
  function Expand(parts: seq<Part>): seq<Part> {
    if parts == [] then [] else Expand(parts[..|parts| - 1]) + PartPieces(parts[|parts| - 1])
  }

  // ── packing ─────────────────────────────────────────────────────────────

  datatype Packing = Packing(chunks: seq<seq<Part>>, current: nat)

  function Packed(k: Packing, p: Part): Packing
    requires k.chunks != []
  {
    var len, n := p.ByteLen(), |k.chunks| - 1;
    if k.current > 0 && k.current + len > MSG_INLINE_MAX then Packing(k.chunks + [[p]], len)
    else Packing(k.chunks[n := k.chunks[n] + [p]], k.current + len)
  }

  function PackAll(parts: seq<Part>): (k: Packing)
    ensures k.chunks != []
  {
    if parts == [] then Packing([[]], 0) else Packed(PackAll(parts[..|parts| - 1]), parts[|parts| - 1])
  }

  function Chunks(parts: seq<Part>): seq<seq<Part>> {
    PackAll(Expand(parts)).chunks
  }

  method PushPart(chunks: seq<seq<Part>>, current: nat, part: Part) returns (chunks': seq<seq<Part>>, current': nat)
    requires chunks != []
    ensures Packing(chunks', current') == Packed(Packing(chunks, current), part)
  {
    chunks', current' := chunks, current;
    var len := part.ByteLen();
    if current' > 0 && current' + len > MSG_INLINE_MAX {
      chunks' := chunks' + [[]];
      current' := 0;
    }
    current' := current' + len;
    var last := |chunks'| - 1;
    assert [] + [part] == [part];
    chunks' := chunks'[last := chunks'[last] + [part]];
  }

  lemma {:induction false} PackMore(done: seq<Part>, p: Part)
    ensures PackAll(done + [p]) == Packed(PackAll(done), p)
  {
    assert (done + [p])[..|done|] == done;
  }

  /** Chunks an oversized text at character boundaries onto what is packed so far. */
  method PushText(chunks: seq<seq<Part>>, current: nat, id: string, text: Text, ghost done: seq<Part>)
    returns (chunks': seq<seq<Part>>, current': nat)
    requires chunks != [] && Packing(chunks, current) == PackAll(done)
    ensures Packing(chunks', current') == PackAll(done + Pieces(id, text, 0, 0))
  {
    chunks', current' := chunks, current;
    ghost var packed := done;
    var start, piece := 0, 0;
    while start < |text|
      invariant start <= |text|
      invariant packed + Pieces(id, text, start, piece) == done + Pieces(id, text, 0, 0)
      invariant Packing(chunks', current') == PackAll(packed)
    {
      var limit := if start + MSG_INLINE_MAX < |text| then start + MSG_INLINE_MAX else |text|;
      var end := limit;
      while end < |text| && !IsBoundary(text, end)
        invariant 0 <= end <= limit && StepBack(text, end) == StepBack(text, limit)
        decreases end
      {
        end := end - 1;
      }
      if end <= start {
        end := |text|;
      }
      assert end == PieceEnd(text, start);
      var sub := TextPart(PieceId(id, piece), text[start..end]);
      Regroup(packed, sub, Pieces(id, text, end, piece + 1));
      PackMore(packed, sub);
      chunks', current' := PushPart(chunks', current', sub);
      packed := packed + [sub];
      start := end;
      piece := piece + 1;
    }
    assert packed + [] == packed;
  }

  method Split(parts: seq<Part>) returns (chunks: seq<seq<Part>>)
    ensures chunks == Chunks(parts)
  {
    chunks := [[]];
    var currentBytes := 0;
    for i := 0 to |parts|
      invariant chunks != [] && Packing(chunks, currentBytes) == PackAll(Expand(parts[..i]))
    {
      var part := parts[i];
      assert parts[..i + 1][..i] == parts[..i];
      if part.TextPart? && |part.text| > MSG_INLINE_MAX {
        chunks, currentBytes := PushText(chunks, currentBytes, part.id, part.text, Expand(parts[..i]));
      } else {
        PackMore(Expand(parts[..i]), part);
        chunks, currentBytes := PushPart(chunks, currentBytes, part);
      }
    }
    assert parts[..|parts|] == parts;
  }

  /** The render-time join: all chunks in list order. */
  function Join(chunks: seq<seq<Part>>): seq<Part> {
    if chunks == [] then [] else Join(chunks[..|chunks| - 1]) + chunks[|chunks| - 1]
  }

  // ── what the pieces of a text are ───────────────────────────────────────

  /** On well-formed text the forward-progress guard never fires: a boundary lies past the start. */
  lemma GuardNeverFires(t: Text, start: nat)
    requires IsUtf8(t) && start < |t|
    ensures var limit := if start + MSG_INLINE_MAX < |t| then start + MSG_INLINE_MAX else |t|;
            start < StepBack(t, limit)
    ensures PieceEnd(t, start) <= start + MSG_INLINE_MAX && IsBoundary(t, PieceEnd(t, start))
  {
    var limit := if start + MSG_INLINE_MAX < |t| then start + MSG_INLINE_MAX else |t|;
    if limit < |t| {
      BoundaryNear(t, limit);
    }
  }

  /** A piece of a text: a well-formed, non-empty text under the cap with its own id. */
  predicate GoodPiece(p: Part, id: string, piece: nat) {
    p.TextPart? && p.id == PieceId(id, piece) && 0 < |p.text| <= MSG_INLINE_MAX && IsUtf8(p.text)
  }

  /** Pieces numbered from `piece` on. */
  predicate GoodPieces(ps: seq<Part>, id: string, piece: nat) {
    forall k | 0 <= k < |ps| :: GoodPiece(ps[k], id, piece + k)
  }

  lemma OneMorePiece(p: Part, rest: seq<Part>, id: string, piece: nat)
    requires GoodPiece(p, id, piece) && GoodPieces(rest, id, piece + 1)
    ensures GoodPieces([p] + rest, id, piece)
    ensures PartsFold.TextOf([p] + rest) == p.text + PartsFold.TextOf(rest)
  {
    forall k | 0 <= k < |[p] + rest| ensures GoodPiece(([p] + rest)[k], id, piece + k) {
      if k > 0 {
        assert GoodPiece(rest[k - 1], id, piece + 1 + (k - 1));
      }
    }
    TextOfConcat([p], rest);
    TextOfOne(p);
  }

  lemma TextOfOne(p: Part)
    ensures PartsFold.TextOf([p]) == if p.TextPart? then p.text else []
  {
    assert [p][..0] == [];
    assert PartsFold.TextOf([]) == [];
  }

  lemma CutPiece(id: string, t: Text, start: nat, end: nat, piece: nat) returns (p: Part)
    requires IsUtf8(t) && start < end <= |t| && end <= start + MSG_INLINE_MAX
    requires IsBoundary(t, start) && IsBoundary(t, end)
    ensures p == TextPart(PieceId(id, piece), t[start..end])
    ensures GoodPiece(p, id, piece) && p.text + t[end..] == t[start..]
  {
    PieceIsUtf8(t, start, end);
    p := TextPart(PieceId(id, piece), t[start..end]);
  }

  /** The pieces spell the text, cut on character boundaries, each within the cap and numbered in order. */
  lemma {:induction false} PiecesSpellText(id: string, t: Text, start: nat, piece: nat)
    requires IsUtf8(t) && start <= |t| && IsBoundary(t, start)
    ensures PartsFold.TextOf(Pieces(id, t, start, piece)) == t[start..]
    ensures GoodPieces(Pieces(id, t, start, piece), id, piece)
    decreases |t| - start
  {
    if start < |t| {
      var end := PieceEnd(t, start);
      GuardNeverFires(t, start);
      PiecesSpellText(id, t, end, piece + 1);
      var p := CutPiece(id, t, start, end, piece);
      OneMorePiece(p, Pieces(id, t, end, piece + 1), id, piece);
    }
  }

  lemma PieceIsUtf8(t: Text, start: nat, end: nat)
    requires IsUtf8(t) && start <= end <= |t| && IsBoundary(t, start) && IsBoundary(t, end)
    ensures IsUtf8(t[start..end])
  {
    CutAtBoundary(t, end);
    assert start < end ==> t[..end][start] == t[start];
    CutAtBoundary(t[..end], start);
    assert t[..end][start..] == t[start..end];
  }

  lemma {:induction false} TextOfConcat(a: seq<Part>, b: seq<Part>)
    ensures PartsFold.TextOf(a + b) == PartsFold.TextOf(a) + PartsFold.TextOf(b)
  {
    if b == [] {
      assert a + b == a;
    } else {
      assert (a + b)[..|a + b| - 1] == a + b[..|b| - 1];
      TextOfConcat(a, b[..|b| - 1]);
    }
  }

  // ── what packing keeps ──────────────────────────────────────────────────

  function Bytes(parts: seq<Part>): nat {
    if parts == [] then 0 else Bytes(parts[..|parts| - 1]) + parts[|parts| - 1].ByteLen()
  }

  lemma BytesMore(parts: seq<Part>, p: Part)
    ensures Bytes(parts + [p]) == Bytes(parts) + p.ByteLen()
  {
    assert (parts + [p])[..|parts|] == parts;
  }

  /** Within the cap, or closed by an indivisible oversized part that only empty parts precede. */
  predicate Fits(chunk: seq<Part>) {
    Bytes(chunk) <= MSG_INLINE_MAX ||
    (chunk != [] && chunk[|chunk| - 1].ByteLen() > MSG_INLINE_MAX && Bytes(chunk[..|chunk| - 1]) == 0)
  }

  /** A chunk was closed only because its successor's first part did not fit. */
  predicate Full(chunk: seq<Part>, next: seq<Part>) {
    chunk != [] && next != [] && Bytes(chunk) > 0 && Bytes(chunk) + next[0].ByteLen() > MSG_INLINE_MAX
  }

  /** The `i`-th chunk was not closed early. */
  predicate ClosedFull(chunks: seq<seq<Part>>, i: nat) {
    i + 1 < |chunks| ==> Full(chunks[i], chunks[i + 1])
  }

  predicate WellPacked(k: Packing) {
    && k.chunks != [] && k.current == Bytes(k.chunks[|k.chunks| - 1])
    && (forall i | 0 <= i < |k.chunks| :: Fits(k.chunks[i]))
    && (forall i: nat | i < |k.chunks| :: ClosedFull(k.chunks, i))
  }

  lemma JoinMore(chunks: seq<seq<Part>>, chunk: seq<Part>)
    ensures Join(chunks + [chunk]) == Join(chunks) + chunk
  {
    assert (chunks + [chunk])[..|chunks|] == chunks;
  }

  lemma OneBytes(p: Part)
    ensures Bytes([p]) == p.ByteLen() && Fits([p])
  {
    BytesMore([], p);
    assert [] + [p] == [p] && [p][..0] == [];
  }

  /** A part that does not fit starts the next chunk. */
  lemma NextChunk(k: Packing, p: Part)
    requires WellPacked(k) && k.current > 0 && k.current + p.ByteLen() > MSG_INLINE_MAX
    ensures WellPacked(Packing(k.chunks + [[p]], p.ByteLen()))
    ensures Join(k.chunks + [[p]]) == Join(k.chunks) + [p]
  {
    OneBytes(p);
    JoinMore(k.chunks, [p]);
    var next, n := k.chunks + [[p]], |k.chunks|;
    forall i: nat | i < |next| ensures ClosedFull(next, i) {
      if i + 1 < n {
        assert ClosedFull(k.chunks, i);
      } else if i + 1 == n {
        assert next[i] == k.chunks[n - 1] && next[i + 1] == [p] && Bytes([]) == 0;
      }
    }
  }

  lemma GrownChunkFits(last: seq<Part>, p: Part)
    requires Bytes(last) == 0 || Bytes(last) + p.ByteLen() <= MSG_INLINE_MAX
    ensures Fits(last + [p]) && Bytes(last + [p]) == Bytes(last) + p.ByteLen()
    ensures last != [] ==> (last + [p])[0] == last[0]
  {
    BytesMore(last, p);
    assert (last + [p])[..|last|] == last;
  }

  /** A grown last chunk that still fits leaves a good packing. */
  lemma LastChunkGrows(chunks: seq<seq<Part>>, next: seq<seq<Part>>, n: nat, current: nat, bytes: nat)
    requires WellPacked(Packing(chunks, current)) && n == |chunks| - 1 && |next| == |chunks|
    requires forall i | 0 <= i < n :: next[i] == chunks[i]
    requires next[n] != [] && Fits(next[n]) && Bytes(next[n]) == bytes
    requires chunks[n] != [] ==> next[n][0] == chunks[n][0]
    ensures WellPacked(Packing(next, bytes))
  {
    forall i: nat | i < |next| ensures ClosedFull(next, i) {
      assert ClosedFull(chunks, i);
    }
  }

  lemma JoinInLast(front: seq<seq<Part>>, last: seq<Part>, p: Part)
    ensures Join(front + [last + [p]]) == Join(front + [last]) + [p]
  {
    JoinMore(front, last);
    JoinMore(front, last + [p]);
    assert Join(front) + (last + [p]) == (Join(front) + last) + [p];
  }

  lemma SameChunk(k: Packing, p: Part)
    requires WellPacked(k) && !(k.current > 0 && k.current + p.ByteLen() > MSG_INLINE_MAX)
    ensures WellPacked(Packed(k, p))
  {
    var n := |k.chunks| - 1;
    GrownChunkFits(k.chunks[n], p);
    LastChunkGrows(k.chunks, Packed(k, p).chunks, n, k.current, Packed(k, p).current);
  }

  lemma UpdateLast<T>(s: seq<T>, x: T)
    requires s != []
    ensures s == s[..|s| - 1] + [s[|s| - 1]] && s[|s| - 1 := x] == s[..|s| - 1] + [x]
  {
  }

  lemma SameChunkJoins(k: Packing, p: Part)
    requires k.chunks != [] && !(k.current > 0 && k.current + p.ByteLen() > MSG_INLINE_MAX)
    ensures Join(Packed(k, p).chunks) == Join(k.chunks) + [p]
  {
    var n := |k.chunks| - 1;
    UpdateLast(k.chunks, k.chunks[n] + [p]);
    JoinInLast(k.chunks[..n], k.chunks[n], p);
  }

  /** A good packing of exactly these parts. */
  predicate Packs(k: Packing, parts: seq<Part>) {
    WellPacked(k) && Join(k.chunks) == parts
  }

  lemma PackedStep(k: Packing, parts: seq<Part>, p: Part)
    requires Packs(k, parts)
    ensures Packs(Packed(k, p), parts + [p])
  {
    if k.current > 0 && k.current + p.ByteLen() > MSG_INLINE_MAX {
      NextChunk(k, p);
    } else {
      SameChunk(k, p);
      SameChunkJoins(k, p);
    }
  }

  lemma EmptyPacking()
    ensures Packs(Packing([[]], 0), [])
  {
    JoinMore([], []);
  }

  lemma {:induction false} PackKeeps(parts: seq<Part>)
    ensures Packs(PackAll(parts), parts)
  {
    if parts == [] {
      EmptyPacking();
    } else {
      var front, last := parts[..|parts| - 1], parts[|parts| - 1];
      PackKeeps(front);
      PackedStep(PackAll(front), front, last);
      assert parts == front + [last];
    }
  }

  predicate AllUtf8(parts: seq<Part>) {
    forall i | 0 <= i < |parts| && parts[i].TextPart? :: IsUtf8(parts[i].text)
  }

  predicate NoneOversized(parts: seq<Part>) {
    forall i | 0 <= i < |parts| :: !Oversized(parts[i])
  }

  lemma PartPiecesKeepText(p: Part)
    requires p.TextPart? ==> IsUtf8(p.text)
    ensures PartsFold.TextOf(PartPieces(p)) == if p.TextPart? then p.text else []
    ensures AllUtf8(PartPieces(p)) && NoneOversized(PartPieces(p))
  {
    if Oversized(p) {
      PiecesSpellText(p.id, p.text, 0, 0);
      var pieces := PartPieces(p);
      assert p.text[0..] == p.text;
      forall k | 0 <= k < |pieces| ensures IsUtf8(pieces[k].text) && !Oversized(pieces[k]) {
        assert GoodPiece(pieces[k], p.id, 0 + k);
      }
    } else {
      TextOfOne(p);
    }
  }

  lemma ConcatKeepsBounds(a: seq<Part>, b: seq<Part>)
    requires AllUtf8(a) && NoneOversized(a) && AllUtf8(b) && NoneOversized(b)
    ensures AllUtf8(a + b) && NoneOversized(a + b)
  {
  }

  lemma {:induction false} ExpandKeepsText(parts: seq<Part>)
    requires AllUtf8(parts)
    ensures PartsFold.TextOf(Expand(parts)) == PartsFold.TextOf(parts)
    ensures AllUtf8(Expand(parts)) && NoneOversized(Expand(parts))
  {
    if parts != [] {
      var front, p := parts[..|parts| - 1], parts[|parts| - 1];
      assert AllUtf8(front);
      ExpandKeepsText(front);
      PartPiecesKeepText(p);
      ConcatKeepsBounds(Expand(front), PartPieces(p));
      TextOfConcat(Expand(front), PartPieces(p));
    }
  }

  lemma {:induction false} ExpandLeavesSmall(parts: seq<Part>)
    requires NoneOversized(parts)
    ensures Expand(parts) == parts
  {
    if parts != [] {
      ExpandLeavesSmall(parts[..|parts| - 1]);
    }
  }

  /**
   * Splitting then joining gives back the parts with only oversized texts cut;
   * their pieces spell the same text in well-formed pieces under the cap.
   * Every chunk is within the cap unless its last part is an indivisible
   * oversized one behind empty parts, and no chunk is closed early.
   */
  lemma SplitJoin(parts: seq<Part>)
    requires AllUtf8(parts)
    ensures var chunks := Chunks(parts);
            && Join(chunks) == Expand(parts)
            && (NoneOversized(parts) ==> Join(chunks) == parts)
            && PartsFold.TextOf(Join(chunks)) == PartsFold.TextOf(parts)
            && AllUtf8(Join(chunks)) && NoneOversized(Join(chunks))
            && (forall i | 0 <= i < |chunks| :: Fits(chunks[i]))
            && (forall i: nat | i < |chunks| :: ClosedFull(chunks, i))
  {
    PackKeeps(Expand(parts));
    ExpandKeepsText(parts);
    if NoneOversized(parts) {
      ExpandLeavesSmall(parts);
    }
  }

  // ── what the cap says of the bytes themselves ───────────────────────────

  /** What a part carries, byte for byte. */
  function Payload(p: Part): seq<Byte> {
    match p
    case TextPart(_, text) => text
    case ToolPart(_, call, _, _, output, diff, _, _, _, diffStats) =>
      call + output.GetOr([]) + diff.GetOr([]) + diffStats.GetOr([])
    case InputPart(_, _, questions, _) => questions
    case ErrorPart(_, message) => message
    case DecisionPart(_, event) => event
  }

  function PayloadOf(parts: seq<Part>): seq<Byte> {
    if parts == [] then [] else PayloadOf(parts[..|parts| - 1]) + Payload(parts[|parts| - 1])
  }

  lemma {:induction false} BytesArePayload(parts: seq<Part>)
    ensures Bytes(parts) == |PayloadOf(parts)|
    ensures |PartsFold.TextOf(parts)| <= Bytes(parts)
  {
    if parts != [] {
      BytesArePayload(parts[..|parts| - 1]);
    }
  }

  /** A chunk over the cap is one part that is no text, behind parts that carry nothing. */
  lemma FittingChunk(chunk: seq<Part>)
    requires Fits(chunk) && NoneOversized(chunk)
    ensures |PartsFold.TextOf(chunk)| <= 262_144
    ensures |PayloadOf(chunk)| <= 262_144 ||
            (chunk != [] && !chunk[|chunk| - 1].TextPart? && PayloadOf(chunk) == Payload(chunk[|chunk| - 1]))
  {
    BytesArePayload(chunk);
    if Bytes(chunk) > MSG_INLINE_MAX {
      BytesArePayload(chunk[..|chunk| - 1]);
      assert PayloadOf(chunk[..|chunk| - 1]) == [];
    }
  }

  lemma FullChunk(chunk: seq<Part>, next: seq<Part>)
    requires Full(chunk, next)
    ensures next != [] && |PayloadOf(chunk)| + |Payload(next[0])| > 262_144
  {
    BytesArePayload(chunk);
  }

  lemma {:induction false} ChunkInJoin(chunks: seq<seq<Part>>, i: nat)
    requires i < |chunks| && NoneOversized(Join(chunks))
    ensures NoneOversized(chunks[i])
  {
    forall k | 0 <= k < |chunks[i]| ensures !Oversized(chunks[i][k]) {
      PartInJoin(chunks, i, chunks[i][k]);
    }
  }

  /**
   * Every chunk carries at most a quarter of a megabyte, unless the whole of
   * it is one part that cannot be cut; and of text it never carries more. A
   * chunk ends only where the next part would have been too much.
   */
  lemma ChunksAreSmall(parts: seq<Part>, i: nat)
    requires AllUtf8(parts) && i < |Chunks(parts)|
    ensures var chunk := Chunks(parts)[i];
            && |PartsFold.TextOf(chunk)| <= 262_144
            && (|PayloadOf(chunk)| <= 262_144 ||
                (chunk != [] && !chunk[|chunk| - 1].TextPart? && PayloadOf(chunk) == Payload(chunk[|chunk| - 1])))
    ensures i + 1 < |Chunks(parts)| ==>
              var chunk, next := Chunks(parts)[i], Chunks(parts)[i + 1];
              next != [] && |PayloadOf(chunk)| + |Payload(next[0])| > 262_144
  {
    SplitJoin(parts);
    var chunks := Chunks(parts);
    ChunkInJoin(chunks, i);
    FittingChunk(chunks[i]);
    assert ClosedFull(chunks, i);
    if i + 1 < |chunks| {
      FullChunk(chunks[i], chunks[i + 1]);
    }
  }

  /** Parts whose texts are within the cap come back as they were. */
  lemma SmallTextsStayWhole(parts: seq<Part>)
    requires AllUtf8(parts) && forall i | 0 <= i < |parts| && parts[i].TextPart? :: |parts[i].text| <= 262_144
    ensures Join(Chunks(parts)) == parts
  {
    SplitJoin(parts);
  }

  lemma {:induction false} PartInJoin(chunks: seq<seq<Part>>, i: nat, p: Part)
    requires i < |chunks| && p in chunks[i]
    ensures p in Join(chunks)
  {
    var n := |chunks| - 1;
    if i < n {
      PartInJoin(chunks[..n], i, p);
    }
  }

  /** A text is cut as late as its characters allow: every piece but the last is within three bytes of the cap. */
  lemma {:induction false} PiecesAreFull(id: string, t: Text, start: nat, piece: nat, k: nat)
    requires IsUtf8(t) && start <= |t| && IsBoundary(t, start) && k + 1 < |Pieces(id, t, start, piece)|
    ensures var p := Pieces(id, t, start, piece)[k];
            p.TextPart? && |p.text| >= 262_141
    decreases |t| - start
  {
    var end := PieceEnd(t, start);
    GuardNeverFires(t, start);
    if k > 0 {
      PiecesAreFull(id, t, end, piece + 1, k - 1);
    } else {
      assert end < |t|;
      BoundaryNear(t, start + MSG_INLINE_MAX);
    }
  }
}
