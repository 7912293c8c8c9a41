/** Splitting an entry keeps the ids of its text parts apart, so the joined entry can be diffed by text appends. */
module SplitIds {
  import opened Parts
  import opened PartsFold
  import opened SplitParts
  import opened TranscriptSync
  import opened Decimal

  /** The id of the `piece`-th piece of the text that stands `i`-th in a fold. */
  function TextId(i: nat, piece: nat): string {
    PieceId(Numbered("t", i), piece)
  }

  /** Behind the leading letter a text id is digits up to its end or to the tilde. */
  lemma TextIdLetters(i: nat, piece: nat)
    ensures var id, n := TextId(i, piece), 1 + |Render(i)|;
            && |id| >= n && id[..n] == Numbered("t", i)
            && (forall k | 1 <= k < n :: IsDigit(id[k]))
            && (if piece == 0 then |id| == n else |id| > n && id[n] == '~' && id[n + 1..] == Render(piece))
  {
    var id, n := TextId(i, piece), 1 + |Render(i)|;
    assert Numbered("t", i) == ['t'] + Render(i);
    if piece != 0 {
      assert id == Numbered("t", i) + "~" + Render(piece);
    }
    forall k | 1 <= k < n ensures IsDigit(id[k]) {
      assert id[k] == Render(i)[k - 1];
    }
  }

  lemma NoShorterNumeral(i: nat, a: nat, j: nat, b: nat)
    requires TextId(i, a) == TextId(j, b)
    ensures |Render(i)| >= |Render(j)|
  {
    TextIdLetters(i, a);
    TextIdLetters(j, b);
  }

  lemma TextIdInjective(i: nat, a: nat, j: nat, b: nat)
    requires TextId(i, a) == TextId(j, b)
    ensures i == j && a == b
  {
    NoShorterNumeral(i, a, j, b);
    NoShorterNumeral(j, b, i, a);
    TextIdLetters(i, a);
    TextIdLetters(j, b);
    NumberedInjective("t", i, j);
    assert a > 0 && b > 0 ==> Value(Render(a)) == Value(Render(b));
  }

  // ── the ids of an expanded fold ─────────────────────────────────────────

  lemma PiecesBehind(id: string, t: Text, start: nat, piece: nat, x: nat)
    requires start < |t| && 0 < x < |Pieces(id, t, start, piece)|
    ensures var rest := Pieces(id, t, PieceEnd(t, start), piece + 1);
            x - 1 < |rest| && Pieces(id, t, start, piece)[x] == rest[x - 1]
  {
  }

  lemma {:induction false} PieceIdAt(id: string, t: Text, start: nat, piece: nat, x: nat)
    requires start <= |t| && x < |Pieces(id, t, start, piece)|
    ensures Pieces(id, t, start, piece)[x].id == PieceId(id, piece + x)
    decreases x
  {
    if x > 0 {
      PiecesBehind(id, t, start, piece, x);
      PieceIdAt(id, t, PieceEnd(t, start), piece + 1, x - 1);
    }
  }

  /** Text parts are pieces of the fold's `i`-th part, each once. */
  predicate PiecesOf(ps: seq<Part>, i: nat) {
    forall x | 0 <= x < |ps| && ps[x].TextPart? :: ps[x].id == TextId(i, x)
  }

  lemma PartPiecesOf(p: Part, i: nat)
    requires PartShape(p, i)
    ensures PiecesOf(PartPieces(p), i)
  {
    if Oversized(p) {
      var ps := Pieces(p.id, p.text, 0, 0);
      forall x | 0 <= x < |ps| ensures ps[x].id == TextId(i, x) {
        PieceIdAt(p.id, p.text, 0, 0, x);
      }
      assert PartPieces(p) == ps;
    } else {
      assert PartPieces(p) == [p];
      assert p.TextPart? ==> p.id == TextId(i, 0);
    }
  }

  /** Text parts are pieces of the fold's first `n` parts. */
  ghost predicate IdsBelow(ps: seq<Part>, n: nat) {
    forall x | 0 <= x < |ps| && ps[x].TextPart? :: IdBelow(ps[x].id, n)
  }

  ghost predicate IdBelow(id: string, n: nat) {
    exists i: nat, a: nat :: i < n && id == TextId(i, a)
  }

  /** A later text's piece never has an id of the earlier ones, nor of another of its pieces. */
  lemma LaterIdDiffers(id: string, n: nat, x: nat)
    requires IdBelow(id, n)
    ensures id != TextId(n, x)
  {
    if id == TextId(n, x) {
      var i: nat, a: nat :| i < n && id == TextId(i, a);
      TextIdInjective(i, a, n, x);
    }
  }

  lemma PiecesDiffer(n: nat, x: nat, y: nat)
    requires x != y
    ensures TextId(n, x) != TextId(n, y)
  {
    if TextId(n, x) == TextId(n, y) {
      TextIdInjective(n, x, n, y);
    }
  }

  lemma IdsApart(ps: seq<Part>, n: nat, more: seq<Part>, x: nat, y: nat)
    requires TextIdsUnique(ps) && IdsBelow(ps, n) && PiecesOf(more, n) && x < y < |ps + more|
    ensures (ps + more)[x].TextPart? && (ps + more)[y].TextPart? ==> (ps + more)[x].id != (ps + more)[y].id
  {
    var a, b := (ps + more)[x], (ps + more)[y];
    if a.TextPart? && b.TextPart? && y >= |ps| {
      assert b.id == TextId(n, y - |ps|);
      if x < |ps| {
        LaterIdDiffers(a.id, n, y - |ps|);
      } else {
        PiecesDiffer(n, x - |ps|, y - |ps|);
      }
    }
  }

  lemma IdStaysBelow(ps: seq<Part>, n: nat, more: seq<Part>, x: nat)
    requires IdsBelow(ps, n) && PiecesOf(more, n) && x < |ps + more| && (ps + more)[x].TextPart?
    ensures IdBelow((ps + more)[x].id, n + 1)
  {
    if x >= |ps| {
      assert (ps + more)[x].id == TextId(n, x - |ps|);
    } else {
      var i: nat, a: nat :| i < n && ps[x].id == TextId(i, a);
      assert (ps + more)[x].id == TextId(i, a);
    }
  }

  lemma AddPieces(ps: seq<Part>, n: nat, more: seq<Part>)
    requires TextIdsUnique(ps) && IdsBelow(ps, n) && PiecesOf(more, n)
    ensures TextIdsUnique(ps + more) && IdsBelow(ps + more, n + 1)
  {
    var all, m := ps + more, n + 1;
    forall x | 0 <= x < |all| && all[x].TextPart? ensures IdBelow(all[x].id, m) {
      IdStaysBelow(ps, n, more, x);
    }
    forall x, y | 0 <= x < y < |all| && all[x].TextPart? && all[y].TextPart? ensures all[x].id != all[y].id {
      IdsApart(ps, n, more, x, y);
    }
  }

  lemma {:induction false} ExpandKeepsIdsApart(parts: seq<Part>)
    requires forall i | 0 <= i < |parts| :: PartShape(parts[i], i)
    ensures TextIdsUnique(Expand(parts)) && IdsBelow(Expand(parts), |parts|)
  {
    if parts != [] {
      var n := |parts| - 1;
      ExpandKeepsIdsApart(parts[..n]);
      PartPiecesOf(parts[n], n);
      AddPieces(Expand(parts[..n]), n, PartPieces(parts[n]));
    }
  }

  /** The entry split and joined again, for any fold: its text parts have distinct ids. */
  lemma SplitFoldsAreDiffable(events: seq<Event>)
    ensures TextIdsUnique(Expand(FoldAll(events)))
  {
    FoldShape(events);
    ExpandKeepsIdsApart(FoldAll(events));
  }
}
