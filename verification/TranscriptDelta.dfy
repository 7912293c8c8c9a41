/** Delta frames: diffing two transcript states and applying the frame to a copy. */
module TranscriptDelta {
  import opened Wrappers
  import opened Parts
  import opened Placement

  datatype Upsert = Upsert(after: Option<string>, entry: Entry)

  datatype Append = Append(entry: string, part: string, text: Text, len: nat)

  datatype Frame =
    | Reset(entries: seq<Entry>)
    | Delta(upsert: seq<Upsert>, append: seq<Append>, remove: seq<string>, count: nat)

  datatype Desync =
    | MissingAnchor(anchor: string)
    | MissingEntry(entry: string)
    | MissingPart(part: string)
    | LengthMismatch(have: nat, expected: nat)
    | CountMismatch(have: nat, expected: nat)

  function Ids(entries: seq<Entry>): (ids: seq<string>)
    ensures |ids| == |entries|
  {
    seq(|entries|, i requires 0 <= i < |entries| => entries[i].id)
  }

  // ── text appends ────────────────────────────────────────────────────────

  predicate SameHeader(a: Entry, b: Entry) {
    a == b.(parts := a.parts) && |a.parts| == |b.parts|
  }

  /** A scan over part pairs: failed, or the one append found so far. */
  datatype Scan = Failed | Found(append: Option<Append>)

  function ScanPair(found: Option<Append>, p: Part, n: Part, entry: string): Scan {
    if p == n then Found(found)
    else if p.TextPart? && n.TextPart? && p.id == n.id && p.text <= n.text && found.None? then
      Found(Some(Append(entry, n.id, n.text[|p.text|..], |n.text|)))
    else Failed
  }

  function ScanParts(prev: seq<Part>, next: seq<Part>, entry: string): Scan
    requires |prev| == |next|
  {
    if prev == [] then Found(None)
    else
      var n := |prev| - 1;
      match ScanParts(prev[..n], next[..n], entry)
      case Failed => Failed
      case Found(found) => ScanPair(found, prev[n], next[n], entry)
  }

  /** The change as one text append, if it is one. */
  function TextAppend(prev: Entry, next: Entry): Option<Append> {
    if !SameHeader(prev, next) then None
    else match ScanParts(prev.parts, next.parts, next.id)
      case Failed => None
      case Found(append) => append
  }

  lemma {:induction false} ScanFailsForGood(prev: seq<Part>, next: seq<Part>, entry: string, n: nat)
    requires |prev| == |next| && n <= |prev| && ScanParts(prev[..n], next[..n], entry) == Failed
    ensures ScanParts(prev, next, entry) == Failed
    decreases |prev|
  {
    if n < |prev| {
      var k := |prev| - 1;
      assert prev[..k][..n] == prev[..n] && next[..k][..n] == next[..n];
      ScanFailsForGood(prev[..k], next[..k], entry, n);
    } else {
      assert prev[..n] == prev && next[..n] == next;
    }
  }

  method TryTextAppend(prev: Entry, next: Entry) returns (append: Option<Append>)
    ensures append == TextAppend(prev, next)
  {
    if prev.id != next.id || prev.role != next.role || prev.createdAt != next.createdAt ||
       prev.deviceId != next.deviceId || prev.status != next.status ||
       prev.continuationOf != next.continuationOf || |prev.parts| != |next.parts| {
      return None;
    }
    append := None;
    var i := 0;
    while i < |prev.parts|
      invariant i <= |prev.parts|
      invariant ScanParts(prev.parts[..i], next.parts[..i], next.id) == Found(append)
    {
      var p, n := prev.parts[i], next.parts[i];
      assert prev.parts[..i + 1][..i] == prev.parts[..i] && next.parts[..i + 1][..i] == next.parts[..i];
      if p != n {
        if !(p.TextPart? && n.TextPart?) || p.id != n.id || !(p.text <= n.text) || append.Some? {
          ScanFailsForGood(prev.parts, next.parts, next.id, i + 1);
          return None;
        }
        append := Some(Append(next.id, n.id, n.text[|p.text|..], |n.text|));
      }
      i := i + 1;
    }
    assert prev.parts[..i] == prev.parts && next.parts[..i] == next.parts;
  }

  // ── diffing ─────────────────────────────────────────────────────────────

  /** Where `id` last occurs: a map built from the list keeps the last. */
  function LastIndex(entries: seq<Entry>, id: string): (i: Option<nat>)
    ensures i.Some? ==> i.value < |entries| && entries[i.value].id == id
    ensures i.None? ==> id !in Ids(entries)
  {
    if entries == [] then None
    else if entries[|entries| - 1].id == id then Some(|entries| - 1)
    else
      assert Ids(entries) == Ids(entries[..|entries| - 1]) + [entries[|entries| - 1].id];
      LastIndex(entries[..|entries| - 1], id)
  }

  function PredecessorId(entries: seq<Entry>, i: nat): Option<string>
    requires i < |entries|
  {
    if i == 0 then None else Some(entries[i - 1].id)
  }

  datatype Change = Keep | Grow(append: Append) | Send(upsert: Upsert)

  /** What the frame says about the `i`-th entry of the new state, which the old state has at `at`. */
  function ChangeFrom(prev: seq<Entry>, next: seq<Entry>, i: nat, at: Option<nat>): Change
    requires i < |next| && (at.Some? ==> at.value < |prev|)
  {
    var after := PredecessorId(next, i);
    var send := Send(Upsert(after, next[i]));
    match at
    case None => send
    case Some(p) =>
      if PredecessorId(prev, p) != after then send
      else if prev[p] == next[i] then Keep
      else match TextAppend(prev[p], next[i])
        case Some(a) => Grow(a)
        case None => send
  }

  function ChangeAt(prev: seq<Entry>, next: seq<Entry>, i: nat): Change
    requires i < |next|
  {
    ChangeFrom(prev, next, i, LastIndex(prev, next[i].id))
  }

  function Changes(prev: seq<Entry>, next: seq<Entry>): (changes: seq<Change>)
    ensures |changes| == |next|
  {
    seq(|next|, i requires 0 <= i < |next| => ChangeAt(prev, next, i))
  }

  function Upserts(changes: seq<Change>, n: nat): seq<Upsert>
    requires n <= |changes|
  {
    if n == 0 then []
    else if changes[n - 1].Send? then Upserts(changes, n - 1) + [changes[n - 1].upsert]
    else Upserts(changes, n - 1)
  }

  function Appends(changes: seq<Change>, n: nat): seq<Append>
    requires n <= |changes|
  {
    if n == 0 then []
    else if changes[n - 1].Grow? then Appends(changes, n - 1) + [changes[n - 1].append]
    else Appends(changes, n - 1)
  }

  /** Ids of entries the new state no longer has. */
  function Gone(prev: seq<Entry>, next: seq<Entry>): seq<string> {
    if prev == [] then []
    else
      var last := prev[|prev| - 1].id;
      if last in Ids(next) then Gone(prev[..|prev| - 1], next) else Gone(prev[..|prev| - 1], next) + [last]
  }

  function DiffTranscript(prev: seq<Entry>, next: seq<Entry>): Frame {
    var changes := Changes(prev, next);
    var upsert := Upserts(changes, |next|);
    if |upsert| * 2 >= (if |next| > 1 then |next| else 1) && |next| > 4 then Reset(next)
    else Delta(upsert, Appends(changes, |next|), Gone(prev, next), |next|)
  }

  method IndexById(entries: seq<Entry>) returns (byId: map<string, nat>)
    ensures forall id :: LastIndex(entries, id) == if id in byId then Some(byId[id]) else None
  {
    byId := map[];
    var i := 0;
    while i < |entries|
      invariant i <= |entries|
      invariant forall id :: LastIndex(entries[..i], id) == if id in byId then Some(byId[id]) else None
    {
      assert entries[..i + 1][..i] == entries[..i];
      byId := byId[entries[i].id := i];
      i := i + 1;
    }
    assert entries[..i] == entries;
  }

  method CollectGone(prev: seq<Entry>, next: seq<Entry>) returns (remove: seq<string>)
    ensures remove == Gone(prev, next)
  {
    var nextIds := set id | id in Ids(next);
    remove := [];
    var i := 0;
    while i < |prev|
      invariant i <= |prev|
      invariant remove == Gone(prev[..i], next)
    {
      assert prev[..i + 1][..i] == prev[..i];
      if prev[i].id !in nextIds {
        remove := remove + [prev[i].id];
      }
      i := i + 1;
    }
    assert prev[..i] == prev;
  }

  lemma ChangeOf(prev: seq<Entry>, next: seq<Entry>, i: nat, at: Option<nat>)
    requires i < |next| && at == LastIndex(prev, next[i].id)
    ensures Changes(prev, next)[i] == ChangeFrom(prev, next, i, at)
  {
  }

  /** One round of the differ's loop: what becomes of the `i`-th entry. */
  method Compare(prev: seq<Entry>, next: seq<Entry>, i: nat, at: Option<nat>) returns (change: Change)
    requires i < |next| && at == LastIndex(prev, next[i].id)
    ensures change == Changes(prev, next)[i]
  {
    ChangeOf(prev, next, i, at);
    var entry := next[i];
    var after := PredecessorId(next, i);
    if at.Some? {
      var prevAfter := PredecessorId(prev, at.value);
      if prev[at.value] == entry && prevAfter == after {
        return Keep;
      }
      if prevAfter == after {
        var textAppend := TryTextAppend(prev[at.value], entry);
        if textAppend.Some? {
          return Grow(textAppend.value);
        }
      }
    }
    return Send(Upsert(after, entry));
  }

  method Diff(prev: seq<Entry>, next: seq<Entry>) returns (frame: Frame)
    ensures frame == DiffTranscript(prev, next)
  {
    ghost var changes := Changes(prev, next);
    var prevById := IndexById(prev);
    var remove := CollectGone(prev, next);
    var upsert: seq<Upsert> := [];
    var append: seq<Append> := [];
    var i := 0;
    while i < |next|
      invariant i <= |next|
      invariant upsert == Upserts(changes, i) && append == Appends(changes, i)
    {
      var at := if next[i].id in prevById then Some(prevById[next[i].id]) else None;
      var change := Compare(prev, next, i, at);
      if change.Send? {
        upsert := upsert + [change.upsert];
      }
      if change.Grow? {
        append := append + [change.append];
      }
      i := i + 1;
    }
    if |upsert| * 2 >= (if |next| > 1 then |next| else 1) && |next| > 4 {
      return Reset(next);
    }
    return Delta(upsert, append, remove, |next|);
  }

  // ── applying ────────────────────────────────────────────────────────────

  function Retain(current: seq<Entry>, gone: seq<string>): seq<Entry> {
    if current == [] then []
    else
      var last := current[|current| - 1];
      if last.id in gone then Retain(current[..|current| - 1], gone)
      else Retain(current[..|current| - 1], gone) + [last]
  }

  /** The list without its first entry called `id`. */
  function Dropped(current: seq<Entry>, id: string): seq<Entry> {
    match Position(Ids(current), id)
    case None => current
    case Some(p) =>
      seq(|current| - 1, k requires 0 <= k < |current| - 1 => if k < p then current[k] else current[k + 1])
  }

  function InsertedEntry(rest: seq<Entry>, at: nat, entry: Entry): seq<Entry>
    requires at <= |rest|
  {
    seq(|rest| + 1, k requires 0 <= k <= |rest| =>
      if k < at then rest[k] else if k == at then entry else rest[k - 1])
  }

  /** One upsert: the old copy out, the new one in behind its anchor. */
  function ApplyUpsert(current: seq<Entry>, u: Upsert): Result<seq<Entry>, Desync> {
    var rest := Dropped(current, u.entry.id);
    match u.after
    case None => Success(InsertedEntry(rest, 0, u.entry))
    case Some(anchor) =>
      match Position(Ids(rest), anchor)
      case None => Failure(MissingAnchor(anchor))
      case Some(p) => Success(InsertedEntry(rest, p + 1, u.entry))
  }

  function ApplyUpserts(current: seq<Entry>, us: seq<Upsert>): Result<seq<Entry>, Desync> {
    if us == [] then Success(current)
    else match ApplyUpserts(current, us[..|us| - 1])
      case Failure(e) => Failure(e)
      case Success(mid) => ApplyUpsert(mid, us[|us| - 1])
  }

  /** The first text part called `id`. */
  function FindText(parts: seq<Part>, id: string): (p: Option<nat>)
    ensures p.Some? ==> p.value < |parts| && parts[p.value].TextPart? && parts[p.value].id == id
    ensures p.None? ==> forall q | q in parts :: q.TextPart? ==> q.id != id
  {
    if parts == [] then None
    else
      var n := |parts| - 1;
      match FindText(parts[..n], id)
      case Some(p) => Some(p)
      case None => if parts[n].TextPart? && parts[n].id == id then Some(n) else None
  }

  /** The list with `text` put behind the `p`-th part, a text, of its `at`-th entry. */
  function Lengthened(current: seq<Entry>, at: nat, p: nat, text: Text): seq<Entry>
    requires at < |current| && p < |current[at].parts| && current[at].parts[p].TextPart?
  {
    var target := current[at];
    var part := target.parts[p];
    current[at := target.(parts := target.parts[p := TextPart(part.id, part.text + text)])]
  }

  function ApplyAppend(current: seq<Entry>, a: Append): Result<seq<Entry>, Desync> {
    match Position(Ids(current), a.entry)
    case None => Failure(MissingEntry(a.entry))
    case Some(at) =>
      match FindText(current[at].parts, a.part)
      case None => Failure(MissingPart(a.part))
      case Some(p) =>
        var have := |current[at].parts[p].text + a.text|;
        if have != a.len then Failure(LengthMismatch(have, a.len))
        else Success(Lengthened(current, at, p, a.text))
  }

  function ApplyAppends(current: seq<Entry>, appends: seq<Append>): Result<seq<Entry>, Desync> {
    if appends == [] then Success(current)
    else match ApplyAppends(current, appends[..|appends| - 1])
      case Failure(e) => Failure(e)
      case Success(mid) => ApplyAppend(mid, appends[|appends| - 1])
  }

  function ApplyFrame(current: seq<Entry>, frame: Frame): Result<seq<Entry>, Desync> {
    match frame
    case Reset(entries) => Success(entries)
    case Delta(upsert, append, remove, count) =>
      match ApplyUpserts(Retain(current, remove), upsert)
      case Failure(e) => Failure(e)
      case Success(placed) =>
        match ApplyAppends(placed, append)
        case Failure(e) => Failure(e)
        case Success(grown) =>
          if |grown| != count then Failure(CountMismatch(|grown|, count)) else Success(grown)
  }

  // ── what a desync leaves behind ─────────────────────────────────────────

  /** The list after one upsert: an entry whose anchor is missing is out, and not in again. */
  function AfterUpsert(current: seq<Entry>, u: Upsert): seq<Entry> {
    match ApplyUpsert(current, u)
    case Success(done) => done
    case Failure(_) => Dropped(current, u.entry.id)
  }

  /** The list after the upserts up to the first that fails, that one included. */
  function AfterUpserts(current: seq<Entry>, us: seq<Upsert>): seq<Entry> {
    if us == [] then current
    else match ApplyUpserts(current, us[..|us| - 1])
      case Failure(_) => AfterUpserts(current, us[..|us| - 1])
      case Success(mid) => AfterUpsert(mid, us[|us| - 1])
  }

  /** The list after one append: the text goes in before its length is compared. */
  function AfterAppend(current: seq<Entry>, a: Append): seq<Entry> {
    match Position(Ids(current), a.entry)
    case None => current
    case Some(at) =>
      match FindText(current[at].parts, a.part)
      case None => current
      case Some(p) => Lengthened(current, at, p, a.text)
  }

  function AfterAppends(current: seq<Entry>, appends: seq<Append>): seq<Entry> {
    if appends == [] then current
    else match ApplyAppends(current, appends[..|appends| - 1])
      case Failure(_) => AfterAppends(current, appends[..|appends| - 1])
      case Success(mid) => AfterAppend(mid, appends[|appends| - 1])
  }

  /** The list a frame leaves, whether it went through or not. */
  function AfterFrame(current: seq<Entry>, frame: Frame): seq<Entry> {
    match frame
    case Reset(entries) => entries
    case Delta(upsert, append, remove, count) =>
      var kept := Retain(current, remove);
      match ApplyUpserts(kept, upsert)
      case Failure(_) => AfterUpserts(kept, upsert)
      case Success(placed) => AfterAppends(placed, append)
  }

  lemma {:induction false} UpsertFailsForGood(current: seq<Entry>, us: seq<Upsert>, n: nat)
    requires n <= |us| && ApplyUpserts(current, us[..n]).Failure?
    ensures ApplyUpserts(current, us) == ApplyUpserts(current, us[..n])
    ensures AfterUpserts(current, us) == AfterUpserts(current, us[..n])
    decreases |us|
  {
    if n < |us| {
      assert us[..|us| - 1][..n] == us[..n];
      UpsertFailsForGood(current, us[..|us| - 1], n);
    } else {
      assert us[..n] == us;
    }
  }

  lemma {:induction false} AppendFailsForGood(current: seq<Entry>, appends: seq<Append>, n: nat)
    requires n <= |appends| && ApplyAppends(current, appends[..n]).Failure?
    ensures ApplyAppends(current, appends) == ApplyAppends(current, appends[..n])
    ensures AfterAppends(current, appends) == AfterAppends(current, appends[..n])
    decreases |appends|
  {
    if n < |appends| {
      assert appends[..|appends| - 1][..n] == appends[..n];
      AppendFailsForGood(current, appends[..|appends| - 1], n);
    } else {
      assert appends[..n] == appends;
    }
  }

  lemma {:induction false} AfterGoodUpserts(current: seq<Entry>, us: seq<Upsert>)
    requires ApplyUpserts(current, us).Success?
    ensures AfterUpserts(current, us) == ApplyUpserts(current, us).value
  {
  }

  lemma {:induction false} AfterGoodAppends(current: seq<Entry>, appends: seq<Append>)
    requires ApplyAppends(current, appends).Success?
    ensures AfterAppends(current, appends) == ApplyAppends(current, appends).value
  {
  }

  /** A consumer's copy of the transcript. */
  class TranscriptCopy {
    var current: seq<Entry>

    constructor ()
      ensures current == []
    {
      current := [];
    }

    /** Applies a frame in place; a desync leaves the list as far as the frame got. */
    method Apply(frame: Frame) returns (desync: Option<Desync>)
      modifies this
      ensures current == AfterFrame(old(current), frame)
      ensures match ApplyFrame(old(current), frame)
              case Success(result) => desync.None? && current == result
              case Failure(e) => desync == Some(e)
    {
      match frame
      case Reset(entries) =>
        current := entries;
        return None;
      case Delta(upsert, append, remove, count) =>
        current := Retain(current, remove);
        desync := ApplyAllUpserts(upsert);
        if desync.Some? {
          return;
        }
        desync := ApplyAllAppends(append);
        if desync.Some? {
          return;
        }
        if |current| != count {
          return Some(CountMismatch(|current|, count));
        }
    }

    method ApplyOneUpsert(u: Upsert) returns (desync: Option<Desync>)
      modifies this
      ensures current == AfterUpsert(old(current), u)
      ensures match ApplyUpsert(old(current), u)
              case Success(_) => desync.None?
              case Failure(e) => desync == Some(e)
    {
      ghost var rest := Dropped(current, u.entry.id);
      var existing := Position(Ids(current), u.entry.id);
      if existing.Some? {
        current := current[..existing.value] + current[existing.value + 1..];
      }
      assert current == rest;
      var at := 0;
      if u.after.Some? {
        var ix := Position(Ids(current), u.after.value);
        if ix.None? {
          return Some(MissingAnchor(u.after.value));
        }
        at := ix.value + 1;
      }
      current := current[..at] + [u.entry] + current[at..];
      assert current == InsertedEntry(rest, at, u.entry);
      desync := None;
    }

    method ApplyAllUpserts(upsert: seq<Upsert>) returns (desync: Option<Desync>)
      modifies this
      ensures current == AfterUpserts(old(current), upsert)
      ensures match ApplyUpserts(old(current), upsert)
              case Success(result) => desync.None? && current == result
              case Failure(e) => desync == Some(e)
    {
      var i := 0;
      while i < |upsert|
        invariant i <= |upsert|
        invariant ApplyUpserts(old(current), upsert[..i]) == Success(current)
      {
        assert upsert[..i + 1][..i] == upsert[..i];
        desync := ApplyOneUpsert(upsert[i]);
        if desync.Some? {
          UpsertFailsForGood(old(current), upsert, i + 1);
          return;
        }
        i := i + 1;
      }
      assert upsert[..i] == upsert;
      AfterGoodUpserts(old(current), upsert);
      desync := None;
    }

    method ApplyOneAppend(a: Append) returns (desync: Option<Desync>)
      modifies this
      ensures current == AfterAppend(old(current), a)
      ensures match ApplyAppend(old(current), a)
              case Success(result) => desync.None? && current == result
              case Failure(e) => desync == Some(e)
    {
      var at := Position(Ids(current), a.entry);
      if at.None? {
        return Some(MissingEntry(a.entry));
      }
      var target := current[at.value];
      var p := FindText(target.parts, a.part);
      if p.None? {
        return Some(MissingPart(a.part));
      }
      var tail := target.parts[p.value].text + a.text;
      current := current[at.value := target.(parts := target.parts[p.value := TextPart(a.part, tail)])];
      if |tail| != a.len {
        return Some(LengthMismatch(|tail|, a.len));
      }
      desync := None;
    }

    method ApplyAllAppends(append: seq<Append>) returns (desync: Option<Desync>)
      modifies this
      ensures current == AfterAppends(old(current), append)
      ensures match ApplyAppends(old(current), append)
              case Success(result) => desync.None? && current == result
              case Failure(e) => desync == Some(e)
    {
      var i := 0;
      while i < |append|
        invariant i <= |append|
        invariant ApplyAppends(old(current), append[..i]) == Success(current)
      {
        assert append[..i + 1][..i] == append[..i];
        desync := ApplyOneAppend(append[i]);
        if desync.Some? {
          AppendFailsForGood(old(current), append, i + 1);
          return;
        }
        i := i + 1;
      }
      assert append[..i] == append;
      AfterGoodAppends(old(current), append);
      desync := None;
    }
  }
}
