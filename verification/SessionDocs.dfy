/** The session document: flat part maps, and the writer that streams folded parts into them. */
module SessionDocs {
  import opened Wrappers
  import opened Parts

  /** The optional tool fields that ride along with a part. */
  datatype Extras = Extras(
    output: Option<Text>,
    diff: Option<Json>,
    outputRef: Option<string>,
    outputBytes: Option<nat>,
    diffRef: Option<string>,
    diffStats: Option<Json>)
  {
    /** These fields where present, the `older` ones elsewhere: writing never clears. */
    function Over(older: Extras): Extras {
      Extras(if output.Some? then output else older.output,
             if diff.Some? then diff else older.diff,
             if outputRef.Some? then outputRef else older.outputRef,
             if outputBytes.Some? then outputBytes else older.outputBytes,
             if diffRef.Some? then diffRef else older.diffRef,
             if diffStats.Some? then diffStats else older.diffStats)
    }
  }

  const NO_EXTRAS := Extras(None, None, None, None, None, None)

  function ExtrasOf(p: Part): Extras {
    if p.ToolPart? then Extras(p.output, p.diff, p.outputRef, p.outputBytes, p.diffRef, p.diffStats) else NO_EXTRAS
  }

  /** A part as the document stores it: one map with optional fields, keyed by `kind`. */
  datatype DocPart = DocPart(
    id: string,
    kind: string,
    text: Option<Text>,
    call: Option<Json>,
    isError: Option<bool>,
    questions: Option<Json>,
    resolved: Option<bool>,
    message: Option<Text>,
    decision: Option<Json>,
    extras: Extras)

  function BareDocPart(id: string, kind: string): DocPart {
    DocPart(id, kind, None, None, None, None, None, None, None, NO_EXTRAS)
  }

  function ToDocPart(p: Part): DocPart {
    match p
    case TextPart(id, text) => BareDocPart(id, "text").(text := Some(text))
    case ToolPart(id, call, isError, resolved, _, _, _, _, _, _) =>
      BareDocPart(id, "tool").(call := Some(call), isError := if resolved then Some(isError) else None,
                               extras := ExtrasOf(p))
    case InputPart(_, requestId, questions, resolved) =>
      BareDocPart(requestId, "input").(questions := Some(questions), resolved := Some(resolved))
    case ErrorPart(id, message) => BareDocPart(id, "error").(message := Some(message))
    case DecisionPart(id, event) => BareDocPart(id, "decision").(decision := Some(event))
  }

  /** Malformed parts degrade to empty text. */
  function FromDocPart(d: DocPart): Part {
    if d.kind == "tool" then
      match d.call
      case Some(call) =>
        ToolPart(d.id, call, d.isError.GetOr(false), d.isError.Some?, d.extras.output, d.extras.diff,
                 d.extras.outputRef, d.extras.outputBytes, d.extras.diffRef, d.extras.diffStats)
      case None => TextPart(d.id, [])
    else if d.kind == "input" then InputPart(d.id, d.id, d.questions.GetOr([]), d.resolved.GetOr(false))
    else if d.kind == "error" then ErrorPart(d.id, d.message.GetOr([]))
    else if d.kind == "decision" then
      match d.decision
      case Some(event) => DecisionPart(d.id, event)
      case None => TextPart(d.id, [])
    else TextPart(d.id, d.text.GetOr([]))
  }

  function FromDocParts(ds: seq<DocPart>): (ps: seq<Part>)
    ensures |ps| == |ds|
  {
    seq(|ds|, i requires 0 <= i < |ds| => FromDocPart(ds[i]))
  }

  /** The part the document can hold: inputs answer to their request id, unresolved tools have no error flag. */
  function Canonical(p: Part): Part {
    match p
    case ToolPart(_, _, isError, resolved, _, _, _, _, _, _) => p.(isError := resolved && isError)
    case InputPart(_, requestId, questions, resolved) => InputPart(requestId, requestId, questions, resolved)
    case _ => p
  }

  /** Writing a part and reading it back gives its canonical form, and the part itself exactly when it is one. */
  lemma PartRoundTrip(p: Part)
    ensures FromDocPart(ToDocPart(p)) == Canonical(p)
    ensures FromDocPart(ToDocPart(p)) == p <==>
            (p.InputPart? ==> p.id == p.requestId) && (p.ToolPart? && !p.resolved ==> !p.isError)
  {
    KindsDiffer();
  }

  lemma KindsDiffer()
    ensures "text" != "tool" && "text" != "input" && "text" != "error" && "text" != "decision"
    ensures "tool" != "input" && "tool" != "error" && "tool" != "decision"
    ensures "input" != "error" && "input" != "decision" && "error" != "decision"
  {
    assert |"text"| == 4 && |"tool"| == 4 && |"input"| == 5 && |"error"| == 5 && |"decision"| == 8;
    assert "text"[1] == 'e' && "tool"[1] == 'o' && "input"[0] == 'i' && "error"[0] == 'e';
  }

  /** The in-place refresh: present fields overwrite, absent ones and decisions are left alone. */
  function Updated(d: DocPart, n: DocPart): DocPart {
    d.(call := if n.call.Some? then n.call else d.call,
       isError := if n.isError.Some? then n.isError else d.isError,
       questions := if n.questions.Some? then n.questions else d.questions,
       resolved := if n.resolved.Some? then n.resolved else d.resolved,
       message := if n.message.Some? then n.message else d.message,
       extras := n.extras.Over(d.extras),
       text := if n.text.Some? && d.text.Some? then n.text else d.text)
  }

  datatype DocError = EntryMissing | PartMissing(at: nat) | TextMissing

  /** What the writer thinks it wrote, and what the document holds. */
  datatype Mirror = Mirror(written: seq<Part>, parts: seq<DocPart>)

  datatype Synced = Synced(mirror: Mirror, error: Option<DocError>)

  function SyncPart(m: Mirror, i: nat, part: Part): Synced {
    if i >= |m.written| then Synced(Mirror(m.written + [part], m.parts + [ToDocPart(part)]), None)
    else
      var prev := m.written[i];
      if prev == part then Synced(m, None)
      else if prev.TextPart? && part.TextPart? && prev.text <= part.text then
        var delta := part.text[|prev.text|..];
        if delta == [] then Synced(Mirror(m.written[i := part], m.parts), None)
        else if i >= |m.parts| then Synced(m, Some(PartMissing(i)))
        else match m.parts[i].text
          case None => Synced(m, Some(TextMissing))
          case Some(t) =>
            Synced(Mirror(m.written[i := part], m.parts[i := m.parts[i].(text := Some(t + delta))]), None)
      else if i >= |m.parts| then Synced(m, Some(PartMissing(i)))
      else Synced(Mirror(m.written[i := part], m.parts[i := Updated(m.parts[i], ToDocPart(part))]), None)
  }

  /** Syncing a whole list, part by part; the first error stops it. */
  function SyncAll(m: Mirror, folded: seq<Part>): Synced {
    if folded == [] then Synced(m, None)
    else
      var n := |folded| - 1;
      var s := SyncAll(m, folded[..n]);
      if s.error.Some? then s else SyncPart(s.mirror, n, folded[n])
  }

  lemma {:induction false} ErrorStops(m: Mirror, folded: seq<Part>, n: nat)
    requires n <= |folded| && SyncAll(m, folded[..n]).error.Some?
    ensures SyncAll(m, folded) == SyncAll(m, folded[..n])
    decreases |folded|
  {
    if n == |folded| {
      assert folded[..n] == folded;
    } else {
      assert folded[..|folded| - 1][..n] == folded[..n];
      ErrorStops(m, folded[..|folded| - 1], n);
    }
  }

  datatype DocEntry = DocEntry(
    id: string,
    role: Role,
    parts: seq<DocPart>,
    createdAt: int,
    deviceId: string,
    status: Option<Status>,
    continuationOf: Option<string>)

  class SessionDoc {
    var messages: seq<DocEntry>

    constructor (messages: seq<DocEntry>)
      ensures this.messages == messages
    {
      this.messages := messages;
    }
  }

  /** Streams one assistant entry: each sync writes only what changed since the last. */
  class SegmentWriter {
    const doc: SessionDoc
    const entryIndex: nat
    var written: seq<Part>

    constructor (doc: SessionDoc, entryId: string, deviceId: string, createdAt: int)
      modifies doc
      ensures this.doc == doc && entryIndex == |old(doc.messages)| && written == []
      ensures doc.messages == old(doc.messages) +
                              [DocEntry(entryId, Assistant, [], createdAt, deviceId, Some(Streaming), None)]
    {
      this.doc := doc;
      entryIndex := |doc.messages|;
      written := [];
      new;
      doc.messages := doc.messages + [DocEntry(entryId, Assistant, [], createdAt, deviceId, Some(Streaming), None)];
    }

    /** The writer's mirror beside the parts of its entry. */
    ghost function State(): Mirror
      reads this, doc
      requires entryIndex < |doc.messages|
    {
      Mirror(written, doc.messages[entryIndex].parts)
    }

    method SetParts(parts: seq<DocPart>)
      requires entryIndex < |doc.messages|
      modifies doc
      ensures doc.messages == old(doc.messages)[entryIndex := old(doc.messages[entryIndex]).(parts := parts)]
    {
      doc.messages := doc.messages[entryIndex := doc.messages[entryIndex].(parts := parts)];
    }

    /** Diffs one part into the document. */
    method SyncOne(i: nat, part: Part) returns (error: Option<DocError>)
      requires entryIndex < |doc.messages|
      modifies this, doc
      ensures |doc.messages| == |old(doc.messages)|
      ensures Synced(State(), error) == SyncPart(old(State()), i, part)
      ensures doc.messages == old(doc.messages)[entryIndex :=
                                old(doc.messages[entryIndex]).(parts := State().parts)]
    {
      error := None;
      var parts := doc.messages[entryIndex].parts;
      if i >= |written| {
        SetParts(parts + [ToDocPart(part)]);
        written := written + [part];
      } else if written[i] != part {
        var prev := written[i];
        if prev.TextPart? && part.TextPart? && prev.text <= part.text {
          var delta := part.text[|prev.text|..];
          if delta != [] {
            if i >= |parts| {
              return Some(PartMissing(i));
            }
            match parts[i].text {
              case None => return Some(TextMissing);
              case Some(t) => SetParts(parts[i := parts[i].(text := Some(t + delta))]);
            }
          }
        } else {
          if i >= |parts| {
            return Some(PartMissing(i));
          }
          SetParts(parts[i := Updated(parts[i], ToDocPart(part))]);
        }
        written := written[i := part];
      }
    }

    /** Diffs the folded parts into the document. */
    method Sync(folded: seq<Part>) returns (error: Option<DocError>)
      modifies this, doc
      ensures entryIndex >= |old(doc.messages)| ==>
                error == Some(EntryMissing) && written == old(written) && doc.messages == old(doc.messages)
      ensures entryIndex < |old(doc.messages)| ==>
                && |doc.messages| == |old(doc.messages)|
                && Synced(State(), error) == SyncAll(old(State()), folded)
                && doc.messages == old(doc.messages)[entryIndex :=
                                     old(doc.messages[entryIndex]).(parts := State().parts)]
    {
      if entryIndex >= |doc.messages| {
        return Some(EntryMissing);
      }
      error := None;
      var i := 0;
      while i < |folded|
        invariant i <= |folded| && entryIndex < |doc.messages| == |old(doc.messages)|
        invariant error == None && SyncAll(old(State()), folded[..i]) == Synced(State(), None)
        invariant doc.messages == old(doc.messages)[entryIndex :=
                                    old(doc.messages[entryIndex]).(parts := State().parts)]
      {
        assert folded[..i + 1][..i] == folded[..i];
        error := SyncOne(i, folded[i]);
        i := i + 1;
        if error.Some? {
          ErrorStops(old(State()), folded, i);
          return;
        }
      }
      assert folded[..i] == folded;
    }

    /** Syncs the final parts and stamps a terminal status. */
    method Finish(folded: seq<Part>, status: Status) returns (error: Option<DocError>)
      modifies this, doc
      ensures entryIndex >= |old(doc.messages)| ==>
                error == Some(EntryMissing) && written == old(written) && doc.messages == old(doc.messages)
      ensures entryIndex < |old(doc.messages)| ==>
                && |doc.messages| == |old(doc.messages)|
                && Synced(State(), error) == SyncAll(old(State()), folded)
                && doc.messages == old(doc.messages)[entryIndex :=
                                     old(doc.messages[entryIndex]).(
                                       parts := State().parts,
                                       status := if error.None? then Some(status)
                                                 else old(doc.messages[entryIndex].status))]
    {
      error := Sync(folded);
      if error.None? {
        doc.messages := doc.messages[entryIndex := doc.messages[entryIndex].(status := Some(status))];
      }
    }
  }

  /**
   * Whatever a document part holds, it reads as a part of its id in canonical
   * form; as the kind it says it is, if that kind's payload is there; and as an
   * empty text if it is not.
   */
  lemma ReadsAreCanonical(d: DocPart)
    ensures var p := FromDocPart(d);
            && p.id == d.id && Canonical(p) == p
            && (p.ToolPart? <==> d.kind == "tool" && d.call.Some?)
            && (p.DecisionPart? <==> d.kind == "decision" && d.decision.Some?)
            && (p.InputPart? <==> d.kind == "input") && (p.ErrorPart? <==> d.kind == "error")
            && ((d.kind == "tool" && d.call.None?) || (d.kind == "decision" && d.decision.None?) ==>
                  p == TextPart(d.id, []))
            && FromDocPart(ToDocPart(p)) == p
  {
    KindsDiffer();
    PartRoundTrip(FromDocPart(d));
  }
}
