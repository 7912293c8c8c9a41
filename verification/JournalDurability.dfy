/** What survives every run of appends, reopens and crashes. */
module JournalDurability {
  import opened Wrappers
  import opened RunJournals

  // ── one file ────────────────────────────────────────────────────────────

  /** Writing characters without a newline grows the last line. */
  lemma {:induction false} GrowTail(s: string, t: string)
    requires '\n' !in t
    ensures Tail(s + t) == Tail(s) + t
    ensures Terminated(s + t) == Terminated(s)
    decreases |t|
  {
    if t == "" {
      assert s + t == s;
    } else {
      var front := t[..|t| - 1];
      assert t[|t| - 1] in t && forall c | c in front :: c in t;
      assert (s + t)[..|s + t| - 1] == s + front;
      GrowTail(s, front);
      assert Tail(s) + t == (Tail(s) + front) + [t[|t| - 1]];
    }
  }

  lemma EndLine(s: string)
    ensures Tail(s + "\n") == "" && Terminated(s + "\n") == Terminated(s) + [StripCr(Tail(s))]
  {
    assert (s + "\n")[..|s|] == s;
  }

  lemma {:induction false} TailWithoutNewline(s: string)
    ensures '\n' !in Tail(s)
    ensures Tail(s) == "" <==> s == "" || s[|s| - 1] == '\n'
    ensures '\r' !in s ==> '\r' !in Tail(s)
  {
    if s != "" {
      TailWithoutNewline(s[..|s| - 1]);
    }
  }

  lemma {:induction false} ParseConcat(codec: Codec, a: seq<string>, b: string)
    ensures ParseLines(codec, a + [b]) == ParseLines(codec, a) + ParseLine(codec, b)
  {
    assert (a + [b])[..|a|] == a;
  }

  /** The records are those of the terminated lines and of the tail, if it is one. */
  lemma RecordsSplit(codec: Codec, s: string)
    ensures Records(codec, s) == ParseLines(codec, Terminated(s)) + ParseLine(codec, Tail(s))
  {
    if Tail(s) == "" {
      assert Lines(s) == Terminated(s);
      assert ParseLine(codec, "") == [];
    } else {
      ParseConcat(codec, Terminated(s), Tail(s));
    }
  }

  /** Closing a torn line with a newline keeps what it parsed to. */
  lemma CloseLine(codec: Codec, s: string)
    requires '\r' !in s
    ensures Records(codec, s + "\n") == Records(codec, s) && Tail(s + "\n") == "" && '\r' !in s + "\n"
  {
    EndLine(s);
    TailWithoutNewline(s);
    assert StripCr(Tail(s)) == Tail(s) by {
      if Tail(s) != "" {
        assert Tail(s)[|Tail(s)| - 1] in Tail(s);
      }
    }
    RecordsSplit(codec, s);
    RecordsSplit(codec, s + "\n");
    ParseConcat(codec, Terminated(s), Tail(s));
    assert ParseLine(codec, "") == [];
  }

  /** The start of a line: after the closing newline, if one is due. */
  function LineStart(s: string): string {
    s + if Tail(s) == "" then "" else "\n"
  }

  lemma LineStartFacts(codec: Codec, s: string)
    requires '\r' !in s
    ensures Tail(LineStart(s)) == "" && Records(codec, LineStart(s)) == Records(codec, s) && '\r' !in LineStart(s)
  {
    if Tail(s) != "" {
      CloseLine(codec, s);
    } else {
      assert s + "" == s;
    }
  }

  /** Text without a newline, put where a line starts, adds what it parses to. */
  lemma AddTail(codec: Codec, s: string, p: string)
    requires Tail(s) == "" && '\n' !in p
    ensures Records(codec, s + p) == Records(codec, s) + ParseLine(codec, p)
  {
    GrowTail(s, p);
    RecordsSplit(codec, s);
    RecordsSplit(codec, s + p);
    assert ParseLine(codec, "") == [];
    assert "" + p == p;
    assert Records(codec, s) == ParseLines(codec, Terminated(s));
  }

  lemma PrefixParses(codec: Codec, l: Line, k: nat)
    requires GoodCodec(codec) && k <= |codec.encode(l)|
    ensures var p := codec.encode(l)[..k];
            && '\n' !in p && '\r' !in p
            && ParseLine(codec, p) == if k == |codec.encode(l)| then [l] else []
  {
    var all := codec.encode(l);
    assert forall c | c in all[..k] :: c in all;
    if k == |all| {
      assert all[..k] == all;
    } else {
      assert codec.decode(all[..k]) == None;
    }
  }

  /** A record cut short adds nothing; a whole one adds itself, newline or not. */
  lemma PartialLine(codec: Codec, s: string, l: Line, k: nat)
    requires GoodCodec(codec) && Tail(s) == "" && '\r' !in s && k <= |codec.encode(l)|
    ensures var t := s + codec.encode(l)[..k];
            '\r' !in t && Records(codec, t) == Records(codec, s) + if k == |codec.encode(l)| then [l] else []
  {
    PrefixParses(codec, l, k);
    AddTail(codec, s, codec.encode(l)[..k]);
  }

  /** The seqs of a journal are 1, 2, …, n. */
  predicate Numbered(records: seq<Line>) {
    forall i | 0 <= i < |records| :: records[i].seq_ == i + 1
  }

  lemma NumberedNext(records: seq<Line>, event: AgentEvent)
    requires Numbered(records)
    ensures NextSeq(records) == |records| + 1
    ensures Numbered(records + [Line(NextSeq(records), event)])
  {
  }

  ghost predicate GoodFile(codec: Codec, s: string) {
    '\r' !in s && Numbered(Records(codec, s))
  }

  lemma WrittenAfter(codec: Codec, s: string, event: AgentEvent, k: nat)
    requires var bytes := Written(codec, ScanTail(codec, Some(s)), event);
             k < |bytes|
    ensures var cursor := ScanTail(codec, Some(s));
            var p := codec.encode(Line(cursor.nextSeq, event));
            var bytes := Written(codec, cursor, event);
            var o := |LineStart(s)| - |s|;
            && |bytes| == o + |p| + 1
            && s + bytes == (LineStart(s) + p) + "\n"
            && s + bytes[..k] == (if k < o then s else LineStart(s) + p[..k - o])
  {
    TailWithoutNewline(s);
    var cursor := ScanTail(codec, Some(s));
    var p := codec.encode(Line(cursor.nextSeq, event));
    var bytes := Written(codec, cursor, event);
    if cursor.needsNewline {
      assert bytes == "\n" + (p + "\n") && LineStart(s) == s + "\n";
      LeadingNewline(s, p, k);
    } else {
      assert bytes == p + "\n" && LineStart(s) == s;
      NoLeadingNewline(s, p, k);
    }
  }

  lemma LeadingNewline(s: string, p: string, k: nat)
    requires k <= |p| + 1
    ensures s + ("\n" + (p + "\n")) == ((s + "\n") + p) + "\n"
    ensures s + ("\n" + (p + "\n"))[..k] == if k < 1 then s else (s + "\n") + p[..k - 1]
  {
  }

  lemma NoLeadingNewline(s: string, p: string, k: nat)
    requires k <= |p|
    ensures s + (p + "\n") == (s + p) + "\n"
    ensures s + (p + "\n")[..k] == s + p[..k]
  {
  }

  /** An append that reaches the disk whole adds its record and leaves the cursor true. */
  lemma WholeWrite(codec: Codec, s: string, event: AgentEvent)
    requires GoodCodec(codec) && GoodFile(codec, s)
    ensures var cursor := ScanTail(codec, Some(s));
            var t := s + Written(codec, cursor, event);
            && GoodFile(codec, t)
            && Records(codec, t) == Records(codec, s) + [Line(cursor.nextSeq, event)]
            && ScanTail(codec, Some(t)) == Cursor(cursor.nextSeq + 1, false)
  {
    var cursor := ScanTail(codec, Some(s));
    var l := Line(cursor.nextSeq, event);
    var p := codec.encode(l);
    WrittenAfter(codec, s, event, 0);
    LineStartFacts(codec, s);
    PartialLine(codec, LineStart(s), l, |p|);
    assert p[..|p|] == p;
    CloseLine(codec, LineStart(s) + p);
    NumberedNext(Records(codec, s), event);
  }

  lemma TornLine(codec: Codec, base: string, before: seq<Line>, event: AgentEvent, k: nat)
    requires GoodCodec(codec) && Tail(base) == "" && '\r' !in base && Records(codec, base) == before && Numbered(before)
    requires k <= |codec.encode(Line(NextSeq(before), event))|
    ensures var p := codec.encode(Line(NextSeq(before), event));
            var t := base + p[..k];
            && GoodFile(codec, t)
            && Records(codec, t) == before + (if k == |p| then [Line(NextSeq(before), event)] else [])
  {
    NumberedNext(before, event);
    PartialLine(codec, base, Line(NextSeq(before), event), k);
  }

  /**
   * An append of which only `k` characters reach the disk keeps the records
   * before it, and adds the new one exactly when all of its text is there.
   */
  lemma TornWrite(codec: Codec, s: string, event: AgentEvent, k: nat)
    requires GoodCodec(codec) && GoodFile(codec, s)
    requires k < |Written(codec, ScanTail(codec, Some(s)), event)|
    ensures var cursor := ScanTail(codec, Some(s));
            var bytes := Written(codec, cursor, event);
            var t := s + bytes[..k];
            && GoodFile(codec, t)
            && Records(codec, t) == Records(codec, s) + (if k == |bytes| - 1 then [Line(cursor.nextSeq, event)] else [])
  {
    var o := |LineStart(s)| - |s|;
    WrittenAfter(codec, s, event, k);
    LineStartFacts(codec, s);
    if k >= o {
      TornLine(codec, LineStart(s), Records(codec, s), event, k - o);
    } else {
      assert Records(codec, s) + [] == Records(codec, s);
    }
  }

  // ── a store of files ────────────────────────────────────────────────────

  /** No two of the ids share a file. */
  ghost predicate OwnFiles(ids: iset<string>) {
    forall a, b | a in ids && b in ids && SanitizeId(a) == SanitizeId(b) :: a == b
  }

  ghost predicate GoodDisk(codec: Codec, disk: map<string, string>) {
    forall path | path in disk :: GoodFile(codec, disk[path])
  }

  ghost predicate TrueCursor(codec: Codec, disk: map<string, string>, path: string, cursor: Cursor) {
    path in disk && cursor == ScanTail(codec, Some(disk[path]))
  }

  /** Files are good, and every cached cursor is what a fresh scan of its file would find. */
  ghost predicate GoodStore(codec: Codec, ids: iset<string>, s: Store) {
    && GoodDisk(codec, s.disk)
    && forall chat | chat in s.open :: chat in ids && TrueCursor(codec, s.disk, SanitizeId(chat), s.open[chat])
  }

  /** The text of a journal file; an absent one reads as empty. */
  function FileText(s: Store, path: string): string {
    FileOf(s.disk, path).GetOr("")
  }

  lemma EmptyFile(codec: Codec)
    ensures GoodFile(codec, "") && ScanTail(codec, Some("")) == Cursor(1, false) && Records(codec, "") == []
  {
  }

  lemma FileTextGood(codec: Codec, s: Store, path: string)
    requires GoodDisk(codec, s.disk)
    ensures GoodFile(codec, FileText(s, path))
  {
    EmptyFile(codec);
  }

  /** Rewriting one chat's file keeps a store good when that chat's cursor, if kept, matches the new text. */
  lemma RewriteGood(codec: Codec, ids: iset<string>, s: Store, chat: string, path: string, text: string,
                    open: map<string, Cursor>)
    requires OwnFiles(ids) && chat in ids && path == SanitizeId(chat)
    requires GoodStore(codec, ids, s) && GoodFile(codec, text)
    requires forall c | c in open && c != chat :: c in s.open && open[c] == s.open[c]
    requires chat in open ==> open[chat] == ScanTail(codec, Some(text))
    ensures GoodStore(codec, ids, Store(s.disk[path := text], open))
  {
    var disk := s.disk[path := text];
    forall c | c in open ensures c in ids && TrueCursor(codec, disk, SanitizeId(c), open[c]) {
      if c != chat {
        assert c in ids && TrueCursor(codec, s.disk, SanitizeId(c), s.open[c]);
      }
    }
  }

  lemma Overwrite(m: map<string, string>, key: string, first: string, second: string)
    ensures m[key := first][key := second] == m[key := second]
    ensures key in m ==> m[key := m[key]] == m
  {
  }

  lemma ExtendedIs(disk: map<string, string>, path: string, file: string, bytes: string)
    ensures Extended(disk[path := file], path, bytes) == disk[path := file + bytes]
  {
    Overwrite(disk, path, file, file + bytes);
  }

  /** What opening a chat's journal finds: its file, and the cursor a scan of it gives. */
  lemma OpenedFacts(codec: Codec, ids: iset<string>, s: Store, chat: string, path: string)
    requires GoodStore(codec, ids, s) && path == SanitizeId(chat)
    ensures var o := Opened(codec, s, chat);
            && chat in o.open && o.open[chat] == ScanTail(codec, Some(FileText(s, path)))
            && o.disk == s.disk[path := FileText(s, path)]
            && forall c | c in o.open && c != chat :: c in s.open && o.open[c] == s.open[c]
  {
    EmptyFile(codec);
    Overwrite(s.disk, path, "", "");
    if chat in s.open {
      assert TrueCursor(codec, s.disk, path, s.open[chat]);
    }
  }

  /** A file after an append that reached the disk whole. */
  function WholeText(codec: Codec, file: string, event: AgentEvent): string {
    file + Written(codec, ScanTail(codec, Some(file)), event)
  }

  /** A file after an append of which `k` characters reached the disk. */
  function TornText(codec: Codec, file: string, event: AgentEvent, k: nat): string {
    var bytes := Written(codec, ScanTail(codec, Some(file)), event);
    file + if k <= |bytes| then bytes[..k] else bytes
  }

  /** The store a whole append leaves, and its seq, in terms of the file's text. */
  lemma AppendShape(codec: Codec, ids: iset<string>, s: Store, chat: string, path: string, event: AgentEvent)
    requires GoodStore(codec, ids, s) && path == SanitizeId(chat)
    ensures var file := FileText(s, path);
            var next := ScanTail(codec, Some(file)).nextSeq;
            && AppendSeq(codec, s, chat) == next
            && Appended(codec, s, chat, event) ==
               Store(s.disk[path := WholeText(codec, file, event)],
                     Opened(codec, s, chat).open[chat := Cursor(next + 1, false)])
  {
    OpenedFacts(codec, ids, s, chat, path);
    var file := FileText(s, path);
    ExtendedIs(s.disk, path, file, Written(codec, ScanTail(codec, Some(file)), event));
  }

  /** The store a torn append leaves: one file torn, all handles gone. */
  function TornStore(codec: Codec, s: Store, path: string, event: AgentEvent, k: nat): Store {
    Store(s.disk[path := TornText(codec, FileText(s, path), event, k)], map[])
  }

  lemma TornShape(codec: Codec, ids: iset<string>, s: Store, chat: string, path: string, event: AgentEvent, k: nat)
    requires GoodStore(codec, ids, s) && path == SanitizeId(chat)
    ensures Torn(codec, s, chat, event, k) == TornStore(codec, s, path, event, k)
  {
    OpenedFacts(codec, ids, s, chat, path);
    var file := FileText(s, path);
    var bytes := Written(codec, ScanTail(codec, Some(file)), event);
    ExtendedIs(s.disk, path, file, if k <= |bytes| then bytes[..k] else bytes);
  }

  lemma TextElsewhere(s: Store, path: string, text: string, open: map<string, Cursor>)
    ensures var t := Store(s.disk[path := text], open);
            && t.disk.Keys == s.disk.Keys + {path} && FileText(t, path) == text
            && forall p | p != path :: FileText(t, p) == FileText(s, p)
  {
  }

  lemma WholeRecords(codec: Codec, file: string, event: AgentEvent)
    requires GoodCodec(codec) && GoodFile(codec, file)
    ensures var t, next := WholeText(codec, file, event), ScanTail(codec, Some(file)).nextSeq;
            && GoodFile(codec, t) && next == |Records(codec, file)| + 1
            && Records(codec, t) == Records(codec, file) + [Line(next, event)]
            && ScanTail(codec, Some(t)) == Cursor(next + 1, false)
  {
    WholeWrite(codec, file, event);
    NumberedNext(Records(codec, file), event);
  }

  lemma TornRecords(codec: Codec, file: string, event: AgentEvent, k: nat)
    requires GoodCodec(codec) && GoodFile(codec, file)
    ensures GoodFile(codec, TornText(codec, file, event, k))
    ensures Grown(codec, file, TornText(codec, file, event, k), event)
  {
    var bytes := Written(codec, ScanTail(codec, Some(file)), event);
    if k < |bytes| {
      TornWrite(codec, file, event, k);
      NumberedNext(Records(codec, file), event);
    } else {
      WholeIsTorn(codec, file, event, k);
      WholeRecords(codec, file, event);
    }
  }

  lemma WholeIsTorn(codec: Codec, file: string, event: AgentEvent, k: nat)
    requires k >= |Written(codec, ScanTail(codec, Some(file)), event)|
    ensures TornText(codec, file, event, k) == WholeText(codec, file, event)
  {
    var bytes := Written(codec, ScanTail(codec, Some(file)), event);
    assert bytes[..|bytes|] == bytes;
  }

  lemma AppendKeepsGood(codec: Codec, ids: iset<string>, s: Store, chat: string, path: string, event: AgentEvent)
    requires GoodCodec(codec) && OwnFiles(ids) && chat in ids && path == SanitizeId(chat) && GoodStore(codec, ids, s)
    ensures GoodStore(codec, ids, Appended(codec, s, chat, event))
  {
    AppendShape(codec, ids, s, chat, path, event);
    OpenedFacts(codec, ids, s, chat, path);
    FileTextGood(codec, s, path);
    var file := FileText(s, path);
    WholeRecords(codec, file, event);
    var open := Opened(codec, s, chat).open[chat := Cursor(ScanTail(codec, Some(file)).nextSeq + 1, false)];
    RewriteGood(codec, ids, s, chat, path, WholeText(codec, file, event), open);
  }

  /** What a whole append does to the disk and the cursors. */
  lemma AppendGood(codec: Codec, ids: iset<string>, s: Store, chat: string, path: string, event: AgentEvent)
    requires GoodCodec(codec) && OwnFiles(ids) && chat in ids && path == SanitizeId(chat) && GoodStore(codec, ids, s)
    ensures var t := Appended(codec, s, chat, event);
            && GoodStore(codec, ids, t) && t.disk.Keys == s.disk.Keys + {path}
            && AppendSeq(codec, s, chat) == |Records(codec, FileText(s, path))| + 1
            && Records(codec, FileText(t, path)) ==
               Records(codec, FileText(s, path)) + [Line(AppendSeq(codec, s, chat), event)]
            && forall p | p != path :: FileText(t, p) == FileText(s, p)
  {
    AppendKeepsGood(codec, ids, s, chat, path, event);
    AppendShape(codec, ids, s, chat, path, event);
    FileTextGood(codec, s, path);
    WholeRecords(codec, FileText(s, path), event);
    TextElsewhere(s, path, WholeText(codec, FileText(s, path), event), Appended(codec, s, chat, event).open);
  }

  lemma TornStoreGood(codec: Codec, ids: iset<string>, s: Store, chat: string, path: string, text: string)
    requires OwnFiles(ids) && chat in ids && path == SanitizeId(chat) && GoodStore(codec, ids, s)
    requires GoodFile(codec, text)
    ensures var t := Store(s.disk[path := text], map[]);
            && GoodStore(codec, ids, t) && FileText(t, path) == text
            && forall p | p != path :: FileText(t, p) == FileText(s, p)
  {
    RewriteGood(codec, ids, s, chat, path, text, map[]);
    TextElsewhere(s, path, text, map[]);
  }

  /** The file of a torn append has the records it had, and perhaps the new one. */
  ghost predicate Grown(codec: Codec, file: string, text: string, event: AgentEvent) {
    var before, after := Records(codec, file), Records(codec, text);
    after == before || after == before + [Line(|before| + 1, event)]
  }

  /** What a torn append does to the disk. */
  lemma TornGood(codec: Codec, ids: iset<string>, s: Store, chat: string, path: string, event: AgentEvent, k: nat)
    requires GoodCodec(codec) && OwnFiles(ids) && chat in ids && path == SanitizeId(chat) && GoodStore(codec, ids, s)
    ensures var t := Torn(codec, s, chat, event, k);
            && GoodStore(codec, ids, t) && Grown(codec, FileText(s, path), FileText(t, path), event)
            && forall p | p != path :: FileText(t, p) == FileText(s, p)
  {
    TornShape(codec, ids, s, chat, path, event, k);
    FileTextGood(codec, s, path);
    TornRecords(codec, FileText(s, path), event, k);
    TornStoreGood(codec, ids, s, chat, path, TornText(codec, FileText(s, path), event, k));
  }

  // ── whole runs ──────────────────────────────────────────────────────────

  datatype Step =
    | Append(chat: string, event: AgentEvent)
    | Crash(chat: string, event: AgentEvent, k: nat)
    | Reopen
    | DropHandles(kept: set<string>)

  function ChatOf(step: Step): Option<string> {
    if step.Append? || step.Crash? then Some(step.chat) else None
  }

  function Next(codec: Codec, s: Store, step: Step): Store {
    match step
    case Append(chat, event) => Appended(codec, s, chat, event)
    case Crash(chat, event, k) => Torn(codec, s, chat, event, k)
    case Reopen => s.(open := map[])
    case DropHandles(kept) => s.(open := map chat | chat in s.open && chat in kept :: s.open[chat])
  }

  function After(codec: Codec, steps: seq<Step>): Store {
    if steps == [] then Store(map[], map[])
    else Next(codec, After(codec, steps[..|steps| - 1]), steps[|steps| - 1])
  }

  /** The run only appends to journals of the given chats. */
  ghost predicate Over(ids: iset<string>, steps: seq<Step>) {
    forall i | 0 <= i < |steps| && ChatOf(steps[i]).Some? :: ChatOf(steps[i]).value in ids
  }

  /** The record the `i`-th step was acknowledged for. */
  function Acknowledged(codec: Codec, steps: seq<Step>, i: nat): Line
    requires i < |steps| && steps[i].Append?
  {
    Line(AppendSeq(codec, After(codec, steps[..i]), steps[i].chat), steps[i].event)
  }

  function RecordsOf(codec: Codec, s: Store, chat: string): seq<Line> {
    Records(codec, FileText(s, SanitizeId(chat)))
  }

  lemma StepGrows(codec: Codec, ids: iset<string>, s: Store, step: Step, path: string)
    requires GoodCodec(codec) && OwnFiles(ids) && GoodStore(codec, ids, s)
    requires ChatOf(step).Some? ==> ChatOf(step).value in ids
    ensures GoodStore(codec, ids, Next(codec, s, step))
    ensures Records(codec, FileText(s, path)) <= Records(codec, FileText(Next(codec, s, step), path))
  {
    match step {
      case Append(c, event) => AppendGood(codec, ids, s, c, SanitizeId(c), event);
      case Crash(c, event, k) => TornGood(codec, ids, s, c, SanitizeId(c), event, k);
      case _ =>
    }
  }

  /** The records a run leaves in a file. */
  function RecordsAfter(codec: Codec, steps: seq<Step>, path: string): seq<Line> {
    Records(codec, FileText(After(codec, steps), path))
  }

  lemma LastStepGrows(codec: Codec, ids: iset<string>, steps: seq<Step>, path: string)
    requires GoodCodec(codec) && OwnFiles(ids) && Over(ids, steps) && steps != []
    requires GoodStore(codec, ids, After(codec, steps[..|steps| - 1]))
    ensures GoodStore(codec, ids, After(codec, steps))
    ensures RecordsAfter(codec, steps[..|steps| - 1], path) <= RecordsAfter(codec, steps, path)
  {
    StepGrows(codec, ids, After(codec, steps[..|steps| - 1]), steps[|steps| - 1], path);
  }

  /** Along any run over ids with files of their own, cached cursors are true. */
  lemma {:induction false} RunKeepsGood(codec: Codec, ids: iset<string>, steps: seq<Step>)
    requires GoodCodec(codec) && OwnFiles(ids) && Over(ids, steps)
    ensures GoodStore(codec, ids, After(codec, steps))
  {
    if steps != [] {
      RunKeepsGood(codec, ids, steps[..|steps| - 1]);
      LastStepGrows(codec, ids, steps, "");
    }
  }

  /** And no record of any file is lost. */
  lemma {:induction false} RunGrows(codec: Codec, ids: iset<string>, steps: seq<Step>, n: nat, path: string)
    requires GoodCodec(codec) && OwnFiles(ids) && Over(ids, steps) && n <= |steps|
    ensures RecordsAfter(codec, steps[..n], path) <= RecordsAfter(codec, steps, path)
    decreases |steps|
  {
    if n == |steps| {
      assert steps[..n] == steps;
    } else {
      var front := steps[..|steps| - 1];
      assert front[..n] == steps[..n];
      RunGrows(codec, ids, front, n, path);
      RunKeepsGood(codec, ids, front);
      LastStepGrows(codec, ids, steps, path);
    }
  }

  /** Along such a run every journal is numbered 1..n, every cached cursor is true, and records are only added. */
  lemma RunGood(codec: Codec, ids: iset<string>, steps: seq<Step>, n: nat, chat: string)
    requires GoodCodec(codec) && OwnFiles(ids) && Over(ids, steps) && n <= |steps|
    ensures GoodStore(codec, ids, After(codec, steps)) && Numbered(RecordsOf(codec, After(codec, steps), chat))
    ensures RecordsOf(codec, After(codec, steps[..n]), chat) <= RecordsOf(codec, After(codec, steps), chat)
  {
    RunKeepsGood(codec, ids, steps);
    RunGrows(codec, ids, steps, n, SanitizeId(chat));
    FileTextGood(codec, After(codec, steps), SanitizeId(chat));
  }

  /** The `i`-th append is in its journal at the place its seq names. */
  ghost predicate InPlace(codec: Codec, steps: seq<Step>, i: nat)
    requires i < |steps| && steps[i].Append?
  {
    var l, all := Acknowledged(codec, steps, i), RecordsOf(codec, After(codec, steps), steps[i].chat);
    1 <= l.seq_ <= |all| && all[l.seq_ - 1] == l
  }

  ghost predicate AllInPlace(codec: Codec, steps: seq<Step>) {
    forall i | 0 <= i < |steps| && steps[i].Append? :: InPlace(codec, steps, i)
  }

  lemma AfterUpto(codec: Codec, steps: seq<Step>, i: nat)
    requires i < |steps|
    ensures After(codec, steps[..i + 1]) == Next(codec, After(codec, steps[..i]), steps[i])
  {
    var upto := steps[..i + 1];
    assert upto[..i] == steps[..i] && upto[|upto| - 1] == steps[i];
  }

  lemma AckedRecord(codec: Codec, ids: iset<string>, steps: seq<Step>, i: nat, path: string)
    requires GoodCodec(codec) && OwnFiles(ids) && Over(ids, steps) && i < |steps| && steps[i].Append?
    requires path == SanitizeId(steps[i].chat)
    ensures var l, before := Acknowledged(codec, steps, i), Records(codec, FileText(After(codec, steps[..i]), path));
            && l.seq_ == |before| + 1
            && Records(codec, FileText(After(codec, steps[..i + 1]), path)) == before + [l]
  {
    AfterUpto(codec, steps, i);
    assert ChatOf(steps[i]).value in ids;
    RunKeepsGood(codec, ids, steps[..i]);
    var before := After(codec, steps[..i]);
    AppendGood(codec, ids, before, steps[i].chat, path, steps[i].event);
  }

  /**
   * Journal durability: over any interleaving of appends, reopens, dropped
   * handles and torn writes in which no two chats share a file, an append that
   * returned its seq is replayed with that seq and event for ever, at that
   * place, to every cursor below it.
   */
  lemma Durability(codec: Codec, ids: iset<string>, steps: seq<Step>, i: nat, after: nat)
    requires GoodCodec(codec) && OwnFiles(ids) && Over(ids, steps) && i < |steps| && steps[i].Append?
    ensures var l := Acknowledged(codec, steps, i);
            && Numbered(RecordsOf(codec, After(codec, steps), steps[i].chat))
            && InPlace(codec, steps, i)
            && (after < l.seq_ ==> l in Replay(codec, After(codec, steps), steps[i].chat, after))
  {
    var chat, path := steps[i].chat, SanitizeId(steps[i].chat);
    AckedRecord(codec, ids, steps, i, path);
    RunGood(codec, ids, steps, i + 1, chat);
    ReplayIsSuffix(codec, After(codec, steps), chat, after);
    AtItsPlace(Records(codec, FileText(After(codec, steps[..i]), path)), Acknowledged(codec, steps, i),
               RecordsOf(codec, After(codec, steps), chat), after);
  }

  lemma AtItsPlace(before: seq<Line>, l: Line, all: seq<Line>, after: nat)
    requires before + [l] <= all && l.seq_ == |before| + 1
    ensures 1 <= l.seq_ <= |all| && all[l.seq_ - 1] == l
    ensures after < l.seq_ ==> l in all[after..]
  {
    if after < l.seq_ {
      assert all[after..][l.seq_ - 1 - after] == l;
    }
  }

  /** Replay hands back exactly the records past the cursor, or all of them past the end. */
  lemma ReplayIsSuffix(codec: Codec, s: Store, chat: string, after: nat)
    requires Numbered(RecordsOf(codec, s, chat))
    ensures var all := RecordsOf(codec, s, chat);
            Replay(codec, s, chat, after) == if after > |all| then all else all[after..]
  {
    EmptyFile(codec);
    var all := RecordsOf(codec, s, chat);
    NewerIsSuffix(all, if after > |all| then 0 else after);
    assert all[0..] == all;
  }

  lemma {:induction false} NewerIsSuffix(all: seq<Line>, from: nat)
    requires Numbered(all)
    ensures Newer(all, from) == if from <= |all| then all[from..] else []
  {
    if all != [] {
      var n := |all| - 1;
      NewerIsSuffix(all[..n], from);
      if from <= n {
        assert all[from..] == all[..n][from..] + [all[n]];
      }
    }
  }

  // ── ids that share a file ───────────────────────────────────────────────

  /** A cursor that thinks its file ends where a line starts adds its record, whatever seq it carries. */
  lemma StaleWrite(codec: Codec, s: string, l: Line)
    requires GoodCodec(codec) && Tail(s) == "" && '\r' !in s
    ensures Records(codec, s + codec.encode(l) + "\n") == Records(codec, s) + [l]
  {
    var p := codec.encode(l);
    PartialLine(codec, s, l, |p|);
    assert p[..|p|] == p;
    CloseLine(codec, s + p);
  }

  /** The file two chats share after the first appends to it, the second, and the first again. */
  function SharedText(codec: Codec, e1: AgentEvent, e2: AgentEvent, e3: AgentEvent): string {
    WholeText(codec, WholeText(codec, "", e1), e2) + codec.encode(Line(2, e3)) + "\n"
  }

  lemma SharedRecords(codec: Codec, e1: AgentEvent, e2: AgentEvent, e3: AgentEvent)
    requires GoodCodec(codec)
    ensures Records(codec, SharedText(codec, e1, e2, e3)) == [Line(1, e1), Line(2, e2), Line(2, e3)]
  {
    EmptyFile(codec);
    var first := WholeText(codec, "", e1);
    WholeRecords(codec, "", e1);
    WholeRecords(codec, first, e2);
    var second := WholeText(codec, first, e2);
    TailWithoutNewline(second);
    StaleWrite(codec, second, Line(2, e3));
  }

  /** An append to a journal not open yet, with a handle to spare. */
  lemma AppendNew(codec: Codec, s: Store, chat: string, path: string, cursor: Cursor, event: AgentEvent)
    requires path == SanitizeId(chat) && chat !in s.open && |s.open| < OPEN_FILE_CAP
    requires cursor == ScanTail(codec, FileOf(s.disk, path))
    ensures AppendSeq(codec, s, chat) == cursor.nextSeq
    ensures Appended(codec, s, chat, event) ==
            Store(s.disk[path := FileText(s, path) + Written(codec, cursor, event)],
                  s.open[chat := Cursor(cursor.nextSeq + 1, false)])
  {
    var o, file := Opened(codec, s, chat), FileText(s, path);
    Overwrite(s.disk, path, "", "");
    assert o == Store(s.disk[path := file], s.open[chat := cursor]);
    ExtendedIs(s.disk, path, file, Written(codec, cursor, event));
  }

  lemma FirstShared(codec: Codec, a: string, path: string, e1: AgentEvent)
    requires GoodCodec(codec) && path == SanitizeId(a)
    ensures var s0 := Store(map[], map[]);
            && AppendSeq(codec, s0, a) == 1
            && Appended(codec, s0, a, e1) == Store(map[path := WholeText(codec, "", e1)], map[a := Cursor(2, false)])
  {
    EmptyFile(codec);
    AppendNew(codec, Store(map[], map[]), a, path, Cursor(1, false), e1);
  }

  lemma SecondShared(codec: Codec, a: string, b: string, path: string, first: string, e2: AgentEvent)
    requires GoodCodec(codec) && a != b && path == SanitizeId(a) && path == SanitizeId(b)
    requires ScanTail(codec, Some(first)) == Cursor(2, false)
    ensures var s1 := Store(map[path := first], map[a := Cursor(2, false)]);
            && AppendSeq(codec, s1, b) == 2
            && Appended(codec, s1, b, e2) ==
               Store(map[path := WholeText(codec, first, e2)], map[a := Cursor(2, false), b := Cursor(3, false)])
  {
    var s1 := Store(map[path := first], map[a := Cursor(2, false)]);
    AppendNew(codec, s1, b, path, Cursor(2, false), e2);
  }

  lemma FirstTwoShared(codec: Codec, a: string, b: string, path: string, e1: AgentEvent, e2: AgentEvent)
    requires GoodCodec(codec) && a != b && path == SanitizeId(a) && path == SanitizeId(b)
    ensures var s1 := Appended(codec, Store(map[], map[]), a, e1);
            var s2 := Appended(codec, s1, b, e2);
            && AppendSeq(codec, Store(map[], map[]), a) == 1 && AppendSeq(codec, s1, b) == 2
            && s2 == Store(map[path := WholeText(codec, WholeText(codec, "", e1), e2)],
                           map[a := Cursor(2, false), b := Cursor(3, false)])
  {
    EmptyFile(codec);
    WholeRecords(codec, "", e1);
    FirstShared(codec, a, path, e1);
    SecondShared(codec, a, b, path, WholeText(codec, "", e1), e2);
  }

  /** The first of two chats with one file appends again, from its own stale cursor. */
  lemma ThirdShared(codec: Codec, a: string, b: string, path: string, second: string, e3: AgentEvent)
    requires a != b && path == SanitizeId(a)
    ensures var s2 := Store(map[path := second], map[a := Cursor(2, false), b := Cursor(3, false)]);
            && AppendSeq(codec, s2, a) == 2
            && FileText(Appended(codec, s2, a, e3), path) == second + codec.encode(Line(2, e3)) + "\n"
  {
    var s2 := Store(map[path := second], map[a := Cursor(2, false), b := Cursor(3, false)]);
    var written := codec.encode(Line(2, e3)) + "\n";
    assert Written(codec, Cursor(2, false), e3) == written;
    assert Appended(codec, s2, a, e3).disk[path] == second + written;
  }

  /**
   * Two chats with one file: each keeps its own cursor, so the third append
   * repeats the second one's seq, and the file holds both.
   */
  lemma SharedFileRepeatsSeqs(codec: Codec, a: string, b: string, e1: AgentEvent, e2: AgentEvent, e3: AgentEvent)
    requires GoodCodec(codec) && a != b && SanitizeId(a) == SanitizeId(b)
    ensures var s0 := Store(map[], map[]);
            var s1 := Appended(codec, s0, a, e1);
            var s2 := Appended(codec, s1, b, e2);
            && AppendSeq(codec, s0, a) == 1 && AppendSeq(codec, s1, b) == 2 && AppendSeq(codec, s2, a) == 2
            && RecordsOf(codec, Appended(codec, s2, a, e3), a) == [Line(1, e1), Line(2, e2), Line(2, e3)]
  {
    var path := SanitizeId(a);
    FirstTwoShared(codec, a, b, path, e1, e2);
    ThirdShared(codec, a, b, path, WholeText(codec, WholeText(codec, "", e1), e2), e3);
    SharedRecords(codec, e1, e2, e3);
  }

  /** The run that shows a shared file: an append of each chat, and one more of the first. */
  lemma SharedFileMisplaces(codec: Codec, a: string, b: string, e: AgentEvent, other: AgentEvent)
    requires GoodCodec(codec) && a != b && SanitizeId(a) == SanitizeId(b) && e != other
    ensures !InPlace(codec, [Append(a, e), Append(b, e), Append(a, other)], 2)
  {
    var steps := [Append(a, e), Append(b, e), Append(a, other)];
    assert steps[..2] == [Append(a, e), Append(b, e)];
    assert steps[..2][..1] == [Append(a, e)] && steps[..2][..1][..0] == [];
    SharedFileRepeatsSeqs(codec, a, b, e, e, other);
    var s1 := Appended(codec, Store(map[], map[]), a, e);
    assert After(codec, steps[..2][..1]) == s1;
    assert After(codec, steps[..2]) == Appended(codec, s1, b, e);
    assert After(codec, steps) == Appended(codec, Appended(codec, s1, b, e), a, other);
  }

  lemma SharedRun(codec: Codec, ids: iset<string>, a: string, b: string) returns (steps: seq<Step>)
    requires GoodCodec(codec) && a in ids && b in ids && a != b && SanitizeId(a) == SanitizeId(b)
    ensures Over(ids, steps) && !AllInPlace(codec, steps)
  {
    var e, other := Done(""), Other("");
    steps := [Append(a, e), Append(b, e), Append(a, other)];
    SharedFileMisplaces(codec, a, b, e, other);
    assert steps[2].Append?;
  }

  lemma AllDurable(codec: Codec, ids: iset<string>, steps: seq<Step>)
    requires GoodCodec(codec) && OwnFiles(ids) && Over(ids, steps)
    ensures AllInPlace(codec, steps)
  {
    forall i | 0 <= i < |steps| && steps[i].Append? ensures InPlace(codec, steps, i) {
      Durability(codec, ids, steps, i, 0);
    }
  }

  /**
   * Exactly which chats the journal serves: every run over a set of ids keeps
   * every acknowledged append at its place if and only if no two of the ids
   * have the same file name.
   */
  lemma DurableExactlyWithOwnFiles(codec: Codec, ids: iset<string>)
    requires GoodCodec(codec)
    ensures (forall steps: seq<Step> | Over(ids, steps) :: AllInPlace(codec, steps)) <==> OwnFiles(ids)
  {
    if OwnFiles(ids) {
      forall steps: seq<Step> | Over(ids, steps) ensures AllInPlace(codec, steps) {
        AllDurable(codec, ids, steps);
      }
    } else {
      var a, b :| a in ids && b in ids && SanitizeId(a) == SanitizeId(b) && a != b;
      var steps := SharedRun(codec, ids, a, b);
    }
  }

  lemma SafeIdsAreTheirFiles(id: string)
    requires FileSafe(id)
    ensures SanitizeId(id) == id
  {
    assert forall i | 0 <= i < |id| :: id[i] in id;
  }

  /** Ids in the file-safe alphabet never share a file. */
  lemma SafeIdsOwnTheirFiles()
    ensures OwnFiles(iset id | FileSafe(id))
  {
    forall a, b | FileSafe(a) && FileSafe(b) && SanitizeId(a) == SanitizeId(b) ensures a == b {
      SafeIdsAreTheirFiles(a);
      SafeIdsAreTheirFiles(b);
    }
  }

  // ── stale sessions ──────────────────────────────────────────────────────

  lemma StaleFacts(codec: Codec, s: Store, path: string)
    ensures var all := Records(codec, FileText(s, path));
            path in StaleSessions(codec, s.disk) <==> all != [] && !all[|all| - 1].event.Done?
  {
    if path in s.disk {
      assert FileText(s, path) == s.disk[path];
    } else {
      EmptyFile(codec);
      assert Records(codec, FileText(s, path)) == [];
    }
  }

  /**
   * What closing a file does to the recovery scan. Before, the scan names the
   * file exactly when it has records and the last is not `Done`, whatever torn
   * text follows it; after, it does not, and all others are as they were.
   */
  ghost predicate Closes(codec: Codec, s: Store, closed: Store, path: string, other: string) {
    var all := Records(codec, FileText(s, path));
    var stale, left := StaleSessions(codec, s.disk), StaleSessions(codec, closed.disk);
    && (path in stale <==> all != [] && !all[|all| - 1].event.Done?)
    && path !in left
    && (other != path ==> (other in left <==> other in stale))
  }

  lemma ClosingOne(codec: Codec, ids: iset<string>, s: Store, chat: string, path: string, payload: string,
                   other: string)
    requires GoodCodec(codec) && OwnFiles(ids) && chat in ids && path == SanitizeId(chat) && GoodStore(codec, ids, s)
    ensures Closes(codec, s, Appended(codec, s, chat, Done(payload)), path, other)
  {
    AppendGood(codec, ids, s, chat, path, Done(payload));
    var closed := Appended(codec, s, chat, Done(payload));
    StaleFacts(codec, s, path);
    StaleFacts(codec, closed, path);
    StaleFacts(codec, s, other);
    StaleFacts(codec, closed, other);
  }

  lemma AfterOneMore(codec: Codec, steps: seq<Step>, step: Step)
    ensures After(codec, steps + [step]) == Next(codec, After(codec, steps), step)
  {
    assert (steps + [step])[..|steps|] == steps;
  }

  /** After any run the recovery scan is exact, and closing a chat with a `Done` takes its file off, and no other. */
  lemma ClosingClearsStale(codec: Codec, ids: iset<string>, steps: seq<Step>, chat: string, payload: string,
                           other: string)
    requires GoodCodec(codec) && OwnFiles(ids) && Over(ids, steps) && chat in ids
    ensures Closes(codec, After(codec, steps), After(codec, steps + [Append(chat, Done(payload))]), SanitizeId(chat),
                   other)
  {
    RunKeepsGood(codec, ids, steps);
    AfterOneMore(codec, steps, Append(chat, Done(payload)));
    ClosingOne(codec, ids, After(codec, steps), chat, SanitizeId(chat), payload, other);
  }

  // ── open handles, and file names ────────────────────────────────────────

  lemma {:induction false} SubsetIsSmaller<T>(a: set<T>, b: set<T>)
    requires a <= b
    ensures |a| <= |b|
  {
    if a != {} {
      var x :| x in a;
      SubsetIsSmaller(a - {x}, b - {x});
    }
  }

  lemma OpenStaysFew(codec: Codec, s: Store, chat: string)
    requires |s.open| <= 16
    ensures |Opened(codec, s, chat).open| <= 16 && chat in Opened(codec, s, chat).open
  {
    var o := Opened(codec, s, chat).open;
    assert |o| == |o.Keys| && |s.open| == |s.open.Keys|;
    if chat !in s.open {
      var before := if |s.open| >= OPEN_FILE_CAP then map[] else s.open;
      assert o.Keys == before.Keys + {chat};
      assert |before| == |before.Keys|;
    }
  }

  /** Below sixteen no open file is dropped to open another. */
  lemma OpenKeepsOthers(codec: Codec, s: Store, chat: string, other: string)
    requires |s.open| < 16 && other in s.open
    ensures other in Opened(codec, s, chat).open && Opened(codec, s, chat).open[other] == s.open[other]
  {
  }

  /** However many chats a run writes to, never more than sixteen files are open. */
  lemma {:induction false} HandlesAreFew(codec: Codec, steps: seq<Step>)
    ensures |After(codec, steps).open| <= 16
  {
    if steps != [] {
      var front, step := steps[..|steps| - 1], steps[|steps| - 1];
      HandlesAreFew(codec, front);
      var before, after := After(codec, front), After(codec, steps);
      match step {
        case Append(chat, event) =>
          OpenStaysFew(codec, before, chat);
          assert after.open.Keys == Opened(codec, before, chat).open.Keys;
          assert |after.open| == |after.open.Keys| && |Opened(codec, before, chat).open| ==
                 |Opened(codec, before, chat).open.Keys|;
        case DropHandles(kept) =>
          SubsetIsSmaller(after.open.Keys, before.open.Keys);
          assert |after.open| == |after.open.Keys| && |before.open| == |before.open.Keys|;
        case _ =>
      }
    }
  }

  /** ASCII digits, letters, dash and underscore, by their code points. */
  predicate IsFileChar(code: int) {
    48 <= code <= 57 || 65 <= code <= 90 || 97 <= code <= 122 || code == 45 || code == 95
  }

  /** A file name is made of these, an underscore for every other character, and is the id if and only if the id is. */
  lemma NamesAreSafe(id: string)
    ensures forall c | c in SanitizeId(id) :: IsFileChar(c as int)
    ensures forall i | 0 <= i < |id| && !IsFileChar(id[i] as int) :: SanitizeId(id)[i] as int == 95
    ensures SanitizeId(id) == id <==> forall c | c in id :: IsFileChar(c as int)
  {
    var name := SanitizeId(id);
    assert forall i | 0 <= i < |id| :: id[i] in id && (IsFileSafe(id[i]) <==> IsFileChar(id[i] as int));
    assert forall i | 0 <= i < |name| :: name[i] == if IsFileSafe(id[i]) then id[i] else '_';
  }
}
