/**
 * The per-chat event journal: an append-only file of one-line records, the
 * cached cursors of open files, and what a torn write leaves behind.
 */
module RunJournals {
  import opened Wrappers

  datatype AgentEvent = Done(payload: string) | Other(payload: string)

  datatype Line = Line(seq_: nat, event: AgentEvent)

  /** How a record is written on a line and read back; JSON in the code. */
  datatype Codec = Codec(encode: Line -> string, decode: string -> Option<Line>)

  predicate IsSpace(c: char) {
    c in " \t\n\r" || c as int == 11 || c as int == 12
  }

  predicate IsBlank(s: string) {
    forall c | c in s :: IsSpace(c)
  }

  /** Reading inverts writing; records stay on their line; no cut-off record reads as one. */
  ghost predicate GoodCodec(codec: Codec) {
    && (forall l :: codec.decode(codec.encode(l)) == Some(l))
    && (forall l :: '\n' !in codec.encode(l) && '\r' !in codec.encode(l) && !IsBlank(codec.encode(l)))
    && (forall l, k: nat :: k < |codec.encode(l)| ==> codec.decode(codec.encode(l)[..k]) == None)
  }

  // ── lines of a file ─────────────────────────────────────────────────────

  function StripCr(line: string): string {
    if line != "" && line[|line| - 1] == '\r' then line[..|line| - 1] else line
  }

  /** What stands after the last newline. */
  function Tail(s: string): string {
    if s == "" then ""
    else if s[|s| - 1] == '\n' then ""
    else Tail(s[..|s| - 1]) + [s[|s| - 1]]
  }

  /** The lines that end in a newline. */
  function Terminated(s: string): seq<string> {
    if s == "" then []
    else
      var front := s[..|s| - 1];
      if s[|s| - 1] == '\n' then Terminated(front) + [StripCr(Tail(front))] else Terminated(front)
  }

  /** The lines a buffered reader yields, an unterminated last one included. */
  function Lines(s: string): seq<string> {
    Terminated(s) + if Tail(s) == "" then [] else [Tail(s)]
  }

  function ParseLine(codec: Codec, line: string): seq<Line> {
    if IsBlank(line) then []
    else match codec.decode(line)
      case Some(l) => [l]
      case None => []
  }

  function ParseLines(codec: Codec, lines: seq<string>): seq<Line> {
    if lines == [] then [] else ParseLines(codec, lines[..|lines| - 1]) + ParseLine(codec, lines[|lines| - 1])
  }

  /** Every valid record of a file, in order; malformed lines are skipped. */
  function Records(codec: Codec, content: string): seq<Line> {
    ParseLines(codec, Lines(content))
  }

  method ReadLines(codec: Codec, content: string) returns (out: seq<Line>)
    ensures out == Records(codec, content)
  {
    var lines := Lines(content);
    out := [];
    var i := 0;
    while i < |lines|
      invariant i <= |lines|
      invariant out == ParseLines(codec, lines[..i])
    {
      var line := lines[i];
      assert lines[..i + 1][..i] == lines[..i];
      i := i + 1;
      if IsBlank(line) {
        assert out + [] == out;
        continue;
      }
      match codec.decode(line)
      case Some(parsed) => out := out + [parsed];
      case None => assert out + [] == out;
    }
    assert lines[..i] == lines;
  }

  // ── cursors ─────────────────────────────────────────────────────────────

  datatype Cursor = Cursor(nextSeq: nat, needsNewline: bool)

  function NextSeq(records: seq<Line>): nat {
    if records == [] then 1 else records[|records| - 1].seq_ + 1
  }

  /** A fresh look at a file: the seq to write next and whether it ends mid-line. */
  function ScanTail(codec: Codec, file: Option<string>): Cursor {
    match file
    case None => Cursor(1, false)
    case Some(s) => Cursor(NextSeq(Records(codec, s)), s != "" && s[|s| - 1] != '\n')
  }

  function FileOf(disk: map<string, string>, path: string): Option<string> {
    if path in disk then Some(disk[path]) else None
  }

  predicate IsFileSafe(c: char) {
    'a' <= c <= 'z' || 'A' <= c <= 'Z' || '0' <= c <= '9' || c == '-' || c == '_'
  }

  /** The file name of a chat: its id with an underscore for every character that is not file-safe. */
  function SanitizeId(id: string): (r: string)
    ensures |r| == |id|
  {
    seq(|id|, i requires 0 <= i < |id| => if IsFileSafe(id[i]) then id[i] else '_')
  }

  predicate FileSafe(id: string) {
    forall c | c in id :: IsFileSafe(c)
  }

  // ── appending ───────────────────────────────────────────────────────────

  const OPEN_FILE_CAP: nat := 16

  /** The journals on disk and the cursors of the open ones, by chat. */
  datatype Store = Store(disk: map<string, string>, open: map<string, Cursor>)

  /** The store with `chat`'s journal open: cached, or scanned and created. */
  function Opened(codec: Codec, s: Store, chat: string): Store {
    if chat in s.open then s
    else
      var path := SanitizeId(chat);
      var open := if |s.open| >= OPEN_FILE_CAP then map[] else s.open;
      Store(if path in s.disk then s.disk else s.disk[path := ""],
            open[chat := ScanTail(codec, FileOf(s.disk, path))])
  }

  /** The bytes one append writes. */
  function Written(codec: Codec, cursor: Cursor, event: AgentEvent): string {
    (if cursor.needsNewline then "\n" else "") + codec.encode(Line(cursor.nextSeq, event)) + "\n"
  }

  /** `bytes` at the end of a file; the file is there once it has been opened. */
  function Extended(disk: map<string, string>, path: string, bytes: string): map<string, string> {
    disk[path := FileOf(disk, path).GetOr("") + bytes]
  }

  function AppendSeq(codec: Codec, s: Store, chat: string): nat {
    Opened(codec, s, chat).open[chat].nextSeq
  }

  function Appended(codec: Codec, s: Store, chat: string, event: AgentEvent): Store {
    var o := Opened(codec, s, chat);
    var cursor := o.open[chat];
    Store(Extended(o.disk, SanitizeId(chat), Written(codec, cursor, event)),
          o.open[chat := Cursor(cursor.nextSeq + 1, false)])
  }

  /** The process dies with only `k` characters of the append on disk; no handle survives. */
  function Torn(codec: Codec, s: Store, chat: string, event: AgentEvent, k: nat): Store {
    var o := Opened(codec, s, chat);
    var bytes := Written(codec, o.open[chat], event);
    Store(Extended(o.disk, SanitizeId(chat), if k <= |bytes| then bytes[..k] else bytes), map[])
  }

  /** The records past `after`, or all of them when `after` exceeds the last seq. */
  function Replay(codec: Codec, s: Store, chat: string, after: nat): seq<Line> {
    match FileOf(s.disk, SanitizeId(chat))
    case None => []
    case Some(content) =>
      var all := Records(codec, content);
      var last := if all == [] then 0 else all[|all| - 1].seq_;
      Newer(all, if after > last then 0 else after)
  }

  function Newer(all: seq<Line>, from: nat): seq<Line> {
    if all == [] then []
    else
      var front, last := Newer(all[..|all| - 1], from), all[|all| - 1];
      if last.seq_ > from then front + [last] else front
  }

  function LastEvent(codec: Codec, file: Option<string>): Option<Line> {
    match file
    case None => None
    case Some(content) =>
      var all := Records(codec, content);
      if all == [] then None else Some(all[|all| - 1])
  }

  /** The files with records whose last one is not a `Done`. */
  function StaleSessions(codec: Codec, disk: map<string, string>): set<string> {
    set chat | chat in disk && (var last := LastEvent(codec, Some(disk[chat])); last.Some? && !last.value.event.Done?)
  }

  class RunJournal {
    const codec: Codec
    var disk: map<string, string>
    var openFiles: map<string, Cursor>

    constructor (codec: Codec, disk: map<string, string>)
      ensures this.codec == codec && Value() == Store(disk, map[])
    {
      this.codec := codec;
      this.disk := disk;
      openFiles := map[];
    }

    function Value(): Store
      reads this
    {
      Store(disk, openFiles)
    }

    /** What one append writes in a single call. */
    method Buffer(journal: Cursor, event: AgentEvent) returns (buf: string)
      ensures buf == Written(codec, journal, event)
    {
      var line := codec.encode(Line(journal.nextSeq, event));
      buf := "";
      if journal.needsNewline {
        buf := buf + "\n";
      }
      buf := buf + line;
      buf := buf + "\n";
    }

    /** Writes one record at the end of the chat's file, opening it first if need be. */
    method Append(chat: string, event: AgentEvent) returns (seq_: nat)
      modifies this
      ensures Value() == Appended(codec, old(Value()), chat, event)
      ensures seq_ == AppendSeq(codec, old(Value()), chat)
    {
      var path := SanitizeId(chat);
      if chat !in openFiles {
        if |openFiles| >= OPEN_FILE_CAP {
          openFiles := map[];
        }
        var cursor := ScanFile(path);
        if path !in disk {
          disk := disk[path := ""];
        }
        openFiles := openFiles[chat := cursor];
      }
      assert Value() == Opened(codec, old(Value()), chat);
      var journal := openFiles[chat];
      seq_ := journal.nextSeq;
      var buf := Buffer(journal, event);
      disk := Extended(disk, path, buf);
      openFiles := openFiles[chat := Cursor(seq_ + 1, false)];
    }

    method ScanFile(path: string) returns (cursor: Cursor)
      ensures cursor == ScanTail(codec, FileOf(disk, path))
    {
      if path !in disk {
        return Cursor(1, false);
      }
      var bytes := disk[path];
      var needsNewline := bytes != "" && bytes[|bytes| - 1] != '\n';
      var records := ReadLines(codec, bytes);
      cursor := Cursor(if records == [] then 1 else records[|records| - 1].seq_ + 1, needsNewline);
    }

    method ReplayAfter(chat: string, after: nat) returns (events: seq<Line>)
      ensures events == Replay(codec, Value(), chat, after)
    {
      var path := SanitizeId(chat);
      if path !in disk {
        return [];
      }
      var all := ReadLines(codec, disk[path]);
      var last := if all == [] then 0 else all[|all| - 1].seq_;
      var from := if after > last then 0 else after;
      events := [];
      var i := 0;
      while i < |all|
        invariant i <= |all| && events == Newer(all[..i], from)
      {
        assert all[..i + 1][..i] == all[..i];
        if all[i].seq_ > from {
          events := events + [all[i]];
        }
        i := i + 1;
      }
      assert all[..i] == all;
    }
  }
}
