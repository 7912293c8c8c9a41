/** Reading git's NUL-separated `--name-status -z` and `--numstat -z` streams. */
module GitStreams {
  import opened Wrappers
  import opened Sequences
  import Decimal

  const U32_LIMIT: nat := 0x1_0000_0000

  datatype FileSummary = FileSummary(
    path: string,
    oldPath: Option<string>,
    status: string,
    additions: nat,
    deletions: nat,
    binary: bool)

  // ── splitting ───────────────────────────────────────────────────────────

  /** The pieces between NULs, empty ones included; there is always a last piece. */
  function Split(value: string): (pieces: seq<string>)
    ensures pieces != []
  {
    if value == "" then [""]
    else
      var c, before := value[|value| - 1], Split(value[..|value| - 1]);
      if c == '\0' then before + [""] else before[|before| - 1 := before[|before| - 1] + [c]]
  }

  function NonEmpty(pieces: seq<string>): seq<string> {
    if pieces == [] then []
    else
      var last := pieces[|pieces| - 1];
      NonEmpty(pieces[..|pieces| - 1]) + if last == "" then [] else [last]
  }

  function SplitZ(value: string): seq<string> {
    NonEmpty(Split(value))
  }

  // ── name-status ─────────────────────────────────────────────────────────

  predicate IsMove(code: char) {
    code == 'R' || code == 'C'
  }

  function StatusName(code: char): string {
    if code == 'A' then "added"
    else if code == 'D' then "deleted"
    else if code == 'R' then "renamed"
    else if code == 'C' then "copied"
    else if code == 'U' then "unmerged"
    else "modified"
  }

  function Code(field: string): char {
    if field == "" then 'M' else field[0]
  }

  /** A record: a status field, a path, and for a move the new path; a cut-off record ends the list. */
  function ParseFields(fields: seq<string>): seq<FileSummary>
    decreases |fields|
  {
    if |fields| < 2 then []
    else
      var code, first := Code(fields[0]), fields[1];
      if !IsMove(code) then
        [FileSummary(first, None, StatusName(code), 0, 0, false)] + ParseFields(fields[2..])
      else if |fields| == 2 then [FileSummary(first, None, StatusName(code), 0, 0, false)]
      else [FileSummary(fields[2], Some(first), StatusName(code), 0, 0, false)] + ParseFields(fields[3..])
  }

  method ParseNameStatus(value: string) returns (out: seq<FileSummary>)
    ensures out == ParseFields(SplitZ(value))
  {
    var fields := SplitZ(value);
    out := [];
    var i := 0;
    while i < |fields|
      invariant out + ParseFields(if i <= |fields| then fields[i..] else []) == ParseFields(fields)
      decreases |fields| - i
    {
      var raw := fields[i];
      ghost var here := fields[i..];
      i := i + 1;
      var code := Code(raw);
      if i >= |fields| {
        break;
      }
      var first := fields[i];
      i := i + 1;
      var path, oldPath := first, None;
      if IsMove(code) {
        if i < |fields| {
          path, oldPath := fields[i], Some(first);
        }
        i := i + 1;
      }
      var file := FileSummary(path, oldPath, StatusName(code), 0, 0, false);
      ghost var left := if i <= |fields| then fields[i..] else [];
      assert ParseFields(here) == [file] + ParseFields(left);
      Regroup(out, file, ParseFields(left));
      out := out + [file];
    }
    assert out + [] == out;
  }

  // ── numstat ─────────────────────────────────────────────────────────────

  /** The text before the first tab, and after it if there is one. */
  function CutAtTab(s: string): (string, Option<string>) {
    if s == "" then ("", None)
    else if s[0] == '\t' then ("", Some(s[1..]))
    else
      var (head, tail) := CutAtTab(s[1..]);
      ([s[0]] + head, tail)
  }

  /** The first three tab-separated parts; a third part keeps its own tabs, missing parts are empty. */
  function Columns(record: string): (string, string, string) {
    var (adds, rest) := CutAtTab(record);
    match rest
    case None => (adds, "", "")
    case Some(more) =>
      var (dels, path) := CutAtTab(more);
      (adds, dels, path.GetOr(""))
  }

  /** A 32-bit unsigned number, with an optional plus sign; anything else reads as zero. */
  function ParseU32(s: string): (n: nat)
    ensures n < U32_LIMIT
  {
    var digits := if s != "" && s[0] == '+' then s[1..] else s;
    if digits != "" && Decimal.IsNumeral(digits) && Decimal.Value(digits) < U32_LIMIT then Decimal.Value(digits) else 0
  }

  function FirstAt(files: seq<FileSummary>, path: string): (at: Option<nat>)
    ensures at.Some? ==> at.value < |files| && files[at.value].path == path &&
                         forall k | 0 <= k < at.value :: files[k].path != path
    ensures at.None? ==> forall k | 0 <= k < |files| :: files[k].path != path
  {
    FindFirst(files, (f: FileSummary) => f.path == path)
  }

  function Counted(f: FileSummary, adds: string, dels: string): FileSummary {
    f.(additions := ParseU32(adds), deletions := ParseU32(dels), binary := adds == "-" || dels == "-")
  }

  function WithCounts(files: seq<FileSummary>, path: string, adds: string, dels: string): (r: seq<FileSummary>)
    ensures |r| == |files|
  {
    match FirstAt(files, path)
    case None => files
    case Some(k) => files[k := Counted(files[k], adds, dels)]
  }

  /** A record names its path itself, or the two records after it name the old path and the new. */
  function ApplyRecords(files: seq<FileSummary>, records: seq<string>): (r: seq<FileSummary>)
    ensures |r| == |files|
    decreases |records|
  {
    if records == [] then files
    else if records[0] == "" then ApplyRecords(files, records[1..])
    else
      var (adds, dels, inlinePath) := Columns(records[0]);
      if inlinePath != "" then ApplyRecords(WithCounts(files, inlinePath, adds, dels), records[1..])
      else if |records| < 3 then WithCounts(files, "", adds, dels)
      else ApplyRecords(WithCounts(files, records[2], adds, dels), records[3..])
  }

  /** The path a record is about, and how many records it takes up. */
  function Target(records: seq<string>): (string, nat)
    requires records != []
  {
    var (_, _, inlinePath) := Columns(records[0]);
    if inlinePath != "" then (inlinePath, 1) else (if |records| > 2 then records[2] else "", 3)
  }

  lemma ApplyOne(files: seq<FileSummary>, records: seq<string>)
    requires records != [] && records[0] != ""
    ensures var (adds, dels, _) := Columns(records[0]);
            var (path, taken) := Target(records);
            ApplyRecords(files, records) ==
            ApplyRecords(WithCounts(files, path, adds, dels), if taken <= |records| then records[taken..] else [])
  {
  }

  method CountFile(files: array<FileSummary>, path: string, adds: string, dels: string)
    modifies files
    ensures files[..] == WithCounts(old(files[..]), path, adds, dels)
  {
    var k := 0;
    while k < files.Length && files[k].path != path
      invariant k <= files.Length && files[..] == old(files[..])
      invariant forall j | 0 <= j < k :: files[j].path != path
    {
      k := k + 1;
    }
    if k < files.Length {
      files[k] := Counted(files[k], adds, dels);
    }
  }

  method ApplyNumstat(files: array<FileSummary>, value: string)
    modifies files
    ensures files[..] == ApplyRecords(old(files[..]), Split(value))
  {
    var records := Split(value);
    var i := 0;
    while i < |records|
      invariant ApplyRecords(files[..], if i <= |records| then records[i..] else []) ==
                ApplyRecords(old(files[..]), records)
      decreases |records| - i
    {
      var record := records[i];
      if record == "" {
        i := i + 1;
        continue;
      }
      ApplyOne(files[..], records[i..]);
      ghost var here := records[i..];
      var (adds, dels, inlinePath) := Columns(record);
      var path := inlinePath;
      if inlinePath == "" {
        path := if i + 2 < |records| then records[i + 2] else "";
        i := i + 2;
      }
      i := i + 1;
      assert (if i <= |records| then records[i..] else []) ==
             var taken := Target(here).1; if taken <= |here| then here[taken..] else [];
      CountFile(files, path, adds, dels);
    }
  }

  // ── what git writes ─────────────────────────────────────────────────────

  datatype Kind = Added | Deleted | Modified | TypeChanged | Unmerged | Renamed(score: string) | Copied(score: string)

  datatype Counts = Lines(additions: nat, deletions: nat) | Binary

  /** A changed file; a rename or copy has an old path. */
  datatype FileChange = FileChange(kind: Kind, path: string, oldPath: string, counts: Counts)

  predicate Moved(f: FileChange) {
    f.kind.Renamed? || f.kind.Copied?
  }

  predicate NulFree(s: string) {
    '\0' !in s
  }

  predicate IsPath(s: string) {
    s != "" && NulFree(s)
  }

  predicate Writable(f: FileChange) {
    && IsPath(f.path)
    && (Moved(f) ==> IsPath(f.oldPath) && NulFree(f.kind.score))
    && (f.counts.Lines? ==> f.counts.additions < U32_LIMIT && f.counts.deletions < U32_LIMIT)
  }

  function StatusField(kind: Kind): string {
    match kind
    case Added => "A"
    case Deleted => "D"
    case Modified => "M"
    case TypeChanged => "T"
    case Unmerged => "U"
    case Renamed(score) => "R" + score
    case Copied(score) => "C" + score
  }

  function NameFields(f: FileChange): seq<string> {
    [StatusField(f.kind)] + if Moved(f) then [f.oldPath, f.path] else [f.path]
  }

  function CountColumns(counts: Counts): (string, string) {
    match counts
    case Lines(additions, deletions) => (Decimal.Render(additions), Decimal.Render(deletions))
    case Binary => ("-", "-")
  }

  function StatRecords(f: FileChange): seq<string> {
    var (adds, dels) := CountColumns(f.counts);
    if Moved(f) then [adds + "\t" + dels + "\t", f.oldPath, f.path] else [adds + "\t" + dels + "\t" + f.path]
  }

  function AllNameFields(fs: seq<FileChange>): seq<string> {
    if fs == [] then [] else NameFields(fs[0]) + AllNameFields(fs[1..])
  }

  function AllStatRecords(fs: seq<FileChange>): seq<string> {
    if fs == [] then [] else StatRecords(fs[0]) + AllStatRecords(fs[1..])
  }

  /** Fields with a NUL after each. */
  function Stream(fields: seq<string>): string {
    if fields == [] then "" else Stream(fields[..|fields| - 1]) + fields[|fields| - 1] + "\0"
  }

  function Summary(f: FileChange): FileSummary {
    FileSummary(
      f.path, if Moved(f) then Some(f.oldPath) else None,
      match f.kind {
        case Added => "added"
        case Deleted => "deleted"
        case Renamed(_) => "renamed"
        case Copied(_) => "copied"
        case Unmerged => "unmerged"
        case Modified => "modified"
        case TypeChanged => "modified"
      },
      if f.counts.Lines? then f.counts.additions else 0,
      if f.counts.Lines? then f.counts.deletions else 0,
      f.counts.Binary?)
  }
}
