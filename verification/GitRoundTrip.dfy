/** Parsing inverts git's `-z` output. */
module GitRoundTrip {
  import opened Wrappers
  import opened GitStreams
  import Decimal

  // ── fields ──────────────────────────────────────────────────────────────

  lemma {:induction false} SplitMore(value: string, s: string)
    requires NulFree(s)
    ensures var before := Split(value);
            Split(value + s) == before[|before| - 1 := before[|before| - 1] + s]
    decreases |s|
  {
    var before := Split(value);
    if s == "" {
      assert value + s == value && before[|before| - 1] + s == before[|before| - 1];
    } else {
      var front := s[..|s| - 1];
      assert s[|s| - 1] in s && forall c | c in front :: c in s;
      assert (value + s)[..|value + s| - 1] == value + front;
      SplitMore(value, front);
      assert (before[|before| - 1] + front) + [s[|s| - 1]] == before[|before| - 1] + s;
    }
  }

  predicate AllNulFree(fields: seq<string>) {
    forall i | 0 <= i < |fields| :: NulFree(fields[i])
  }

  predicate NoneEmpty(fields: seq<string>) {
    forall i | 0 <= i < |fields| :: fields[i] != ""
  }

  lemma {:induction false} SplitStream(fields: seq<string>)
    requires AllNulFree(fields)
    ensures Split(Stream(fields)) == fields + [""]
  {
    if fields != [] {
      var front, last := fields[..|fields| - 1], fields[|fields| - 1];
      SplitStream(front);
      SplitMore(Stream(front), last);
      var value := Stream(front) + last;
      assert "" + last == last;
      assert (front + [""])[|front| := last] == fields;
      assert Stream(fields)[..|Stream(fields)| - 1] == value;
    }
  }

  lemma {:induction false} NonEmptyKeeps(fields: seq<string>)
    requires NoneEmpty(fields)
    ensures NonEmpty(fields) == fields
  {
    if fields != [] {
      NonEmptyKeeps(fields[..|fields| - 1]);
    }
  }

  /** Fields written with NULs after them read back. */
  lemma FieldsRoundTrip(fields: seq<string>)
    requires AllNulFree(fields) && NoneEmpty(fields)
    ensures SplitZ(Stream(fields)) == fields
  {
    SplitStream(fields);
    NonEmptyKeeps(fields);
    assert (fields + [""])[..|fields|] == fields;
  }

  // ── names ───────────────────────────────────────────────────────────────

  /** A file as the name stream alone tells of it. */
  function Named(f: FileChange): FileSummary {
    Summary(f).(additions := 0, deletions := 0, binary := false)
  }

  function NamedAll(fs: seq<FileChange>): (r: seq<FileSummary>)
    ensures |r| == |fs|
  {
    seq(|fs|, i requires 0 <= i < |fs| => Named(fs[i]))
  }

  predicate AllWritable(fs: seq<FileChange>) {
    forall i | 0 <= i < |fs| :: Writable(fs[i])
  }

  lemma StatusReads(kind: Kind)
    ensures StatusField(kind) != "" && NulFree("ADMTURC")
    ensures Code(StatusField(kind)) == StatusField(kind)[0]
    ensures IsMove(Code(StatusField(kind))) <==> kind.Renamed? || kind.Copied?
    ensures kind.Renamed? ==> NulFree(StatusField(kind)) == NulFree(kind.score)
    ensures kind.Copied? ==> NulFree(StatusField(kind)) == NulFree(kind.score)
    ensures !kind.Renamed? && !kind.Copied? ==> NulFree(StatusField(kind))
  {
    if kind.Renamed? {
      assert forall c :: c in "R" + kind.score <==> c == 'R' || c in kind.score;
    } else if kind.Copied? {
      assert forall c :: c in "C" + kind.score <==> c == 'C' || c in kind.score;
    }
  }

  lemma ParseOneName(f: FileChange, rest: seq<string>)
    requires Writable(f)
    ensures ParseFields(NameFields(f) + rest) == [Named(f)] + ParseFields(rest)
    ensures AllNulFree(NameFields(f)) && NoneEmpty(NameFields(f))
  {
    StatusReads(f.kind);
    var fields := NameFields(f) + rest;
    assert fields[0] == StatusField(f.kind);
    if Moved(f) {
      assert fields[3..] == rest && fields[1] == f.oldPath && fields[2] == f.path;
    } else {
      assert fields[2..] == rest && fields[1] == f.path;
    }
  }

  lemma {:induction false} ParseAllNames(fs: seq<FileChange>)
    requires AllWritable(fs)
    ensures ParseFields(AllNameFields(fs)) == NamedAll(fs)
    ensures AllNulFree(AllNameFields(fs)) && NoneEmpty(AllNameFields(fs))
  {
    if fs != [] {
      ParseAllNames(fs[1..]);
      ParseOneName(fs[0], AllNameFields(fs[1..]));
      assert NamedAll(fs) == [Named(fs[0])] + NamedAll(fs[1..]);
    }
  }

  // ── counts ──────────────────────────────────────────────────────────────

  lemma {:induction false} CutAfter(head: string, tail: string)
    requires '\t' !in head
    ensures CutAtTab(head + "\t" + tail) == (head, Some(tail))
    decreases |head|
  {
    var s := head + "\t" + tail;
    if head == "" {
      assert s[1..] == tail;
    } else {
      assert forall c | c in head[1..] :: c in head;
      assert s[0] == head[0] && s[1..] == head[1..] + "\t" + tail;
      assert [head[0]] + head[1..] == head;
      CutAfter(head[1..], tail);
    }
  }

  lemma ColumnsRead(adds: string, dels: string, path: string)
    requires '\t' !in adds && '\t' !in dels
    ensures Columns(adds + "\t" + dels + "\t" + path) == (adds, dels, path)
  {
    assert adds + "\t" + dels + "\t" + path == adds + "\t" + (dels + "\t" + path);
    CutAfter(adds, dels + "\t" + path);
    CutAfter(dels, path);
  }

  /** A count reads back exactly when it fits 32 bits; a larger one reads as zero. */
  lemma CountReads(n: nat)
    ensures ParseU32(Decimal.Render(n)) == if n < U32_LIMIT then n else 0
    ensures Decimal.Render(n) != "-"
    ensures '\t' !in Decimal.Render(n) && NulFree(Decimal.Render(n))
  {
    var s := Decimal.Render(n);
    assert s[0] in s && Decimal.IsDigit(s[0]);
    assert forall c | c in s :: Decimal.IsDigit(c);
  }

  lemma CountsRead(f: FileSummary, counts: Counts)
    requires counts.Lines? ==> counts.additions < U32_LIMIT && counts.deletions < U32_LIMIT
    ensures var (adds, dels) := CountColumns(counts);
            && '\t' !in adds && '\t' !in dels && NulFree(adds) && NulFree(dels)
            && Counted(f, adds, dels) == CountedBy(f, counts)
  {
    if counts.Lines? {
      CountReads(counts.additions);
      CountReads(counts.deletions);
    } else {
      DashReads();
    }
  }

  lemma DashReads()
    ensures ParseU32("-") == 0
  {
    assert "-"[0] in "-" && !Decimal.IsDigit('-');
  }

  function CountedBy(f: FileSummary, counts: Counts): FileSummary {
    match counts
    case Lines(additions, deletions) => f.(additions := additions, deletions := deletions, binary := false)
    case Binary => f.(additions := 0, deletions := 0, binary := true)
  }

  /** The summary of a path, given counts. */
  function CountPath(files: seq<FileSummary>, path: string, counts: Counts): (r: seq<FileSummary>)
    ensures |r| == |files|
  {
    match FirstAt(files, path)
    case None => files
    case Some(k) => files[k := CountedBy(files[k], counts)]
  }

  lemma StatNulFree(adds: string, dels: string, path: string)
    requires NulFree(adds) && NulFree(dels) && NulFree(path)
    ensures NulFree(adds + "\t" + dels + "\t" + path) && NulFree(adds + "\t" + dels + "\t")
  {
  }

  lemma ApplyOneStat(files: seq<FileSummary>, f: FileChange, rest: seq<string>)
    requires Writable(f)
    ensures ApplyRecords(files, StatRecords(f) + rest) == ApplyRecords(CountPath(files, f.path, f.counts), rest)
    ensures AllNulFree(StatRecords(f))
  {
    var (adds, dels) := CountColumns(f.counts);
    var blank := FileSummary("", None, "", 0, 0, false);
    CountsRead(blank, f.counts);
    StatNulFree(adds, dels, f.path);
    assert WithCounts(files, f.path, adds, dels) == CountPath(files, f.path, f.counts) by {
      if FirstAt(files, f.path).Some? {
        CountsRead(files[FirstAt(files, f.path).value], f.counts);
      }
    }
    var records := StatRecords(f) + rest;
    if Moved(f) {
      ColumnsRead(adds, dels, "");
      assert adds + "\t" + dels + "\t" + "" == adds + "\t" + dels + "\t";
      assert records[0] == adds + "\t" + dels + "\t" && records[2] == f.path && records[3..] == rest;
    } else {
      ColumnsRead(adds, dels, f.path);
      assert records[0] == adds + "\t" + dels + "\t" + f.path && records[1..] == rest;
    }
  }

  function CountAll(files: seq<FileSummary>, fs: seq<FileChange>): (r: seq<FileSummary>)
    ensures |r| == |files|
    decreases |fs|
  {
    if fs == [] then files else CountAll(CountPath(files, fs[0].path, fs[0].counts), fs[1..])
  }

  lemma {:induction false} ApplyAllStats(files: seq<FileSummary>, fs: seq<FileChange>)
    requires AllWritable(fs)
    ensures ApplyRecords(files, AllStatRecords(fs) + [""]) == CountAll(files, fs)
    ensures AllNulFree(AllStatRecords(fs))
    decreases |fs|
  {
    if fs == [] {
      assert AllStatRecords(fs) + [""] == [""] && [""][1..] == [];
    } else {
      var rest := AllStatRecords(fs[1..]);
      ApplyOneStat(files, fs[0], rest + [""]);
      assert AllStatRecords(fs) + [""] == StatRecords(fs[0]) + (rest + [""]);
      ApplyAllStats(CountPath(files, fs[0].path, fs[0].counts), fs[1..]);
    }
  }

  predicate UniqueFiles(files: seq<FileSummary>) {
    forall i, j | 0 <= i < j < |files| :: files[i].path != files[j].path
  }

  predicate UniquePaths(fs: seq<FileChange>) {
    forall i, j | 0 <= i < j < |fs| :: fs[i].path != fs[j].path
  }

  /** With unique paths each file ends with the counts of the one record about it, wherever it stands. */
  lemma {:induction false} CountsLand(files: seq<FileSummary>, fs: seq<FileChange>, k: nat, j: nat)
    requires UniqueFiles(files) && UniquePaths(fs) && k < |files| && j <= |fs|
    requires j < |fs| ==> fs[j].path == files[k].path
    requires j == |fs| ==> forall i | 0 <= i < |fs| :: fs[i].path != files[k].path
    ensures CountAll(files, fs)[k] == if j < |fs| then CountedBy(files[k], fs[j].counts) else files[k]
    decreases |fs|
  {
    if fs != [] {
      var next := CountPath(files, fs[0].path, fs[0].counts);
      assert forall i | 0 <= i < |files| :: next[i].path == files[i].path;
      if j == 0 {
        assert FirstAt(files, files[k].path) == Some(k);
        CountsLand(next, fs[1..], k, |fs| - 1);
      } else {
        assert fs[0].path != files[k].path;
        CountsLand(next, fs[1..], k, j - 1);
      }
    }
  }

  lemma CountsComplete(fs: seq<FileChange>, stats: seq<FileChange>)
    requires UniquePaths(fs) && UniquePaths(stats) && forall f | f in fs :: f in stats
    requires AllWritable(fs)
    ensures forall k | 0 <= k < |fs| :: CountAll(NamedAll(fs), stats)[k] == Summary(fs[k])
  {
    var named := NamedAll(fs);
    forall k | 0 <= k < |fs| ensures CountAll(named, stats)[k] == Summary(fs[k]) {
      assert fs[k] in fs;
      var j :| 0 <= j < |stats| && stats[j] == fs[k];
      CountsLand(named, stats, k, j);
    }
  }

  /**
   * For files with non-empty NUL-free unique paths and any mix of edits,
   * renames, copies and binaries, reading the name stream and then the count
   * stream, whatever order its records come in, gives back every path, old
   * path, status, count and binary flag.
   */
  lemma StreamsRoundTrip(fs: seq<FileChange>, stats: seq<FileChange>)
    requires AllWritable(fs) && AllWritable(stats) && UniquePaths(fs) && UniquePaths(stats)
    requires forall f | f in fs :: f in stats
    ensures var named := ParseFields(SplitZ(Stream(AllNameFields(fs))));
            var read := ApplyRecords(named, Split(Stream(AllStatRecords(stats))));
            |read| == |fs| && forall k | 0 <= k < |fs| :: read[k] == Summary(fs[k])
  {
    ParseAllNames(fs);
    FieldsRoundTrip(AllNameFields(fs));
    ApplyAllStats(NamedAll(fs), stats);
    SplitStream(AllStatRecords(stats));
    CountsComplete(fs, stats);
  }

  // ── streams that are cut off ────────────────────────────────────────────

  /** What the first `k` fields of a record show: nothing, or a move cut before its new path under its old one. */
  function CutShows(f: FileChange, k: nat): seq<FileSummary> {
    if Moved(f) && k == 2 then [FileSummary(f.oldPath, None, Summary(f).status, 0, 0, false)] else []
  }

  lemma CutRecord(f: FileChange, k: nat)
    requires Writable(f) && k < |NameFields(f)|
    ensures ParseFields(NameFields(f)[..k]) == CutShows(f, k)
  {
    StatusReads(f.kind);
    if k >= 2 {
      assert NameFields(f)[..k][0] == StatusField(f.kind) && NameFields(f)[..k][1] == f.oldPath;
    }
  }

  /** A stream cut off inside a record still tells of every file before it. */
  lemma {:induction false} CutOffNames(fs: seq<FileChange>, last: FileChange, k: nat)
    requires AllWritable(fs) && Writable(last) && k < |NameFields(last)|
    ensures ParseFields(AllNameFields(fs) + NameFields(last)[..k]) == NamedAll(fs) + CutShows(last, k)
    decreases |fs|
  {
    var cut := NameFields(last)[..k];
    if fs == [] {
      CutRecord(last, k);
      assert AllNameFields(fs) + cut == cut;
      assert NamedAll(fs) + CutShows(last, k) == CutShows(last, k);
    } else {
      var rest := AllNameFields(fs[1..]);
      CutOffNames(fs[1..], last, k);
      NamesThen(fs, cut);
      ParseOneName(fs[0], rest + cut);
      NamedThen(fs, CutShows(last, k));
    }
  }

  lemma NamesThen(fs: seq<FileChange>, cut: seq<string>)
    requires fs != []
    ensures AllNameFields(fs) + cut == NameFields(fs[0]) + (AllNameFields(fs[1..]) + cut)
  {
  }

  lemma NamedThen(fs: seq<FileChange>, more: seq<FileSummary>)
    requires fs != []
    ensures NamedAll(fs) + more == [Named(fs[0])] + (NamedAll(fs[1..]) + more)
  {
  }

  predicate NoEmptyPath(files: seq<FileSummary>) {
    forall k | 0 <= k < |files| :: files[k].path != ""
  }

  lemma CutStat(files: seq<FileSummary>, f: FileChange, k: nat)
    requires Writable(f) && NoEmptyPath(files) && k < |StatRecords(f)|
    ensures ApplyRecords(files, StatRecords(f)[..k]) == files
  {
    if k > 0 {
      var (adds, dels) := CountColumns(f.counts);
      CountsRead(FileSummary("", None, "", 0, 0, false), f.counts);
      ColumnsRead(adds, dels, "");
      assert adds + "\t" + dels + "\t" + "" == adds + "\t" + dels + "\t";
      assert StatRecords(f)[..k][0] == adds + "\t" + dels + "\t";
    }
  }

  /** Counts cut off inside a record still reach every file before it, and no other. */
  lemma {:induction false} CutOffCounts(files: seq<FileSummary>, fs: seq<FileChange>, last: FileChange, k: nat)
    requires AllWritable(fs) && Writable(last) && NoEmptyPath(files) && k < |StatRecords(last)|
    ensures ApplyRecords(files, AllStatRecords(fs) + StatRecords(last)[..k]) == CountAll(files, fs)
    decreases |fs|
  {
    var cut := StatRecords(last)[..k];
    if fs == [] {
      CutStat(files, last, k);
      assert AllStatRecords(fs) + cut == cut;
    } else {
      var rest, counted := AllStatRecords(fs[1..]), CountPath(files, fs[0].path, fs[0].counts);
      StatsThen(fs, cut);
      ApplyOneStat(files, fs[0], rest + cut);
      CountKeepsPaths(files, fs[0].path, fs[0].counts);
      CutOffCounts(counted, fs[1..], last, k);
    }
  }

  lemma StatsThen(fs: seq<FileChange>, cut: seq<string>)
    requires fs != []
    ensures AllStatRecords(fs) + cut == StatRecords(fs[0]) + (AllStatRecords(fs[1..]) + cut)
  {
  }

  lemma CountKeepsPaths(files: seq<FileSummary>, path: string, counts: Counts)
    requires NoEmptyPath(files)
    ensures NoEmptyPath(CountPath(files, path, counts))
  {
  }

  predicate AllDigits(s: string) {
    forall i | 0 <= i < |s| :: 48 <= s[i] as int <= 57
  }

  /** A plus sign before a count changes nothing; text that is no number, a sign alone included, counts as zero. */
  lemma OtherTextReadsZero(s: string)
    ensures s != "" && AllDigits(s) ==> ParseU32("+" + s) == ParseU32(s)
    ensures s == "" || s == "+" || (!AllDigits(s) && !(s[0] == '+' && AllDigits(s[1..]))) ==> ParseU32(s) == 0
  {
    assert ("+" + s)[1..] == s;
    assert forall i | 0 <= i < |s| :: Decimal.IsDigit(s[i]) <==> 48 <= s[i] as int <= 57;
    assert s != "" ==> s[0] != '+' || !AllDigits(s);
  }
}
