/** `find-recently-accessed/find-recently-accessed.go`: list the regular files
    under a directory that were accessed less than a given number of seconds
    ago, and their total size. The clock reading, `os.Stat` and the directory
    walk are parameters; times are nanoseconds since the epoch. */
module RecentlyAccessed {
  import opened Wrappers
  import opened GoStrconv

  const NanosPerSecond: int := 1_000_000_000
  const MaxInt64: int := 0x7FFF_FFFF_FFFF_FFFF

  /** What `os.Stat` said about the target path. */
  datatype StatResult = StatError(err: string) | Stat(isDir: bool)

  /** `cmdRequest`: the directory to walk and the access time a file must
      be after. */
  datatype CmdRequest = CmdRequest(targetPath: string, earliestAccessTime: int)

  /** Why `parseArgs` refused its arguments. */
  datatype ArgsError =
    | NotEnoughArguments
    | DoesNotExist(path: string, statErr: string)
    | NotADirectory(path: string)
    | BadSeconds(arg: string, parseErr: NumError)

  /** `parseArgs(os.Args)` at clock reading `now`: exactly a program name, a
      path and a seconds argument; the path must exist and be a directory;
      the seconds must parse as a signed 32-bit decimal. The threshold is
      `now` moved back by that many seconds. */
  function ParseArgs(args: seq<string>, now: int, stat: string -> StatResult): Result<CmdRequest, ArgsError>
  {
    if |args| != 3 then Err(NotEnoughArguments)
    else match stat(args[1])
      case StatError(e) => Err(DoesNotExist(args[1], e))
      case Stat(isDir) =>
        if !isDir then Err(NotADirectory(args[1]))
        else match ParseInt32(args[2])
          case Err(e) => Err(BadSeconds(args[2], e))
          case Ok(seconds) => Ok(CmdRequest(args[1], now + (-1 * seconds) * NanosPerSecond))
  }

  /** The argument count is checked before anything else: a vector of any
      other length is refused whatever the clock or the file system say. */
  lemma ArgumentCountFirst(args: seq<string>, now: int, now': int,
                           stat: string -> StatResult, stat': string -> StatResult)
    requires |args| != 3
    ensures ParseArgs(args, now, stat) == ParseArgs(args, now', stat') == Err(NotEnoughArguments)
  {
  }

  /** For an existing directory, the request is accepted exactly when the
      seconds are a decimal integer within the signed 32-bit range, and then
      its threshold is `now` minus that many seconds. */
  lemma SecondsThreshold(args: seq<string>, now: int, stat: string -> StatResult)
    requires |args| == 3 && stat(args[1]) == Stat(true)
    ensures var r := ParseArgs(args, now, stat);
      && (r.Ok? <==> IsDecimalInt(args[2]) && -Int32Cutoff <= IntValue(args[2]) < Int32Cutoff)
      && (r.Ok? ==> r.value.targetPath == args[1]
                    && r.value.earliestAccessTime == now - IntValue(args[2]) * NanosPerSecond)
      && (r.Err? ==> r.error.BadSeconds?)
  {
    ParseInt32Spec(args[2]);
  }

  /** One file the walk visited: its path, whether it is a regular file, its
      access time and its size in bytes. */
  datatype FileRecord = FileRecord(path: string, isRegular: bool, atime: int, size: nat)

  /** `fileEntry`. */
  datatype FileEntry = FileEntry(filePath: string, size: nat)

  function EntryOf(rec: FileRecord): FileEntry
  {
    FileEntry(rec.path, rec.size)
  }

  /** The walk callback keeps a record: a regular file accessed strictly after
      the threshold. */
  predicate Selected(rec: FileRecord, threshold: int)
  {
    rec.isRegular && rec.atime > threshold
  }

  /** The entries `do` collects, in walk order. */
  function Recent(records: seq<FileRecord>, threshold: int): (r: seq<FileEntry>)
    ensures |r| <= |records|
    ensures forall e :: e in r ==> exists rec :: rec in records && Selected(rec, threshold) && e == EntryOf(rec)
    ensures forall rec :: rec in records && Selected(rec, threshold) ==> EntryOf(rec) in r
    decreases |records|
  {
    if |records| == 0 then []
    else
      var rest := Recent(records[1..], threshold);
      assert forall rec :: rec in records[1..] ==> rec in records;
      assert forall rec :: rec in records ==> rec == records[0] || rec in records[1..];
      if Selected(records[0], threshold) then [EntryOf(records[0])] + rest else rest
  }

  /** Walk order is kept: the entries of a longer walk are those of its first
      part followed by those of the rest. */
  lemma {:induction false} RecentAppend(a: seq<FileRecord>, b: seq<FileRecord>, threshold: int)
    ensures Recent(a + b, threshold) == Recent(a, threshold) + Recent(b, threshold)
    decreases |a|
  {
    if |a| == 0 {
      assert a + b == b;
    } else {
      assert (a + b)[1..] == a[1..] + b;
      RecentAppend(a[1..], b, threshold);
    }
  }

  /** A record that is not selected, such as a non-regular file or one
      accessed exactly at the threshold, adds nothing wherever it is visited. */
  lemma NotSelectedNotListed(a: seq<FileRecord>, rec: FileRecord, b: seq<FileRecord>, threshold: int)
    requires !Selected(rec, threshold)
    ensures Recent(a + [rec] + b, threshold) == Recent(a, threshold) + Recent(b, threshold)
  {
    var front := a + [rec];
    RecentAppend(front, b, threshold);
    RecentAppend(a, [rec], threshold);
    RecentSingle(rec, threshold);
    assert Recent(front, threshold) == Recent(a, threshold);
  }

  /** A one-record walk lists the record exactly when it is selected. */
  lemma RecentSingle(rec: FileRecord, threshold: int)
    ensures Recent([rec], threshold) == if Selected(rec, threshold) then [EntryOf(rec)] else []
  {
    assert [rec][1..] == [];
  }

  /** One more visited record adds its entry exactly when it is selected. */
  lemma RecentSnoc(records: seq<FileRecord>, i: nat, threshold: int)
    requires i < |records|
    ensures Recent(records[..i + 1], threshold) ==
      Recent(records[..i], threshold) + (if Selected(records[i], threshold) then [EntryOf(records[i])] else [])
  {
    assert records[..i + 1] == records[..i] + [records[i]];
    RecentAppend(records[..i], [records[i]], threshold);
    assert [records[i]][1..] == [];
  }

  /** The walk callback, applied to the visited records in order. */
  method CollectRecent(records: seq<FileRecord>, threshold: int) returns (entries: seq<FileEntry>)
    ensures entries == Recent(records, threshold)
  {
    entries := [];
    for i := 0 to |records|
      invariant entries == Recent(records[..i], threshold)
    {
      RecentSnoc(records, i, threshold);
      if Selected(records[i], threshold) {
        entries := entries + [EntryOf(records[i])];
      }
    }
    assert records[..|records|] == records;
  }

  /** Sum of the entry sizes. */
  function TotalSize(entries: seq<FileEntry>): nat
    decreases |entries|
  {
    if |entries| == 0 then 0 else entries[0].size + TotalSize(entries[1..])
  }

  /** Sum of the sizes of all visited records. */
  function RecordsSize(records: seq<FileRecord>): nat
    decreases |records|
  {
    if |records| == 0 then 0 else records[0].size + RecordsSize(records[1..])
  }

  /** The listed files never weigh more than all visited files, so a walk
      whose sizes fit an `int64` cannot overflow the total. */
  lemma {:induction false} RecentSizeBound(records: seq<FileRecord>, threshold: int)
    ensures TotalSize(Recent(records, threshold)) <= RecordsSize(records)
    decreases |records|
  {
    if |records| > 0 {
      RecentSizeBound(records[1..], threshold);
    }
  }

  /** The summing loop of `main`; the `int64` accumulator never overflows
      while the total fits. */
  method SumSizes(entries: seq<FileEntry>) returns (total: int)
    requires TotalSize(entries) <= MaxInt64
    ensures total == TotalSize(entries)
    ensures 0 <= total <= MaxInt64
  {
    total := 0;
    for i := 0 to |entries|
      invariant total + TotalSize(entries[i..]) == TotalSize(entries)
      invariant 0 <= total <= MaxInt64
    {
      assert entries[i..][1..] == entries[i + 1..];
      total := total + entries[i].size;
    }
    assert entries[|entries|..] == [];
  }

  /** What `main` prints after the walk: nothing more when no file was found,
      otherwise the total in bytes, kilobytes and megabytes. */
  datatype Summary = NoEntries | Totals(count: nat, bytes: nat, kb: nat, mb: nat)

  /** `totalSize`, `totalSize/1024` and `totalSize/1024/1024`; Go's division
      truncates, which on these non-negative totals is floor division. */
  function Summarize(entries: seq<FileEntry>): (s: Summary)
    requires TotalSize(entries) <= MaxInt64
    ensures s.NoEntries? <==> |entries| == 0
    ensures s.Totals? ==> s.count == |entries| && s.bytes == TotalSize(entries)
    ensures s.Totals? ==> s.kb * 1024 <= s.bytes < (s.kb + 1) * 1024
    ensures s.Totals? ==> s.mb * 1048576 <= s.bytes < (s.mb + 1) * 1048576
    ensures s.Totals? ==> s.mb == s.kb / 1024
  {
    if |entries| == 0 then NoEntries
    else
      var total := TotalSize(entries);
      var kb := total / 1024;
      var mb := kb / 1024;
      MegabytesBound(total, kb, mb);
      Totals(|entries|, total, kb, mb)
  }

  lemma MegabytesBound(total: nat, kb: nat, mb: nat)
    requires kb == total / 1024 && mb == kb / 1024
    ensures mb * 1048576 <= total < (mb + 1) * 1048576
  {
  }

  /** The whole tool, after the clock, `os.Stat` and the walk: a refused
      argument vector (exit status 1), or the summary of the listed files. */
  function FindRecentlyAccessed(args: seq<string>, now: int, stat: string -> StatResult,
                                walk: seq<FileRecord>): (r: Result<Summary, ArgsError>)
    requires RecordsSize(walk) <= MaxInt64
    ensures r.Err? <==> ParseArgs(args, now, stat).Err?
    ensures r.Ok? ==> var t := ParseArgs(args, now, stat).value.earliestAccessTime;
      && (r.value.NoEntries? <==> forall rec :: rec in walk ==> !Selected(rec, t))
      && (r.value.Totals? ==> r.value.bytes == TotalSize(Recent(walk, t)))
  {
    match ParseArgs(args, now, stat)
    case Err(e) => Err(e)
    case Ok(req) =>
      var entries := Recent(walk, req.earliestAccessTime);
      RecentSizeBound(walk, req.earliestAccessTime);
      assert |entries| == 0 <==> forall rec :: rec in walk ==> !Selected(rec, req.earliestAccessTime) by {
        if |entries| > 0 {
          assert entries[0] in entries;
        }
      }
      Ok(Summarize(entries))
  }
}
