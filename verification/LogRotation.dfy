/** The rotating log file against the full log. Files are numbered: 0 is the current file, `i` is backup `.i`. */
module LogRotation {
  import opened Sequences

  /** The disk: which numbered files exist, and what they hold. */
  type Disk = map<nat, string>

  function Max(a: int, b: int): int {
    if a > b then a else b
  }

  /** How many backups a rotation leaves room for. With a limit of zero or less the countdown loop does not
      run, but the current file still becomes backup 1. */
  function Slots(maxRotation: int): (n: nat)
    ensures n >= 1
  {
    Max(1, maxRotation)
  }

  type Int32 = n: int | -0x8000_0000 <= n < 0x8000_0000

  /** The size limit is compared as an unsigned 64-bit number. */
  function Unsigned64(n: Int32): (u: nat) {
    if n >= 0 then n else n + 0x1_0000_0000_0000_0000
  }

  function UpOne(d: Disk, slots: nat): set<nat> {
    set i | i in d && i < slots :: i + 1
  }

  /** Every file moves one place up; what stood in the last place is gone. */
  function Rotated(d: Disk, slots: nat): Disk {
    map j | j in UpOne(d, slots) :: d[j - 1]
  }

  function Renamed(d: Disk, src: nat, dest: nat): Disk {
    if src in d then (d - {src})[dest := d[src]] else d
  }

  /** The countdown has handled the backups above `i`: they stand one place higher, and place `i + 1` is free. */
  ghost predicate Stage(f: Disk, d: Disk, n: nat, i: nat) {
    if i >= n then f == d
    else
      && (forall j: nat :: j <= i ==> (j in f <==> j in d) && (j in f ==> f[j] == d[j]))
      && i + 1 !in f
      && (forall j: nat :: j > i + 1 ==> (j in f <==> j <= n && j - 1 in d) && (j in f ==> f[j] == d[j - 1]))
  }

  lemma StageStep(f: Disk, d: Disk, n: nat, i: nat)
    requires forall j :: j in d ==> j <= n
    requires 1 <= i <= n && Stage(f, d, n, i)
    ensures Stage(if i == n then f - {i} else Renamed(f, i, i + 1), d, n, i - 1)
  {
  }

  /** With all backups handled, moving the current file to place 1 completes the rotation. */
  lemma StageEnd(f: Disk, d: Disk, n: nat)
    requires n >= 1 && (forall j :: j in d ==> j <= n) && Stage(f, d, n, 0)
    ensures Renamed(f, 0, 1) == Rotated(d, n)
  {
    var r := Renamed(f, 0, 1);
    forall j: nat ensures (j in r <==> j in Rotated(d, n)) && (j in r ==> r[j] == Rotated(d, n)[j]) {
      assert j >= 1 && j - 1 in d && j - 1 < n ==> j in UpOne(d, n);
    }
  }

  lemma NoCountdown(d: Disk)
    requires 0 in d && forall j :: j in d ==> j <= 1
    ensures Renamed(d, 0, 1) == Rotated(d, 1)
  {
    assert Rotated(d, 1) == map[1 := d[0]] by {
      assert UpOne(d, 1) == {1};
    }
  }

  /** The disk holds the newest closed files, as many as there are slots, without gaps. */
  ghost predicate Mirrors(d: Disk, archive: seq<string>, slots: nat) {
    && (forall j: nat :: j >= 1 ==> (j in d <==> j <= slots && j <= |archive|))
    && (forall j: nat :: j >= 1 && j in d ==> d[j] == archive[|archive| - j])
  }

  lemma RotationMirrors(d: Disk, archive: seq<string>, slots: nat)
    requires slots >= 1 && Mirrors(d, archive, slots) && 0 in d
    ensures Mirrors(Rotated(d, slots), archive + [d[0]], slots) && 0 !in Rotated(d, slots)
  {
    var r, a := Rotated(d, slots), archive + [d[0]];
    forall j: nat | j >= 1 ensures (j in r <==> j <= slots && j <= |a|) && (j in r ==> r[j] == a[|a| - j]) {
      assert j - 1 in d && j - 1 < slots ==> j in UpOne(d, slots);
    }
  }

  /** The contents of the files along a run of records: the closed ones, oldest first, and the current one. */
  function Files(records: seq<string>, size: nat): (seq<string>, string) {
    if records == [] then ([], "")
    else
      var (closed, current) := Files(records[..|records| - 1], size);
      var r := records[|records| - 1];
      if |current| > size then (closed + [current], r) else (closed, current + r)
  }

  class FileLogBackend {
    const hasPath: bool
    const rotationSize: Int32
    const maxRotation: Int32
    var files: map<nat, string>
    ghost var records: seq<string>     // every record ever written, in order

    /** The disk holds the current file and the newest closed files of the run of records. */
    ghost predicate Valid()
      reads this
    {
      var (closed, current) := Files(records, Unsigned64(rotationSize));
      && current == Current(files)
      && (0 in files <==> records != [])
      && Mirrors(files, closed, Slots(maxRotation))
    }

    constructor (path: bool, size: Int32, max: Int32)
      ensures Valid() && rotationSize == size && maxRotation == max && hasPath == path && records == []
    {
      hasPath, rotationSize, maxRotation, files, records := path, size, max, map[], [];
    }

    method Rename(src: nat, dest: nat)
      modifies this`files
      ensures files == Renamed(old(files), src, dest)
    {
      if src in files {
        var content := files[src];
        files := files - {src};
        files := files[dest := content];
      }
    }

    /** The countdown over the backups, then the current file becomes backup 1. */
    method Rotate()
      requires 0 in files
      requires forall j :: j in files ==> j <= Slots(maxRotation)
      modifies this`files
      ensures files == Rotated(old(files), Slots(maxRotation))
    {
      ghost var d := files;
      var i := maxRotation;
      while i > 0
        invariant if maxRotation <= 0 then i == maxRotation && files == d
                  else 0 <= i <= maxRotation && Stage(files, d, maxRotation, i)
      {
        StageStep(files, d, maxRotation, i);
        if i == maxRotation {
          files := files - {i};
        } else {
          Rename(i, i + 1);
        }
        i := i - 1;
      }
      if maxRotation <= 0 {
        NoCountdown(d);
      } else {
        StageEnd(files, d, Slots(maxRotation));
      }
      Rename(0, 1);
    }

    /** One record: debug records are dropped; otherwise rotate first if the current file has grown too large,
        then append. */
    method WriteLog(debug: bool, record: string)
      requires Valid()
      modifies this
      ensures Valid()
      ensures records == if debug || !hasPath then old(records) else old(records) + [record]
      ensures debug || !hasPath ==> files == old(files)
    {
      if debug || !hasPath {
        return;
      }
      ghost var (closed, current) := Files(records, Unsigned64(rotationSize));
      FilesSnoc(records, record, Unsigned64(rotationSize));
      hide Files;
      if 0 in files && |files[0]| > Unsigned64(rotationSize) {
        RotationMirrors(files, closed, Slots(maxRotation));
        Rotate();
        files := files[0 := record];
      } else {
        files := files[0 := (if 0 in files then files[0] else "") + record];
      }
      records := records + [record];
    }
  }

  lemma FilesSnoc(records: seq<string>, r: string, size: nat)
    ensures var (closed, current) := Files(records, size);
            Files(records + [r], size) == if |current| > size then (closed + [current], r) else (closed, current + r)
  {
    assert (records + [r])[..|records|] == records;
  }

  function Current(d: Disk): string {
    if 0 in d then d[0] else ""
  }

  function Concat(fs: seq<string>): string {
    if fs == [] then "" else Concat(fs[..|fs| - 1]) + fs[|fs| - 1]
  }

  lemma ConcatSnoc(fs: seq<string>, f: string)
    ensures Concat(fs + [f]) == Concat(fs) + f
  {
    assert (fs + [f])[..|fs|] == fs;
  }

  // ---------------------------------------------------------------- what is left on disk

  /** Backups from `k` down to 1 and the current file, one after the other. */
  function Backups(d: Disk, k: nat): string {
    if k == 0 then Current(d) else (if k in d then d[k] else "") + Backups(d, k - 1)
  }

  lemma {:induction false} BackupsAre(d: Disk, archive: seq<string>, slots: nat, k: nat)
    requires Mirrors(d, archive, slots) && k <= slots
    ensures Backups(d, k) == Concat(archive[if k <= |archive| then |archive| - k else 0..]) + Current(d)
    decreases k
  {
    if k > 0 {
      BackupsAre(d, archive, slots, k - 1);
      if k <= |archive| {
        var rest := archive[|archive| - (k - 1)..];
        assert archive[|archive| - k..] == [d[k]] + rest;
        hide Concat, Mirrors;
        ConcatCons(d[k], rest);
        Assoc(d[k], Concat(rest), Current(d));
      } else {
        hide Concat;
        assert "" + Backups(d, k - 1) == Backups(d, k - 1);
      }
    } else {
      assert archive[|archive|..] == [];
      assert "" + Current(d) == Current(d);
    }
  }

  lemma {:induction false} ConcatCons(f: string, fs: seq<string>)
    ensures Concat([f] + fs) == f + Concat(fs)
    decreases |fs|
  {
    if fs == [] {
      assert [f] + fs == [f] && [f][..0] == [];
    } else {
      var n := |fs| - 1;
      ConcatCons(f, fs[..n]);
      assert ([f] + fs)[..|fs|] == [f] + fs[..n];
    }
  }

  lemma {:induction false} ConcatSplit(a: seq<string>, b: seq<string>)
    ensures Concat(a + b) == Concat(a) + Concat(b)
    decreases |b|
  {
    if b == [] {
      assert a + b == a;
    } else {
      var n := |b| - 1;
      ConcatSplit(a, b[..n]);
      assert (a + b)[..|a + b| - 1] == a + b[..n];
    }
  }

  /** Read from the oldest backup to the current file, the disk holds a suffix of everything ever logged, cut
      where a file began: what is missing is exactly the closed files beyond the number of slots. */
  lemma DiskIsSuffix(d: Disk, records: seq<string>, size: nat, slots: nat)
    requires Mirrors(d, Files(records, size).0, slots) && Current(d) == Files(records, size).1
    ensures var closed := Files(records, size).0;
            var gone := if slots <= |closed| then |closed| - slots else 0;
            Concat(records) == Concat(closed[..gone]) + Backups(d, slots)
  {
    FilesConcat(records, size);
    hide Files, Concat, Mirrors, Backups;
    var closed := Files(records, size).0;
    var gone := if slots <= |closed| then |closed| - slots else 0;
    BackupsAre(d, closed, slots, slots);
    ConcatSplit(closed[..gone], closed[gone..]);
    assert closed[..gone] + closed[gone..] == closed;
    Assoc(Concat(closed[..gone]), Concat(closed[gone..]), Current(d));
  }

  lemma {:induction false} FilesConcat(records: seq<string>, size: nat)
    ensures var (closed, current) := Files(records, size); Concat(closed) + current == Concat(records)
    decreases |records|
  {
    if records != [] {
      var p, r := records[..|records| - 1], records[|records| - 1];
      FilesConcat(p, size);
      var (closed, current) := Files(p, size);
      ConcatSnoc(closed, current);
      Assoc(Concat(closed), current, r);
    }
  }

  /** Every file, closed or current, is at most the size limit plus one record long, and every closed one is
      longer than the limit. */
  lemma {:induction false} FileLengths(records: seq<string>, size: nat, longest: nat)
    requires forall i :: 0 <= i < |records| ==> |records[i]| <= longest
    ensures var (closed, current) := Files(records, size);
            && |current| <= size + longest
            && (forall i :: 0 <= i < |closed| ==> size < |closed[i]| <= size + longest)
    decreases |records|
  {
    if records != [] {
      FileLengths(records[..|records| - 1], size, longest);
    }
  }

  // ---------------------------------------------------------------- the object's limits

  /** What the object keeps on disk, in terms of its own limits: at most `max` backups without gaps, or one if `max` is
      zero or less; all together the log but for the oldest closed files. */
  lemma ObjectDisk(log: FileLogBackend)
    requires log.Valid()
    ensures var closed := Files(log.records, Unsigned64(log.rotationSize)).0;
            var slots := if log.maxRotation >= 1 then log.maxRotation else 1;
            && (forall j :: j in log.files && j >= 1 ==> j <= slots && j <= |closed|)
            && (forall j :: 1 <= j <= slots && j <= |closed| ==> j in log.files && log.files[j] == closed[|closed| - j])
            && Concat(log.records) == Concat(closed[..if slots <= |closed| then |closed| - slots else 0]) + Backups(log.files, slots)
  {
    DiskIsSuffix(log.files, log.records, Unsigned64(log.rotationSize), Slots(log.maxRotation));
  }

  /** The current file is at most the size limit plus one record long and every backup is longer than the limit; with a
      negative limit no file of less than 2^63 characters is ever closed. */
  lemma ObjectLengths(log: FileLogBackend, longest: nat)
    requires log.Valid() && forall i :: 0 <= i < |log.records| ==> |log.records[i]| <= longest
    ensures log.rotationSize >= 0 ==>
              && (0 in log.files ==> |log.files[0]| <= log.rotationSize + longest)
              && (forall j :: j >= 1 && j in log.files ==> log.rotationSize < |log.files[j]| <= log.rotationSize + longest)
    ensures log.rotationSize < 0 ==> forall j :: j >= 1 && j in log.files ==> |log.files[j]| > 0x8000_0000_0000_0000
  {
    FileLengths(log.records, Unsigned64(log.rotationSize), longest);
  }
}
