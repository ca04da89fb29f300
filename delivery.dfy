/** The delivery policy of a download: client classification, the choice
    between a single file, a zip for mobile clients and a copy into a local
    folder for desktop clients, and the two loops of the desktop copy. */
module Delivery {
  import opened Paths
  import opened Transfers

  /** ASCII lower-casing of one character. */
  function LowerChar(c: char): (d: char)
    ensures 'A' <= c <= 'Z' ==> d as int == c as int + 32
    ensures !('A' <= c <= 'Z') ==> d == c
  {
    if 'A' <= c <= 'Z' then (c as int + 32) as char else c
  }

  function ToLower(s: string): (r: string)
    ensures |r| == |s|
    ensures forall i :: 0 <= i < |s| ==> r[i] == LowerChar(s[i])
  {
    seq(|s|, i requires 0 <= i < |s| => LowerChar(s[i]))
  }

  /** `sub` occurs in `s` starting at index `i`. */
  predicate OccursAt(s: string, sub: string, i: int) {
    0 <= i <= |s| - |sub| && s[i..i + |sub|] == sub
  }

  /** `sub in s` on strings. */
  predicate Contains(s: string, sub: string) {
    exists i :: 0 <= i <= |s| - |sub| && OccursAt(s, sub, i)
  }

  /** A client is mobile when its lower-cased User-Agent mentions a phone. */
  predicate IsMobile(userAgent: string) {
    var ua := ToLower(userAgent);
    Contains(ua, "mobile") || Contains(ua, "iphone") || Contains(ua, "android")
  }

  lemma {:induction false} ContainsInContext(s: string, sub: string, before: string, after: string)
    requires Contains(s, sub)
    ensures Contains(before + s + after, sub)
  {
    var i :| 0 <= i <= |s| - |sub| && OccursAt(s, sub, i);
    var t := before + s + after;
    assert t[|before| + i..|before| + i + |sub|] == s[i..i + |sub|];
    assert OccursAt(t, sub, |before| + i);
  }

  /** Classification looks at the User-Agent case-insensitively. */
  lemma IsMobileIgnoresCase(userAgent: string)
    ensures IsMobile(ToLower(userAgent)) == IsMobile(userAgent)
  {
    assert ToLower(ToLower(userAgent)) == ToLower(userAgent);
  }

  /** Text around a mobile User-Agent does not make it a desktop one. */
  lemma {:induction false} IsMobileInContext(userAgent: string, before: string, after: string)
    requires IsMobile(userAgent)
    ensures IsMobile(before + userAgent + after)
  {
    var ua := ToLower(userAgent);
    assert ToLower(before + userAgent + after) == ToLower(before) + ua + ToLower(after);
    if Contains(ua, "mobile") {
      ContainsInContext(ua, "mobile", ToLower(before), ToLower(after));
    } else if Contains(ua, "iphone") {
      ContainsInContext(ua, "iphone", ToLower(before), ToLower(after));
    } else {
      ContainsInContext(ua, "android", ToLower(before), ToLower(after));
    }
  }

  datatype Packaging = SingleFile | MobileZip | DesktopCopy

  /** The three-way choice of a download. */
  function ChoosePackaging(isDirectory: bool, userAgent: string): (p: Packaging)
    ensures p == SingleFile <==> !isDirectory
    ensures p == MobileZip <==> isDirectory && IsMobile(userAgent)
    ensures p == DesktopCopy <==> isDirectory && !IsMobile(userAgent)
  {
    if isDirectory && IsMobile(userAgent) then MobileZip
    else if isDirectory then DesktopCopy
    else SingleFile
  }

  /** The stored file of every record, in order. */
  function StoredPaths(files: seq<FileRecord>): (p: seq<Path>)
    ensures |p| == |files|
    ensures forall i :: 0 <= i < |files| ==> p[i] == files[i].path
  {
    seq(|files|, i requires 0 <= i < |files| => files[i].path)
  }

  /** How many of `paths` are present in `fs`. */
  function CountPresent(paths: seq<Path>, fs: set<Path>): (n: nat)
    ensures n <= |paths|
  {
    if paths == [] then 0
    else CountPresent(paths[..|paths| - 1], fs) + (if paths[|paths| - 1] in fs then 1 else 0)
  }

  /** The count is zero exactly when none of the paths is present. */
  lemma {:induction false} CountPresentZero(paths: seq<Path>, fs: set<Path>)
    ensures CountPresent(paths, fs) == 0 <==> forall p :: p in paths ==> p !in fs
    decreases |paths|
  {
    if paths != [] {
      var front := paths[..|paths| - 1];
      assert forall p :: p in paths ==> p in front || p == paths[|paths| - 1];
      CountPresentZero(front, fs);
    }
  }

  /** Adding files never lowers the count. */
  lemma {:induction false} CountPresentMonotone(paths: seq<Path>, fs: set<Path>, more: set<Path>)
    requires fs <= more
    ensures CountPresent(paths, fs) <= CountPresent(paths, more)
    decreases |paths|
  {
    if paths != [] {
      CountPresentMonotone(paths[..|paths| - 1], fs, more);
    }
  }

  /** The count only looks at the paths themselves. */
  lemma {:induction false} CountPresentAgrees(paths: seq<Path>, a: set<Path>, b: set<Path>)
    requires forall p :: p in paths ==> (p in a <==> p in b)
    ensures CountPresent(paths, a) == CountPresent(paths, b)
    decreases |paths|
  {
    if paths != [] {
      var front := paths[..|paths| - 1];
      assert forall p :: p in front ==> p in paths;
      CountPresentAgrees(front, a, b);
    }
  }

  /** One member of the in-memory zip: the archive name and the stored file it holds. */
  datatype ZipEntry = ZipEntry(arcName: string, source: Path)

  /** The zip for a mobile client: every record whose stored file still
      exists, in order, under its normalised relative path. */
  function ZipEntries(files: seq<FileRecord>, fs: set<Path>, normPath: string -> string): (z: seq<ZipEntry>)
    ensures |z| == CountPresent(StoredPaths(files), fs)
    ensures forall e :: e in z ==> e.source in fs
    ensures forall r :: r in files && r.path in fs ==> ZipEntry(normPath(r.relativePath), r.path) in z
    ensures forall e :: e in z ==> exists r :: r in files && e == ZipEntry(normPath(r.relativePath), r.path)
  {
    if files == [] then []
    else
      var front := files[..|files| - 1];
      var last := files[|files| - 1];
      assert forall r :: r in files ==> r in front || r == last;
      assert StoredPaths(files)[..|files| - 1] == StoredPaths(front);
      ZipEntries(front, fs, normPath) + (if last.path in fs then [ZipEntry(normPath(last.relativePath), last.path)] else [])
  }

  // ---- choosing the destination folder ----

  function DigitChar(d: nat): char
    requires d < 10
  {
    ('0' as int + d) as char
  }

  function DigitValue(c: char): nat {
    if '0' <= c <= '9' then c as int - '0' as int else 0
  }

  /** `str(n)`: the decimal digits of `n`. */
  function Decimal(n: nat): (s: string)
    ensures |s| >= 1
    decreases n
  {
    if n < 10 then [DigitChar(n)] else Decimal(n / 10) + [DigitChar(n % 10)]
  }

  function ParseDecimal(s: string): nat
    decreases |s|
  {
    if s == [] then 0 else ParseDecimal(s[..|s| - 1]) * 10 + DigitValue(s[|s| - 1])
  }

  lemma {:induction false} DecimalRoundTrip(n: nat)
    ensures ParseDecimal(Decimal(n)) == n
    decreases n
  {
    if n >= 10 {
      var s := Decimal(n);
      var q, d := n / 10, n % 10;
      assert s == Decimal(q) + [DigitChar(d)];
      assert s[..|s| - 1] == Decimal(q);
      DecimalRoundTrip(q);
      assert DigitValue(DigitChar(d)) == d;
      assert q * 10 + d == n;
    }
  }

  /** The `counter`-th name tried for the destination folder: `base`, then
      `base_1`, `base_2`, and so on. */
  function Candidate(base: Path, counter: nat): Path {
    if counter == 0 then base else base + "_" + Decimal(counter)
  }

  /** Different counters give different names. */
  lemma CandidateInjective(base: Path, j: nat, k: nat)
    requires Candidate(base, j) == Candidate(base, k)
    ensures j == k
  {
    if j != 0 && k != 0 {
      var cj := Candidate(base, j);
      assert cj[|base| + 1..] == Decimal(j);
      assert Candidate(base, k)[|base| + 1..] == Decimal(k);
      DecimalRoundTrip(j);
      DecimalRoundTrip(k);
    }
  }

  /** `d` is the first candidate name that does not exist in `fs`. */
  ghost predicate FirstFreeCandidate(fs: set<Path>, base: Path, d: Path) {
    exists n: nat :: d == Candidate(base, n) && d !in fs && forall j: nat :: j < n ==> Candidate(base, j) in fs
  }

  /** The first `n` names tried. */
  ghost function Tried(base: Path, n: nat): set<Path>
    decreases n
  {
    if n == 0 then {} else Tried(base, n - 1) + {Candidate(base, n - 1)}
  }

  lemma {:induction false} TriedHoldsEarlierCandidates(base: Path, n: nat)
    ensures forall p :: p in Tried(base, n) ==> exists j: nat :: j < n && p == Candidate(base, j)
    decreases n
  {
    if n > 0 {
      TriedHoldsEarlierCandidates(base, n - 1);
    }
  }

  lemma {:induction false} TriedHoldsAllEarlier(base: Path, n: nat)
    ensures forall j: nat :: j < n ==> Candidate(base, j) in Tried(base, n)
    decreases n
  {
    if n > 0 {
      TriedHoldsAllEarlier(base, n - 1);
    }
  }

  lemma NotYetTried(base: Path, n: nat)
    ensures Candidate(base, n) !in Tried(base, n)
  {
    TriedHoldsEarlierCandidates(base, n);
    if Candidate(base, n) in Tried(base, n) {
      var j: nat :| j < n && Candidate(base, n) == Candidate(base, j);
      CandidateInjective(base, j, n);
    }
  }

  /** Passing over one more existing candidate shrinks the set of existing
      names not yet tried. */
  lemma TriedShrinksRest(fs: set<Path>, base: Path, n: nat)
    requires Tried(base, n) <= fs && Candidate(base, n) in fs
    ensures Tried(base, n + 1) <= fs
    ensures |fs - Tried(base, n + 1)| < |fs - Tried(base, n)|
  {
    NotYetTried(base, n);
    assert fs - Tried(base, n + 1) == (fs - Tried(base, n)) - {Candidate(base, n)};
  }

  /** The `while os.path.exists(target_dir)` loop: the result is the first
      candidate name that does not exist. It terminates because every name it
      passes over exists and no two candidates are equal. */
  method UniqueFolder(fs: set<Path>, base: Path) returns (d: Path, n: nat)
    ensures d == Candidate(base, n) && d !in fs
    ensures forall j: nat :: j < n ==> Candidate(base, j) in fs
  {
    d, n := base, 0;
    while d in fs
      invariant d == Candidate(base, n)
      invariant Tried(base, n) <= fs
      decreases |fs - Tried(base, n)|
    {
      TriedShrinksRest(fs, base, n);
      n := n + 1;
      d := Candidate(base, n);
    }
    TriedHoldsAllEarlier(base, n);
  }

  // ---- copying into the destination folder ----

  /** Where one record is copied: its normalised relative path, with
      backslashes turned into separators and the first component (the
      original folder name) dropped, below the destination folder. */
  function CopyTarget(dest: Path, normPath: string -> string, r: FileRecord): (t: Path)
    ensures IsUnder(t, dest)
  {
    JoinPath(dest, StripFirst(ToPosix(normPath(r.relativePath))))
  }

  /** A record uploaded as `top/rest` of a folder `top` is copied to where
      `rest` leads below the destination folder, whatever the folder was
      called: to `dest/rest` itself when `rest` has no leading or doubled
      separator, and to a place inside the folder when `rest` does not step
      out with `..`. */
  lemma FolderRecordLandsBelowDest(dest: Path, normPath: string -> string, r: FileRecord, top: string, rest: string)
    requires normPath(r.relativePath) == top + "/" + rest
    requires '/' !in top && '\\' !in top + "/" + rest
    ensures NoEmptyInside(Split(rest)) ==> CopyTarget(dest, normPath, r) == dest + "/" + rest
    ensures Location(CopyTarget(dest, normPath, r)) == Resolve(Split(dest) + Split(rest))
    ensures NoParentStep(Split(rest)) ==>
      Location(CopyTarget(dest, normPath, r)) == Location(dest) + Resolve(Split(rest))
  {
    ToPosixKeepsPosix(top + "/" + rest);
    StripFirstComponent(top, rest);
    var s := StripFirst(top + "/" + rest);
    SplitJoin(dest, s);
    SplitJoin(top, rest);
    SplitPlain(top);
    SplitPieces(rest);
    assert Split(top + "/" + rest)[1..] == Split(rest);
    JoinAllLocation(Split(dest), Split(rest));
    if NoParentStep(Split(rest)) {
      ResolveAppend(Split(dest), Split(rest));
    }
  }

  /** The target of every record, in order. */
  function CopyTargets(dest: Path, normPath: string -> string, files: seq<FileRecord>): (t: seq<Path>)
    ensures |t| == |files|
    ensures forall i :: 0 <= i < |files| ==> t[i] == CopyTarget(dest, normPath, files[i])
  {
    seq(|files|, i requires 0 <= i < |files| => CopyTarget(dest, normPath, files[i]))
  }

  /** Everything the copy loop may create for `targets`: each target and
      the directories above it. */
  ghost function Footprint(targets: seq<Path>): set<Path>
    decreases |targets|
  {
    if targets == [] then {}
    else
      var t := targets[|targets| - 1];
      Footprint(targets[..|targets| - 1]) + Ancestors(t) + {t}
  }

  /** What the copy loop leaves behind: the file system, the targets
      copied in order, and the index of the record each copy came from. */
  datatype CopyResult = CopyResult(fs: set<Path>, copied: seq<Path>, from: seq<nat>)

  /** The copy loop as a function of the stored files and their targets.
      Each record first gets the directories above its target, then is
      copied when its stored file exists at that moment. */
  function CopyRun(fs0: set<Path>, sources: seq<Path>, targets: seq<Path>): (r: CopyResult)
    requires |sources| == |targets|
    ensures |r.copied| == |r.from| <= |sources|
    decreases |sources|
  {
    if sources == [] then CopyResult(fs0, [], [])
    else
      var n := |sources| - 1;
      var prev := CopyRun(fs0, sources[..n], targets[..n]);
      var fs := prev.fs + Ancestors(targets[n]);
      if sources[n] in fs then CopyResult(fs + {targets[n]}, prev.copied + [targets[n]], prev.from + [n])
      else CopyResult(fs, prev.copied, prev.from)
  }

  /** The loop only adds to the file system, and only targets and the
      directories above them. */
  lemma {:induction false} CopyRunFootprint(fs0: set<Path>, sources: seq<Path>, targets: seq<Path>)
    requires |sources| == |targets|
    ensures var r := CopyRun(fs0, sources, targets);
      fs0 <= r.fs <= fs0 + Footprint(targets)
    decreases |sources|
  {
    if sources != [] {
      var n := |sources| - 1;
      CopyRunFootprint(fs0, sources[..n], targets[..n]);
    }
  }

  /** Every copy of `r` names the target of an earlier record, and the
      copies follow the order of the records, one per record at most. */
  predicate CopiesFollowTargets(r: CopyResult, targets: seq<Path>) {
    && |r.copied| == |r.from|
    && (forall k :: 0 <= k < |r.from| ==> r.from[k] < |targets| && r.copied[k] == targets[r.from[k]])
    && (forall k, l :: 0 <= k < l < |r.from| ==> r.from[k] < r.from[l])
  }

  lemma {:induction false} CopyRunOrigins(fs0: set<Path>, sources: seq<Path>, targets: seq<Path>)
    requires |sources| == |targets|
    ensures CopiesFollowTargets(CopyRun(fs0, sources, targets), targets)
    decreases |sources|
  {
    if sources != [] {
      var n := |sources| - 1;
      CopyRunOrigins(fs0, sources[..n], targets[..n]);
    }
  }

  /** Every copied target exists afterwards, and so does the stored file
      each copy was made from. */
  lemma {:induction false} CopyRunCopiesExist(fs0: set<Path>, sources: seq<Path>, targets: seq<Path>)
    requires |sources| == |targets|
    ensures var r := CopyRun(fs0, sources, targets);
      forall k :: 0 <= k < |r.from| ==> r.copied[k] in r.fs && r.from[k] < |sources| && sources[r.from[k]] in r.fs
    decreases |sources|
  {
    if sources != [] {
      var n := |sources| - 1;
      CopyRunCopiesExist(fs0, sources[..n], targets[..n]);
      CopyRunFootprint(fs0, sources[..n], targets[..n]);
    }
  }

  /** A record whose stored file exists before the loop is always copied. */
  lemma {:induction false} CopyRunCopiesPresent(fs0: set<Path>, sources: seq<Path>, targets: seq<Path>)
    requires |sources| == |targets|
    ensures forall i :: 0 <= i < |sources| && sources[i] in fs0 ==> i in CopyRun(fs0, sources, targets).from
    decreases |sources|
  {
    if sources != [] {
      var n := |sources| - 1;
      CopyRunCopiesPresent(fs0, sources[..n], targets[..n]);
      CopyRunFootprint(fs0, sources[..n], targets[..n]);
    }
  }

  /** The number of copies lies between the number of stored files present
      before the loop and the number present after it. */
  lemma {:induction false} CopyRunCount(fs0: set<Path>, sources: seq<Path>, targets: seq<Path>)
    requires |sources| == |targets|
    ensures var r := CopyRun(fs0, sources, targets);
      CountPresent(sources, fs0) <= |r.copied| <= CountPresent(sources, r.fs)
    decreases |sources|
  {
    if sources != [] {
      var n := |sources| - 1;
      var prev := CopyRun(fs0, sources[..n], targets[..n]);
      var r := CopyRun(fs0, sources, targets);
      CopyRunCount(fs0, sources[..n], targets[..n]);
      CopyRunFootprint(fs0, sources[..n], targets[..n]);
      assert prev.fs <= r.fs;
      CountPresentMonotone(sources[..n], prev.fs, r.fs);
    }
  }

  /** The loop copies nothing only if no stored file existed before it, and
      surely copies nothing if none exists after it. */
  lemma CopyRunNothingCopied(fs0: set<Path>, sources: seq<Path>, targets: seq<Path>)
    requires |sources| == |targets|
    ensures CopyRun(fs0, sources, targets).copied == [] ==> forall p :: p in sources ==> p !in fs0
    ensures (forall p :: p in sources ==> p !in CopyRun(fs0, sources, targets).fs) ==> CopyRun(fs0, sources, targets).copied == []
  {
    CopyRunCount(fs0, sources, targets);
    CountPresentZero(sources, fs0);
    CountPresentZero(sources, CopyRun(fs0, sources, targets).fs);
  }

  /** When no stored file lies where the loop creates anything (the stored
      files are below the upload folder, the targets below the download
      folder), exactly the records whose stored file exists are copied:
      one of three missing gives two copies, all missing gives none. */
  lemma CopyRunCountExact(fs0: set<Path>, sources: seq<Path>, targets: seq<Path>)
    requires |sources| == |targets|
    requires forall p :: p in sources ==> p !in Footprint(targets)
    ensures |CopyRun(fs0, sources, targets).copied| == CountPresent(sources, fs0)
  {
    var r := CopyRun(fs0, sources, targets);
    CopyRunCount(fs0, sources, targets);
    CopyRunFootprint(fs0, sources, targets);
    CountPresentAgrees(sources, fs0, r.fs);
  }

  /** One more round of the copy loop, spelled out. */
  lemma CopyRunSnoc(fs0: set<Path>, sources: seq<Path>, targets: seq<Path>, i: nat)
    requires |sources| == |targets| && i < |sources|
    ensures var prev := CopyRun(fs0, sources[..i], targets[..i]);
      var fs := prev.fs + Ancestors(targets[i]);
      CopyRun(fs0, sources[..i + 1], targets[..i + 1]) ==
        if sources[i] in fs then CopyResult(fs + {targets[i]}, prev.copied + [targets[i]], prev.from + [i])
        else CopyResult(fs, prev.copied, prev.from)
  {
    assert sources[..i + 1][..i] == sources[..i];
    assert targets[..i + 1][..i] == targets[..i];
  }

  /** The copy loop of the desktop branch, computing `CopyRun` over the
      stored files and targets of `files`. */
  method CopyTree(fs0: set<Path>, files: seq<FileRecord>, dest: Path, normPath: string -> string)
    returns (fs: set<Path>, copied: seq<Path>)
    ensures fs == CopyRun(fs0, StoredPaths(files), CopyTargets(dest, normPath, files)).fs
    ensures copied == CopyRun(fs0, StoredPaths(files), CopyTargets(dest, normPath, files)).copied
  {
    ghost var sources, targets := StoredPaths(files), CopyTargets(dest, normPath, files);
    fs, copied := fs0, [];
    for i := 0 to |files|
      invariant fs == CopyRun(fs0, sources[..i], targets[..i]).fs
      invariant copied == CopyRun(fs0, sources[..i], targets[..i]).copied
    {
      CopyRunSnoc(fs0, sources, targets, i);
      var target := CopyTarget(dest, normPath, files[i]);
      assert target == targets[i] && files[i].path == sources[i];
      fs := fs + Ancestors(target);
      if files[i].path in fs {
        fs := fs + {target};
        copied := copied + [target];
      }
    }
    assert sources[..|files|] == sources;
    assert targets[..|files|] == targets;
  }
}
