/** Config backups: checksummed files with retention, and the check of their sidecars. */
module Backups {
  import opened Dicts
  import opened Text

  datatype Path = Path(dir: string, name: string)

  /** Bytes are modelled as characters; mtime is the clock reading of the write. */
  datatype File = File(text: string, mtime: int)

  type Files = map<Path, File>

  /** hashlib.sha256(...).hexdigest(): nothing is used of it but that it is non-empty lower-case hex. */
  type Sha = string -> string

  ghost predicate Hexadecimal(sha: Sha) {
    forall text :: sha(text) != "" && forall i :: 0 <= i < |sha(text)| ==> IsHexDigit(sha(text)[i])
  }

  predicate EndsWith(s: string, suffix: string) {
    |suffix| <= |s| && s[|s| - |suffix|..] == suffix
  }

  predicate IsConfig(name: string) {
    EndsWith(name, ".cfg") || EndsWith(name, ".cfg.enc")
  }

  function Stem(host: string): string {
    host + "-startup-config-"
  }

  /** The two glob patterns: "<host>-startup-config-*.cfg" and the same with ".cfg.enc". */
  predicate IsBackupOf(host: string, p: Path) {
    p.dir == host && Stem(host) <= p.name && IsConfig(p.name)
  }

  function Sidecar(p: Path): Path {
    p.(name := p.name + ".sha256")
  }

  function SidecarText(sha: Sha, p: Path, text: string): string {
    sha(text) + "  " + p.name + "\n"
  }

  /** A sidecar is never taken for a config file, and belongs to one file only. */
  lemma SidecarApart(p: Path, q: Path)
    ensures !IsConfig(Sidecar(p).name)
    ensures Sidecar(p) == Sidecar(q) ==> p == q
  {
    var s := p.name + ".sha256";
    assert s[|s| - 4..][3] == s[|s| - 1] == '6';
    if |s| >= 8 {
      assert s[|s| - 8..][7] == s[|s| - 1];
    }
    if Sidecar(p) == Sidecar(q) {
      assert p.name == s[..|s| - 7] && q.name == (q.name + ".sha256")[..|s| - 7];
    }
  }

  // ----- one backup -----

  /** A downloaded config; `refused` are the paths that os.remove cannot delete at the time. */
  datatype Write = Write(host: string, stamp: string, encrypted: bool, text: string, now: int, refused: set<Path>)

  function Target(w: Write): Path {
    Path(w.host, Stem(w.host) + w.stamp + if w.encrypted then ".cfg.enc" else ".cfg")
  }

  lemma TargetIsBackup(w: Write)
    ensures IsBackupOf(w.host, Target(w))
  {
    var name := Target(w).name;
    if w.encrypted {
      assert name[|name| - 8..] == ".cfg.enc";
    } else {
      assert name[|name| - 4..] == ".cfg";
    }
    assert name[..|Stem(w.host)|] == Stem(w.host);
  }

  lemma ConcatParts(a: string, b: string, c: string, d: string)
    ensures var s := ((a + b) + c) + d;
            && |s| == |a| + |b| + |c| + |d| && s[..|a|] == a && s[|a|..|a| + |b|] == b
            && s[|a| + |b|..|a| + |b| + |c|] == c && s[|a| + |b| + |c|..] == d
  {
  }

  /** A backup is in its host's directory under its host, its time stamp and the extension that says if it is encrypted. */
  lemma TargetIs(w: Write)
    ensures var p, k := Target(w), |w.host| + 16;
            && p.dir == w.host && IsBackupOf(w.host, p) && k + |w.stamp| <= |p.name|
            && p.name[..|w.host|] == w.host && p.name[|w.host|..k] == "-startup-config-"
            && p.name[k..k + |w.stamp|] == w.stamp
            && p.name[k + |w.stamp|..] == if w.encrypted then ".cfg.enc" else ".cfg"
  {
    ConcatParts(w.host, "-startup-config-", w.stamp, if w.encrypted then ".cfg.enc" else ".cfg");
    TargetIsBackup(w);
  }

  /** Two backups get the same file only for the same host, time stamp and kind of content. */
  lemma TargetsApart(v: Write, w: Write)
    ensures Target(v) == Target(w) <==> v.host == w.host && v.stamp == w.stamp && v.encrypted == w.encrypted
  {
    if Target(v) == Target(w) {
      var name := Target(v).name;
      TargetIs(v);
      TargetIs(w);
      assert name[|name| - 1] == (if v.encrypted then 'c' else 'g') == (if w.encrypted then 'c' else 'g');
    }
  }

  /** The config file and its sidecar, both replaced when they exist. */
  function Written(sha: Sha, fs: Files, w: Write): Files {
    fs[Target(w) := File(w.text, w.now)][Sidecar(Target(w)) := File(SidecarText(sha, Target(w), w.text), w.now)]
  }

  function BackupsOf(fs: Files, host: string): set<Path> {
    set p | p in fs && IsBackupOf(host, p)
  }

  /** sorted(..., key=os.path.getmtime): all of the paths, each once, oldest first; equal times in any order. */
  ghost predicate ByMtime(fs: Files, paths: set<Path>, files: seq<Path>)
    requires paths <= fs.Keys
  {
    && (forall p :: p in files <==> p in paths)
    && (forall i, j :: 0 <= i < j < |files| ==> files[i] != files[j])
    && (forall i, j :: 0 <= i < j < |files| ==> files[i] in fs && files[j] in fs && fs[files[i]].mtime <= fs[files[j]].mtime)
  }

  /** How many files the slice files[:-retention] holds: none for retention 0, a leading part for a negative one. */
  function SliceLength(n: nat, retention: int): (k: nat)
    ensures k <= n
  {
    if retention > 0 then (if n > retention then n - retention else 0)
    else if -retention < n then -retention else n
  }

  function RemovePair(fs: Files, p: Path, refused: set<Path>): Files {
    fs - ({p, Sidecar(p)} - refused)
  }

  function RemoveFirst(fs: Files, files: seq<Path>, k: nat, refused: set<Path>): Files
    requires k <= |files|
  {
    if k == 0 then fs else RemovePair(RemoveFirst(fs, files, k - 1, refused), files[k - 1], refused)
  }

  function CleanedUp(fs: Files, files: seq<Path>, retention: int, refused: set<Path>): Files {
    RemoveFirst(fs, files, SliceLength(|files|, retention), refused)
  }

  lemma OldestExists(fs: Files, rest: set<Path>)
    requires rest != {} && rest <= fs.Keys
    ensures exists p :: p in rest && forall q :: q in rest ==> fs[p].mtime <= fs[q].mtime
  {
    LeastExists(rest, map p | p in fs :: fs[p].mtime);
  }

  /** The paths split into those taken so far, oldest first, and the rest, none of them older. */
  ghost predicate Taken(fs: Files, paths: set<Path>, files: seq<Path>, rest: set<Path>)
    requires paths <= fs.Keys
  {
    && rest <= paths && ByMtime(fs, paths - rest, files)
    && (forall i, q :: 0 <= i < |files| && q in rest ==> files[i] in fs && fs[files[i]].mtime <= fs[q].mtime)
  }

  lemma TakeNext(fs: Files, paths: set<Path>, files: seq<Path>, rest: set<Path>, m: Path)
    requires paths <= fs.Keys && Taken(fs, paths, files, rest)
    requires m in rest && forall q :: q in rest ==> fs[m].mtime <= fs[q].mtime
    ensures Taken(fs, paths, files + [m], rest - {m})
  {
    forall p ensures p in files + [m] <==> p in paths - (rest - {m}) {
      assert p in files + [m] <==> p in files || p == m;
    }
    forall i | 0 <= i < |files| ensures files[i] != m && files[i] in paths {
      assert files[i] in files;
    }
  }

  class BackupTask {
    const sha: Sha
    const retention: int
    var fs: Files

    constructor (sha: Sha, retention: int, fs: Files)
      ensures this.sha == sha && this.retention == retention && this.fs == fs
    {
      this.sha, this.retention, this.fs := sha, retention, fs;
    }

    method SortByMtime(paths: set<Path>) returns (files: seq<Path>)
      requires paths <= fs.Keys
      ensures ByMtime(fs, paths, files)
    {
      files := [];
      var rest := paths;
      while rest != {}
        invariant Taken(fs, paths, files, rest)
        decreases rest
      {
        OldestExists(fs, rest);
        var m :| m in rest && forall q :: q in rest ==> fs[m].mtime <= fs[q].mtime;
        TakeNext(fs, paths, files, rest, m);
        files, rest := files + [m], rest - {m};
      }
      assert paths - {} == paths;
    }

    /** Deletes the host's files before the last `retention`, each with its sidecar. */
    method Cleanup(host: string, refused: set<Path>) returns (ghost files: seq<Path>)
      modifies this
      ensures ByMtime(old(fs), BackupsOf(old(fs), host), files)
      ensures fs == CleanedUp(old(fs), files, retention, refused)
    {
      var sorted := SortByMtime(BackupsOf(fs, host));
      files := sorted;
      for i := 0 to SliceLength(|sorted|, retention)
        invariant fs == RemoveFirst(old(fs), sorted, i, refused)
      {
        if sorted[i] !in refused {
          fs := fs - {sorted[i]};
        }
        if Sidecar(sorted[i]) in fs && Sidecar(sorted[i]) !in refused {
          fs := fs - {Sidecar(sorted[i])};
        }
        RemovedPair(RemoveFirst(old(fs), sorted, i, refused), sorted[i], refused, fs);
      }
    }

    /** The loop over the downloaded configs. */
    method Run(writes: seq<Write>) returns (ghost orders: seq<seq<Path>>)
      modifies this
      ensures |orders| == |writes| && Enabled(sha, old(fs), retention, writes, orders, |writes|)
      ensures fs == After(sha, old(fs), retention, writes, orders, |writes|)
    {
      orders := [];
      for i := 0 to |writes|
        invariant |orders| == i && Enabled(sha, old(fs), retention, writes, orders, i)
        invariant fs == After(sha, old(fs), retention, writes, orders, i)
      {
        ghost var before := orders;
        fs := Written(sha, fs, writes[i]);
        ghost var files := Cleanup(writes[i].host, writes[i].refused);
        orders := orders + [files];
        AfterPrefix(sha, old(fs), retention, writes, before, [files], i);
      }
    }

    /** The body of the walk: one file against its sidecar. */
    method Check(p: Path) returns (v: Verdict)
      requires p in fs
      ensures v == VerdictOf(sha, fs, p)
    {
      if !IsConfig(p.name) {
        return NotBackup;
      }
      if Sidecar(p) !in fs {
        return Missing;
      }
      var expected := FirstToken(fs[Sidecar(p)].text);
      if expected.None? || Lowered(expected.value) != sha(fs[p].text) {
        return Bad;
      }
      return Ok;
    }

    /** How many backups match their sidecar, how many do not, and which do not. */
    method Verify() returns (ok: nat, bad: nat, badPaths: seq<Path>)
      ensures ok == |WithVerdict(Verdicts(sha, fs), fs.Keys, Ok)|
      ensures bad == |badPaths| == |WithVerdict(Verdicts(sha, fs), fs.Keys, Bad)|
      ensures forall p :: p in badPaths <==> p in fs && VerdictOf(sha, fs, p) == Bad
    {
      ok, bad, badPaths := 0, 0, [];
      var rest := fs.Keys;
      ghost var seen: set<Path> := {};
      ghost var vs := Verdicts(sha, fs);
      while rest != {}
        invariant seen <= fs.Keys && forall p :: p in fs <==> p in seen || p in rest
        invariant forall p :: p in rest ==> p !in seen
        invariant ok == |WithVerdict(vs, seen, Ok)|
        invariant bad == |badPaths| == |WithVerdict(vs, seen, Bad)|
        invariant forall p :: p in badPaths <==> p in seen && VerdictOf(sha, fs, p) == Bad
        decreases rest
      {
        var p :| p in rest;
        VerdictStep(vs, seen, p, Ok);
        VerdictStep(vs, seen, p, Bad);
        rest, seen := rest - {p}, seen + {p};
        var v := Check(p);
        if v == Bad {
          bad, badPaths := bad + 1, badPaths + [p];
        } else if v == Ok {
          ok := ok + 1;
        }
      }
      assert seen == fs.Keys;
    }
  }

  function Verdicts(sha: Sha, fs: Files): map<Path, Verdict> {
    map p | p in fs :: VerdictOf(sha, fs, p)
  }

  function WithVerdict(vs: map<Path, Verdict>, paths: set<Path>, v: Verdict): set<Path>
    requires paths <= vs.Keys
  {
    set p | p in paths && vs[p] == v
  }

  lemma VerdictStep(vs: map<Path, Verdict>, seen: set<Path>, p: Path, v: Verdict)
    requires seen <= vs.Keys && p in vs && p !in seen
    ensures |WithVerdict(vs, seen + {p}, v)| == |WithVerdict(vs, seen, v)| + if vs[p] == v then 1 else 0
  {
    assert WithVerdict(vs, seen + {p}, v) == WithVerdict(vs, seen, v) + if vs[p] == v then {p} else {};
    assert p !in WithVerdict(vs, seen, v);
  }

  lemma RemovedPair(fs: Files, p: Path, refused: set<Path>, after: Files)
    requires var one := if p in refused then fs else fs - {p};
             after == if Sidecar(p) in one && Sidecar(p) !in refused then one - {Sidecar(p)} else one
    ensures after == RemovePair(fs, p, refused)
  {
  }

  /** What is removed: exactly the first k files and their sidecars, as far as they can be deleted. */
  lemma {:induction false} RemovedAre(fs: Files, files: seq<Path>, k: nat, refused: set<Path>, q: Path)
    requires k <= |files|
    ensures var fs' := RemoveFirst(fs, files, k, refused);
            && (q in fs' <==> q in fs && (q in refused || forall i :: 0 <= i < k ==> q != files[i] && q != Sidecar(files[i])))
            && (q in fs' ==> fs'[q] == fs[q])
  {
    if k > 0 {
      RemovedAre(fs, files, k - 1, refused, q);
    }
  }

  lemma {:induction false} DistinctCount(files: seq<Path>)
    requires forall i, j :: 0 <= i < j < |files| ==> files[i] != files[j]
    ensures |set p | p in files| == |files|
  {
    if files == [] {
      assert (set p | p in files) == {};
    } else {
      var n := |files| - 1;
      DistinctCount(files[..n]);
      assert (set p | p in files) == (set p | p in files[..n]) + {files[n]};
      assert files[n] !in files[..n];
    }
  }

  /** A path of the order, by its position. */
  lemma PositionIn(fs: Files, host: string, files: seq<Path>, q: Path) returns (i: nat)
    requires ByMtime(fs, BackupsOf(fs, host), files) && q in BackupsOf(fs, host)
    ensures i < |files| && files[i] == q
    ensures forall k :: 0 <= k <= |files| ==> (q in files[..k] <==> i < k) && (q in files[k..] <==> k <= i)
  {
    i :| 0 <= i < |files| && files[i] == q;
    forall k | 0 <= k <= |files| ensures (q in files[..k] <==> i < k) && (q in files[k..] <==> k <= i) {
      assert i < k ==> files[..k][i] == q;
      assert k <= i ==> files[k..][i - k] == q;
    }
  }

  /**
   * Cleanup of any file system when nothing refuses to be deleted: of the host's backups exactly the tail of the order
   * is left; a removed file takes its sidecar along, a kept one keeps it; contents never change.
   */
  lemma CleanupKeepsTail(fs: Files, host: string, files: seq<Path>, retention: int, q: Path)
    requires ByMtime(fs, BackupsOf(fs, host), files)
    ensures var k, fs' := SliceLength(|files|, retention), CleanedUp(fs, files, retention, {});
            && (q in BackupsOf(fs', host) <==> q in files[k..])
            && (q in fs' ==> q in fs && fs'[q] == fs[q])
            && (q in files[..k] ==> q !in fs' && Sidecar(q) !in fs')
            && (IsConfig(q.name) && q in fs && q !in files[..k] ==> q in fs' && (Sidecar(q) in fs' <==> Sidecar(q) in fs))
  {
    var k := SliceLength(|files|, retention);
    RemovedAre(fs, files, k, {}, q);
    RemovedAre(fs, files, k, {}, Sidecar(q));
    SidecarApart(q, q);
    forall i | 0 <= i < |files|
      ensures files[i] in BackupsOf(fs, host) && !IsConfig(Sidecar(files[i]).name)
      ensures Sidecar(files[i]) == Sidecar(q) ==> files[i] == q
    {
      assert files[i] in files;
      SidecarApart(files[i], q);
    }
    if q in BackupsOf(fs, host) {
      var i := PositionIn(fs, host, files, q);
      assert q in files[..k] <==> i < k;
    } else {
      assert q in files[..k] ==> q in files;
      assert q in files[k..] ==> q in files;
    }
  }

  /** Every file removed is at most as recent as every file kept. */
  lemma RemovedPrecedeKept(fs: Files, host: string, files: seq<Path>, retention: int, removed: Path, kept: Path)
    requires ByMtime(fs, BackupsOf(fs, host), files)
    requires removed in BackupsOf(fs, host) && removed !in CleanedUp(fs, files, retention, {})
    requires kept in BackupsOf(CleanedUp(fs, files, retention, {}), host)
    ensures kept in fs && fs[removed].mtime <= fs[kept].mtime
  {
    var k := SliceLength(|files|, retention);
    CleanupKeepsTail(fs, host, files, retention, removed);
    CleanupKeepsTail(fs, host, files, retention, kept);
    var i := PositionIn(fs, host, files, removed);
    var j := PositionIn(fs, host, files, kept);
    assert i < k <= j;
  }

  /** The exact number of backups a cleanup leaves. */
  lemma CountLeft(fs: Files, host: string, files: seq<Path>, retention: int)
    requires ByMtime(fs, BackupsOf(fs, host), files)
    ensures |files| == |BackupsOf(fs, host)|
    ensures |BackupsOf(CleanedUp(fs, files, retention, {}), host)| == |files| - SliceLength(|files|, retention)
  {
    var k, fs' := SliceLength(|files|, retention), CleanedUp(fs, files, retention, {});
    forall q ensures q in BackupsOf(fs', host) <==> q in files[k..] {
      CleanupKeepsTail(fs, host, files, retention, q);
    }
    DistinctCount(files[k..]);
    assert BackupsOf(fs', host) == set p | p in files[k..];
    DistinctCount(files);
    assert BackupsOf(fs, host) == set p | p in files;
  }

  // ----- one backup, and runs of them -----

  /** What a backup leaves; `files` is the order in which its cleanup saw the host's files. */
  function Step(sha: Sha, fs: Files, retention: int, w: Write, files: seq<Path>): Files {
    CleanedUp(Written(sha, fs, w), files, retention, w.refused)
  }

  ghost predicate CanStep(sha: Sha, fs: Files, w: Write, files: seq<Path>) {
    var written := Written(sha, fs, w);
    ByMtime(written, BackupsOf(written, w.host), files)
  }

  function After(sha: Sha, fs: Files, retention: int, writes: seq<Write>, orders: seq<seq<Path>>, n: nat): Files
    requires n <= |writes| && n <= |orders|
  {
    if n == 0 then fs
    else Step(sha, After(sha, fs, retention, writes, orders, n - 1), retention, writes[n - 1], orders[n - 1])
  }

  ghost predicate Enabled(sha: Sha, fs: Files, retention: int, writes: seq<Write>, orders: seq<seq<Path>>, n: nat)
    requires n <= |writes| && n <= |orders|
  {
    n > 0 ==>
      && Enabled(sha, fs, retention, writes, orders, n - 1)
      && CanStep(sha, After(sha, fs, retention, writes, orders, n - 1), writes[n - 1], orders[n - 1])
  }

  lemma {:induction false} AfterPrefix(sha: Sha, fs: Files, retention: int, writes: seq<Write>, orders: seq<seq<Path>>,
                                       more: seq<seq<Path>>, n: nat)
    requires n <= |writes| && n <= |orders|
    ensures After(sha, fs, retention, writes, orders + more, n) == After(sha, fs, retention, writes, orders, n)
    ensures Enabled(sha, fs, retention, writes, orders + more, n) == Enabled(sha, fs, retention, writes, orders, n)
  {
    if n > 0 {
      AfterPrefix(sha, fs, retention, writes, orders, more, n - 1);
      assert (orders + more)[n - 1] == orders[n - 1];
    }
  }

  /** Writing adds one backup to its host and none to another. */
  lemma WrittenBackups(sha: Sha, fs: Files, w: Write, host: string)
    ensures BackupsOf(Written(sha, fs, w), host) == BackupsOf(fs, host) + if host == w.host then {Target(w)} else {}
  {
    TargetIsBackup(w);
    SidecarApart(Target(w), Target(w));
  }

  /**
   * The retention a backup meets, exactly: it leaves at most `retention` files of its host if and only if retention is
   * at least 1. Retention 0 removes nothing; a negative one removes the first files, up to all of them.
   */
  lemma RetentionMet(sha: Sha, fs: Files, retention: int, w: Write, files: seq<Path>)
    requires CanStep(sha, fs, w, files) && w.refused == {}
    ensures |BackupsOf(Step(sha, fs, retention, w, files), w.host)| <= retention <==> retention >= 1
    ensures retention == 0 ==> Step(sha, fs, retention, w, files) == Written(sha, fs, w)
    ensures retention < 0 && |files| <= -retention ==> BackupsOf(Step(sha, fs, retention, w, files), w.host) == {}
  {
    CountLeft(Written(sha, fs, w), w.host, files, retention);
    WrittenBackups(sha, fs, w, w.host);
    assert Target(w) in BackupsOf(Written(sha, fs, w), w.host);
  }

  /** A backup of one host leaves every other host's backups alone. */
  lemma OtherHosts(sha: Sha, fs: Files, retention: int, w: Write, files: seq<Path>, host: string)
    requires CanStep(sha, fs, w, files) && w.refused == {} && host != w.host
    ensures BackupsOf(Step(sha, fs, retention, w, files), host) == BackupsOf(fs, host)
  {
    var written := Written(sha, fs, w);
    WrittenBackups(sha, fs, w, host);
    forall q ensures q in BackupsOf(Step(sha, fs, retention, w, files), host) <==> q in BackupsOf(written, host) {
      CleanupKeepsTail(written, w.host, files, retention, q);
      if q in files[..SliceLength(|files|, retention)] {
        assert q in files;
      }
    }
  }

  ghost predicate NothingRefused(writes: seq<Write>) {
    forall i :: 0 <= i < |writes| ==> writes[i].refused == {}
  }

  /** After any sequence of backups every host backed up has at most `retention` files. */
  lemma {:induction false} RetentionHolds(sha: Sha, fs: Files, retention: int, writes: seq<Write>,
                                          orders: seq<seq<Path>>, n: nat, j: nat)
    requires j < n <= |writes| && n <= |orders| && Enabled(sha, fs, retention, writes, orders, n)
    requires NothingRefused(writes) && retention >= 1
    ensures |BackupsOf(After(sha, fs, retention, writes, orders, n), writes[j].host)| <= retention
  {
    var before, w, files := After(sha, fs, retention, writes, orders, n - 1), writes[n - 1], orders[n - 1];
    if w.host == writes[j].host {
      RetentionMet(sha, before, retention, w, files);
    } else {
      RetentionHolds(sha, fs, retention, writes, orders, n - 1, j);
      OtherHosts(sha, before, retention, w, files, writes[j].host);
    }
  }

  /** The new backup survives its own cleanup whenever it is the newest file of its host. */
  lemma NewestKept(sha: Sha, fs: Files, retention: int, w: Write, files: seq<Path>)
    requires CanStep(sha, fs, w, files) && w.refused == {} && retention >= 1
    requires forall p :: p in BackupsOf(fs, w.host) && p != Target(w) ==> fs[p].mtime < w.now
    ensures var after := Step(sha, fs, retention, w, files);
            Target(w) in after && after[Target(w)] == File(w.text, w.now)
  {
    var written, t := Written(sha, fs, w), Target(w);
    WrittenBackups(sha, fs, w, w.host);
    SidecarApart(t, t);
    var i := PositionIn(written, w.host, files, t);
    var last := files[|files| - 1];
    assert last in files;
    SidecarApart(t, last);
    assert written[t].mtime <= written[last].mtime;
    assert last == t && i == |files| - 1;
    CleanupKeepsTail(written, w.host, files, retention, t);
  }

  // ----- exactly the newest survive -----

  function Without(paths: seq<Path>, p: Path): (r: seq<Path>)
    ensures forall q :: q in r <==> q in paths && q != p
  {
    if paths == [] then []
    else Without(paths[..|paths| - 1], p) + if paths[|paths| - 1] == p then [] else [paths[|paths| - 1]]
  }

  /** The last r entries. */
  function Newest(paths: seq<Path>, r: nat): seq<Path> {
    if |paths| <= r then paths else paths[|paths| - r..]
  }

  /** Every backup file of a host that the first n writes made, in the order of its last write. */
  function Targets(writes: seq<Write>, host: string, n: nat): seq<Path>
    requires n <= |writes|
  {
    if n == 0 then []
    else
      var before := Targets(writes, host, n - 1);
      if writes[n - 1].host == host then Without(before, Target(writes[n - 1])) + [Target(writes[n - 1])] else before
  }

  predicate Distinct(paths: seq<Path>) {
    forall i, j :: 0 <= i < j < |paths| ==> paths[i] != paths[j]
  }

  lemma {:induction false} WithoutSame(paths: seq<Path>, p: Path)
    requires p !in paths
    ensures Without(paths, p) == paths
  {
    if paths != [] {
      WithoutSame(paths[..|paths| - 1], p);
    }
  }

  lemma {:induction false} WithoutSum(a: seq<Path>, b: seq<Path>, p: Path)
    ensures Without(a + b, p) == Without(a, p) + Without(b, p)
  {
    if b == [] {
      assert a + b == a;
    } else {
      var n := |b| - 1;
      WithoutSum(a, b[..n], p);
      assert (a + b)[..|a| + n] == a + b[..n];
    }
  }

  lemma {:induction false} WithoutOne(paths: seq<Path>, p: Path)
    requires Distinct(paths)
    ensures Distinct(Without(paths, p)) && |Without(paths, p)| == if p in paths then |paths| - 1 else |paths|
  {
    if p !in paths {
      WithoutSame(paths, p);
    } else {
      var n := |paths| - 1;
      if paths[n] == p {
        WithoutSame(paths[..n], p);
      } else {
        WithoutOne(paths[..n], p);
        assert paths[n] !in paths[..n];
      }
    }
  }

  lemma {:induction false} TargetsDistinct(writes: seq<Write>, host: string, n: nat)
    requires n <= |writes|
    ensures Distinct(Targets(writes, host, n))
  {
    if n > 0 {
      TargetsDistinct(writes, host, n - 1);
      WithoutOne(Targets(writes, host, n - 1), Target(writes[n - 1]));
    }
  }

  lemma NewestOfSum(x: seq<Path>, y: seq<Path>, r: nat)
    requires |y| >= r
    ensures Newest(x + y, r) == Newest(y, r)
  {
    assert (x + y)[|x + y| - r..] == y[|y| - r..];
  }

  lemma NewestOfParts(x: seq<Path>, y: seq<Path>, p: Path, r: nat)
    requires |y| + 1 >= r
    ensures Newest((x + y) + [p], r) == Newest(y + [p], r)
  {
    NewestOfSum(x, y + [p], r);
    assert x + (y + [p]) == (x + y) + [p];
  }

  /** Rotating before a write loses nothing that the rotation after it would keep. */
  lemma NewestOfNewest(all: seq<Path>, p: Path, r: nat)
    requires Distinct(all) && r >= 1
    ensures Newest(Without(Newest(all, r), p) + [p], r) == Newest(Without(all, p) + [p], r)
  {
    if |all| > r {
      var dropped, tail := all[..|all| - r], Newest(all, r);
      assert all == dropped + tail;
      WithoutSum(dropped, tail, p);
      WithoutOne(tail, p);
      NewestOfParts(Without(dropped, p), Without(tail, p), p, r);
    }
  }

  /** Listed oldest first by strictly increasing write time. */
  ghost predicate Ordered(fs: Files, paths: seq<Path>) {
    && (forall i :: 0 <= i < |paths| ==> paths[i] in fs)
    && (forall i, j :: 0 <= i < j < |paths| ==> fs[paths[i]].mtime < fs[paths[j]].mtime)
  }

  ghost predicate Lists(listed: seq<Path>, paths: set<Path>) {
    forall p :: p in listed <==> p in paths
  }

  /** The newest file comes last in either order. */
  lemma SameLast(fs: Files, paths: set<Path>, files: seq<Path>, listed: seq<Path>)
    requires paths <= fs.Keys && ByMtime(fs, paths, files) && (files != [] || listed != [])
    requires Ordered(fs, listed) && Lists(listed, paths)
    ensures files != [] && listed != [] && files[|files| - 1] == listed[|listed| - 1]
  {
    assert files != [] ==> files[0] in files;
    assert listed != [] ==> listed[0] in listed;
    var m, n := |files| - 1, |listed| - 1;
    assert listed[n] in listed && listed[n] in files && files[m] in files && files[m] in listed;
    var i :| 0 <= i < |files| && files[i] == listed[n];
    var j :| 0 <= j < |listed| && listed[j] == files[m];
    assert i <= m && j <= n;
  }

  lemma PeelFiles(fs: Files, paths: set<Path>, files: seq<Path>)
    requires paths <= fs.Keys && ByMtime(fs, paths, files) && files != []
    ensures ByMtime(fs, paths - {files[|files| - 1]}, files[..|files| - 1])
  {
    var m := |files| - 1;
    forall p ensures p in files[..m] <==> p in paths - {files[m]} {
      if p in paths - {files[m]} {
        var i :| 0 <= i < |files| && files[i] == p;
        assert files[..m][i] == p;
      }
    }
  }

  lemma PeelListed(fs: Files, paths: set<Path>, listed: seq<Path>)
    requires Ordered(fs, listed) && listed != [] && Lists(listed, paths)
    ensures Ordered(fs, listed[..|listed| - 1])
    ensures Lists(listed[..|listed| - 1], paths - {listed[|listed| - 1]})
  {
    var n := |listed| - 1;
    forall p ensures p in listed[..n] <==> p in paths - {listed[n]} {
      if p in paths - {listed[n]} {
        var i :| 0 <= i < |listed| && listed[i] == p;
        assert listed[..n][i] == p;
      }
    }
  }

  /** Without equal times there is only one order by mtime. */
  lemma {:induction false} OneOrder(fs: Files, paths: set<Path>, files: seq<Path>, listed: seq<Path>)
    requires paths <= fs.Keys && ByMtime(fs, paths, files)
    requires Ordered(fs, listed) && Lists(listed, paths)
    ensures files == listed
    decreases |files|
  {
    if files != [] || listed != [] {
      var m, n := |files| - 1, |listed| - 1;
      SameLast(fs, paths, files, listed);
      PeelFiles(fs, paths, files);
      PeelListed(fs, paths, listed);
      OneOrder(fs, paths - {listed[n]}, files[..m], listed[..n]);
      assert files == files[..m] + [files[m]] && listed == listed[..n] + [listed[n]];
    }
  }

  /** The host's files are exactly the listed ones, in the order of their write times, all before `clock`. */
  ghost predicate Holds(fs: Files, host: string, listed: seq<Path>, clock: int) {
    && Lists(listed, BackupsOf(fs, host))
    && Ordered(fs, listed)
    && (forall i :: 0 <= i < |listed| ==> fs[listed[i]].mtime < clock)
  }

  /** A write makes its target the newest file of the host. */
  lemma WriteHolds(sha: Sha, fs: Files, w: Write, listed: seq<Path>)
    requires Holds(fs, w.host, listed, w.now)
    ensures var longer := Without(listed, Target(w)) + [Target(w)];
            && Lists(longer, BackupsOf(Written(sha, fs, w), w.host))
            && Ordered(Written(sha, fs, w), longer)
            && (forall i :: 0 <= i < |longer| ==> Written(sha, fs, w)[longer[i]].mtime <= w.now)
  {
    var t, written, kept := Target(w), Written(sha, fs, w), Without(listed, Target(w));
    WrittenBackups(sha, fs, w, w.host);
    WithoutOrdered(fs, listed, t);
    SidecarApart(t, t);
    forall i | 0 <= i < |kept| ensures kept[i] in fs && kept[i] != t && kept[i] != Sidecar(t) && fs[kept[i]].mtime < w.now {
      assert kept[i] in kept && kept[i] in listed;
      var j :| 0 <= j < |listed| && listed[j] == kept[i];
    }
  }

  lemma {:induction false} WithoutOrdered(fs: Files, listed: seq<Path>, p: Path)
    requires Ordered(fs, listed)
    ensures Ordered(fs, Without(listed, p))
  {
    if listed != [] {
      var n := |listed| - 1;
      var before := Without(listed[..n], p);
      WithoutOrdered(fs, listed[..n], p);
      forall i | 0 <= i < |before| ensures fs[before[i]].mtime < fs[listed[n]].mtime {
        assert before[i] in before && before[i] in listed[..n];
        var j :| 0 <= j < n && listed[j] == before[i];
      }
    }
  }

  lemma KeptFile(fs: Files, host: string, files: seq<Path>, retention: int, q: Path)
    requires ByMtime(fs, BackupsOf(fs, host), files)
    ensures var after, kept := CleanedUp(fs, files, retention, {}), files[SliceLength(|files|, retention)..];
            && (q in kept <==> q in BackupsOf(after, host))
            && (q in kept ==> q in after && q in fs && after[q] == fs[q])
  {
    CleanupKeepsTail(fs, host, files, retention, q);
  }

  lemma CleanupHolds(fs: Files, host: string, files: seq<Path>, retention: int, clock: int)
    requires ByMtime(fs, BackupsOf(fs, host), files) && Ordered(fs, files) && retention >= 1
    requires forall i :: 0 <= i < |files| ==> fs[files[i]].mtime < clock
    ensures Holds(CleanedUp(fs, files, retention, {}), host, Newest(files, retention), clock)
  {
    var k, left := SliceLength(|files|, retention), Newest(files, retention);
    assert left == files[k..];
    forall p ensures p in left ==> p in CleanedUp(fs, files, retention, {})
             ensures p in left <==> p in BackupsOf(CleanedUp(fs, files, retention, {}), host) {
      KeptFile(fs, host, files, retention, p);
    }
    forall i | 0 <= i < |left|
      ensures left[i] == files[k + i] && CleanedUp(fs, files, retention, {})[left[i]] == fs[left[i]]
    {
      assert left[i] in left;
      KeptFile(fs, host, files, retention, left[i]);
    }
  }

  /** A backup of a host leaves exactly the newest files, the new one among them. */
  lemma StepHolds(sha: Sha, fs: Files, retention: int, w: Write, files: seq<Path>, listed: seq<Path>)
    requires CanStep(sha, fs, w, files) && w.refused == {} && retention >= 1
    requires Holds(fs, w.host, listed, w.now)
    ensures Holds(Step(sha, fs, retention, w, files), w.host,
                  Newest(Without(listed, Target(w)) + [Target(w)], retention), w.now + 1)
  {
    var written := Written(sha, fs, w);
    WriteHolds(sha, fs, w, listed);
    OneOrder(written, BackupsOf(written, w.host), files, Without(listed, Target(w)) + [Target(w)]);
    CleanupHolds(written, w.host, files, retention, w.now + 1);
  }

  /** A backup of another host changes nothing. */
  lemma OtherHolds(sha: Sha, fs: Files, retention: int, w: Write, files: seq<Path>, host: string, listed: seq<Path>, clock: int)
    requires CanStep(sha, fs, w, files) && w.refused == {} && host != w.host && Holds(fs, host, listed, clock)
    ensures Holds(Step(sha, fs, retention, w, files), host, listed, clock)
  {
    var after := Step(sha, fs, retention, w, files);
    OtherHosts(sha, fs, retention, w, files, host);
    forall i | 0 <= i < |listed| ensures listed[i] in after && after[listed[i]] == fs[listed[i]] {
      assert listed[i] in listed && listed[i] in BackupsOf(fs, host);
      CleanupKeepsTail(Written(sha, fs, w), w.host, files, retention, listed[i]);
    }
  }

  lemma HoldsLater(fs: Files, host: string, listed: seq<Path>, clock: int, later: int)
    requires Holds(fs, host, listed, clock) && clock <= later
    ensures Holds(fs, host, listed, later)
  {
  }

  /** The clock reading before which all of the first n writes happened. */
  function Clock(writes: seq<Write>, n: nat): int
    requires n <= |writes|
  {
    if n == 0 then (if writes == [] then 0 else writes[0].now) else writes[n - 1].now + 1
  }

  predicate Later(writes: seq<Write>) {
    forall i :: 0 <= i < |writes| - 1 ==> writes[i].now < writes[i + 1].now
  }

  lemma {:induction false} RunHolds(sha: Sha, retention: int, writes: seq<Write>, orders: seq<seq<Path>>, n: nat,
                                    host: string)
    requires n <= |writes| && n <= |orders| && Enabled(sha, map[], retention, writes, orders, n)
    requires NothingRefused(writes) && retention >= 1 && Later(writes)
    ensures Holds(After(sha, map[], retention, writes, orders, n), host,
                  Newest(Targets(writes, host, n), retention), Clock(writes, n))
  {
    if n > 0 {
      var before, w, files := After(sha, map[], retention, writes, orders, n - 1), writes[n - 1], orders[n - 1];
      var all := Targets(writes, host, n - 1);
      RunHolds(sha, retention, writes, orders, n - 1, host);
      assert n > 1 ==> writes[n - 2].now < writes[n - 2 + 1].now;
      if w.host == host {
        HoldsLater(before, host, Newest(all, retention), Clock(writes, n - 1), w.now);
        StepHolds(sha, before, retention, w, files, Newest(all, retention));
        TargetsDistinct(writes, host, n - 1);
        NewestOfNewest(all, Target(w), retention);
      } else {
        OtherHolds(sha, before, retention, w, files, host, Newest(all, retention), Clock(writes, n - 1));
        HoldsLater(Step(sha, before, retention, w, files), host, Newest(all, retention), Clock(writes, n - 1), w.now + 1);
      }
    }
  }

  /**
   * From an empty directory and with strictly increasing write times, after any sequence of backups a host's surviving
   * files are exactly its last min(retention, k) of the k files ever written for it, by the time of their last write.
   */
  lemma NewestSurvive(sha: Sha, retention: int, writes: seq<Write>, orders: seq<seq<Path>>, host: string)
    requires |orders| == |writes| && Enabled(sha, map[], retention, writes, orders, |writes|)
    requires NothingRefused(writes) && retention >= 1 && Later(writes)
    ensures var all := Targets(writes, host, |writes|);
            var left := BackupsOf(After(sha, map[], retention, writes, orders, |writes|), host);
            && left == (set p | p in Newest(all, retention))
            && |left| == if |all| < retention then |all| else retention
  {
    var all := Targets(writes, host, |writes|);
    RunHolds(sha, retention, writes, orders, |writes|, host);
    TargetsDistinct(writes, host, |writes|);
    DistinctCount(Newest(all, retention));
  }

  // ----- checksums -----

  /** Every sidecar that stands beside its file records that file's digest. */
  ghost predicate Paired(sha: Sha, fs: Files) {
    forall p :: p in fs && IsConfig(p.name) && Sidecar(p) in fs ==> fs[Sidecar(p)].text == SidecarText(sha, p, fs[p].text)
  }

  lemma WrittenPaired(sha: Sha, fs: Files, w: Write)
    requires Paired(sha, fs)
    ensures Paired(sha, Written(sha, fs, w))
  {
    var written, t := Written(sha, fs, w), Target(w);
    forall p | p in written && IsConfig(p.name) && Sidecar(p) in written
      ensures written[Sidecar(p)].text == SidecarText(sha, p, written[p].text)
    {
      SidecarApart(p, t);
      SidecarApart(t, p);
    }
  }

  lemma StepPaired(sha: Sha, fs: Files, retention: int, w: Write, files: seq<Path>)
    requires Paired(sha, fs)
    ensures Paired(sha, Step(sha, fs, retention, w, files))
  {
    var written, k := Written(sha, fs, w), SliceLength(|files|, retention);
    WrittenPaired(sha, fs, w);
    forall q ensures q in Step(sha, fs, retention, w, files) ==>
                     q in written && Step(sha, fs, retention, w, files)[q] == written[q]
    {
      RemovedAre(written, files, k, w.refused, q);
    }
  }

  /** Whatever is backed up, and whatever cannot be deleted, no sidecar ever disagrees with its file. */
  lemma {:induction false} RunsStayPaired(sha: Sha, fs: Files, retention: int, writes: seq<Write>,
                                          orders: seq<seq<Path>>, n: nat)
    requires n <= |writes| && n <= |orders| && Paired(sha, fs)
    ensures Paired(sha, After(sha, fs, retention, writes, orders, n))
  {
    if n > 0 {
      RunsStayPaired(sha, fs, retention, writes, orders, n - 1);
      StepPaired(sha, After(sha, fs, retention, writes, orders, n - 1), retention, writes[n - 1], orders[n - 1]);
    }
  }

  /** Every config has its sidecar, and every other file is the sidecar of a config. */
  ghost predicate Complete(fs: Files) {
    && (forall p :: p in fs && IsConfig(p.name) ==> Sidecar(p) in fs)
    && (forall p :: p in fs && !IsConfig(p.name) ==> exists q :: q in fs && IsConfig(q.name) && Sidecar(q) == p)
  }

  lemma WrittenComplete(sha: Sha, fs: Files, w: Write)
    requires Complete(fs)
    ensures Complete(Written(sha, fs, w))
  {
    var written := Written(sha, fs, w);
    TargetIsBackup(w);
    SidecarApart(Target(w), Target(w));
    forall p | p in written && !IsConfig(p.name)
      ensures exists q :: q in written && IsConfig(q.name) && Sidecar(q) == p
    {
      if p == Sidecar(Target(w)) {
        assert Target(w) in written;
      } else {
        var q :| q in fs && IsConfig(q.name) && Sidecar(q) == p;
        assert q in written;
      }
    }
  }

  /** Files and sidecars come and go together. */
  lemma StepComplete(sha: Sha, fs: Files, retention: int, w: Write, files: seq<Path>)
    requires Complete(fs) && CanStep(sha, fs, w, files) && w.refused == {}
    ensures Complete(Step(sha, fs, retention, w, files))
  {
    var written, after := Written(sha, fs, w), Step(sha, fs, retention, w, files);
    WrittenComplete(sha, fs, w);
    forall p | p in after && IsConfig(p.name) ensures Sidecar(p) in after {
      CleanupKeepsTail(written, w.host, files, retention, p);
    }
    forall p | p in after && !IsConfig(p.name)
      ensures exists q :: q in after && IsConfig(q.name) && Sidecar(q) == p
    {
      CleanupKeepsTail(written, w.host, files, retention, p);
      var q :| q in written && IsConfig(q.name) && Sidecar(q) == p;
      CleanupKeepsTail(written, w.host, files, retention, q);
    }
  }

  lemma {:induction false} RunsStayComplete(sha: Sha, fs: Files, retention: int, writes: seq<Write>,
                                            orders: seq<seq<Path>>, n: nat)
    requires n <= |writes| && n <= |orders| && Enabled(sha, fs, retention, writes, orders, n)
    requires NothingRefused(writes) && Complete(fs)
    ensures Complete(After(sha, fs, retention, writes, orders, n))
  {
    if n > 0 {
      RunsStayComplete(sha, fs, retention, writes, orders, n - 1);
      StepComplete(sha, After(sha, fs, retention, writes, orders, n - 1), retention, writes[n - 1], orders[n - 1]);
    }
  }

  // ----- verification -----

  /** The characters up to the next white space. */
  function Token(s: string): string {
    if s == "" || IsSpace(s[0]) then "" else [s[0]] + Token(s[1..])
  }

  /** s.strip().split()[0]; None is IndexError. */
  function FirstToken(s: string): Option<string> {
    if s == "" then None
    else if IsSpace(s[0]) then FirstToken(s[1..])
    else Some(Token(s))
  }

  /** str.lower() on ASCII. */
  function Lowered(s: string): string {
    seq(|s|, i requires 0 <= i < |s| => Lower(s[i]))
  }

  datatype Verdict = NotBackup | Missing | Ok | Bad

  function VerdictOf(sha: Sha, fs: Files, p: Path): Verdict
    requires p in fs
  {
    if !IsConfig(p.name) then NotBackup
    else if Sidecar(p) !in fs then Missing
    else
      var expected := FirstToken(fs[Sidecar(p)].text);
      if expected.None? || Lowered(expected.value) != sha(fs[p].text) then Bad else Ok
  }

  predicate Blank(s: string) {
    forall i :: 0 <= i < |s| ==> IsSpace(s[i])
  }

  /** The first word of a text. */
  lemma {:induction false} FirstTokenIs(blanks: string, word: string, rest: string)
    requires Blank(blanks) && word != "" && forall i :: 0 <= i < |word| ==> !IsSpace(word[i])
    requires rest == "" || IsSpace(rest[0])
    ensures FirstToken(blanks + word + rest) == Some(word)
  {
    var s := blanks + word + rest;
    if blanks == "" {
      assert s == word + rest && s[0] == word[0];
      WordIs(word, rest);
    } else {
      assert s[1..] == blanks[1..] + word + rest && s[0] == blanks[0];
      FirstTokenIs(blanks[1..], word, rest);
    }
  }

  lemma {:induction false} WordIs(word: string, rest: string)
    requires forall i :: 0 <= i < |word| ==> !IsSpace(word[i])
    requires rest == "" || IsSpace(rest[0])
    ensures Token(word + rest) == word
  {
    if word == "" {
      assert word + rest == rest;
    } else {
      assert (word + rest)[1..] == word[1..] + rest;
      WordIs(word[1..], rest);
      assert word == [word[0]] + word[1..];
    }
  }

  lemma {:induction false} NoToken(s: string)
    requires Blank(s)
    ensures FirstToken(s) == None
  {
    if s != "" {
      NoToken(s[1..]);
    }
  }

  /** A word of a sidecar matches a digest when it is the digest up to the case of its letters. */
  predicate Matches(word: string, digest: string) {
    && |word| == |digest|
    && forall i :: 0 <= i < |word| ==>
         || word[i] == digest[i]
         || (word[i], digest[i]) in {('A', 'a'), ('B', 'b'), ('C', 'c'), ('D', 'd'), ('E', 'e'), ('F', 'f')}
  }

  lemma LoweredMatches(word: string, digest: string)
    requires forall i :: 0 <= i < |digest| ==> IsHexDigit(digest[i])
    ensures Lowered(word) == digest <==> Matches(word, digest)
  {
  }

  /**
   * What makes a backup ok: a sidecar beside it whose first word is the digest of what is in the file, in either case.
   * A sidecar of blanks makes it bad, no sidecar missing.
   */
  lemma VerdictExactly(sha: Sha, fs: Files, p: Path, blanks: string, word: string, rest: string)
    requires Hexadecimal(sha) && p in fs && IsConfig(p.name)
    requires Blank(blanks) && word != "" && forall i :: 0 <= i < |word| ==> !IsSpace(word[i])
    requires rest == "" || IsSpace(rest[0])
    ensures VerdictOf(sha, fs, p) == Missing <==> Sidecar(p) !in fs
    ensures Sidecar(p) in fs && fs[Sidecar(p)].text == blanks + word + rest ==>
              VerdictOf(sha, fs, p) == if Matches(word, sha(fs[p].text)) then Ok else Bad
    ensures Sidecar(p) in fs && Blank(fs[Sidecar(p)].text) ==> VerdictOf(sha, fs, p) == Bad
  {
    FirstTokenIs(blanks, word, rest);
    LoweredMatches(word, sha(fs[p].text));
    if Sidecar(p) in fs && Blank(fs[Sidecar(p)].text) {
      NoToken(fs[Sidecar(p)].text);
    }
  }

  /** A sidecar reads back as the digest it was written with. */
  lemma SidecarReads(sha: Sha, p: Path, text: string)
    requires Hexadecimal(sha)
    ensures var token := FirstToken(SidecarText(sha, p, text)); token.Some? && Lowered(token.value) == sha(text)
  {
    var digest, rest := sha(text), "  " + p.name + "\n";
    WordIs(digest, rest);
    assert SidecarText(sha, p, text) == digest + rest;
    assert (digest + rest)[0] == digest[0];
    assert Lowered(digest) == digest;
  }

  /** Where sidecars are paired, verification finds nothing bad, and every file with a sidecar is ok. */
  lemma PairedVerifies(sha: Sha, fs: Files, p: Path)
    requires Hexadecimal(sha) && Paired(sha, fs) && p in fs && IsConfig(p.name)
    ensures VerdictOf(sha, fs, p) == if Sidecar(p) in fs then Ok else Missing
  {
    SidecarReads(sha, p, fs[p].text);
  }

  /** Bit rot is found: a changed file is reported bad exactly when its digest changed, and no other verdict changes. */
  lemma BitRotFound(sha: Sha, fs: Files, p: Path, changed: File, q: Path)
    requires Hexadecimal(sha) && Paired(sha, fs) && p in fs && IsConfig(p.name) && Sidecar(p) in fs
    ensures VerdictOf(sha, fs[p := changed], p) == Bad <==> sha(changed.text) != sha(fs[p].text)
    ensures q in fs && q != p ==> VerdictOf(sha, fs[p := changed], q) == VerdictOf(sha, fs, q)
  {
    SidecarReads(sha, p, fs[p].text);
    SidecarApart(p, p);
    SidecarApart(q, p);
  }

  /**
   * The whole claim: from an empty directory, after any sequence of backups, every backup verifies - none bad, none
   * without a sidecar.
   */
  lemma BackupsVerify(sha: Sha, retention: int, writes: seq<Write>, orders: seq<seq<Path>>)
    requires Hexadecimal(sha) && |orders| == |writes| && NothingRefused(writes)
    requires Enabled(sha, map[], retention, writes, orders, |writes|)
    ensures var fs := After(sha, map[], retention, writes, orders, |writes|);
            forall p :: p in fs && IsConfig(p.name) ==> VerdictOf(sha, fs, p) == Ok
  {
    var fs := After(sha, map[], retention, writes, orders, |writes|);
    RunsStayPaired(sha, map[], retention, writes, orders, |writes|);
    RunsStayComplete(sha, map[], retention, writes, orders, |writes|);
    forall p | p in fs && IsConfig(p.name) ensures VerdictOf(sha, fs, p) == Ok {
      PairedVerifies(sha, fs, p);
    }
  }
}
