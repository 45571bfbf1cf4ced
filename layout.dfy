/**
 * The files `update_all` reads and writes, and the `glob` patterns it lists
 * them with (main.py:93-133).  A `*` in a pattern matches any run of
 * characters without `/`; a pattern segment that starts with `*` does not
 * match a name that starts with `.`.
 */
module Layout {
  import Lex
  import opened Snapshot

  const ReportPrefix: string := "static/data/vehicle_data_"
  const ReportSuffix: string := ".json"
  const LatestPath: string := "static/data/latest.json"
  const MirrorDir: string := "static/snapshots/latest/"

  predicate NoSlash(s: string)
  {
    forall i :: 0 <= i < |s| ==> s[i] != '/'
  }

  predicate InDir(p: string, dir: string)
  {
    |dir| <= |p| && p[..|dir|] == dir
  }

  /** `f"static/data/vehicle_data_{timestamp}.json"`. */
  function ReportPath(stamp: string): string
  {
    ReportPrefix + stamp + ReportSuffix
  }

  /** Matched by `static/data/vehicle_data_*.json`. */
  predicate IsReportFile(p: string)
  {
    && |ReportPrefix| + |ReportSuffix| <= |p|
    && p[..|ReportPrefix|] == ReportPrefix
    && p[|p| - |ReportSuffix|..] == ReportSuffix
    && NoSlash(p[|ReportPrefix|..|p| - |ReportSuffix|])
  }

  /** A name a leading `*.jpg` matches within one directory. */
  predicate VisibleJpg(b: string)
  {
    |b| >= 4 && b[|b| - 4..] == ".jpg" && NoSlash(b) && b[0] != '.'
  }

  /** Matched by the pattern `*.jpg` in `static/snapshots`. */
  predicate IsSnapshotFile(p: string)
  {
    InDir(p, SnapshotDir) && VisibleJpg(p[|SnapshotDir|..])
  }

  /** Matched by the pattern `*.jpg` in `static/snapshots/latest`. */
  predicate IsMirrorEntry(p: string)
  {
    InDir(p, MirrorDir) && VisibleJpg(p[|MirrorDir|..])
  }

  /** `os.path.join(latest_snapshots_dir, os.path.basename(snapshot))`. */
  function MirrorPath(s: string): string
    requires InDir(s, SnapshotDir)
  {
    MirrorDir + s[|SnapshotDir|..]
  }

  /** The snapshot a mirror entry is named after. */
  function MirrorSource(t: string): string
    requires InDir(t, MirrorDir)
  {
    SnapshotDir + t[|MirrorDir|..]
  }

  /** A timestamp without `/` names a file the report pattern matches. */
  lemma ReportPathMatches(stamp: string)
    requires NoSlash(stamp)
    ensures IsReportFile(ReportPath(stamp))
  {
    var p := ReportPath(stamp);
    assert p[..|ReportPrefix|] == ReportPrefix;
    assert p[|p| - |ReportSuffix|..] == ReportSuffix;
    assert p[|ReportPrefix|..|p| - |ReportSuffix|] == stamp;
  }

  /** Report names built from timestamps of one width sort as the timestamps do. */
  lemma ReportPathOrder(a: string, b: string)
    requires |a| == |b|
    ensures Lex.Less(ReportPath(a), ReportPath(b)) <==> Lex.Less(a, b)
    ensures ReportPath(a) == ReportPath(b) <==> a == b
  {
    Lex.Framed(ReportPrefix, a, b, ReportSuffix);
    if ReportPath(a) == ReportPath(b) {
      assert a == ReportPath(a)[|ReportPrefix|..|ReportPrefix| + |a|];
      assert b == ReportPath(b)[|ReportPrefix|..|ReportPrefix| + |b|];
    }
  }

  /** The alias is not a report file, so the pruning never removes it. */
  lemma LatestIsNotReport()
    ensures !IsReportFile(LatestPath)
    ensures !IsSnapshotFile(LatestPath) && !IsMirrorEntry(LatestPath)
  {
    assert LatestPath[7] != SnapshotDir[7];
  }

  /** Reports live under `static/data/`, snapshots and their mirror under `static/snapshots/`. */
  lemma DirsApart(p: string)
    ensures IsReportFile(p) ==> !InDir(p, SnapshotDir)
    ensures InDir(p, MirrorDir) ==> InDir(p, SnapshotDir)
    ensures IsSnapshotFile(p) ==> !IsMirrorEntry(p)
  {
    assert IsReportFile(p) ==> p[7] == ReportPrefix[7];
    assert InDir(p, SnapshotDir) ==> p[7] == SnapshotDir[7];
    assert InDir(p, MirrorDir) ==> p[..|SnapshotDir|] == MirrorDir[..|SnapshotDir|];
    assert InDir(p, MirrorDir) ==> p[|SnapshotDir| + 6] == '/';
  }

  /** Mirror names and snapshot names correspond one to one. */
  lemma MirrorRoundTrip(s: string, t: string)
    ensures IsSnapshotFile(s) ==> IsMirrorEntry(MirrorPath(s)) && MirrorSource(MirrorPath(s)) == s
    ensures IsMirrorEntry(t) ==> IsSnapshotFile(MirrorSource(t)) && MirrorPath(MirrorSource(t)) == t
  {
    if IsSnapshotFile(s) {
      var m := MirrorPath(s);
      assert m[..|MirrorDir|] == MirrorDir && m[|MirrorDir|..] == s[|SnapshotDir|..];
      assert s == s[..|SnapshotDir|] + s[|SnapshotDir|..];
    }
    if IsMirrorEntry(t) {
      var u := MirrorSource(t);
      assert u[..|SnapshotDir|] == SnapshotDir && u[|SnapshotDir|..] == t[|MirrorDir|..];
      assert t == t[..|MirrorDir|] + t[|MirrorDir|..];
    }
  }

  /**
   * A camera's snapshot is listed by the pattern `*.jpg` in `static/snapshots`
   * exactly when its name is non-empty and does not start with `.`.
   */
  lemma SnapshotListed(name: string)
    ensures IsSnapshotFile(SnapshotPath(name)) <==> name != [] && name[0] != '.'
  {
    SafeNameAt(name);
    var b := SafeName(name) + ".jpg";
    assert SnapshotPath(name) == SnapshotDir + b;
    assert SnapshotPath(name)[..|SnapshotDir|] == SnapshotDir;
    assert SnapshotPath(name)[|SnapshotDir|..] == b;
    assert b[|b| - 4..] == ".jpg";
    assert NoSlash(b) by {
      forall i | 0 <= i < |b|
        ensures b[i] != '/'
      {
        if i < |name| { assert b[i] == SafeChar(name[i]); }
      }
    }
    if name != [] {
      assert b[0] == SafeChar(name[0]);
    }
  }
}
