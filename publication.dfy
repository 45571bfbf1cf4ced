/**
 * What `update_all` does to the files once the results are in
 * (main.py:93-133): write the timestamped report, point `latest.json` at it,
 * remove every report but the one that sorts last, and rebuild the snapshot
 * mirror.  A symbolic link and a copy are the same thing here: the alias or
 * mirror entry holds the content it resolves to.
 */
module Publication {
  import Lex
  import opened Config
  import opened Timestamp
  import opened Snapshot
  import opened Detection
  import opened Layout
  import opened Aggregate

  /** The files `glob("static/data/vehicle_data_*.json")` lists. */
  function Reports(files: Files): set<string>
  {
    set p | p in files && IsReportFile(p)
  }

  /** The report files after `for old in sorted(old_files)[:-1]: os.remove(old)`. */
  ghost function RetainNewest(files: Files): Files
  {
    var reports := Reports(files);
    if reports == {} then files
    else map p | p in files && (!IsReportFile(p) || p == Lex.Greatest(reports)) :: files[p]
  }

  /** The files after every mirror entry has been removed. */
  function Cleared(files: Files): Files
  {
    map p | p in files && !IsMirrorEntry(p) :: files[p]
  }

  /** The mirror entries to create: one per listed snapshot, under its own file name. */
  function MirrorTargets(files: Files): (targets: set<string>)
    ensures forall t :: t in targets ==> IsMirrorEntry(t) && MirrorSource(t) in files
  {
    var targets := set s | s in files && IsSnapshotFile(s) :: MirrorPath(s);
    assert forall t :: t in targets ==> IsMirrorEntry(t) && MirrorSource(t) in files by {
      forall t | t in targets
        ensures IsMirrorEntry(t) && MirrorSource(t) in files
      {
        var s :| s in files && IsSnapshotFile(s) && t == MirrorPath(s);
        MirrorRoundTrip(s, t);
      }
    }
    targets
  }

  /** The files after the mirror has been cleared and repopulated. */
  function Mirrored(files: Files): Files
  {
    Cleared(files) + map t | t in MirrorTargets(files) :: files[MirrorSource(t)]
  }

  /** The files after the report write, the alias update, the pruning and the mirror. */
  ghost function Published(files: Files, results: seq<DetectionResult>, stamp: DateTime): Files
  {
    var written := files[ReportPath(Stamp(stamp)) := Report(results)][LatestPath := Report(results)];
    Mirrored(RetainNewest(written))
  }

  /** Every file that is not a report keeps what it held; of the reports, exactly one, the one that sorts last, survives. */
  lemma RetainNewestSpec(files: Files)
    ensures forall p :: !IsReportFile(p) ==>
      (p in RetainNewest(files) <==> p in files) && (p in files ==> RetainNewest(files)[p] == files[p])
    ensures forall p :: p in Reports(RetainNewest(files)) <==>
      p in Reports(files) && forall q :: q in Reports(files) ==> Lex.LessOrEqual(q, p)
    ensures forall p :: p in Reports(RetainNewest(files)) ==> RetainNewest(files)[p] == files[p]
    ensures |Reports(RetainNewest(files))| == if Reports(files) == {} then 0 else 1
  {
    var reports := Reports(files);
    if reports != {} {
      var g := Lex.Greatest(reports);
      forall p | p in reports && forall q :: q in reports ==> Lex.LessOrEqual(q, p)
        ensures p == g
      {
        Lex.GreatestUnique(reports, p);
      }
      assert Reports(RetainNewest(files)) == {g};
    }
  }

  /** Report names built from in-range readings are listed, and sort in chronological order. */
  lemma ReportNameOrder(t: DateTime, u: DateTime)
    requires InRange(t) && InRange(u)
    ensures IsReportFile(ReportPath(Stamp(t)))
    ensures Lex.Less(ReportPath(Stamp(t)), ReportPath(Stamp(u))) <==> Before(t, u)
    ensures ReportPath(Stamp(t)) == ReportPath(Stamp(u)) <==> t == u
  {
    StampShape(t);
    StampShape(u);
    ReportPathMatches(Stamp(t));
    StampOrder(t, u);
    ReportPathOrder(Stamp(t), Stamp(u));
  }

  /**
   * When every report on disk is named by an in-range reading no later than
   * `now`, and the report for `now` is among them, that report is the one kept.
   */
  lemma KeepsNewest(files: Files, now: DateTime)
    requires InRange(now)
    requires ReportPath(Stamp(now)) in files
    requires forall p :: p in Reports(files) ==>
      exists t :: InRange(t) && p == ReportPath(Stamp(t)) && !Before(now, t)
    ensures Reports(RetainNewest(files)) == {ReportPath(Stamp(now))}
  {
    var g := ReportPath(Stamp(now));
    ReportNameOrder(now, now);
    assert g in Reports(files);
    forall p | p in Reports(files)
      ensures Lex.LessOrEqual(p, g)
    {
      var t :| InRange(t) && p == ReportPath(Stamp(t)) && !Before(now, t);
      ReportNameOrder(now, t);
      Lex.Total(p, g);
    }
    RetainNewestSpec(files);
  }

  /** If an existing report is named by a later reading than `now`, the report for `now` is the one removed. */
  lemma BackwardClockDropsReport(files: Files, now: DateTime, later: DateTime)
    requires InRange(now) && InRange(later) && Before(now, later)
    requires ReportPath(Stamp(later)) in files
    ensures ReportPath(Stamp(now)) !in RetainNewest(files)
  {
    var p, q := ReportPath(Stamp(now)), ReportPath(Stamp(later));
    ReportNameOrder(later, now);
    ReportNameOrder(now, later);
    assert q in Reports(files);
    RetainNewestSpec(files);
    Lex.Asymmetric(p, q);
  }

  /**
   * After the mirror step a listed mirror entry exists exactly when the listed
   * snapshot of the same name exists, with the same content; every other path,
   * the snapshots included, is unchanged.
   */
  lemma MirroredSpec(files: Files)
    ensures forall t :: IsMirrorEntry(t) ==>
      (t in Mirrored(files) <==> MirrorSource(t) in files) &&
      (t in Mirrored(files) ==> Mirrored(files)[t] == files[MirrorSource(t)])
    ensures forall p :: !IsMirrorEntry(p) ==>
      (p in Mirrored(files) <==> p in files) && (p in files ==> Mirrored(files)[p] == files[p])
    ensures (set t | t in Mirrored(files) && IsMirrorEntry(t)) ==
      (set s | s in files && IsSnapshotFile(s) :: MirrorPath(s))
  {
    var m := Mirrored(files);
    forall t | IsMirrorEntry(t) && MirrorSource(t) in files
      ensures t in MirrorTargets(files)
    {
      MirrorRoundTrip(MirrorSource(t), t);
    }
  }

  /**
   * The whole publication: `latest.json` holds the results, exactly one report
   * survives, the snapshots are untouched and the mirror matches them.
   */
  lemma PublishedSpec(files: Files, results: seq<DetectionResult>, stamp: DateTime)
    ensures LatestPath in Published(files, results, stamp)
    ensures Published(files, results, stamp)[LatestPath] == Report(results)
    ensures |Reports(Published(files, results, stamp))| == 1
    ensures forall p :: IsSnapshotFile(p) ==>
      (p in Published(files, results, stamp) <==> p in files) &&
      (p in files ==> Published(files, results, stamp)[p] == files[p])
    ensures forall t :: IsMirrorEntry(t) ==>
      (t in Published(files, results, stamp) <==> MirrorSource(t) in files) &&
      (t in Published(files, results, stamp) ==> Published(files, results, stamp)[t] == files[MirrorSource(t)])
  {
    var data := ReportPath(Stamp(stamp));
    var written := files[data := Report(results)][LatestPath := Report(results)];
    var kept := RetainNewest(written);
    StampShape(stamp);
    ReportPathMatches(Stamp(stamp));
    LatestIsNotReport();
    assert data in Reports(written);
    RetainNewestSpec(written);
    MirroredSpec(kept);
    assert Reports(Mirrored(kept)) == Reports(kept) by {
      forall p | IsReportFile(p)
        ensures !IsMirrorEntry(p)
      {
        DirsApart(p);
      }
    }
    forall p | IsSnapshotFile(p)
      ensures !IsReportFile(p) && p != data && p != LatestPath && !IsMirrorEntry(p)
    {
      DirsApart(p);
    }
    forall t | IsMirrorEntry(t)
      ensures IsSnapshotFile(MirrorSource(t))
    {
      MirrorRoundTrip(MirrorSource(t), t);
    }
  }

  /** With a clock that has not gone back, the report just written is the one that survives. */
  lemma PublishedNewest(files: Files, results: seq<DetectionResult>, stamp: DateTime)
    requires InRange(stamp)
    requires forall p :: p in Reports(files) ==>
      exists t :: InRange(t) && p == ReportPath(Stamp(t)) && !Before(stamp, t)
    ensures Reports(Published(files, results, stamp)) == {ReportPath(Stamp(stamp))}
    ensures Published(files, results, stamp)[ReportPath(Stamp(stamp))] == Report(results)
  {
    var data := ReportPath(Stamp(stamp));
    var written := files[data := Report(results)][LatestPath := Report(results)];
    var kept := RetainNewest(written);
    LatestIsNotReport();
    forall p | p in Reports(written)
      ensures exists t :: InRange(t) && p == ReportPath(Stamp(t)) && !Before(stamp, t)
    {
      if p == data {
        assert InRange(stamp) && p == ReportPath(Stamp(stamp)) && !Before(stamp, stamp);
      } else {
        assert p in Reports(files);
      }
    }
    KeepsNewest(written, stamp);
    RetainNewestSpec(written);
    MirroredSpec(kept);
    forall p | IsReportFile(p)
      ensures !IsMirrorEntry(p)
    {
      DirsApart(p);
    }
    assert Reports(Mirrored(kept)) == Reports(kept);
  }

  /**
   * After a pass, a listed camera's mirror entry holds the frame its capture
   * wrote in this pass or, when it wrote none, whatever snapshot of it was
   * already on disk: a failed capture does not remove the camera from the
   * mirror.  There is no entry only when there is neither.  (CamerasApart
   * discharges the requirements for every camera of the registry.)
   */
  lemma PassMirror(files: Files, cams: seq<Camera>, runs: seq<CameraRun>, results: seq<DetectionResult>,
                   stamp: DateTime, i: nat)
    requires |runs| == |cams| && i < |cams| && DistinctPaths(cams)
    requires IsSnapshotFile(SnapshotPath(cams[i].name))
    ensures var published := Published(Captured(files, cams, runs), results, stamp);
      var path := SnapshotPath(cams[i].name);
      && (MirrorPath(path) in published <==> runs[i].capture.Written? || path in files)
      && (runs[i].capture.Written? ==> published[MirrorPath(path)] == Bytes(runs[i].capture.data))
      && (!runs[i].capture.Written? && path in files ==> published[MirrorPath(path)] == files[path])
  {
    var passed := Captured(files, cams, runs);
    var path := SnapshotPath(cams[i].name);
    MirrorRoundTrip(path, MirrorPath(path));
    PublishedSpec(passed, results, stamp);
    if runs[i].capture.Written? {
      PassWritten(files, cams, runs, i);
    } else {
      PassUntouched(files, cams, runs, path);
    }
  }
}
