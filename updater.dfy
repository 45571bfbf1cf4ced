/**
 * `update_all` and the two functions it calls, as methods over the files the
 * program sees (main.py:39-133).  `Site.files` maps each path to what it
 * holds; directories are implicit in the paths.
 */
module Updater {
  import opened Wrappers
  import Lex
  import opened Config
  import opened Timestamp
  import opened Snapshot
  import opened Detection
  import opened Layout
  import opened Aggregate
  import opened Publication

  class Site {
    var files: Files

    constructor (initial: Files)
      ensures files == initial
    {
      files := initial;
    }

    /**
     * `fetch_snapshot_ffmpeg`: run the capture into the camera's snapshot path,
     * then return that path if a file exists there.
     */
    method Fetch(name: string, capture: Capture) returns (path: Option<string>)
      modifies this
      ensures Aggregate.Fetch(path, files) == Fetched(old(files), name, capture)
      ensures path.Some? <==> FetchOk(old(files), name, capture)
      ensures path.Some? ==> path.value == SnapshotPath(name) && path.value in files
    {
      var outputPath := SnapshotPath(name);
      if capture.Failed? {
        return None;
      }
      if capture.Written? {
        files := files[outputPath := Bytes(capture.data)];
      }
      if outputPath in files {
        path := Some(outputPath);
      } else {
        path := None;
      }
    }

    /**
     * `detect_vehicles_from_snapshot`: nothing when the image does not load or
     * the detector raises; otherwise the camera's name, the tally of the
     * detector's labels and the clock reading.
     */
    method Detect(name: string, snapshotPath: string, loads: bool, inference: Option<seq<int>>, now: int)
      returns (r: Option<DetectionResult>)
      ensures r == Detected(files, name, snapshotPath, loads, inference, now)
      ensures r.None? <==> snapshotPath !in files || !loads || inference.None?
      ensures r.Some? ==> r.value.name == name && r.value.timestamp == now && AllCounted(r.value.count)
      ensures r.Some? ==> forall c :: c in TargetClasses ==> r.value.count[c] == Num(multiset(inference.value)[IdOf(c)])
    {
      if snapshotPath !in files || !loads {
        return None;
      }
      if inference.None? {
        return None;
      }
      var count := CountLabels(inference.value);
      r := Some(DetectionResult(name, Counted(count), now));
      CountedTally(inference.value);
    }

    /** Save the report under `static/data/vehicle_data_<stamp>.json`. */
    method WriteReport(stamp: DateTime, results: seq<DetectionResult>) returns (dataPath: string)
      modifies this
      ensures dataPath == ReportPath(Stamp(stamp))
      ensures files == old(files)[dataPath := Report(results)]
    {
      dataPath := ReportPath(Stamp(stamp));
      files := files[dataPath := Report(results)];
    }

    /** Remove `latest.json` if present, then make it resolve to the report. */
    method RepointLatest(results: seq<DetectionResult>)
      modifies this
      ensures files == old(files)[LatestPath := Report(results)]
    {
      if LatestPath in files {
        files := files - {LatestPath};
      }
      files := files[LatestPath := Report(results)];
    }

    /** Remove every listed report except the one that sorts last. */
    method PruneReports()
      modifies this
      ensures files == RetainNewest(old(files))
    {
      var oldFiles := set p | p in files && IsReportFile(p);
      if oldFiles == {} {
        return;
      }
      var newest :| newest in oldFiles;
      var unseen := oldFiles - {newest};
      while unseen != {}
        invariant files == old(files)
        invariant unseen <= oldFiles && newest in oldFiles && newest !in unseen
        invariant forall q :: q in oldFiles - unseen ==> Lex.LessOrEqual(q, newest)
        decreases unseen
      {
        var q :| q in unseen;
        Lex.Total(q, newest);
        if Lex.Less(newest, q) {
          forall r | r in oldFiles - unseen
            ensures Lex.LessOrEqual(r, q)
          {
            if r != newest { Lex.Transitive(r, newest, q); }
          }
          newest := q;
        }
        unseen := unseen - {q};
      }
      Lex.GreatestUnique(oldFiles, newest);
      var doomed := oldFiles - {newest};
      assert files == old(files) - (oldFiles - {newest} - doomed) by {
        assert oldFiles - {newest} - doomed == {};
        assert old(files) - {} == old(files);
      }
      while doomed != {}
        invariant doomed <= oldFiles - {newest}
        invariant files == old(files) - (oldFiles - {newest} - doomed)
        decreases doomed
      {
        var q :| q in doomed;
        files := files - {q};
        doomed := doomed - {q};
      }
      assert Reports(old(files)) == oldFiles;
      SameMaps(files, RetainNewest(old(files)));
    }

    /** Remove every listed mirror entry. */
    method ClearMirror()
      modifies this
      ensures files == Cleared(old(files))
    {
      var mirrored := set p | p in files && IsMirrorEntry(p);
      var stale := mirrored;
      while stale != {}
        invariant stale <= mirrored
        invariant files == old(files) - (mirrored - stale)
        decreases stale
      {
        var f :| f in stale;
        files := files - {f};
        stale := stale - {f};
      }
      assert files == Cleared(old(files));
    }

    /**
     * List the snapshots, clear the mirror, then copy each listed snapshot into
     * the mirror under its own file name.
     */
    method MirrorSnapshots()
      modifies this
      ensures files == Mirrored(old(files))
    {
      var snapshotFiles := set p | p in files && IsSnapshotFile(p);
      ClearMirror();
      var todo := snapshotFiles;
      while todo != {}
        invariant todo <= snapshotFiles
        invariant forall p :: !IsMirrorEntry(p) ==>
          (p in files <==> p in old(files)) && (p in files ==> files[p] == old(files)[p])
        invariant forall t :: IsMirrorEntry(t) ==>
          (t in files <==> MirrorSource(t) in snapshotFiles - todo) &&
          (t in files ==> files[t] == old(files)[MirrorSource(t)])
        decreases todo
      {
        var snapshot :| snapshot in todo;
        var target := MirrorPath(snapshot);
        MirrorRoundTrip(snapshot, target);
        DirsApart(snapshot);
        forall t | IsMirrorEntry(t) && t != target
          ensures MirrorSource(t) != snapshot
        {
          MirrorRoundTrip(snapshot, t);
        }
        files := files[target := files[snapshot]];
        todo := todo - {snapshot};
      }
      MirroredSpec(old(files));
      forall t | IsMirrorEntry(t)
        ensures MirrorSource(t) in snapshotFiles <==> MirrorSource(t) in old(files)
      {
        MirrorRoundTrip(MirrorSource(t), t);
      }
      SameMaps(files, Mirrored(old(files)));
    }

    /**
     * The camera loop of `update_all` over `cams`: fetch, detect if the fetch
     * gave a path, and append the detection or an all-`"X"` result.  Detection
     * runs on exactly the cameras whose fetch gave a path (their indices, in
     * order, are `detectedOn`).  `DistinctPaths` is needed only for that last
     * clause: it lets each fetch's outcome be stated against the files as they
     * were before the pass.
     */
    method CollectResults(cams: seq<Camera>, runs: seq<CameraRun>)
      returns (results: seq<DetectionResult>, ghost detectedOn: seq<nat>)
      requires |runs| == |cams| && DistinctPaths(cams)
      modifies this
      ensures results == Results(old(files), cams, runs)
      ensures files == Captured(old(files), cams, runs)
      ensures forall i :: i in detectedOn <==> 0 <= i < |cams| && FetchOk(old(files), cams[i].name, runs[i].capture)
    {
      ghost var start := files;
      results := [];
      detectedOn := [];
      for i := 0 to |cams|
        invariant results == Results(start, cams[..i], runs[..i])
        invariant files == Captured(start, cams[..i], runs[..i])
        invariant forall k :: k in detectedOn <==> 0 <= k < i && FetchOk(start, cams[k].name, runs[k].capture)
      {
        var cam, run := cams[i], runs[i];
        ghost var before := files;
        ghost var expected := Observe(before, cam, run);
        PassExtend(start, cams, runs, i);
        PassUntouched(start, cams[..i], runs[..i], SnapshotPath(cam.name));
        assert FetchOk(before, cam.name, run.capture) == FetchOk(start, cam.name, run.capture);
        var snapshotPath := Fetch(cam.name, run.capture);
        if snapshotPath.Some? {
          detectedOn := detectedOn + [i];
          var result := Detect(cam.name, snapshotPath.value, run.loads, run.inference, run.now);
          if result.Some? {
            assert result.value == expected;
            results := results + [result.value];
            continue;
          }
        }
        assert DetectionResult(cam.name, Sentinel(), run.now) == expected;
        results := results + [DetectionResult(cam.name, Sentinel(), run.now)];
      }
      assert cams[..|cams|] == cams && runs[..|runs|] == runs;
    }

    /**
     * `update_all`: one result per registry camera, then the report, the alias,
     * the pruning and the mirror.
     */
    method UpdateAll(runs: seq<CameraRun>, stamp: DateTime)
      returns (results: seq<DetectionResult>, ghost detectedOn: seq<nat>)
      requires |runs| == |Cameras|
      modifies this
      ensures results == Results(old(files), Cameras, runs)
      ensures files == Published(Captured(old(files), Cameras, runs), results, stamp)
      ensures |results| == |Cameras|
      ensures forall i :: 0 <= i < |Cameras| ==> results[i].name == Cameras[i].name && results[i].timestamp == runs[i].now
      ensures forall i :: 0 <= i < |Cameras| ==>
        (AllUnknown(results[i].count) <==>
          !(FetchOk(old(files), Cameras[i].name, runs[i].capture) && runs[i].loads && runs[i].inference.Some?))
      ensures forall i :: 0 <= i < |Cameras| ==> AllCounted(results[i].count) || AllUnknown(results[i].count)
      ensures forall i :: i in detectedOn <==> 0 <= i < |Cameras| && FetchOk(old(files), Cameras[i].name, runs[i].capture)
      ensures LatestPath in files && files[LatestPath] == Report(results)
    {
      CamerasApart();
      ghost var start := files;
      results, detectedOn := CollectResults(Cameras, runs);
      PassShape(start, Cameras, runs);
      forall i | 0 <= i < |Cameras|
        ensures AllUnknown(results[i].count) <==>
          !(FetchOk(start, Cameras[i].name, runs[i].capture) && runs[i].loads && runs[i].inference.Some?)
      {
        PassOutcome(start, Cameras, runs, i);
      }
      ghost var passed := files;
      var dataPath := WriteReport(stamp, results);
      RepointLatest(results);
      PruneReports();
      MirrorSnapshots();
      PublishedSpec(passed, results, stamp);
    }
  }

  lemma SameMaps(a: Files, b: Files)
    requires forall p :: (p in a <==> p in b) && (p in a ==> a[p] == b[p])
    ensures a == b
  {
    assert a.Keys == b.Keys;
  }
}
