/**
 * What one pass of `update_all` computes before it publishes anything
 * (main.py:79-91): for each camera in registry order, fetch a frame, detect
 * on it if the fetch gave a path, and record either the detection or an
 * all-`"X"` result.  The capture tool, the image loader, the detector and the
 * clock are outside the program; their outcomes come in as a CameraRun per
 * camera.
 */
module Aggregate {
  import opened Wrappers
  import opened Config
  import opened Snapshot
  import opened Detection
  import Layout

  /** What a file holds: raw bytes (a JPEG frame, say) or a serialised report. */
  datatype Content = Bytes(data: seq<bv8>) | Report(results: seq<DetectionResult>)

  type Files = map<string, Content>

  /** What one run of the capture tool did. */
  datatype Capture =
    | Written(data: seq<bv8>)  // exited normally having written the frame
    | NoOutput                 // exited normally without writing the output file
    | Failed                   // non-zero exit, timeout, or any other exception

  /**
   * The outside world's answers for one camera in one pass: the capture, whether
   * `cv2.imread` can decode the file, the detector's labels (None when
   * `model.predict` raises), and the clock reading `int(time.time())`.
   */
  datatype CameraRun = CameraRun(capture: Capture, loads: bool, inference: Option<seq<int>>, now: int)

  datatype Fetch = Fetch(path: Option<string>, files: Files)

  /**
   * `fetch_snapshot_ffmpeg`: the capture overwrites the camera's snapshot when
   * it writes one; the path is returned whenever a file exists there afterwards
   * (possibly one left by an earlier pass), unless the tool failed.
   */
  function Fetched(files: Files, name: string, capture: Capture): Fetch
  {
    var path := SnapshotPath(name);
    match capture
    case Written(data) => Fetch(Some(path), files[path := Bytes(data)])
    case NoOutput => Fetch(if path in files then Some(path) else None, files)
    case Failed => Fetch(None, files)
  }

  /** The fetch yields a path. */
  predicate FetchOk(files: Files, name: string, capture: Capture)
  {
    capture.Written? || (capture.NoOutput? && SnapshotPath(name) in files)
  }

  /** `detect_vehicles_from_snapshot` on the file at `path`. */
  function Detected(files: Files, name: string, path: string, loads: bool, inference: Option<seq<int>>, now: int)
    : Option<DetectionResult>
  {
    if path !in files || !loads then None
    else match inference
      case None => None
      case Some(labels) => Some(DetectionResult(name, Counted(Tally(labels)), now))
  }

  /**
   * One iteration of the camera loop, from the files as the earlier iterations
   * left them: the fetch, then detection when the fetch gave a path.
   */
  function Observe(files: Files, cam: Camera, run: CameraRun): DetectionResult
  {
    var f := Fetched(files, cam.name, run.capture);
    var d := if f.path.Some? then Detected(f.files, cam.name, f.path.value, run.loads, run.inference, run.now) else None;
    if d.Some? then d.value else DetectionResult(cam.name, Sentinel(), run.now)
  }

  /** The files once the captures of `cams` have run, in order. */
  function Captured(files: Files, cams: seq<Camera>, runs: seq<CameraRun>): Files
    requires |cams| == |runs|
  {
    if cams == [] then files
    else
      var n := |cams| - 1;
      Fetched(Captured(files, cams[..n], runs[..n]), cams[n].name, runs[n].capture).files
  }

  /** The results list the camera loop builds over `cams`. */
  function Results(files: Files, cams: seq<Camera>, runs: seq<CameraRun>): seq<DetectionResult>
    requires |cams| == |runs|
  {
    if cams == [] then []
    else
      var n := |cams| - 1;
      Results(files, cams[..n], runs[..n]) + [Observe(Captured(files, cams[..n], runs[..n]), cams[n], runs[n])]
  }

  /**
   * One camera's result: its name and clock reading; all counts real exactly
   * when the fetch gave a path, the image loaded and the detector answered, and
   * then equal to the tally of the labels; all `"X"` otherwise.  Only a written
   * capture changes the files, and only at the camera's snapshot path.
   */
  lemma ObserveSpec(files: Files, cam: Camera, run: CameraRun)
    ensures Observe(files, cam, run).name == cam.name
    ensures Observe(files, cam, run).timestamp == run.now
    ensures AllUnknown(Observe(files, cam, run).count) <==>
      !(FetchOk(files, cam.name, run.capture) && run.loads && run.inference.Some?)
    ensures AllCounted(Observe(files, cam, run).count) <==>
      FetchOk(files, cam.name, run.capture) && run.loads && run.inference.Some?
    ensures FetchOk(files, cam.name, run.capture) && run.loads && run.inference.Some? ==>
      Observe(files, cam, run).count == Counted(Tally(run.inference.value))
    ensures Fetched(files, cam.name, run.capture).files ==
      if run.capture.Written? then files[SnapshotPath(cam.name) := Bytes(run.capture.data)] else files
  {
    var count := Observe(files, cam, run).count;
    CountedExcludesUnknown(count);
    SentinelShape();
    if run.inference.Some? {
      CountedTally(run.inference.value);
    }
  }

  /** Running the loop over one more camera appends that camera's result and applies its capture. */
  lemma PassExtend(files: Files, cams: seq<Camera>, runs: seq<CameraRun>, i: nat)
    requires |cams| == |runs| && i < |cams|
    ensures Results(files, cams[..i + 1], runs[..i + 1]) ==
      Results(files, cams[..i], runs[..i]) + [Observe(Captured(files, cams[..i], runs[..i]), cams[i], runs[i])]
    ensures Captured(files, cams[..i + 1], runs[..i + 1]) ==
      Fetched(Captured(files, cams[..i], runs[..i]), cams[i].name, runs[i].capture).files
  {
    assert cams[..i + 1][..i] == cams[..i] && runs[..i + 1][..i] == runs[..i];
  }

  lemma {:induction false} ResultsLength(files: Files, cams: seq<Camera>, runs: seq<CameraRun>)
    requires |cams| == |runs|
    ensures |Results(files, cams, runs)| == |cams|
    decreases |cams|
  {
    if cams != [] {
      ResultsLength(files, cams[..|cams| - 1], runs[..|runs| - 1]);
    }
  }

  /** The i-th result is what the i-th iteration computes from the files the first i captures left behind. */
  lemma {:induction false} PassAt(files: Files, cams: seq<Camera>, runs: seq<CameraRun>, i: nat)
    requires |cams| == |runs| && i < |cams|
    ensures |Results(files, cams, runs)| == |cams|
    ensures Results(files, cams, runs)[i] == Observe(Captured(files, cams[..i], runs[..i]), cams[i], runs[i])
    decreases |cams|
  {
    var n := |cams| - 1;
    var prev := Results(files, cams[..n], runs[..n]);
    ResultsLength(files, cams[..n], runs[..n]);
    if i < n {
      PassAt(files, cams[..n], runs[..n], i);
      assert cams[..n][..i] == cams[..i] && runs[..n][..i] == runs[..i];
      assert Results(files, cams, runs)[i] == prev[i];
    } else {
      assert cams[..i] == cams[..n] && runs[..i] == runs[..n];
    }
  }

  /** A path that no capture of the pass wrote to keeps what it held. */
  lemma {:induction false} PassUntouched(files: Files, cams: seq<Camera>, runs: seq<CameraRun>, p: string)
    requires |cams| == |runs|
    requires forall j :: 0 <= j < |cams| && runs[j].capture.Written? ==> SnapshotPath(cams[j].name) != p
    ensures p in Captured(files, cams, runs) <==> p in files
    ensures p in files ==> Captured(files, cams, runs)[p] == files[p]
    decreases |cams|
  {
    if cams != [] {
      var n := |cams| - 1;
      PassUntouched(files, cams[..n], runs[..n], p);
    }
  }

  /** No two cameras of the list share a snapshot file. */
  predicate DistinctPaths(cams: seq<Camera>)
  {
    forall i, j :: 0 <= i < j < |cams| ==> SnapshotPath(cams[i].name) != SnapshotPath(cams[j].name)
  }

  /** A camera whose capture wrote a frame leaves that frame at its snapshot path. */
  lemma {:induction false} PassWritten(files: Files, cams: seq<Camera>, runs: seq<CameraRun>, i: nat)
    requires |cams| == |runs| && i < |cams| && DistinctPaths(cams)
    requires runs[i].capture.Written?
    ensures SnapshotPath(cams[i].name) in Captured(files, cams, runs)
    ensures Captured(files, cams, runs)[SnapshotPath(cams[i].name)] == Bytes(runs[i].capture.data)
    decreases |cams|
  {
    var n := |cams| - 1;
    if i < n {
      PassWritten(files, cams[..n], runs[..n], i);
      assert SnapshotPath(cams[i].name) != SnapshotPath(cams[n].name);
    }
  }

  /**
   * With one snapshot file per camera, the all-`"X"` rule can be read off the
   * inputs: camera i's counts are all `"X"` exactly when its capture failed, or
   * wrote nothing and no earlier snapshot of it exists, or the image did not
   * load, or the detector raised; otherwise they are the tally of its labels.
   */
  lemma PassOutcome(files: Files, cams: seq<Camera>, runs: seq<CameraRun>, i: nat)
    requires |cams| == |runs| && i < |cams| && DistinctPaths(cams)
    ensures |Results(files, cams, runs)| == |cams|
    ensures AllUnknown(Results(files, cams, runs)[i].count) <==>
      !(FetchOk(files, cams[i].name, runs[i].capture) && runs[i].loads && runs[i].inference.Some?)
    ensures FetchOk(files, cams[i].name, runs[i].capture) && runs[i].loads && runs[i].inference.Some? ==>
      Results(files, cams, runs)[i].count == Counted(Tally(runs[i].inference.value))
  {
    PassAt(files, cams, runs, i);
    var before := Captured(files, cams[..i], runs[..i]);
    PassUntouched(files, cams[..i], runs[..i], SnapshotPath(cams[i].name));
    assert FetchOk(before, cams[i].name, runs[i].capture) == FetchOk(files, cams[i].name, runs[i].capture);
    ObserveSpec(before, cams[i], runs[i]);
  }

  /**
   * One result per camera, in registry order, named after it, stamped with its
   * clock reading, its counts all real or all `"X"`; a failed capture always
   * gives all `"X"`.
   */
  lemma PassShape(files: Files, cams: seq<Camera>, runs: seq<CameraRun>)
    requires |cams| == |runs|
    ensures |Results(files, cams, runs)| == |cams|
    ensures forall i :: 0 <= i < |cams| ==>
      && Results(files, cams, runs)[i].name == cams[i].name
      && Results(files, cams, runs)[i].timestamp == runs[i].now
      && (AllCounted(Results(files, cams, runs)[i].count) || AllUnknown(Results(files, cams, runs)[i].count))
      && (runs[i].capture.Failed? ==> AllUnknown(Results(files, cams, runs)[i].count))
  {
    ResultsLength(files, cams, runs);
    forall i | 0 <= i < |cams|
      ensures Results(files, cams, runs)[i].name == cams[i].name
      ensures Results(files, cams, runs)[i].timestamp == runs[i].now
      ensures AllCounted(Results(files, cams, runs)[i].count) || AllUnknown(Results(files, cams, runs)[i].count)
      ensures runs[i].capture.Failed? ==> AllUnknown(Results(files, cams, runs)[i].count)
    {
      PassAt(files, cams, runs, i);
      ObserveSpec(Captured(files, cams[..i], runs[..i]), cams[i], runs[i]);
    }
  }

  /** Names that sanitising leaves alone share a snapshot file only if they are equal. */
  lemma CleanNamesApart(a: string, b: string)
    requires SafeName(a) == a && SafeName(b) == b && a != b
    ensures SnapshotPath(a) != SnapshotPath(b)
  {
    var pa, pb := SnapshotPath(a), SnapshotPath(b);
    assert pa[|SnapshotDir|..|pa| - 4] == a;
    assert pb[|SnapshotDir|..|pb| - 4] == b;
  }

  lemma CameraNamesClean(i: nat)
    requires i < |Cameras|
    ensures SafeName(Cameras[i].name) == Cameras[i].name
    ensures Cameras[i].name != [] && Cameras[i].name[0] != '.'
  {
    var name := Cameras[i].name;
    assert forall k :: 0 <= k < |name| ==> name[k] != '/' && name[k] != ' ';
    SafeNameFixed(name);
  }

  lemma CameraNamesDistinct()
    ensures forall i, j :: 0 <= i < j < |Cameras| ==> Cameras[i].name != Cameras[j].name
  {
  }

  /** The registry gives every camera a snapshot file of its own, and `*.jpg` lists each of them. */
  lemma CamerasApart()
    ensures DistinctPaths(Cameras)
    ensures forall i :: 0 <= i < |Cameras| ==> Layout.IsSnapshotFile(SnapshotPath(Cameras[i].name))
  {
    CameraNamesDistinct();
    forall i | 0 <= i < |Cameras|
      ensures SafeName(Cameras[i].name) == Cameras[i].name
      ensures Layout.IsSnapshotFile(SnapshotPath(Cameras[i].name))
    {
      CameraNamesClean(i);
      Layout.SnapshotListed(Cameras[i].name);
    }
    forall i, j | 0 <= i < j < |Cameras|
      ensures SnapshotPath(Cameras[i].name) != SnapshotPath(Cameras[j].name)
    {
      CleanNamesApart(Cameras[i].name, Cameras[j].name);
    }
  }
}
