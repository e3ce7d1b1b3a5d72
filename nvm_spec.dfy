/** What one export produces, as functions of its inputs: the offsets path,
    the records of each pass, the lookups of the point pass and the final
    result. The exporter method is proved to compute `Export`. */
module NvmSpec {
  import opened NvmTypes
  import opened NvmIndex

  /** The first line of the NVM file (the format's version marker; the
      source writes a space after it). */
  const NvmHeader: string := "NVM_V3 "

  /** What replaces the last four characters of the NVM path. */
  const OffsetsSuffix: string := "_offsets.txt"

  /** The sibling path of the offsets file: the NVM path without its last
      four characters (none removed beyond the start), then the suffix. */
  function OffsetsPath(nvmPath: string): (p: string)
    ensures |nvmPath| < 4 ==> p == OffsetsSuffix
    ensures |nvmPath| >= 4 ==> |p| == |nvmPath| + 8 && p[..|nvmPath| - 4] == nvmPath[..|nvmPath| - 4]
    ensures |p| >= |OffsetsSuffix| && p[|p| - |OffsetsSuffix|..] == OffsetsSuffix
    ensures p != nvmPath
  {
    var keep := if |nvmPath| - 4 > 0 then |nvmPath| - 4 else 0;
    var p := nvmPath[..keep] + OffsetsSuffix;
    assert p[|p| - |OffsetsSuffix|..] == OffsetsSuffix;
    p
  }

  /** The single distortion coefficient of a camera line. */
  function Distortion(c: Camera): (d: real)
  {
    match c.intrinsics
    case Pinhole(k1) => k1
    case OtherModel(_) => 0.0
  }

  function CameraRecordOf(v: View): (cr: CameraRecord)
  {
    CameraRecord(v.name, v.camera.focalLength, v.camera.orientation, v.camera.position,
                 Distortion(v.camera), 0)
  }

  function OffsetRecordOf(v: View): (off: OffsetRecord)
  {
    OffsetRecord(v.name, v.camera.principalPoint.x, v.camera.principalPoint.y)
  }

  /** The camera lines written for the views `vs`, in order. */
  function CameraLines(rec: Reconstruction, vs: seq<ViewId>): (lines: seq<NvmLine>)
    requires forall v :: v in vs ==> v in rec.views
    ensures |lines| == |vs|
  {
    if vs == [] then []
    else CameraLines(rec, vs[..|vs| - 1]) + [CameraLine(CameraRecordOf(rec.views[vs[|vs| - 1]]))]
  }

  /** The offsets lines written for the views `vs`, in order. */
  function OffsetLines(rec: Reconstruction, vs: seq<ViewId>): (lines: seq<OffsetRecord>)
    requires forall v :: v in vs ==> v in rec.views
    ensures |lines| == |vs|
  {
    if vs == [] then []
    else OffsetLines(rec, vs[..|vs| - 1]) + [OffsetRecordOf(rec.views[vs[|vs| - 1]])]
  }

  /** A C++ conversion of a floating-point value to int: truncation toward
      zero. */
  function TruncateToInt(x: real): (n: int)
    ensures n as real <= x < n as real + 1.0 || n as real - 1.0 < x <= n as real
    ensures 0.0 <= x ==> 0 <= n
    ensures x <= 0.0 ==> n <= 0
    ensures (n as real) * (n as real) <= x * x
  {
    if x >= 0.0 then x.Floor else -((-x).Floor)
  }

  /** The observation group of track `t` in view `v`, or the first lookup
      that misses, in the order the source performs them. */
  function ObservationOf(rec: Reconstruction, viewIndex: map<ViewId, int>,
                         featureMapping: map<ViewId, map<TrackId, int>>,
                         t: TrackId, v: ViewId): (o: Result<Observation, LookupFailure>)
    ensures o.Err? ==> o.error.viewId == v
    ensures o.Err? && (o.error.FeatureMissing? || o.error.TrackNotInFeatureMapping?) ==> o.error.trackId == t
  {
    if v !in rec.views then Err(ViewMissing(v))
    else
      var view := rec.views[v];
      if t !in view.features then Err(FeatureMissing(v, t))
      else
        var f := view.features[t];
        var pp := view.camera.principalPoint;
        if v !in featureMapping then Err(ViewNotInFeatureMapping(v))
        else if t !in featureMapping[v] then Err(TrackNotInFeatureMapping(v, t))
        else if v !in viewIndex then Err(ViewNotInViewIndex(v))
        else Ok(Observation(viewIndex[v], featureMapping[v][t], Vec2(f.x - pp.x, f.y - pp.y)))
  }

  /** The observation groups of track `t` for the observing views `vs`, or
      the first lookup that misses. */
  function Observations(rec: Reconstruction, viewIndex: map<ViewId, int>,
                        featureMapping: map<ViewId, map<TrackId, int>>,
                        t: TrackId, vs: seq<ViewId>): (obs: Result<seq<Observation>, LookupFailure>)
    ensures obs.Ok? ==> |obs.value| == |vs|
  {
    if vs == [] then Ok([])
    else
      match Observations(rec, viewIndex, featureMapping, t, vs[..|vs| - 1])
      case Err(e) => Err(e)
      case Ok(obs) =>
        match ObservationOf(rec, viewIndex, featureMapping, t, vs[|vs| - 1])
        case Err(e) => Err(e)
        case Ok(o) => Ok(obs + [o])
  }

  function PointRecordOf(tr: Track, obs: seq<Observation>): (pr: PointRecord)
  {
    PointRecord(tr.point, TruncateToInt(tr.color.r), TruncateToInt(tr.color.g),
                TruncateToInt(tr.color.b), |tr.viewIds|, obs)
  }

  /** The point lines completed for the tracks `ts` and, if a lookup missed,
      that failure (no later track is visited). */
  datatype PointPassResult = PointPassResult(lines: seq<NvmLine>, failure: Option<LookupFailure>)

  function PointPass(rec: Reconstruction, viewIndex: map<ViewId, int>,
                     featureMapping: map<ViewId, map<TrackId, int>>,
                     ts: seq<TrackId>): (pass: PointPassResult)
    requires forall t :: t in ts ==> t in rec.tracks
  {
    if ts == [] then PointPassResult([], None)
    else
      var prev := PointPass(rec, viewIndex, featureMapping, ts[..|ts| - 1]);
      if prev.failure.Some? then prev
      else
        var t := ts[|ts| - 1];
        var tr := rec.tracks[t];
        match Observations(rec, viewIndex, featureMapping, t, tr.viewIds)
        case Err(e) => PointPassResult(prev.lines, Some(e))
        case Ok(obs) => PointPassResult(prev.lines + [PointLine(PointRecordOf(tr, obs))], None)
  }

  /** The lines written before the point records: header, blank line, view
      count, camera lines, track count. */
  function Preamble(rec: Reconstruction): (pre: seq<NvmLine>)
    requires rec.Valid()
    ensures |pre| == |rec.viewIds| + 4
    ensures pre[0] == Header(NvmHeader) && pre[|pre| - 1] == Count(|rec.trackIds|)
  {
    [Header(NvmHeader), Blank, Count(|rec.viewIds|)] + CameraLines(rec, rec.viewIds)
      + [Count(|rec.trackIds|)]
  }

  /** One export of `rec` to `nvmPath`, where exactly the paths in
      `writable` can be opened for writing. */
  function Export(nvmPath: string, rec: Reconstruction, writable: set<string>): (r: ExportResult)
    requires rec.Valid()
    ensures r.status.OpenFailed? <==> nvmPath !in writable || OffsetsPath(nvmPath) !in writable
    ensures nvmPath !in writable ==> r.status == OpenFailed(nvmPath) && r.created == []
    ensures nvmPath in writable && OffsetsPath(nvmPath) !in writable ==>
              r.status == OpenFailed(OffsetsPath(nvmPath)) && r.created == [nvmPath] && r.nvm == []
    ensures !r.status.OpenFailed? ==> r.created == [nvmPath, OffsetsPath(nvmPath)]
    ensures r.status.Written? ==> |r.nvm| >= 5 && r.nvm[|r.nvm| - 1] == EndMarker
  {
    if nvmPath !in writable then ExportResult(OpenFailed(nvmPath), [], [], [])
    else
      var offsetPath := OffsetsPath(nvmPath);
      if offsetPath !in writable then ExportResult(OpenFailed(offsetPath), [nvmPath], [], [])
      else
        var points := PointPass(rec, ViewIndex(rec.viewIds),
                                FeatureIndexMapping(rec, rec.viewIds), rec.trackIds);
        var offsets := OffsetLines(rec, rec.viewIds);
        match points.failure
        case Some(e) => ExportResult(Aborted(e), [nvmPath, offsetPath], Preamble(rec) + points.lines, offsets)
        case None => ExportResult(Written, [nvmPath, offsetPath], Preamble(rec) + points.lines + [EndMarker], offsets)
  }

  /** Once a lookup misses for a prefix of the observing views, later views
      change nothing: the loop has already stopped. */
  lemma {:induction false} ObservationsFailureSticks(rec: Reconstruction, viewIndex: map<ViewId, int>,
                                                     featureMapping: map<ViewId, map<TrackId, int>>,
                                                     t: TrackId, vs: seq<ViewId>, k: nat)
    requires k <= |vs|
    requires Observations(rec, viewIndex, featureMapping, t, vs[..k]).Err?
    ensures Observations(rec, viewIndex, featureMapping, t, vs)
            == Observations(rec, viewIndex, featureMapping, t, vs[..k])
  {
    if k < |vs| {
      var p := vs[..|vs| - 1];
      assert p[..k] == vs[..k];
      ObservationsFailureSticks(rec, viewIndex, featureMapping, t, p, k);
    } else {
      assert vs[..k] == vs;
    }
  }

  /** Once a lookup misses for a prefix of the tracks, later tracks change
      nothing: the program has already stopped. */
  lemma {:induction false} PointPassFailureSticks(rec: Reconstruction, viewIndex: map<ViewId, int>,
                                                  featureMapping: map<ViewId, map<TrackId, int>>,
                                                  ts: seq<TrackId>, j: nat)
    requires forall t :: t in ts ==> t in rec.tracks
    requires j <= |ts|
    requires PointPass(rec, viewIndex, featureMapping, ts[..j]).failure.Some?
    ensures PointPass(rec, viewIndex, featureMapping, ts)
            == PointPass(rec, viewIndex, featureMapping, ts[..j])
  {
    if j < |ts| {
      var p := ts[..|ts| - 1];
      assert p[..j] == ts[..j];
      PointPassFailureSticks(rec, viewIndex, featureMapping, p, j);
    } else {
      assert ts[..j] == ts;
    }
  }

  /** One more track, after a prefix of tracks that completed. */
  lemma PointPassStep(rec: Reconstruction, viewIndex: map<ViewId, int>,
                      featureMapping: map<ViewId, map<TrackId, int>>,
                      ts: seq<TrackId>, j: nat)
    requires forall t :: t in ts ==> t in rec.tracks
    requires j < |ts|
    requires PointPass(rec, viewIndex, featureMapping, ts[..j]).failure.None?
    ensures var prev := PointPass(rec, viewIndex, featureMapping, ts[..j]).lines;
            var tr := rec.tracks[ts[j]];
            PointPass(rec, viewIndex, featureMapping, ts[..j + 1]) ==
              match Observations(rec, viewIndex, featureMapping, ts[j], tr.viewIds)
              case Err(e) => PointPassResult(prev, Some(e))
              case Ok(obs) => PointPassResult(prev + [PointLine(PointRecordOf(tr, obs))], None)
  {
    assert ts[..j + 1][..j] == ts[..j];
  }
}
