/** The exporter itself: one pass over the views that writes the camera and
    offsets lines and fills both index maps, then one pass over the tracks
    that writes the point lines. The passes and their inner loops are
    separate methods here; the source runs them inline in one function. */
module NvmWriter {
  import opened NvmTypes
  import opened NvmIndex
  import opened NvmSpec

  /** The inner loop of the camera pass: writes the ordinal of every track in
      the view's track list into the view's entry of the feature mapping,
      creating the entry on the first write. */
  method AssignFeatureIndices(featureIndexMapping: map<ViewId, map<TrackId, int>>,
                              viewId: ViewId, viewTrackIds: seq<TrackId>)
    returns (mapping: map<ViewId, map<TrackId, int>>)
    ensures viewTrackIds == [] ==> mapping == featureIndexMapping
    ensures viewTrackIds != [] ==>
              mapping == featureIndexMapping[viewId :=
                (if viewId in featureIndexMapping then featureIndexMapping[viewId] else map[])
                + FeatureIndex(viewTrackIds)]
  {
    mapping := featureIndexMapping;
    ghost var base: map<TrackId, int> :=
      if viewId in featureIndexMapping then featureIndexMapping[viewId] else map[];
    var i := 0;
    while i < |viewTrackIds|
      invariant 0 <= i <= |viewTrackIds|
      invariant mapping == if i == 0 then featureIndexMapping
                           else featureIndexMapping[viewId := base + FeatureIndex(viewTrackIds[..i])]
    {
      var trackId := viewTrackIds[i];
      var perView: map<TrackId, int> := if viewId in mapping then mapping[viewId] else map[];
      assert viewTrackIds[..i + 1][..i] == viewTrackIds[..i];
      assert perView[trackId := i] == base + FeatureIndex(viewTrackIds[..i + 1]);
      mapping := mapping[viewId := perView[trackId := i]];
      i := i + 1;
    }
    assert viewTrackIds[..i] == viewTrackIds;
  }

  /** The camera pass: for each view in enumeration order, the next ordinal,
      a camera line, an offsets line and the view's feature ordinals. */
  method CameraPass(rec: Reconstruction)
    returns (cameraLines: seq<NvmLine>, offsets: seq<OffsetRecord>,
             viewIdToIndex: map<ViewId, int>, featureIndexMapping: map<ViewId, map<TrackId, int>>)
    requires rec.Valid()
    ensures cameraLines == CameraLines(rec, rec.viewIds)
    ensures offsets == OffsetLines(rec, rec.viewIds)
    ensures viewIdToIndex == ViewIndex(rec.viewIds)
    ensures featureIndexMapping == FeatureIndexMapping(rec, rec.viewIds)
  {
    var viewIds := rec.viewIds;
    cameraLines, offsets := [], [];
    viewIdToIndex, featureIndexMapping := map[], map[];
    var n := 0;
    while n < |viewIds|
      invariant 0 <= n <= |viewIds|
      invariant viewIdToIndex == ViewIndex(viewIds[..n])
      invariant featureIndexMapping == FeatureIndexMapping(rec, viewIds[..n])
      invariant cameraLines == CameraLines(rec, viewIds[..n])
      invariant offsets == OffsetLines(rec, viewIds[..n])
    {
      var viewId := viewIds[n];
      assert viewIds[..n + 1][..n] == viewIds[..n];
      var currentIndex := |viewIdToIndex|;
      viewIdToIndex := viewIdToIndex[viewId := currentIndex];

      var view := rec.views[viewId];
      var camera := view.camera;
      var distortion: real;
      if camera.intrinsics.Pinhole? {
        distortion := camera.intrinsics.radialDistortion1;
      } else {
        distortion := 0.0;
      }
      cameraLines := cameraLines + [CameraLine(CameraRecord(view.name, camera.focalLength,
                                                            camera.orientation, camera.position,
                                                            distortion, 0))];
      offsets := offsets + [OffsetRecord(view.name, camera.principalPoint.x, camera.principalPoint.y)];
      featureIndexMapping := AssignFeatureIndices(featureIndexMapping, viewId, view.trackIds);
      n := n + 1;
    }
    assert viewIds[..n] == viewIds;
  }

  /** The observation groups of one point line: for each view observing the
      track, in the track's order, the camera ordinal, the feature ordinal
      and the feature relative to the principal point; or the first lookup
      that misses. */
  method ObservationGroups(rec: Reconstruction, viewIdToIndex: map<ViewId, int>,
                           featureIndexMapping: map<ViewId, map<TrackId, int>>,
                           trackId: TrackId, viewIds: seq<ViewId>)
    returns (result: Result<seq<Observation>, LookupFailure>)
    ensures result == Observations(rec, viewIdToIndex, featureIndexMapping, trackId, viewIds)
  {
    var observations: seq<Observation> := [];
    var k := 0;
    while k < |viewIds|
      invariant 0 <= k <= |viewIds|
      invariant Observations(rec, viewIdToIndex, featureIndexMapping, trackId, viewIds[..k])
                == Ok(observations)
    {
      var viewId := viewIds[k];
      assert viewIds[..k + 1][..k] == viewIds[..k];
      if viewId !in rec.views {
        result := Err(ViewMissing(viewId));
        break;
      }
      var view := rec.views[viewId];
      if trackId !in view.features {
        result := Err(FeatureMissing(viewId, trackId));
        break;
      }
      var pp := view.camera.principalPoint;
      var feature := Vec2(view.features[trackId].x - pp.x, view.features[trackId].y - pp.y);
      if viewId !in featureIndexMapping {
        result := Err(ViewNotInFeatureMapping(viewId));
        break;
      }
      if trackId !in featureIndexMapping[viewId] {
        result := Err(TrackNotInFeatureMapping(viewId, trackId));
        break;
      }
      var trackIndex := featureIndexMapping[viewId][trackId];
      if viewId !in viewIdToIndex {
        result := Err(ViewNotInViewIndex(viewId));
        break;
      }
      var viewIndex := viewIdToIndex[viewId];
      observations := observations + [Observation(viewIndex, trackIndex, feature)];
      k := k + 1;
    }
    if k < |viewIds| {
      ObservationsFailureSticks(rec, viewIdToIndex, featureIndexMapping, trackId, viewIds, k + 1);
    } else {
      assert viewIds[..k] == viewIds;
      result := Ok(observations);
    }
  }

  /** The point pass: one point line per track in enumeration order, until
      a lookup misses. */
  method PointPassLoop(rec: Reconstruction, viewIdToIndex: map<ViewId, int>,
                       featureIndexMapping: map<ViewId, map<TrackId, int>>)
    returns (pointLines: seq<NvmLine>, failure: Option<LookupFailure>)
    requires forall t :: t in rec.trackIds ==> t in rec.tracks
    ensures PointPassResult(pointLines, failure)
            == PointPass(rec, viewIdToIndex, featureIndexMapping, rec.trackIds)
  {
    var trackIds := rec.trackIds;
    pointLines, failure := [], None;
    var j := 0;
    while j < |trackIds|
      invariant 0 <= j <= |trackIds|
      invariant PointPass(rec, viewIdToIndex, featureIndexMapping, trackIds[..j])
                == PointPassResult(pointLines, None)
    {
      var trackId := trackIds[j];
      var track := rec.tracks[trackId];
      PointPassStep(rec, viewIdToIndex, featureIndexMapping, trackIds, j);
      var groups := ObservationGroups(rec, viewIdToIndex, featureIndexMapping, trackId, track.viewIds);
      if groups.Err? {
        failure := Some(groups.error);
        PointPassFailureSticks(rec, viewIdToIndex, featureIndexMapping, trackIds, j + 1);
        return;
      }
      pointLines := pointLines + [PointLine(PointRecord(track.point, TruncateToInt(track.color.r),
                                                        TruncateToInt(track.color.g),
                                                        TruncateToInt(track.color.b),
                                                        |track.viewIds|, groups.value))];
      j := j + 1;
    }
    assert trackIds[..j] == trackIds;
  }

  /** Exports `rec` to `nvmPath` and its offsets file, where exactly the paths
      in `writable` can be opened. A missed lookup in the point pass stops
      the export with the lines completed so far. */
  method WriteNvmFile(nvmPath: string, rec: Reconstruction, writable: set<string>)
    returns (r: ExportResult)
    requires rec.Valid()
    ensures r == Export(nvmPath, rec, writable)
  {
    if nvmPath !in writable {
      return ExportResult(OpenFailed(nvmPath), [], [], []);
    }
    var fileLen := |nvmPath|;
    var offsetPath := nvmPath[..if fileLen - 4 > 0 then fileLen - 4 else 0] + OffsetsSuffix;
    if offsetPath !in writable {
      return ExportResult(OpenFailed(offsetPath), [nvmPath], [], []);
    }
    var created := [nvmPath, offsetPath];
    var nvm: seq<NvmLine> := [Header(NvmHeader), Blank, Count(|rec.viewIds|)];
    var cameraLines, offsets, viewIdToIndex, featureIndexMapping := CameraPass(rec);
    nvm := nvm + cameraLines + [Count(|rec.trackIds|)];
    var pointLines, failure := PointPassLoop(rec, viewIdToIndex, featureIndexMapping);
    nvm := nvm + pointLines;
    if failure.Some? {
      return ExportResult(Aborted(failure.value), created, nvm, offsets);
    }
    nvm := nvm + [EndMarker];
    r := ExportResult(Written, created, nvm, offsets);
  }
}
