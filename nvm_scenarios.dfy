/** A worked export: two views (ids 5 and 9, enumerated in that order) that
    both observe one track (id 3) at (10, 10) and (20, 20), with principal
    points at the origin. View 5 has a pinhole camera, view 9 another model. */
module NvmScenarios {
  import opened NvmTypes
  import opened NvmIndex
  import opened NvmSpec

  function SceneCamera(intrinsics: Intrinsics): Camera
  {
    Camera(1000.0, Quaternion(1.0, 0.0, 0.0, 0.0), Vec3(0.0, 0.0, 0.0), Vec2(0.0, 0.0), intrinsics)
  }

  function LeftView(): View
  {
    View("left.jpg", SceneCamera(Pinhole(-0.25)), [3], map[3 := Vec2(10.0, 10.0)])
  }

  function RightView(): View
  {
    View("right.jpg", SceneCamera(OtherModel("fisheye")), [3], map[3 := Vec2(20.0, 20.0)])
  }

  function TwoViewScene(): Reconstruction
  {
    Reconstruction(
      [5, 9],
      map[5 := LeftView(), 9 := RightView()],
      [3],
      map[3 := Track(Vec3(1.0, 2.0, 3.0), Color(200.7, 100.2, 0.9), [5, 9])])
  }

  /** The scene's NVM path and its offsets path can both be opened. */
  const SceneWritable: set<string> := {"scene.nvm", OffsetsPath("scene.nvm")}

  /** The single point line the scene's export writes: camera ordinals 0 and
      1, feature ordinal 0 in both views, the features unchanged (the
      principal points are at the origin), the colour truncated. */
  function ScenePoint(): PointRecord
  {
    PointRecord(Vec3(1.0, 2.0, 3.0), 200, 100, 0, 2,
                [Observation(0, 0, Vec2(10.0, 10.0)), Observation(1, 0, Vec2(20.0, 20.0))])
  }

  lemma SceneIsValid()
    ensures TwoViewScene().Valid()
  {
    assert TwoViewScene().viewIds[0] == 5 && TwoViewScene().viewIds[1] == 9;
  }

  /** The camera ordinals follow the enumeration order. */
  lemma SceneViewIndex()
    ensures ViewIndex([5, 9]) == map[5 := 0, 9 := 1]
  {
    assert [5, 9][..1] == [5];
    assert [5][..0] == [];
  }

  /** Each view lists the track once, at position 0. */
  lemma SceneFeatureMapping()
    ensures FeatureIndexMapping(TwoViewScene(), [5, 9]) == map[5 := map[3 := 0], 9 := map[3 := 0]]
  {
    assert [5, 9][..1] == [5];
    assert [5][..0] == [];
    assert [3][..0] == [];
    var rec := TwoViewScene();
    var one := map[3 := 0];
    assert FeatureIndex([3]) == one;
    assert map[] + one == one;
    assert FeatureIndexMapping(rec, [5]) == map[5 := one];
  }

  /** The observations of track 3 in views 5 and 9. */
  lemma SceneObservations()
    ensures Observations(TwoViewScene(), map[5 := 0, 9 := 1], map[5 := map[3 := 0], 9 := map[3 := 0]], 3, [5, 9])
            == Ok(ScenePoint().observations)
  {
    var rec := TwoViewScene();
    var vix := map[5 := 0, 9 := 1];
    var fim := map[5 := map[3 := 0], 9 := map[3 := 0]];
    var both: seq<ViewId> := [5, 9];
    var first: seq<ViewId> := [5];
    assert both[..1] == first;
    assert first[..0] == [];
    var o5 := Observation(0, 0, Vec2(10.0, 10.0));
    assert ObservationOf(rec, vix, fim, 3, 5) == Ok(o5);
    var o9 := Observation(1, 0, Vec2(20.0, 20.0));
    assert ObservationOf(rec, vix, fim, 3, 9) == Ok(o9);
    assert Observations(rec, vix, fim, 3, first) == Ok([] + [o5]);
    assert [] + [o5] == [o5];
    assert Observations(rec, vix, fim, 3, both) == Ok([o5] + [o9]);
    assert [o5] + [o9] == ScenePoint().observations;
  }

  /** The point pass over the scene completes with one line. */
  lemma ScenePointPass()
    ensures PointPass(TwoViewScene(), ViewIndex([5, 9]), FeatureIndexMapping(TwoViewScene(), [5, 9]), [3])
            == PointPassResult([PointLine(ScenePoint())], None)
  {
    SceneViewIndex();
    SceneFeatureMapping();
    SceneObservations();
    assert [3][..0] == [];
    var tr := TwoViewScene().tracks[3];
    assert TruncateToInt(tr.color.r) == 200 && TruncateToInt(tr.color.g) == 100 && TruncateToInt(tr.color.b) == 0;
  }

  /** The camera lines: the pinhole camera carries its coefficient, the
      other model 0. */
  lemma SceneCameraLines()
    ensures CameraLines(TwoViewScene(), [5, 9])
            == [CameraLine(CameraRecord("left.jpg", 1000.0, Quaternion(1.0, 0.0, 0.0, 0.0), Vec3(0.0, 0.0, 0.0), -0.25, 0)),
                CameraLine(CameraRecord("right.jpg", 1000.0, Quaternion(1.0, 0.0, 0.0, 0.0), Vec3(0.0, 0.0, 0.0), 0.0, 0))]
    ensures OffsetLines(TwoViewScene(), [5, 9])
            == [OffsetRecord("left.jpg", 0.0, 0.0), OffsetRecord("right.jpg", 0.0, 0.0)]
  {
    assert [5, 9][..1] == [5];
    assert [5][..0] == [];
  }

  /** The whole export of the scene: both files are created, the NVM stream
      holds eight lines ending with the end marker, and the offsets stream
      one line per view. */
  lemma SceneExport()
    ensures TwoViewScene().Valid()
    ensures Export("scene.nvm", TwoViewScene(), SceneWritable)
            == ExportResult(Written, ["scene.nvm", OffsetsPath("scene.nvm")],
                            [Header(NvmHeader), Blank, Count(2)] + CameraLines(TwoViewScene(), [5, 9])
                              + [Count(1), PointLine(ScenePoint()), EndMarker],
                            [OffsetRecord("left.jpg", 0.0, 0.0), OffsetRecord("right.jpg", 0.0, 0.0)])
  {
    SceneIsValid();
    ScenePointPass();
    SceneCameraLines();
  }

  /** A path shorter than the extension gets the bare suffix as its offsets
      path. */
  lemma ShortPathOffsets()
    ensures OffsetsPath("ab") == "_offsets.txt"
  {
  }

  /** A scene whose one view (id 5) lists no tracks, while track 3 claims it;
      `feature` is what the view holds for track 3, if anything. */
  function EmptyViewScene(feature: map<TrackId, Vec2>): Reconstruction
  {
    Reconstruction(
      [5],
      map[5 := View("empty.jpg", SceneCamera(Pinhole(0.0)), [], feature)],
      [3],
      map[3 := Track(Vec3(1.0, 2.0, 3.0), Color(0.0, 0.0, 0.0), [5])])
  }

  /** A view that lists no tracks gets no feature-ordinal map, so the
      observation it is claimed for fails: at the feature lookup when the view
      holds no feature for the track, otherwise at the feature-mapping
      lookup. */
  lemma EmptyViewObservation()
    ensures var rec := EmptyViewScene(map[]);
            ObservationOf(rec, ViewIndex([5]), FeatureIndexMapping(rec, [5]), 3, 5)
              == Err(FeatureMissing(5, 3))
    ensures var rec := EmptyViewScene(map[3 := Vec2(1.0, 1.0)]);
            ObservationOf(rec, ViewIndex([5]), FeatureIndexMapping(rec, [5]), 3, 5)
              == Err(ViewNotInFeatureMapping(5))
  {
    var one: seq<ViewId> := [5];
    assert one[..0] == [];
    var noFeature := EmptyViewScene(map[]);
    var withFeature := EmptyViewScene(map[3 := Vec2(1.0, 1.0)]);
    assert FeatureIndexMapping(withFeature, one) == map[];
    assert FeatureIndexMapping(noFeature, one) == map[];
  }
}
