/** What an export promises: the offsets path, the layout of both files,
    the meaning of every camera ordinal and feature ordinal in a point line,
    and exactly when the export completes. */
module NvmProperties {
  import opened NvmTypes
  import opened NvmIndex
  import opened NvmSpec

  /** An NVM path with a four-character extension gets the offsets path that
      replaces the extension with the suffix. */
  lemma OffsetsPathReplacesExtension(stem: string, ext: string)
    requires |ext| == 4
    ensures OffsetsPath(stem + ext) == stem + "_offsets.txt"
  {
    assert (stem + ext)[..|stem|] == stem;
  }

  /** An independent statement of what one observation group means: the
      camera ordinal names the observing view in the view enumeration, the
      feature ordinal is the last position of the track in that view's track
      list, and the feature is taken relative to the principal point. */
  ghost predicate ObservationMeans(rec: Reconstruction, t: TrackId, v: ViewId, o: Observation)
    requires v in rec.views && t in rec.views[v].features
  {
    var view := rec.views[v];
    var f := view.features[t];
    && 0 <= o.viewIndex < |rec.viewIds| && rec.viewIds[o.viewIndex] == v
    && 0 <= o.featureIndex < |view.trackIds| && view.trackIds[o.featureIndex] == t
    && (forall j :: o.featureIndex < j < |view.trackIds| ==> view.trackIds[j] != t)
    && o.feature == Vec2(f.x - view.camera.principalPoint.x, f.y - view.camera.principalPoint.y)
  }

  /** An independent statement of what the point line of track `t` holds:
      its point, its colour truncated to integers, its number of observing
      views, and one group per observing view in the track's order. */
  ghost predicate PointLineMeans(rec: Reconstruction, t: TrackId, p: PointRecord)
    requires t in rec.tracks
  {
    var tr := rec.tracks[t];
    && p.position == tr.point
    && p.r == TruncateToInt(tr.color.r) && p.g == TruncateToInt(tr.color.g)
    && p.b == TruncateToInt(tr.color.b)
    && p.numViews == |tr.viewIds| == |p.observations|
    && forall k :: 0 <= k < |p.observations| ==>
         && tr.viewIds[k] in rec.views
         && t in rec.views[tr.viewIds[k]].features
         && ObservationMeans(rec, t, tr.viewIds[k], p.observations[k])
  }

  lemma {:induction false} CameraLinesAt(rec: Reconstruction, vs: seq<ViewId>)
    requires forall v :: v in vs ==> v in rec.views
    ensures |CameraLines(rec, vs)| == |vs|
    ensures forall k :: 0 <= k < |vs| ==>
              CameraLines(rec, vs)[k] == CameraLine(CameraRecordOf(rec.views[vs[k]]))
  {
    if vs != [] {
      var p := vs[..|vs| - 1];
      CameraLinesAt(rec, p);
      forall k | 0 <= k < |vs| - 1
        ensures CameraLines(rec, vs)[k] == CameraLine(CameraRecordOf(rec.views[vs[k]]))
      {
        assert vs[k] == p[k];
      }
    }
  }

  lemma {:induction false} OffsetLinesAt(rec: Reconstruction, vs: seq<ViewId>)
    requires forall v :: v in vs ==> v in rec.views
    ensures |OffsetLines(rec, vs)| == |vs|
    ensures forall k :: 0 <= k < |vs| ==> OffsetLines(rec, vs)[k] == OffsetRecordOf(rec.views[vs[k]])
  {
    if vs != [] {
      var p := vs[..|vs| - 1];
      OffsetLinesAt(rec, p);
      forall k | 0 <= k < |vs| - 1
        ensures OffsetLines(rec, vs)[k] == OffsetRecordOf(rec.views[vs[k]])
      {
        assert vs[k] == p[k];
      }
    }
  }

  /** The groups of a track succeed exactly when every observing view's
      lookups succeed, and then group k is that of the k-th view; a failure
      is the failure of some observing view. */
  lemma {:induction false} ObservationsAt(rec: Reconstruction, viewIndex: map<ViewId, int>,
                                          featureMapping: map<ViewId, map<TrackId, int>>,
                                          t: TrackId, vs: seq<ViewId>)
    ensures Observations(rec, viewIndex, featureMapping, t, vs).Ok? <==>
              forall k :: 0 <= k < |vs| ==> ObservationOf(rec, viewIndex, featureMapping, t, vs[k]).Ok?
    ensures Observations(rec, viewIndex, featureMapping, t, vs).Ok? ==>
              var obs := Observations(rec, viewIndex, featureMapping, t, vs).value;
              |obs| == |vs| &&
              forall k :: 0 <= k < |vs| ==>
                ObservationOf(rec, viewIndex, featureMapping, t, vs[k]) == Ok(obs[k])
    ensures Observations(rec, viewIndex, featureMapping, t, vs).Err? ==>
              exists k :: 0 <= k < |vs|
                && ObservationOf(rec, viewIndex, featureMapping, t, vs[k])
                   == Err(Observations(rec, viewIndex, featureMapping, t, vs).error)
                && forall i :: 0 <= i < k ==> ObservationOf(rec, viewIndex, featureMapping, t, vs[i]).Ok?
  {
    if vs != [] {
      var p := vs[..|vs| - 1];
      var last := |vs| - 1;
      ObservationsAt(rec, viewIndex, featureMapping, t, p);
      assert forall k :: 0 <= k < |p| ==> p[k] == vs[k];
      var res := Observations(rec, viewIndex, featureMapping, t, vs);
      if res.Err? {
        if Observations(rec, viewIndex, featureMapping, t, p).Err? {
          var k :| 0 <= k < |p|
            && ObservationOf(rec, viewIndex, featureMapping, t, p[k])
               == Err(Observations(rec, viewIndex, featureMapping, t, p).error)
            && forall i :: 0 <= i < k ==> ObservationOf(rec, viewIndex, featureMapping, t, p[i]).Ok?;
          assert vs[k] == p[k];
        } else {
          assert ObservationOf(rec, viewIndex, featureMapping, t, vs[last]) == Err(res.error);
        }
      }
    }
  }

  /** The groups of the j-th track, a shorthand for the lemmas below. */
  function TrackGroups(rec: Reconstruction, viewIndex: map<ViewId, int>,
                       featureMapping: map<ViewId, map<TrackId, int>>,
                       ts: seq<TrackId>, j: nat): (groups: Result<seq<Observation>, LookupFailure>)
    requires forall t :: t in ts ==> t in rec.tracks
    requires j < |ts|
  {
    Observations(rec, viewIndex, featureMapping, ts[j], rec.tracks[ts[j]].viewIds)
  }

  /** The point pass completes exactly when every track's groups succeed. */
  lemma {:induction false} PointPassCompletes(rec: Reconstruction, viewIndex: map<ViewId, int>,
                                              featureMapping: map<ViewId, map<TrackId, int>>,
                                              ts: seq<TrackId>)
    requires forall t :: t in ts ==> t in rec.tracks
    ensures PointPass(rec, viewIndex, featureMapping, ts).failure.None? <==>
              forall j :: 0 <= j < |ts| ==> TrackGroups(rec, viewIndex, featureMapping, ts, j).Ok?
  {
    if ts != [] {
      var p := ts[..|ts| - 1];
      var last := |ts| - 1;
      PointPassCompletes(rec, viewIndex, featureMapping, p);
      forall j | 0 <= j < |p|
        ensures TrackGroups(rec, viewIndex, featureMapping, p, j)
                == TrackGroups(rec, viewIndex, featureMapping, ts, j)
      {
        assert p[j] == ts[j];
      }
      assert TrackGroups(rec, viewIndex, featureMapping, ts, last)
             == Observations(rec, viewIndex, featureMapping, ts[last], rec.tracks[ts[last]].viewIds);
    }
  }

  /** A completed point pass holds, at position j, the point line of the
      j-th track. */
  lemma {:induction false} PointPassLines(rec: Reconstruction, viewIndex: map<ViewId, int>,
                                          featureMapping: map<ViewId, map<TrackId, int>>,
                                          ts: seq<TrackId>)
    requires forall t :: t in ts ==> t in rec.tracks
    requires PointPass(rec, viewIndex, featureMapping, ts).failure.None?
    ensures |PointPass(rec, viewIndex, featureMapping, ts).lines| == |ts|
    ensures forall j :: 0 <= j < |ts| ==>
              TrackGroups(rec, viewIndex, featureMapping, ts, j).Ok? &&
              PointPass(rec, viewIndex, featureMapping, ts).lines[j]
              == PointLine(PointRecordOf(rec.tracks[ts[j]],
                                         TrackGroups(rec, viewIndex, featureMapping, ts, j).value))
  {
    if ts != [] {
      var p := ts[..|ts| - 1];
      PointPassLines(rec, viewIndex, featureMapping, p);
      forall j | 0 <= j < |p|
        ensures TrackGroups(rec, viewIndex, featureMapping, p, j)
                == TrackGroups(rec, viewIndex, featureMapping, ts, j)
      {
        assert p[j] == ts[j];
      }
    }
  }

  /** `pass` stopped on the j-th of the tracks `ts`: that track's groups
      fail with the pass's failure, every earlier track's groups succeed,
      and the lines are exactly the earlier tracks' point lines. */
  predicate PointPassStopsAt(rec: Reconstruction, viewIndex: map<ViewId, int>,
                             featureMapping: map<ViewId, map<TrackId, int>>,
                             ts: seq<TrackId>, pass: PointPassResult, j: int)
    requires forall t :: t in ts ==> t in rec.tracks
  {
    && 0 <= j < |ts|
    && pass.failure.Some?
    && TrackGroups(rec, viewIndex, featureMapping, ts, j) == Err(pass.failure.value)
    && |pass.lines| == j
    && forall i :: 0 <= i < j ==>
         && TrackGroups(rec, viewIndex, featureMapping, ts, i).Ok?
         && pass.lines[i] == PointLine(PointRecordOf(rec.tracks[ts[i]],
                                       TrackGroups(rec, viewIndex, featureMapping, ts, i).value))
  }

  /** Stopping on a track of a prefix is stopping on that track of the
      whole sequence. */
  lemma PointPassStopsAtExtend(rec: Reconstruction, viewIndex: map<ViewId, int>,
                               featureMapping: map<ViewId, map<TrackId, int>>,
                               ts: seq<TrackId>, pass: PointPassResult, j: int)
    requires forall t :: t in ts ==> t in rec.tracks
    requires ts != []
    requires PointPassStopsAt(rec, viewIndex, featureMapping, ts[..|ts| - 1], pass, j)
    ensures PointPassStopsAt(rec, viewIndex, featureMapping, ts, pass, j)
  {
    var p := ts[..|ts| - 1];
    forall i | 0 <= i < |p|
      ensures p[i] == ts[i]
      ensures TrackGroups(rec, viewIndex, featureMapping, p, i)
              == TrackGroups(rec, viewIndex, featureMapping, ts, i)
    {
    }
  }

  /** A point pass that stops does so on the first track whose groups
      fail: every earlier track's groups succeed, and the lines written are
      exactly the point lines of those earlier tracks. */
  lemma {:induction false} PointPassFailure(rec: Reconstruction, viewIndex: map<ViewId, int>,
                                            featureMapping: map<ViewId, map<TrackId, int>>,
                                            ts: seq<TrackId>)
    requires forall t :: t in ts ==> t in rec.tracks
    requires PointPass(rec, viewIndex, featureMapping, ts).failure.Some?
    ensures exists j :: PointPassStopsAt(rec, viewIndex, featureMapping, ts,
                                         PointPass(rec, viewIndex, featureMapping, ts), j)
  {
    var p := ts[..|ts| - 1];
    var pass := PointPass(rec, viewIndex, featureMapping, ts);
    var prev := PointPass(rec, viewIndex, featureMapping, p);
    if prev.failure.Some? {
      PointPassFailure(rec, viewIndex, featureMapping, p);
      assert pass == prev;
      var j :| PointPassStopsAt(rec, viewIndex, featureMapping, p, prev, j);
      PointPassStopsAtExtend(rec, viewIndex, featureMapping, ts, pass, j);
    } else {
      PointPassFailsLast(rec, viewIndex, featureMapping, ts);
      assert PointPassStopsAt(rec, viewIndex, featureMapping, ts, pass, |ts| - 1);
    }
  }

  /** A point pass whose earlier tracks complete stops on its last track,
      after writing the earlier tracks' point lines. */
  lemma PointPassFailsLast(rec: Reconstruction, viewIndex: map<ViewId, int>,
                           featureMapping: map<ViewId, map<TrackId, int>>,
                           ts: seq<TrackId>)
    requires forall t :: t in ts ==> t in rec.tracks
    requires ts != []
    requires PointPass(rec, viewIndex, featureMapping, ts[..|ts| - 1]).failure.None?
    requires PointPass(rec, viewIndex, featureMapping, ts).failure.Some?
    ensures var pass := PointPass(rec, viewIndex, featureMapping, ts);
            && TrackGroups(rec, viewIndex, featureMapping, ts, |ts| - 1) == Err(pass.failure.value)
            && |pass.lines| == |ts| - 1
            && forall i :: 0 <= i < |ts| - 1 ==>
                 && TrackGroups(rec, viewIndex, featureMapping, ts, i).Ok?
                 && pass.lines[i] == PointLine(PointRecordOf(rec.tracks[ts[i]],
                                               TrackGroups(rec, viewIndex, featureMapping, ts, i).value))
  {
    var p := ts[..|ts| - 1];
    PointPassLines(rec, viewIndex, featureMapping, p);
    forall i | 0 <= i < |p|
      ensures p[i] == ts[i]
      ensures TrackGroups(rec, viewIndex, featureMapping, p, i)
              == TrackGroups(rec, viewIndex, featureMapping, ts, i)
    {
    }
  }

  /** For the index maps the camera pass builds, the lookups for track `t`
      in view `v` succeed exactly when the view backs the observation; the
      group they give is the one ObservationMeans describes; and the
      camera-ordinal lookup never misses. */
  lemma ObservationOfCharacterised(rec: Reconstruction, t: TrackId, v: ViewId)
    requires rec.Valid()
    ensures var o := ObservationOf(rec, ViewIndex(rec.viewIds), FeatureIndexMapping(rec, rec.viewIds), t, v);
            && (o.Ok? <==> rec.Backs(v, t))
            && (o.Ok? ==> ObservationMeans(rec, t, v, o.value))
            && (o.Err? ==> !o.error.ViewNotInViewIndex?)
  {
    var vs := rec.viewIds;
    ViewIndexBijection(vs);
    FeatureIndexMappingAt(rec, vs);
    if v in rec.views {
      FeatureIndexLastPosition(rec.views[v].trackIds);
    }
  }

  /** For the index maps the camera pass builds, the groups of track `t`
      succeed exactly when every view the track claims backs it. */
  lemma GroupsSucceedIff(rec: Reconstruction, t: TrackId)
    requires rec.Valid() && t in rec.tracks
    ensures Observations(rec, ViewIndex(rec.viewIds), FeatureIndexMapping(rec, rec.viewIds),
                         t, rec.tracks[t].viewIds).Ok?
            <==> forall v :: v in rec.tracks[t].viewIds ==> rec.Backs(v, t)
  {
    var tvs := rec.tracks[t].viewIds;
    ObservationsAt(rec, ViewIndex(rec.viewIds), FeatureIndexMapping(rec, rec.viewIds), t, tvs);
    forall k | 0 <= k < |tvs| {
      ObservationOfCharacterised(rec, t, tvs[k]);
    }
  }

  /** A reconstruction whose observations are all backed by their views is
      exported completely, and only such a one: the export returns true
      exactly when both files open and the reconstruction is consistent. */
  lemma ExportWrittenIff(nvmPath: string, rec: Reconstruction, writable: set<string>)
    requires rec.Valid()
    ensures Export(nvmPath, rec, writable).status.Written? <==>
              nvmPath in writable && OffsetsPath(nvmPath) in writable && rec.Consistent()
  {
    if nvmPath in writable && OffsetsPath(nvmPath) in writable {
      var vix := ViewIndex(rec.viewIds);
      var fim := FeatureIndexMapping(rec, rec.viewIds);
      var ts := rec.trackIds;
      PointPassCompletes(rec, vix, fim, ts);
      if rec.Consistent() {
        forall j | 0 <= j < |ts|
          ensures TrackGroups(rec, vix, fim, ts, j).Ok?
        {
          GroupsSucceedIff(rec, ts[j]);
        }
      } else {
        var t, v :| t in rec.tracks && v in rec.tracks[t].viewIds && !rec.Backs(v, t);
        var j :| 0 <= j < |ts| && ts[j] == t;
        GroupsSucceedIff(rec, t);
        assert !TrackGroups(rec, vix, fim, ts, j).Ok?;
      }
    }
  }

  /** Why one lookup of the point pass misses, for the index maps the
      camera pass builds: the camera-ordinal lookup never misses, and the
      feature-mapping lookup misses only for a view that lists no track. */
  predicate FailureExplained(rec: Reconstruction, e: LookupFailure)
  {
    && !e.ViewNotInViewIndex?
    && (e.ViewMissing? ==> e.viewId !in rec.views)
    && (e.FeatureMissing? ==> e.viewId in rec.views && e.trackId !in rec.views[e.viewId].features)
    && (e.ViewNotInFeatureMapping? ==> e.viewId in rec.views && rec.views[e.viewId].trackIds == [])
    && (e.TrackNotInFeatureMapping? ==>
          e.viewId in rec.views && e.trackId !in rec.views[e.viewId].trackIds)
  }

  lemma ObservationOfFailure(rec: Reconstruction, t: TrackId, v: ViewId)
    requires rec.Valid()
    requires ObservationOf(rec, ViewIndex(rec.viewIds), FeatureIndexMapping(rec, rec.viewIds), t, v).Err?
    ensures FailureExplained(rec, ObservationOf(rec, ViewIndex(rec.viewIds),
                                                FeatureIndexMapping(rec, rec.viewIds), t, v).error)
  {
    ObservationOfCharacterised(rec, t, v);
    FeatureIndexMappingAt(rec, rec.viewIds);
    if v in rec.views {
      FeatureIndexLastPosition(rec.views[v].trackIds);
    }
  }

  /** Every view that track `t` claims backs it. */
  predicate TrackBacked(rec: Reconstruction, t: TrackId)
    requires t in rec.tracks
  {
    forall v :: v in rec.tracks[t].viewIds ==> rec.Backs(v, t)
  }

  /** The j-th track is the first, in enumeration order, that some view it
      claims does not back. */
  predicate FirstUnbackedTrack(rec: Reconstruction, j: int)
    requires rec.Valid()
  {
    && 0 <= j < |rec.trackIds|
    && !TrackBacked(rec, rec.trackIds[j])
    && forall i :: 0 <= i < j ==> TrackBacked(rec, rec.trackIds[i])
  }

  /** The k-th view that track `t` claims is the first that does not back
      it. */
  predicate FirstUnbackedView(rec: Reconstruction, t: TrackId, k: int)
    requires t in rec.tracks
  {
    var tvs := rec.tracks[t].viewIds;
    && 0 <= k < |tvs|
    && !rec.Backs(tvs[k], t)
    && forall i :: 0 <= i < k ==> rec.Backs(tvs[i], t)
  }

  /** The groups of a track fail, for the index maps the camera pass builds,
      on the first view the track claims that does not back it, for the
      reason FailureExplained gives. */
  lemma GroupsFailure(rec: Reconstruction, t: TrackId)
    requires rec.Valid() && t in rec.tracks
    requires Observations(rec, ViewIndex(rec.viewIds), FeatureIndexMapping(rec, rec.viewIds),
                          t, rec.tracks[t].viewIds).Err?
    ensures var e := Observations(rec, ViewIndex(rec.viewIds), FeatureIndexMapping(rec, rec.viewIds),
                                  t, rec.tracks[t].viewIds).error;
            && FailureExplained(rec, e)
            && !TrackBacked(rec, t)
            && (e.FeatureMissing? || e.TrackNotInFeatureMapping? ==> e.trackId == t)
            && exists k :: FirstUnbackedView(rec, t, k) && e.viewId == rec.tracks[t].viewIds[k]
  {
    var vix := ViewIndex(rec.viewIds);
    var fim := FeatureIndexMapping(rec, rec.viewIds);
    var tvs := rec.tracks[t].viewIds;
    var e := Observations(rec, vix, fim, t, tvs).error;
    ObservationsAt(rec, vix, fim, t, tvs);
    var k :| 0 <= k < |tvs|
      && ObservationOf(rec, vix, fim, t, tvs[k]) == Err(e)
      && forall i :: 0 <= i < k ==> ObservationOf(rec, vix, fim, t, tvs[i]).Ok?;
    forall i | 0 <= i < k
      ensures rec.Backs(tvs[i], t)
    {
      ObservationOfCharacterised(rec, t, tvs[i]);
    }
    ObservationOfCharacterised(rec, t, tvs[k]);
    ObservationOfFailure(rec, t, tvs[k]);
    assert FirstUnbackedView(rec, t, k);
  }

  /** A lookup failure `e` stops the point pass at the k-th view the j-th
      track claims: that track is the first one some claimed view does not
      back, that view is the first one not backing it, and `e` names them. */
  predicate AbortsAt(rec: Reconstruction, e: LookupFailure, j: int, k: int)
    requires rec.Valid()
  {
    && FirstUnbackedTrack(rec, j)
    && FirstUnbackedView(rec, rec.trackIds[j], k)
    && e.viewId == rec.tracks[rec.trackIds[j]].viewIds[k]
    && (e.FeatureMissing? || e.TrackNotInFeatureMapping? ==> e.trackId == rec.trackIds[j])
  }

  /** `lines` are the complete point lines of the first j tracks. */
  ghost predicate PointLinesBefore(rec: Reconstruction, lines: seq<NvmLine>, j: int)
    requires rec.Valid()
  {
    && 0 <= j <= |rec.trackIds|
    && |lines| == j
    && forall i :: 0 <= i < j ==>
         lines[i].PointLine? && PointLineMeans(rec, rec.trackIds[i], lines[i].point)
  }

  /** For the index maps the camera pass builds, a point pass that stops
      does so on the first track that some claimed view does not back, at
      the first such view; the lines written before it are the complete
      point lines of the earlier tracks. */
  lemma PointPassAbort(rec: Reconstruction)
    requires rec.Valid()
    requires PointPass(rec, ViewIndex(rec.viewIds), FeatureIndexMapping(rec, rec.viewIds),
                       rec.trackIds).failure.Some?
    ensures var pass := PointPass(rec, ViewIndex(rec.viewIds), FeatureIndexMapping(rec, rec.viewIds),
                                  rec.trackIds);
            && FailureExplained(rec, pass.failure.value)
            && exists j, k :: AbortsAt(rec, pass.failure.value, j, k) && PointLinesBefore(rec, pass.lines, j)
  {
    var vix := ViewIndex(rec.viewIds);
    var fim := FeatureIndexMapping(rec, rec.viewIds);
    var ts := rec.trackIds;
    var pass := PointPass(rec, vix, fim, ts);
    var e := pass.failure.value;
    PointPassFailure(rec, vix, fim, ts);
    var j :| PointPassStopsAt(rec, vix, fim, ts, pass, j);
    forall i | 0 <= i < j
      ensures TrackBacked(rec, ts[i])
      ensures pass.lines[i].PointLine? && PointLineMeans(rec, ts[i], pass.lines[i].point)
    {
      GroupsSucceedIff(rec, ts[i]);
      PointLineOfTrack(rec, ts[i]);
    }
    GroupsFailure(rec, ts[j]);
    var k :| FirstUnbackedView(rec, ts[j], k) && e.viewId == rec.tracks[ts[j]].viewIds[k];
    assert FirstUnbackedTrack(rec, j);
    assert AbortsAt(rec, e, j, k) && PointLinesBefore(rec, pass.lines, j);
  }

  /** An export that stops on a lookup stops on the first track that some
      claimed view does not back, at the first such view, for the reason
      FailureExplained gives; the NVM stream then holds the lines before
      the point section followed by the complete point lines of the
      earlier tracks. */
  lemma ExportAbortCause(nvmPath: string, rec: Reconstruction, writable: set<string>)
    requires rec.Valid()
    requires Export(nvmPath, rec, writable).status.Aborted?
    ensures FailureExplained(rec, Export(nvmPath, rec, writable).status.failure)
    ensures var r := Export(nvmPath, rec, writable);
            var n := |rec.viewIds|;
            && |r.nvm| >= n + 4
            && r.nvm[..n + 4] == Preamble(rec)
            && exists j, k :: AbortsAt(rec, r.status.failure, j, k) && PointLinesBefore(rec, r.nvm[n + 4..], j)
  {
    var r := Export(nvmPath, rec, writable);
    var pass := PointPass(rec, ViewIndex(rec.viewIds), FeatureIndexMapping(rec, rec.viewIds), rec.trackIds);
    ExportStreams(nvmPath, rec, writable);
    PointPassAbort(rec);
    var n := |rec.viewIds|;
    assert r.nvm == Preamble(rec) + pass.lines;
    assert r.nvm[..n + 4] == Preamble(rec);
    assert r.nvm[n + 4..] == pass.lines;
  }

  /** The point line of a track whose groups succeed holds what
      PointLineMeans describes. */
  lemma PointLineOfTrack(rec: Reconstruction, t: TrackId)
    requires rec.Valid() && t in rec.tracks
    requires Observations(rec, ViewIndex(rec.viewIds), FeatureIndexMapping(rec, rec.viewIds),
                          t, rec.tracks[t].viewIds).Ok?
    ensures PointLineMeans(rec, t, PointRecordOf(rec.tracks[t],
              Observations(rec, ViewIndex(rec.viewIds), FeatureIndexMapping(rec, rec.viewIds),
                           t, rec.tracks[t].viewIds).value))
  {
    var vix := ViewIndex(rec.viewIds);
    var fim := FeatureIndexMapping(rec, rec.viewIds);
    var tvs := rec.tracks[t].viewIds;
    var groups := Observations(rec, vix, fim, t, tvs).value;
    ObservationsAt(rec, vix, fim, t, tvs);
    forall k | 0 <= k < |tvs|
      ensures && tvs[k] in rec.views && t in rec.views[tvs[k]].features
              && ObservationMeans(rec, t, tvs[k], groups[k])
    {
      ObservationOfCharacterised(rec, t, tvs[k]);
    }
  }

  /** `line` is the camera line of `view`: its name, focal length,
      orientation and centre, its distortion the pinhole coefficient or 0,
      then the reserved 0. */
  ghost predicate CameraLineMeans(line: NvmLine, view: View)
  {
    && line.CameraLine?
    && line.camera.name == view.name
    && line.camera.focalLength == view.camera.focalLength
    && line.camera.orientation == view.camera.orientation
    && line.camera.position == view.camera.position
    && line.camera.distortion ==
         (if view.camera.intrinsics.Pinhole? then view.camera.intrinsics.radialDistortion1 else 0.0)
    && line.camera.reserved == 0
  }

  /** The camera line written for a view says what CameraLineMeans says. */
  lemma CameraLineOfView(view: View)
    ensures CameraLineMeans(CameraLine(CameraRecordOf(view)), view)
  {
  }

  /** `lines` are the lines before the point section: header, blank line,
      view count, one camera line per view in enumeration order (its name,
      focal length, orientation and centre, its distortion the pinhole
      coefficient or 0, then the reserved 0),
      track count. */
  ghost predicate CameraSection(rec: Reconstruction, lines: seq<NvmLine>)
    requires rec.Valid()
  {
    var n := |rec.viewIds|;
    && |lines| == n + 4
    && lines[0] == Header(NvmHeader) && lines[1] == Blank && lines[2] == Count(n)
    && (forall k :: 0 <= k < n ==> CameraLineMeans(lines[k + 3], rec.views[rec.viewIds[k]]))
    && lines[n + 3] == Count(|rec.trackIds|)
  }

  /** The lines before the point section, position by position. */
  lemma PreambleAt(rec: Reconstruction)
    requires rec.Valid()
    ensures CameraSection(rec, Preamble(rec))
  {
    var vs := rec.viewIds;
    var cams := CameraLines(rec, vs);
    CameraLinesAt(rec, vs);
    var pre := Preamble(rec);
    assert pre == [Header(NvmHeader), Blank, Count(|vs|)] + cams + [Count(|rec.trackIds|)];
    forall k | 0 <= k < |vs|
      ensures CameraLineMeans(pre[k + 3], rec.views[vs[k]])
    {
      assert pre[k + 3] == cams[k];
      CameraLineOfView(rec.views[vs[k]]);
    }
    assert pre[0] == Header(NvmHeader) && pre[1] == Blank && pre[2] == Count(|vs|);
    assert pre[|vs| + 3] == Count(|rec.trackIds|);
  }


  /** What the two streams hold when both files open: the NVM stream starts
      with the lines before the point section, continues with the completed
      point lines, and ends with the terminator exactly when the export
      completes; the offsets stream holds one line per view. */
  lemma ExportStreams(nvmPath: string, rec: Reconstruction, writable: set<string>)
    requires rec.Valid()
    requires !Export(nvmPath, rec, writable).status.OpenFailed?
    ensures var r := Export(nvmPath, rec, writable);
            var pass := PointPass(rec, ViewIndex(rec.viewIds), FeatureIndexMapping(rec, rec.viewIds),
                                  rec.trackIds);
            && r.nvm == Preamble(rec) + pass.lines + (if r.status.Written? then [EndMarker] else [])
            && r.offsets == OffsetLines(rec, rec.viewIds)
            && (r.status.Written? <==> pass.failure.None?)
  {
  }

  /** The camera section of an export that opened both files (whether or
      not it then completes) is what CameraSection describes. */
  lemma ExportCameraSection(nvmPath: string, rec: Reconstruction, writable: set<string>)
    requires rec.Valid()
    requires !Export(nvmPath, rec, writable).status.OpenFailed?
    ensures var r := Export(nvmPath, rec, writable);
            var n := |rec.viewIds|;
            && |r.nvm| >= n + 4
            && r.nvm[..n + 4] == Preamble(rec)
            && CameraSection(rec, r.nvm[..n + 4])
  {
    var r := Export(nvmPath, rec, writable);
    var pre := Preamble(rec);
    var pass := PointPass(rec, ViewIndex(rec.viewIds), FeatureIndexMapping(rec, rec.viewIds), rec.trackIds);
    ExportStreams(nvmPath, rec, writable);
    PreambleAt(rec);
    if r.status.Written? {
      assert r.nvm == pre + (pass.lines + [EndMarker]);
    } else {
      assert r.nvm == pre + pass.lines;
    }
    assert r.nvm[..|pre|] == pre;
  }

  /** The offsets file of an export that opened both files: one line per
      view, in the order of the camera lines, with the view's name and
      principal point. */
  lemma ExportOffsets(nvmPath: string, rec: Reconstruction, writable: set<string>)
    requires rec.Valid()
    requires !Export(nvmPath, rec, writable).status.OpenFailed?
    ensures var r := Export(nvmPath, rec, writable);
            && |r.offsets| == |rec.viewIds|
            && forall k :: 0 <= k < |rec.viewIds| ==>
                 var view := rec.views[rec.viewIds[k]];
                 && r.offsets[k].name == view.name
                 && r.offsets[k].principalX == view.camera.principalPoint.x
                 && r.offsets[k].principalY == view.camera.principalPoint.y
  {
    ExportStreams(nvmPath, rec, writable);
    OffsetLinesAt(rec, rec.viewIds);
  }

  /** A completed point pass holds, at position j, a point line with what
      PointLineMeans describes for the j-th track. */
  lemma PointPassMeans(rec: Reconstruction)
    requires rec.Valid()
    requires PointPass(rec, ViewIndex(rec.viewIds), FeatureIndexMapping(rec, rec.viewIds),
                       rec.trackIds).failure.None?
    ensures PointLinesBefore(rec, PointPass(rec, ViewIndex(rec.viewIds), FeatureIndexMapping(rec, rec.viewIds),
                                            rec.trackIds).lines, |rec.trackIds|)
  {
    var ts := rec.trackIds;
    var vix := ViewIndex(rec.viewIds);
    var fim := FeatureIndexMapping(rec, rec.viewIds);
    var lines := PointPass(rec, vix, fim, ts).lines;
    PointPassLines(rec, vix, fim, ts);
    forall j | 0 <= j < |ts|
      ensures lines[j].PointLine? && PointLineMeans(rec, ts[j], lines[j].point)
    {
      PointLineOfTrack(rec, ts[j]);
    }
  }

  /** The point section of a completed export: after the camera section, one
      point line per track in enumeration order, each holding what
      PointLineMeans describes, then the terminating 0. */
  lemma ExportPointSection(nvmPath: string, rec: Reconstruction, writable: set<string>)
    requires rec.Valid()
    requires Export(nvmPath, rec, writable).status.Written?
    ensures var r := Export(nvmPath, rec, writable);
            var n := |rec.viewIds|;
            var m := |rec.trackIds|;
            && |r.nvm| == n + m + 5
            && r.nvm[..n + 4] == Preamble(rec)
            && PointLinesBefore(rec, r.nvm[n + 4..n + 4 + m], m)
            && r.nvm[n + m + 4] == EndMarker
  {
    var r := Export(nvmPath, rec, writable);
    var n := |rec.viewIds|;
    var m := |rec.trackIds|;
    var lines := PointPass(rec, ViewIndex(rec.viewIds), FeatureIndexMapping(rec, rec.viewIds),
                           rec.trackIds).lines;
    ExportStreams(nvmPath, rec, writable);
    PointPassMeans(rec);
    assert r.nvm == Preamble(rec) + lines + [EndMarker];
    assert r.nvm[..n + 4] == Preamble(rec);
    assert r.nvm[n + 4..n + 4 + m] == lines;
  }

}
