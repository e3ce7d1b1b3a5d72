/** The values the NVM exporter reads and writes.

    The reconstruction is an external collaborator; here it is a plain value
    that holds the views and tracks and the order in which their ids are
    enumerated. The two output files are sequences of records, one per
    line, rather than bytes. */
module NvmTypes {

  type ViewId = nat
  type TrackId = nat

  datatype Option<+T> = None | Some(value: T)

  datatype Result<+T, +E> = Ok(value: T) | Err(error: E)

  /** No element occurs twice. */
  predicate Distinct<T(==)>(s: seq<T>) {
    forall i, j :: 0 <= i < j < |s| ==> s[i] != s[j]
  }

  datatype Vec2 = Vec2(x: real, y: real)

  datatype Vec3 = Vec3(x: real, y: real, z: real)

  /** A unit quaternion, (w, x, y, z). */
  datatype Quaternion = Quaternion(w: real, x: real, y: real, z: real)

  /** The camera's intrinsics model. Only the pinhole model exposes a first
      radial-distortion parameter to the exporter; every other model is
      exported without intrinsics. */
  datatype Intrinsics =
    | Pinhole(radialDistortion1: real)
    | OtherModel(modelName: string)

  /** The camera of a view. `orientation` is the world-to-camera rotation,
      already expressed as a quaternion; `position` is the camera centre in
      world coordinates. */
  datatype Camera = Camera(
    focalLength: real,
    orientation: Quaternion,
    position: Vec3,
    principalPoint: Vec2,
    intrinsics: Intrinsics)

  /** A view: its name, its camera, the ids of the tracks it observes in its
      own iteration order, and the pixel at which it observes each track. */
  datatype View = View(
    name: string,
    camera: Camera,
    trackIds: seq<TrackId>,
    features: map<TrackId, Vec2>)

  datatype Color = Color(r: real, g: real, b: real)

  /** A track: its Euclidean point (the homogeneous point after perspective
      division), its colour, and the ids of the views observing it, in the
      track's own iteration order. */
  datatype Track = Track(point: Vec3, color: Color, viewIds: seq<ViewId>)

  /** The reconstruction: the view ids and track ids in their enumeration
      order, and lookup from each id to its view or track. */
  datatype Reconstruction = Reconstruction(
    viewIds: seq<ViewId>,
    views: map<ViewId, View>,
    trackIds: seq<TrackId>,
    tracks: map<TrackId, Track>)
  {
    /** The id sequences enumerate the keys of the id maps, each once. */
    predicate Valid() {
      && Distinct(viewIds)
      && (forall v :: v in viewIds ==> v in views)
      && (forall v :: v in views ==> v in viewIds)
      && Distinct(trackIds)
      && (forall t :: t in trackIds ==> t in tracks)
      && (forall t :: t in tracks ==> t in trackIds)
    }

    /** View `v` backs an observation of track `t`: the view exists, lists
        the track, and holds a feature for it. */
    predicate Backs(v: ViewId, t: TrackId) {
      && v in views
      && t in views[v].trackIds
      && t in views[v].features
    }

    /** Every observation a track claims is backed by its view. */
    predicate Consistent() {
      forall t, v :: t in tracks && v in tracks[t].viewIds ==> Backs(v, t)
    }
  }

  /** One camera line of the NVM file: name, focal length, quaternion,
      camera centre, one distortion coefficient and the reserved field. */
  datatype CameraRecord = CameraRecord(
    name: string,
    focalLength: real,
    orientation: Quaternion,
    position: Vec3,
    distortion: real,
    reserved: int)

  /** One observation group of a point line: the camera ordinal, the feature
      ordinal within that camera, and the feature relative to the principal
      point. */
  datatype Observation = Observation(viewIndex: int, featureIndex: int, feature: Vec2)

  /** One point line of the NVM file. */
  datatype PointRecord = PointRecord(
    position: Vec3,
    r: int, g: int, b: int,
    numViews: nat,
    observations: seq<Observation>)

  /** A line of the NVM file. `EndMarker` is the terminating `0`. */
  datatype NvmLine =
    | Header(text: string)
    | Blank
    | Count(n: nat)
    | CameraLine(camera: CameraRecord)
    | PointLine(point: PointRecord)
    | EndMarker

  /** A line of the offsets file: view name and principal point. */
  datatype OffsetRecord = OffsetRecord(name: string, principalX: real, principalY: real)

  /** The lookups of the point pass that can miss, in the order the source
      performs them for one observation. A missing view or feature is a
      null dereference (undefined behaviour); the three map lookups end the
      process. The model stops the export at either kind of miss. */
  datatype LookupFailure =
    | ViewMissing(viewId: ViewId)                                 // no view with this id
    | FeatureMissing(viewId: ViewId, trackId: TrackId)            // the view has no feature for the track
    | ViewNotInFeatureMapping(viewId: ViewId)                     // the view has no feature-ordinal map
    | TrackNotInFeatureMapping(viewId: ViewId, trackId: TrackId)  // the track has no ordinal in that map
    | ViewNotInViewIndex(viewId: ViewId)                          // the view has no camera ordinal

  /** How an export ends: it returns true (`Written`), returns false because a
      file cannot be opened, or stops at a lookup that misses (`Aborted`: the
      process ends or the behaviour is undefined). */
  datatype Status =
    | Written
    | OpenFailed(path: string)
    | Aborted(failure: LookupFailure)

  /** The status, the files created (opened for writing, in order), and what
      the two streams hold when the export ends. */
  datatype ExportResult = ExportResult(
    status: Status,
    created: seq<string>,
    nvm: seq<NvmLine>,
    offsets: seq<OffsetRecord>)
}
