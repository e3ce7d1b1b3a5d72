/** The two index maps the exporter builds during its camera pass, as the
    values the loops leave behind, and what they mean. */
module NvmIndex {
  import opened NvmTypes

  /** The view-index map after visiting `vs`: each view id is mapped to the
      number of entries the map held just before. */
  function ViewIndex(vs: seq<ViewId>): (m: map<ViewId, int>)
  {
    if vs == [] then map[]
    else
      var m := ViewIndex(vs[..|vs| - 1]);
      m[vs[|vs| - 1] := |m|]
  }

  /** The feature-ordinal map of one view after visiting its track list
      `ts`: the track at position i is mapped to i, later writes winning. */
  function FeatureIndex(ts: seq<TrackId>): (m: map<TrackId, int>)
  {
    if ts == [] then map[]
    else FeatureIndex(ts[..|ts| - 1])[ts[|ts| - 1] := |ts| - 1]
  }

  /** The per-view feature-ordinal maps after visiting the views `vs`. A view
      gets an entry only when its track list is non-empty, because the entry
      is created by the first write of the inner loop. */
  function FeatureIndexMapping(rec: Reconstruction, vs: seq<ViewId>): (m: map<ViewId, map<TrackId, int>>)
    requires forall v :: v in vs ==> v in rec.views
  {
    if vs == [] then map[]
    else
      var m := FeatureIndexMapping(rec, vs[..|vs| - 1]);
      var v := vs[|vs| - 1];
      var ts := rec.views[v].trackIds;
      if ts == [] then m
      else m[v := (if v in m then m[v] else map[]) + FeatureIndex(ts)]
  }

  /** With distinct view ids, the k-th view id is mapped to k, and nothing
      else is mapped. */
  lemma {:induction false} ViewIndexDense(vs: seq<ViewId>)
    requires Distinct(vs)
    ensures |ViewIndex(vs)| == |vs|
    ensures forall k :: 0 <= k < |vs| ==> vs[k] in ViewIndex(vs) && ViewIndex(vs)[vs[k]] == k
    ensures forall v :: v in ViewIndex(vs) ==> v in vs
  {
    if vs != [] {
      var p := vs[..|vs| - 1];
      assert Distinct(p);
      ViewIndexDense(p);
      assert vs[|vs| - 1] !in p;
      assert vs[|vs| - 1] !in ViewIndex(p);
      forall k | 0 <= k < |vs| - 1
        ensures vs[k] in ViewIndex(vs) && ViewIndex(vs)[vs[k]] == k
      {
        assert vs[k] == p[k];
      }
      forall v | v in ViewIndex(vs)
        ensures v in vs
      {
        if v != vs[|vs| - 1] {
          assert v in p;
        }
      }
    }
  }

  /** With distinct view ids, the view-index map is a bijection from the
      view ids onto [0, |vs|). */
  lemma ViewIndexBijection(vs: seq<ViewId>)
    requires Distinct(vs)
    ensures forall v :: v in ViewIndex(vs) <==> v in vs
    ensures forall v :: v in ViewIndex(vs) ==>
              0 <= ViewIndex(vs)[v] < |vs| && vs[ViewIndex(vs)[v]] == v
    ensures forall v, w :: v in ViewIndex(vs) && w in ViewIndex(vs) && v != w ==>
              ViewIndex(vs)[v] != ViewIndex(vs)[w]
    ensures forall k :: 0 <= k < |vs| ==> k in ViewIndex(vs).Values
  {
    ViewIndexDense(vs);
    var m := ViewIndex(vs);
    forall v | v in m
      ensures 0 <= m[v] < |vs| && vs[m[v]] == v
    {
      var k :| 0 <= k < |vs| && vs[k] == v;
    }
    forall k | 0 <= k < |vs|
      ensures k in m.Values
    {
      assert vs[k] in m && m[vs[k]] == k;
    }
  }

  /** A track listed by a view is mapped to its LAST position in the list;
      nothing else is mapped. */
  lemma {:induction false} FeatureIndexLastPosition(ts: seq<TrackId>)
    ensures forall t :: t in FeatureIndex(ts) <==> t in ts
    ensures forall t :: t in FeatureIndex(ts) ==>
              && 0 <= FeatureIndex(ts)[t] < |ts|
              && ts[FeatureIndex(ts)[t]] == t
              && (forall j :: FeatureIndex(ts)[t] < j < |ts| ==> ts[j] != t)
  {
    if ts != [] {
      var p := ts[..|ts| - 1];
      var last := ts[|ts| - 1];
      FeatureIndexLastPosition(p);
      var m := FeatureIndex(ts);
      assert ts == p + [last];
      forall t
        ensures t in m <==> t in ts
      {
        if t in ts && t != last {
          var i :| 0 <= i < |ts| && ts[i] == t;
          assert p[i] == t;
        }
      }
      forall t | t in m && t != last
        ensures && 0 <= m[t] < |ts|
                && ts[m[t]] == t
                && (forall j :: m[t] < j < |ts| ==> ts[j] != t)
      {
        assert t in FeatureIndex(p);
        assert ts[m[t]] == p[m[t]];
        forall j | m[t] < j < |ts|
          ensures ts[j] != t
        {
          if j < |ts| - 1 { assert ts[j] == p[j]; }
        }
      }
    }
  }

  /** When a view lists each track once, the track at position i is mapped
      to i, and the map is a bijection onto [0, |ts|). */
  lemma FeatureIndexDistinct(ts: seq<TrackId>)
    requires Distinct(ts)
    ensures forall i :: 0 <= i < |ts| ==> ts[i] in FeatureIndex(ts) && FeatureIndex(ts)[ts[i]] == i
    ensures forall k :: 0 <= k < |ts| ==> k in FeatureIndex(ts).Values
  {
    FeatureIndexLastPosition(ts);
    var m := FeatureIndex(ts);
    forall i | 0 <= i < |ts|
      ensures ts[i] in m && m[ts[i]] == i
    {
      assert ts[i] in m;
      assert ts[m[ts[i]]] == ts[i];
    }
    forall k | 0 <= k < |ts|
      ensures k in m.Values
    {
      assert ts[k] in m && m[ts[k]] == k;
    }
  }

  /** With distinct view ids, a view has a feature-ordinal map exactly when
      it is among the visited views and lists at least one track, and that
      map is the one its own track list gives. */
  lemma {:induction false} FeatureIndexMappingAt(rec: Reconstruction, vs: seq<ViewId>)
    requires forall v :: v in vs ==> v in rec.views
    requires Distinct(vs)
    ensures forall v :: v in FeatureIndexMapping(rec, vs) <==> v in vs && rec.views[v].trackIds != []
    ensures forall v :: v in FeatureIndexMapping(rec, vs) ==>
              FeatureIndexMapping(rec, vs)[v] == FeatureIndex(rec.views[v].trackIds)
  {
    if vs != [] {
      var p := vs[..|vs| - 1];
      var last := vs[|vs| - 1];
      assert Distinct(p);
      FeatureIndexMappingAt(rec, p);
      var before := FeatureIndexMapping(rec, p);
      var ts := rec.views[last].trackIds;
      assert last !in p;
      assert last !in before;
      if ts != [] {
        var after := before[last := map[] + FeatureIndex(ts)];
        assert map[] + FeatureIndex(ts) == FeatureIndex(ts);
        assert FeatureIndexMapping(rec, vs) == after;
      } else {
        assert FeatureIndexMapping(rec, vs) == before;
      }
      forall v
        ensures v in vs <==> v in p || v == last
      {
        if v in vs && v != last {
          var i :| 0 <= i < |vs| && vs[i] == v;
          assert p[i] == v;
        }
      }
    }
  }
}
