/** What the published cloud means: its points, its rings, its stamp, and when there is one. */
module CombinerFacts {
  import opened Words
  import opened PointCloud
  import opened CloudTransform
  import opened CloudMerge
  import opened Combiner
  import opened Vectors

  // ---- rings ----

  /** The ring of point `j` of input `i` before and after the callback. */
  ghost function RingBefore(clouds: seq<Cloud>, i: nat, j: nat): nat
    requires Usable(clouds) && HasPoint(clouds, i, j) && HasRing(clouds[i])
  {
    U16(Rec(clouds[i].data, clouds[i].pointStep, j), ScannedOffsets(clouds[i].fields).ring)
  }

  ghost function RingAfter(g: Geometry, clouds: seq<Cloud>, xfs: seq<Transform>, i: nat, j: nat): nat
    requires Usable(clouds) && |clouds| == |xfs| && HasPoint(clouds, i, j) && HasRing(clouds[i])
  {
    Wrap16(RingBefore(clouds, i, j) + RingBase(g, clouds, xfs, i))
  }

  ghost predicate HasPoint(clouds: seq<Cloud>, i: nat, j: nat) {
    i < |clouds| && j < clouds[i].Points() && Span(j, clouds[i].pointStep) + clouds[i].pointStep <= |clouds[i].data|
  }

  predicate HasRing(c: Cloud) { ScannedOffsets(c.fields).ring >= 0 && Disjoint(ScannedOffsets(c.fields)) }

  /** The transformed cloud holds that point, moved. */
  lemma MovedPoint(g: Geometry, target: string, clouds: seq<Cloud>, xfs: seq<Transform>, i: nat, j: nat, m: Cloud)
    requires Usable(clouds) && |clouds| == |xfs| && i < |clouds| && j < clouds[i].Points()
    requires m == MovedAll(g, target, clouds, xfs)[i]
    ensures HasPoint(clouds, i, j) && |m.data| == |clouds[i].data|
    ensures Rec(m.data, clouds[i].pointStep, j)
         == MoveRecord(Rec(clouds[i].data, clouds[i].pointStep, j), ScannedOffsets(clouds[i].fields), MoveOf(g, xfs[i]),
                       RingBase(g, clouds, xfs, i))
  {
    var c := clouds[i];
    SpanWithin(j, c.Points(), c.pointStep);
    MapPointsAt(c.data, c.pointStep, c.Points(),
                Mover(c.pointStep, ScannedOffsets(c.fields), MoveOf(g, xfs[i]), RingBase(g, clouds, xfs, i)), j);
  }

  lemma {:induction false} SumToGrows(s: seq<nat>, i: nat, k: nat)
    requires i <= k <= |s|
    ensures SumTo(s, i) <= SumTo(s, k)
    decreases k
  {
    if i < k { SumToGrows(s, i, k - 1); }
  }

  /** The intervals [SumTo(s, i), SumTo(s, i + 1)) are disjoint. */
  lemma IntervalsDisjoint(s: seq<nat>, i: nat, a: nat, k: nat, b: nat)
    requires i < |s| && k < |s| && a < s[i] && b < s[k]
    requires SumTo(s, i) + a == SumTo(s, k) + b
    ensures i == k && a == b
  {
    if i < k { SumToGrows(s, i + 1, k); }
    if k < i { SumToGrows(s, k + 1, i); }
  }

  /** The bytes of the transformed point hold the shifted ring. */
  lemma MovedRing(g: Geometry, clouds: seq<Cloud>, xfs: seq<Transform>, i: nat, j: nat, o: Offsets, rec: seq<byte>)
    requires Usable(clouds) && |clouds| == |xfs| && HasPoint(clouds, i, j) && HasRing(clouds[i])
    requires o == ScannedOffsets(clouds[i].fields) && rec == Rec(clouds[i].data, clouds[i].pointStep, j)
    ensures U16(MoveRecord(rec, o, MoveOf(g, xfs[i]), RingBase(g, clouds, xfs, i)), o.ring)
         == RingAfter(g, clouds, xfs, i, j)
  {
    MoveRecordFields(rec, o, MoveOf(g, xfs[i]), RingBase(g, clouds, xfs, i));
  }

  /** A ring lies below the span of its cloud. */
  lemma RingWithinSpan(g: Geometry, clouds: seq<Cloud>, xfs: seq<Transform>, i: nat, j: nat)
    requires Usable(clouds) && |clouds| == |xfs| && HasPoint(clouds, i, j) && HasRing(clouds[i])
    ensures RingBefore(clouds, i, j) < RingSpans(g, clouds, xfs)[i]
  {
    var c := clouds[i];
    var o := ScannedOffsets(c.fields);
    MoveRecordFields(Rec(c.data, c.pointStep, j), o, MoveOf(g, xfs[i]), 0);
    MaxPointBounds(c.data, c.pointStep, c.Points(), RingReader(c.pointStep, o, MoveOf(g, xfs[i])), j);
  }

  /** The span of a non-empty cloud is one more than its largest ring. */
  lemma LargestRing(g: Geometry, clouds: seq<Cloud>, xfs: seq<Transform>, i: nat) returns (j: nat)
    requires Usable(clouds) && |clouds| == |xfs| && i < |clouds|
    requires HasRing(clouds[i]) && clouds[i].Points() > 0
    ensures HasPoint(clouds, i, j)
    ensures RingBefore(clouds, i, j) + 1 == RingSpans(g, clouds, xfs)[i]
  {
    var c := clouds[i];
    var o := ScannedOffsets(c.fields);
    j := MaxPointAttained(c.data, c.pointStep, c.Points(), RingReader(c.pointStep, o, MoveOf(g, xfs[i])));
    MoveRecordFields(Rec(c.data, c.pointStep, j), o, MoveOf(g, xfs[i]), 0);
  }

  /** Exactly when the rings of a non-empty cloud stay in the range reserved for it. */
  lemma RingsStayInRange(g: Geometry, clouds: seq<Cloud>, xfs: seq<Transform>, i: nat)
    requires Usable(clouds) && |clouds| == |xfs| && i < |clouds|
    requires HasRing(clouds[i]) && clouds[i].Points() > 0
    ensures (forall j :: HasPoint(clouds, i, j) ==>
               RingBase(g, clouds, xfs, i) <= RingAfter(g, clouds, xfs, i, j) < RingBase(g, clouds, xfs, i + 1))
            <==> RingBase(g, clouds, xfs, i + 1) <= TWO_16
  {
    var base, next := RingBase(g, clouds, xfs, i), RingBase(g, clouds, xfs, i + 1);
    forall j | HasPoint(clouds, i, j) && next <= TWO_16
      ensures base <= RingAfter(g, clouds, xfs, i, j) < next
    {
      RingWithinSpan(g, clouds, xfs, i, j);
    }
    if next > TWO_16 {
      var j := LargestRing(g, clouds, xfs, i);
      var after := RingAfter(g, clouds, xfs, i, j);
      assert after < base || next <= after;
    }
  }

  /** If the final offset fits 16 bits, an output ring determines the source cloud and the original ring. */
  lemma RingsIdentifySource(g: Geometry, clouds: seq<Cloud>, xfs: seq<Transform>, i: nat, j: nat, k: nat, l: nat)
    requires Usable(clouds) && |clouds| == |xfs|
    requires RingBase(g, clouds, xfs, |clouds|) <= TWO_16
    requires HasPoint(clouds, i, j) && HasRing(clouds[i]) && HasPoint(clouds, k, l) && HasRing(clouds[k])
    requires RingAfter(g, clouds, xfs, i, j) == RingAfter(g, clouds, xfs, k, l)
    ensures i == k && RingBefore(clouds, i, j) == RingBefore(clouds, k, l)
  {
    var s := RingSpans(g, clouds, xfs);
    NoWrap(g, clouds, xfs, i, j);
    NoWrap(g, clouds, xfs, k, l);
    IntervalsDisjoint(s, i, RingBefore(clouds, i, j), k, RingBefore(clouds, k, l));
  }

  lemma NoWrap(g: Geometry, clouds: seq<Cloud>, xfs: seq<Transform>, i: nat, j: nat)
    requires Usable(clouds) && |clouds| == |xfs|
    requires RingBase(g, clouds, xfs, |clouds|) <= TWO_16
    requires HasPoint(clouds, i, j) && HasRing(clouds[i])
    ensures RingBefore(clouds, i, j) < RingSpans(g, clouds, xfs)[i]
    ensures RingAfter(g, clouds, xfs, i, j) == RingBefore(clouds, i, j) + SumTo(RingSpans(g, clouds, xfs), i)
  {
    hide RingBefore, RingSpans, RingAfter, RingBase, Usable, HasRing, HasXyz;
    RingWithinSpan(g, clouds, xfs, i, j);
    RingsBySum(g, clouds, xfs, i, j);
    SumToGrows(RingSpans(g, clouds, xfs), i + 1, |clouds|);
  }

  lemma RingsBySum(g: Geometry, clouds: seq<Cloud>, xfs: seq<Transform>, i: nat, j: nat)
    requires Usable(clouds) && |clouds| == |xfs| && HasPoint(clouds, i, j) && HasRing(clouds[i])
    ensures RingAfter(g, clouds, xfs, i, j)
         == Wrap16(RingBefore(clouds, i, j) + SumTo(RingSpans(g, clouds, xfs), i))
    ensures RingBase(g, clouds, xfs, |clouds|) == SumTo(RingSpans(g, clouds, xfs), |clouds|)
  {
    hide RingBefore, RingSpans, Usable, HasRing, HasPoint;
  }

  /** Points of two different inputs end up with the same ring. */
  ghost predicate Collide(g: Geometry, clouds: seq<Cloud>, xfs: seq<Transform>, i: nat, j: nat, k: nat, l: nat)
    requires Usable(clouds) && |clouds| == |xfs|
  {
    && i != k && HasPoint(clouds, i, j) && HasPoint(clouds, k, l) && HasRing(clouds[i]) && HasRing(clouds[k])
    && RingAfter(g, clouds, xfs, i, j) == RingAfter(g, clouds, xfs, k, l)
  }

  /** Every ring number below the span of an input occurs in it, as in an input that has points on each of its rings. */
  ghost predicate AllRingsOccur(g: Geometry, clouds: seq<Cloud>, xfs: seq<Transform>)
    requires Usable(clouds) && |clouds| == |xfs|
  {
    forall i, r :: 0 <= i < |clouds| && 0 <= r < RingSpans(g, clouds, xfs)[i] ==> RingOccurs(clouds, i, r)
  }

  ghost predicate RingOccurs(clouds: seq<Cloud>, i: nat, r: nat)
    requires Usable(clouds) && i < |clouds|
  {
    HasRing(clouds[i]) && exists j :: HasPoint(clouds, i, j) && RingBefore(clouds, i, j) == r
  }

  /** The interval [SumTo(s, i), SumTo(s, i + 1)) in which a number lies. */
  lemma {:induction false} Locate(s: seq<nat>, n: nat, v: nat) returns (i: nat, a: nat)
    requires n <= |s| && v < SumTo(s, n)
    ensures i < n && a < s[i] && SumTo(s, i) + a == v
  {
    if v < SumTo(s, n - 1) { i, a := Locate(s, n - 1, v); } else { i, a := n - 1, v - SumTo(s, n - 1); }
  }

  /** The point whose ring becomes `v` before it is cut to 16 bits. */
  lemma PointAtRing(g: Geometry, clouds: seq<Cloud>, xfs: seq<Transform>, v: nat) returns (i: nat, j: nat)
    requires Usable(clouds) && |clouds| == |xfs| && AllRingsOccur(g, clouds, xfs)
    requires v < RingBase(g, clouds, xfs, |clouds|)
    ensures HasPoint(clouds, i, j) && HasRing(clouds[i])
    ensures RingBefore(clouds, i, j) + RingBase(g, clouds, xfs, i) == v
    ensures RingAfter(g, clouds, xfs, i, j) == Wrap16(v)
  {
    hide HasPoint, HasRing, RingBefore, Usable, RingSpan;
    var a: nat;
    i, a := Locate(RingSpans(g, clouds, xfs), |clouds|, v);
    assert RingOccurs(clouds, i, a);
    j :| HasPoint(clouds, i, j) && RingBefore(clouds, i, j) == a;
  }

  /** Where every ring number occurs, rings of different inputs collide exactly when the final offset exceeds 65536. */
  lemma RingsCollideExactlyWhen(g: Geometry, clouds: seq<Cloud>, xfs: seq<Transform>)
    requires Usable(clouds) && |clouds| == |xfs| && AllRingsOccur(g, clouds, xfs)
    ensures (exists i, j, k, l :: Collide(g, clouds, xfs, i, j, k, l))
       <==> RingBase(g, clouds, xfs, |clouds|) > TWO_16
  {
    hide HasPoint, HasRing, RingBefore, Usable, RingSpan, AllRingsOccur, RingBase, RingAfter;
    if RingBase(g, clouds, xfs, |clouds|) > TWO_16 {
      var i, j := PointAtRing(g, clouds, xfs, 0);
      var k, l := PointAtRing(g, clouds, xfs, 0x1_0000);
      RingIsWord(clouds, i, j);
      RingIsWord(clouds, k, l);
      assert Collide(g, clouds, xfs, i, j, k, l);
    } else if i, j, k, l :| Collide(g, clouds, xfs, i, j, k, l) {
      RingsIdentifySource(g, clouds, xfs, i, j, k, l);
    }
  }

  lemma RingIsWord(clouds: seq<Cloud>, i: nat, j: nat)
    requires Usable(clouds) && HasPoint(clouds, i, j) && HasRing(clouds[i])
    ensures RingBefore(clouds, i, j) < TWO_16
  {
  }

  // ---- points ----

  /** Where the included clouds sit in the result: a cloud comes right after the included ones before it. */
  lemma {:induction false} MatchingAt(clouds: seq<Cloud>, base: Cloud, i: nat)
    requires i < |clouds| && SameSchema(clouds[i], base)
    ensures var p, all := Matching(clouds[..i], base), Matching(clouds, base);
      |p| < |all| && all[|p|] == clouds[i] && all[..|p|] == p
  {
    var n := |clouds| - 1;
    if i < n {
      MatchingAt(clouds[..n], base, i);
      assert clouds[..n][..i] == clouds[..i];
      var p, init := Matching(clouds[..i], base), Matching(clouds[..n], base);
      assert Matching(clouds, base)[..|init|] == init;
    }
  }

  lemma {:induction false} MatchingTight(clouds: seq<Cloud>, base: Cloud, step: nat)
    requires forall i :: 0 <= i < |clouds| && SameSchema(clouds[i], base) ==>
      clouds[i].pointStep == step && |clouds[i].data| == Span(clouds[i].Points(), step)
    ensures Tight(Matching(clouds, base), step)
  {
    if clouds != [] { MatchingTight(clouds[..|clouds| - 1], base, step); }
  }

  /** The inputs with the schema of the first input carry exactly the bytes they announce. */
  ghost predicate TightInputs(clouds: seq<Cloud>) {
    clouds != [] && forall i :: 0 <= i < |clouds| && SameSchema(clouds[i], clouds[0]) ==>
      |clouds[i].data| == Span(clouds[i].Points(), clouds[0].pointStep)
  }

  /** Number of points that the included inputs before input `i` contribute. */
  ghost function PointsBefore(clouds: seq<Cloud>, i: nat): nat
    requires 0 < |clouds| && i <= |clouds|
  {
    Total(Matching(clouds[..i], clouds[0]))
  }

  /** Transforming the clouds does not change where they sit. */
  lemma {:induction false} MovedTotals(clouds: seq<Cloud>, moved: seq<Cloud>, i: nat)
    requires 0 < |clouds| == |moved| && i <= |clouds|
    requires forall k :: 0 <= k < |clouds| ==>
      SameSchema(moved[k], clouds[k]) && moved[k].Points() == clouds[k].Points()
    ensures Total(Matching(moved[..i], moved[0])) == PointsBefore(clouds, i)
  {
    if i > 0 {
      MovedTotals(clouds, moved, i - 1);
      TotalTurn(moved, i - 1, moved[0]);
      TotalTurn(clouds, i - 1, clouds[0]);
    }
  }

  lemma TotalTurn(clouds: seq<Cloud>, i: nat, base: Cloud)
    requires i < |clouds|
    ensures Total(Matching(clouds[..i + 1], base))
         == Total(Matching(clouds[..i], base)) + if SameSchema(clouds[i], base) then clouds[i].Points() else 0
  {
    MatchingTurn(clouds, i, base);
  }

  /** Conservation, end to end: point `j` of an included input `i` is published, moved by that input's transform and
      with its ring shifted by that input's offset, right behind the points of the included inputs before it. */
  lemma PublishedPoint(g: Geometry, target: string, clouds: seq<Cloud>, xfs: seq<Transform>, i: nat, j: nat,
                       out: Cloud, k: nat)
    requires Usable(clouds) && |clouds| == |xfs| && TightInputs(clouds)
    requires CombinedCloud(g, target, clouds, xfs) == Some(out)
    requires i < |clouds| && SameSchema(clouds[i], clouds[0]) && j < clouds[i].Points()
    requires k == PointsBefore(clouds, i) + j
    ensures HasPoint(clouds, i, j)
    ensures Span(k, out.pointStep) + out.pointStep <= |out.data|
    ensures Rec(out.data, out.pointStep, k)
      == MoveRecord(Rec(clouds[i].data, clouds[i].pointStep, j), ScannedOffsets(clouds[i].fields), MoveOf(g, xfs[i]),
                    RingBase(g, clouds, xfs, i))
  {
    var moved := MovedAll(g, target, clouds, xfs);
    JoinedMoved(g, target, clouds, xfs, i, j, moved, Included(moved), k);
    MovedPoint(g, target, clouds, xfs, i, j, moved[i]);
  }

  lemma JoinedMoved(g: Geometry, target: string, clouds: seq<Cloud>, xfs: seq<Transform>, i: nat, j: nat,
                    moved: seq<Cloud>, parts: seq<Cloud>, k: nat)
    requires Usable(clouds) && |clouds| == |xfs| && TightInputs(clouds)
    requires i < |clouds| && SameSchema(clouds[i], clouds[0]) && j < clouds[i].Points()
    requires moved == MovedAll(g, target, clouds, xfs) && parts == Included(moved)
    requires k == PointsBefore(clouds, i) + j
    ensures Span(k, clouds[0].pointStep) + clouds[0].pointStep <= |Joined(parts)|
    ensures Span(j, clouds[0].pointStep) + clouds[0].pointStep <= |moved[i].data|
    ensures Rec(Joined(parts), clouds[0].pointStep, k) == Rec(moved[i].data, clouds[0].pointStep, j)
  {
    MatchingTight(moved, moved[0], clouds[0].pointStep);
    MatchingAt(moved, moved[0], i);
    MovedTotals(clouds, moved, i);
    var before := Matching(moved[..i], moved[0]);
    assert parts[..|before|] == before;
    JoinedPoint(parts, clouds[0].pointStep, |before|, j, k);
  }

  lemma {:induction false} SourceBefore(clouds: seq<Cloud>, n: nat, k: nat) returns (i: nat, j: nat)
    requires 0 < |clouds| && n <= |clouds| && k < PointsBefore(clouds, n)
    ensures i < n && SameSchema(clouds[i], clouds[0]) && j < clouds[i].Points() && k == PointsBefore(clouds, i) + j
  {
    TotalTurn(clouds, n - 1, clouds[0]);
    if k < PointsBefore(clouds, n - 1) {
      i, j := SourceBefore(clouds, n - 1, k);
    } else {
      i, j := n - 1, k - PointsBefore(clouds, n - 1);
    }
  }

  /** Every point that a published cloud announces has such a source. */
  lemma PublishedSource(g: Geometry, target: string, clouds: seq<Cloud>, xfs: seq<Transform>, out: Cloud, k: nat)
    returns (i: nat, j: nat)
    requires Usable(clouds) && |clouds| == |xfs| && CombinedCloud(g, target, clouds, xfs) == Some(out)
    requires k < out.width
    ensures i < |clouds| && SameSchema(clouds[i], clouds[0])
    ensures j < clouds[i].Points() && k == PointsBefore(clouds, i) + j
  {
    hide WellFormed, HasXyz, RingBase;
    var moved := MovedAll(g, target, clouds, xfs);
    MovedTotals(clouds, moved, |clouds|);
    assert moved[..|clouds|] == moved;
    i, j := SourceBefore(clouds, |clouds|, k);
  }

  /** Header of the published cloud, whatever the sizes of the inputs. */
  lemma PublishedHeader(g: Geometry, target: string, clouds: seq<Cloud>, xfs: seq<Transform>, out: Cloud)
    requires Usable(clouds) && 0 < |clouds| == |xfs| && CombinedCloud(g, target, clouds, xfs) == Some(out)
    ensures out.frameId == target && out.height == 1 && out.width == Wrap32(PointsBefore(clouds, |clouds|))
    ensures out.fields == clouds[0].fields && out.pointStep == clouds[0].pointStep
    ensures out.bigEndian == clouds[0].bigEndian && out.rowStep == Wrap32(out.width * out.pointStep)
  {
    hide WellFormed, HasXyz, RingBase, MapPoints, Newest, Joined, AllDense;
    var moved := MovedAll(g, target, clouds, xfs);
    MovedTotals(clouds, moved, |clouds|);
    assert moved[..|clouds|] == moved;
    SpanIsProduct(out.width, out.pointStep);
  }

  /** Header and size of the published cloud. */
  lemma PublishedSize(g: Geometry, target: string, clouds: seq<Cloud>, xfs: seq<Transform>, out: Cloud)
    requires Usable(clouds) && |clouds| == |xfs| && TightInputs(clouds)
    requires CombinedCloud(g, target, clouds, xfs) == Some(out) && PointsBefore(clouds, |clouds|) < TWO_32
    ensures out.width == PointsBefore(clouds, |clouds|) && out.height == 1
    ensures |out.data| == out.width * out.pointStep
    ensures out.fields == clouds[0].fields && out.pointStep == clouds[0].pointStep && out.frameId == target
    ensures out.bigEndian == clouds[0].bigEndian && out.rowStep == Wrap32(out.width * out.pointStep)
  {
    hide WellFormed, HasXyz;
    var moved := MovedAll(g, target, clouds, xfs);
    MatchingTight(moved, moved[0], clouds[0].pointStep);
    MovedTotals(clouds, moved, |clouds|);
    assert moved[..|clouds|] == moved;
    CombinedConserves(moved, target, Included(moved), out);
  }

  lemma {:induction false} DenseOfMatching(clouds: seq<Cloud>, base: Cloud)
    ensures AllDense(Matching(clouds, base))
       <==> forall i :: 0 <= i < |clouds| && SameSchema(clouds[i], base) ==> clouds[i].dense
  {
    if clouds != [] {
      var n := |clouds| - 1;
      DenseOfMatching(clouds[..n], base);
      var init := Matching(clouds[..n], base);
      if SameSchema(clouds[n], base) { assert Matching(clouds, base)[|init|] == clouds[n]; }
      assert forall i :: 0 <= i < |init| ==> Matching(clouds, base)[i] == init[i];
    }
  }

  /** is_dense of a published cloud is the conjunction over the included inputs. */
  lemma PublishedDense(g: Geometry, target: string, clouds: seq<Cloud>, xfs: seq<Transform>, out: Cloud)
    requires Usable(clouds) && |clouds| == |xfs| && CombinedCloud(g, target, clouds, xfs) == Some(out)
    ensures out.dense <==> forall i :: 0 <= i < |clouds| && SameSchema(clouds[i], clouds[0]) ==> clouds[i].dense
  {
    hide WellFormed, HasXyz, RingBase;
    var moved := MovedAll(g, target, clouds, xfs);
    DenseOfMatching(moved, moved[0]);
    hide Moved, AllDense;
    MovedKeepsSchema(g, target, clouds, xfs, moved);
  }

  lemma MovedKeepsSchema(g: Geometry, target: string, clouds: seq<Cloud>, xfs: seq<Transform>, moved: seq<Cloud>)
    requires Usable(clouds) && |clouds| == |xfs| && moved == MovedAll(g, target, clouds, xfs)
    ensures forall i :: 0 <= i < |clouds| ==>
      moved[i].dense == clouds[i].dense && SameSchema(moved[i], moved[0]) == SameSchema(clouds[i], clouds[0])
  {
    hide WellFormed, HasXyz, RingBase, Usable;
  }

  // ---- stamp and publication ----

  /** The published stamp is the newest among the inputs with the schema of the first one. */
  lemma PublishedStamp(g: Geometry, target: string, clouds: seq<Cloud>, xfs: seq<Transform>) returns (newest: nat)
    requires Usable(clouds) && 0 < |clouds| == |xfs| && CombinedCloud(g, target, clouds, xfs).Some?
    ensures newest < |clouds| && SameSchema(clouds[newest], clouds[0])
    ensures CombinedCloud(g, target, clouds, xfs).value.stamp == clouds[newest].stamp
    ensures forall i :: 0 <= i < |clouds| && SameSchema(clouds[i], clouds[0]) ==>
      clouds[i].stamp <= clouds[newest].stamp
  {
    hide WellFormed, HasXyz, Combine;
    var moved := MovedAll(g, target, clouds, xfs);
    var stamp := CombinedCloud(g, target, clouds, xfs).value.stamp;
    CombinedStamp(moved, target, moved[0]);
    var d :| d in moved && SameSchema(d, moved[0]) && d.stamp == stamp;
    newest :| 0 <= newest < |moved| && moved[newest] == d;
    forall i | 0 <= i < |clouds| && SameSchema(clouds[i], clouds[0])
      ensures clouds[i].stamp <= stamp
    {
      CombinedStamp(moved, target, moved[i]);
    }
  }

  lemma {:induction false} TotalPositive(clouds: seq<Cloud>)
    ensures Total(clouds) > 0 <==> exists i :: 0 <= i < |clouds| && clouds[i].Points() > 0
  {
    hide Span;
    if clouds != [] { TotalPositive(clouds[..|clouds| - 1]); }
  }

  lemma {:induction false} JoinedPositive(clouds: seq<Cloud>)
    ensures Joined(clouds) != [] <==> exists i :: 0 <= i < |clouds| && clouds[i].data != []
  {
    if clouds != [] {
      var n := |clouds| - 1;
      var init := clouds[..n];
      assert Joined(clouds) == Joined(init) + clouds[n].data;
      hide Joined;
      JoinedPositive(init);
      assert forall i :: 0 <= i < n ==> init[i] == clouds[i];
      if clouds[n].data == [] {
        if i :| 0 <= i < |init| && init[i].data != [] { assert clouds[i].data != []; }
      }
    }
  }

  /** Some input with the schema of the first one has a point. */
  ghost predicate SomePoint(clouds: seq<Cloud>) {
    exists i :: 0 <= i < |clouds| && SameSchema(clouds[i], clouds[0]) && clouds[i].Points() > 0
  }

  /** A cloud callback publishes exactly when every slot is filled, the stamps are synchronous, every input has a
      transform and x/y/z fields, and some included input has a point. */
  lemma PublishesExactlyWhen(g: Geometry, target: string, slots: seq<Option<Cloud>>, cache: seq<Option<Transform>>,
                             lookups: seq<Option<Transform>>)
    requires 0 < |slots| == |cache| == |lookups| && SlotsWellFormed(slots)
    ensures CloudCallback(g, target, slots, cache, lookups).out.Some? <==>
      && CloudsDue(slots)
      && (forall i :: 0 <= i < |slots| ==> Ready(slots[i].value, cache[i], lookups[i]))
      && SomePoint(Values(slots))
  {
    hide CombinedCloud, WellFormed, HasXyz;
    if CloudsDue(slots) {
      var clouds := Values(slots);
      var stop := FirstUnready(clouds, cache, lookups, 0);
      FirstUnreadyIsFirst(clouds, cache, lookups, 0);
      if stop < |clouds| {
        assert !Ready(slots[stop].value, cache[stop], lookups[stop]);
      } else {
        AllReady(clouds, cache, lookups);
        CombinedExactlyWhen(g, target, clouds, Values(CacheAfter(cache, lookups, |clouds| + 1)));
      }
    }
  }

  lemma CombinedExactlyWhen(g: Geometry, target: string, clouds: seq<Cloud>, xfs: seq<Transform>)
    requires Usable(clouds) && 0 < |clouds| == |xfs|
    ensures CombinedCloud(g, target, clouds, xfs).Some? <==> SomePoint(clouds)
  {
    hide RingBase, MovedAll, Included, SomePoint, Usable, Total, Joined;
    var parts := Included(MovedAll(g, target, clouds, xfs));
    TotalPositive(parts);
    JoinedPositive(parts);
    if SomePoint(clouds) {
      var p := SomePointIncluded(g, target, clouds, xfs, parts);
    } else if p :| 0 <= p < |parts| && parts[p].Points() > 0 {
      SomePointFrom(g, target, clouds, xfs, p);
    }
  }

  /** An included input with a point gives an included cloud with a point and its bytes. */
  lemma SomePointIncluded(g: Geometry, target: string, clouds: seq<Cloud>, xfs: seq<Transform>, parts: seq<Cloud>)
    returns (p: nat)
    requires Usable(clouds) && 0 < |clouds| == |xfs| && SomePoint(clouds)
    requires parts == Included(MovedAll(g, target, clouds, xfs))
    ensures p < |parts| && parts[p].Points() > 0 && parts[p].data != []
  {
    hide RingBase, Included;
    var i :| 0 <= i < |clouds| && SameSchema(clouds[i], clouds[0]) && clouds[i].Points() > 0;
    SpanWithin(0, clouds[i].Points(), clouds[i].pointStep);
    var moved := MovedAll(g, target, clouds, xfs);
    IncludedHas(moved, i);
    p :| 0 <= p < |parts| && parts[p] == moved[i];
  }

  lemma SomePointFrom(g: Geometry, target: string, clouds: seq<Cloud>, xfs: seq<Transform>, p: nat)
    requires Usable(clouds) && 0 < |clouds| == |xfs|
    requires p < |Included(MovedAll(g, target, clouds, xfs))|
    requires Included(MovedAll(g, target, clouds, xfs))[p].Points() > 0
    ensures SomePoint(clouds)
  {
    hide RingBase;
    var i := IncludedFrom(MovedAll(g, target, clouds, xfs), p);
    assert SameSchema(clouds[i], clouds[0]) && clouds[i].Points() > 0;
  }

  lemma IncludedHas(clouds: seq<Cloud>, i: nat)
    requires i < |clouds| && SameSchema(clouds[i], clouds[0])
    ensures exists p :: 0 <= p < |Included(clouds)| && Included(clouds)[p] == clouds[i]
  {
    MatchingAt(clouds, clouds[0], i);
    var p := |Matching(clouds[..i], clouds[0])|;
    assert Included(clouds)[p] == clouds[i];
  }

  lemma IncludedFrom(clouds: seq<Cloud>, p: nat) returns (i: nat)
    requires p < |Included(clouds)|
    ensures i < |clouds| && clouds[i] == Included(clouds)[p] && SameSchema(clouds[i], clouds[0])
  {
    MatchingMembers(clouds, clouds[0], Included(clouds)[p]);
    i :| 0 <= i < |clouds| && clouds[i] == Included(clouds)[p];
  }

  // ---- the fused IMU ----

  lemma {:induction false} AgreeingSum(vs: seq<Vec3>, xfs: seq<Transform>, w: Vec3)
    requires |vs| == |xfs|
    requires forall i :: 0 <= i < |vs| ==> Rotate(xfs[i].rotation, vs[i]) == w
    ensures SumRotated(vs, xfs) == Times(|vs| as real, w)
  {
    hide Rotate;
    if vs != [] { AgreeingSum(vs[..|vs| - 1], xfs[..|vs| - 1], w); }
  }

  /** IMUs that agree in the target frame fuse to what they agree on, each vector for itself. */
  lemma AgreeingImusFuse(target: string, imus: seq<Imu>, xfs: seq<Transform>, w: Vec3, a: Vec3)
    requires 0 < |imus| == |xfs|
    ensures (forall i :: 0 <= i < |imus| ==> Rotate(xfs[i].rotation, imus[i].angularVelocity) == w) ==>
      FusedImu(target, imus, xfs).angularVelocity == w
    ensures (forall i :: 0 <= i < |imus| ==> Rotate(xfs[i].rotation, imus[i].linearAcceleration) == a) ==>
      FusedImu(target, imus, xfs).linearAcceleration == a
    ensures FusedImu(target, imus, xfs).stamp == imus[0].stamp && FusedImu(target, imus, xfs).frameId == target
  {
    hide Rotate, Over, Times, SumRotated;
    if forall i :: 0 <= i < |imus| ==> Rotate(xfs[i].rotation, imus[i].angularVelocity) == w {
      AgreeingSum(AngularOf(imus), xfs, w);
    }
    if forall i :: 0 <= i < |imus| ==> Rotate(xfs[i].rotation, imus[i].linearAcceleration) == a {
      AgreeingSum(LinearOf(imus), xfs, a);
    }
    OverTimes(|imus| as real, w);
    OverTimes(|imus| as real, a);
  }

  function RowOf(m: Mat3, row: nat): Vec3 { if row == 0 then m.r0 else if row == 1 then m.r1 else m.r2 }

  /** The rows of the rotations, one matrix after the other. */
  function RowsOf(xfs: seq<Transform>, row: nat): (r: seq<Vec3>)
    ensures |r| == |xfs| && forall i :: 0 <= i < |xfs| ==> r[i] == RowOf(xfs[i].rotation, row)
  {
    seq(|xfs|, i requires 0 <= i < |xfs| => RowOf(xfs[i].rotation, row))
  }

  /** Every row times its vector, summed up. */
  function SumOfProducts(rows: seq<Vec3>, vs: seq<Vec3>): real
    requires |rows| == |vs|
  {
    if vs == [] then 0.0
    else
      var n := |vs| - 1;
      SumOfProducts(rows[..n], vs[..n]) + rows[n].x * vs[n].x + rows[n].y * vs[n].y + rows[n].z * vs[n].z
  }

  lemma {:induction false} SumByComponents(vs: seq<Vec3>, xfs: seq<Transform>)
    requires |vs| == |xfs|
    ensures SumRotated(vs, xfs).x == SumOfProducts(RowsOf(xfs, 0), vs)
    ensures SumRotated(vs, xfs).y == SumOfProducts(RowsOf(xfs, 1), vs)
    ensures SumRotated(vs, xfs).z == SumOfProducts(RowsOf(xfs, 2), vs)
  {
    if vs != [] {
      var n := |vs| - 1;
      SumByComponents(vs[..n], xfs[..n]);
      assert RowsOf(xfs, 0)[..n] == RowsOf(xfs[..n], 0);
      assert RowsOf(xfs, 1)[..n] == RowsOf(xfs[..n], 1);
      assert RowsOf(xfs, 2)[..n] == RowsOf(xfs[..n], 2);
    }
  }

  /** The fused vectors are the means of the rotated ones, component by component: `n` times each component is the sum
      over the IMUs of the matrix row times the vector. */
  lemma FusedIsMean(target: string, imus: seq<Imu>, xfs: seq<Transform>, n: real, out: Imu)
    requires 0 < |imus| == |xfs| && n == |imus| as real && out == FusedImu(target, imus, xfs)
    ensures n * out.angularVelocity.x == SumOfProducts(RowsOf(xfs, 0), AngularOf(imus))
    ensures n * out.angularVelocity.y == SumOfProducts(RowsOf(xfs, 1), AngularOf(imus))
    ensures n * out.angularVelocity.z == SumOfProducts(RowsOf(xfs, 2), AngularOf(imus))
    ensures n * out.linearAcceleration.x == SumOfProducts(RowsOf(xfs, 0), LinearOf(imus))
    ensures n * out.linearAcceleration.y == SumOfProducts(RowsOf(xfs, 1), LinearOf(imus))
    ensures n * out.linearAcceleration.z == SumOfProducts(RowsOf(xfs, 2), LinearOf(imus))
  {
    hide SumOfProducts, SumRotated, RowsOf, Over;
    SumByComponents(AngularOf(imus), xfs);
    SumByComponents(LinearOf(imus), xfs);
    OverTimes(n, SumRotated(AngularOf(imus), xfs));
    OverTimes(n, SumRotated(LinearOf(imus), xfs));
  }

  /** What a covariance of the fused message says: the first IMU's divided by their number, or "unknown". */
  predicate Averaged(out: Covariance, first: Covariance, n: real) {
    if first[0] >= 0.0 then forall k :: 0 <= k < 9 ==> n * out[k] == first[k]
    else out[0] == -1.0 && forall k :: 1 <= k < 9 ==> out[k] == first[k]
  }

  lemma QuotientTimes(c: Covariance, n: real, k: nat)
    requires n > 0.0 && k < 9
    ensures n * (c[k] / n) == c[k]
  {
  }

  /** The covariances of the fused message; its orientation is the first IMU's, marked unknown. */
  lemma FusedCovariances(target: string, imus: seq<Imu>, xfs: seq<Transform>, n: real, out: Imu)
    requires 0 < |imus| == |xfs| && n == |imus| as real && out == FusedImu(target, imus, xfs)
    ensures Averaged(out.angularCov, imus[0].angularCov, n) && Averaged(out.linearCov, imus[0].linearCov, n)
    ensures out.orientation == imus[0].orientation && out.orientationCov[0] == -1.0
    ensures forall k :: 1 <= k < 9 ==> out.orientationCov[k] == imus[0].orientationCov[k]
  {
    hide SumRotated, Over;
    forall k | 0 <= k < 9
      ensures n * (imus[0].angularCov[k] / n) == imus[0].angularCov[k]
      ensures n * (imus[0].linearCov[k] / n) == imus[0].linearCov[k]
    {
      QuotientTimes(imus[0].angularCov, n, k);
      QuotientTimes(imus[0].linearCov, n, k);
    }
  }

  /** One IMU turned by a quarter about the vertical axis: what points along x is published along y. */
  lemma QuarterTurn(target: string, imu: Imu, t: Transform)
    requires t.rotation == Mat3(Vec3(0.0, -1.0, 0.0), Vec3(1.0, 0.0, 0.0), Vec3(0.0, 0.0, 1.0))
    requires imu.angularVelocity == Vec3(1.0, 0.0, 0.0)
    ensures FusedImu(target, [imu], [t]).angularVelocity == Vec3(0.0, 1.0, 0.0)
  {
    hide FusedImu, Rotate;
    RotatesUnits(t.rotation);
    AgreeingImusFuse(target, [imu], [t], Vec3(0.0, 1.0, 0.0), Rotate(t.rotation, imu.linearAcceleration));
  }

  // ---- when a callback is due, in milliseconds ----

  /** Clouds are synchronous when no two of them are more than 25 milliseconds apart. */
  lemma CloudsDueWithin25Ms(slots: seq<Option<Cloud>>)
    ensures CloudsDue(slots) <==>
      && Filled(slots)
      && forall i, j :: 0 <= i < |slots| && 0 <= j < |slots| ==>
           slots[i].value.stamp <= slots[j].value.stamp + 25 * 1_000_000
  {
    if Filled(slots) {
      var stamps := CloudStamps(Values(slots));
      assert |stamps| == |slots| && forall i :: 0 <= i < |slots| ==> stamps[i] == slots[i].value.stamp;
    }
  }

  /** IMU samples are when no two of them are more than 10 milliseconds apart. */
  lemma ImusDueWithin10Ms(slots: seq<Option<Imu>>)
    ensures ImusDue(slots) <==>
      && Filled(slots)
      && forall i, j :: 0 <= i < |slots| && 0 <= j < |slots| ==>
           slots[i].value.stamp <= slots[j].value.stamp + 10 * 1_000_000
  {
    if Filled(slots) {
      var stamps := ImuStamps(Values(slots));
      assert |stamps| == |slots| && forall i :: 0 <= i < |slots| ==> stamps[i] == slots[i].value.stamp;
    }
  }

  /** A cloud without a ring field reserves no ring number; one without points reserves one. */
  lemma SpanWithoutRings(c: Cloud, move: Move)
    requires WellFormed(c) && HasXyz(c.fields)
    ensures ScannedOffsets(c.fields).ring < 0 ==> RingSpan(c, move) == 0
    ensures ScannedOffsets(c.fields).ring >= 0 && c.Points() == 0 ==> RingSpan(c, move) == 1
  {
  }
}
