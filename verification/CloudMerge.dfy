/** build_combined_cloud: concatenating the transformed clouds into one message. */
module CloudMerge {
  import opened Words
  import opened PointCloud

  predicate SameSchema(a: Cloud, b: Cloud) { a.pointStep == b.pointStep && a.fields == b.fields }

  // ---- specification ----

  /** The clouds whose schema is that of `base`, in order. */
  function Matching(clouds: seq<Cloud>, base: Cloud): seq<Cloud> {
    if clouds == [] then []
    else
      var last := clouds[|clouds| - 1];
      var init := Matching(clouds[..|clouds| - 1], base);
      if SameSchema(last, base) then init + [last] else init
  }

  /** The clouds that make it into the result: those with the schema of the first. */
  function Included(clouds: seq<Cloud>): seq<Cloud> {
    if clouds == [] then [] else Matching(clouds, clouds[0])
  }

  function Total(clouds: seq<Cloud>): nat {
    if clouds == [] then 0 else Total(clouds[..|clouds| - 1]) + clouds[|clouds| - 1].Points()
  }

  function Joined(clouds: seq<Cloud>): seq<byte> {
    if clouds == [] then [] else Joined(clouds[..|clouds| - 1]) + clouds[|clouds| - 1].data
  }

  predicate AllDense(clouds: seq<Cloud>) { forall i :: 0 <= i < |clouds| ==> clouds[i].dense }

  /** The newest stamp among `clouds`, at least `floor`. */
  function Newest(clouds: seq<Cloud>, floor: nat): nat {
    if clouds == [] then floor else Max(Newest(clouds[..|clouds| - 1], floor), clouds[|clouds| - 1].stamp)
  }

  /** The published message, None when nothing is published. */
  function Combine(clouds: seq<Cloud>, target: string): Option<Cloud> {
    var parts := Included(clouds);
    if Total(parts) == 0 || Joined(parts) == [] then None
    else
      var base := clouds[0];
      var width := Wrap32(Total(parts));
      Some(Cloud(Newest(parts, base.stamp), target, 1, width, base.fields, base.bigEndian, base.pointStep,
                 Wrap32(Span(width, base.pointStep)), Joined(parts), AllDense(parts)))
  }

  // ---- the two loops ----

  /** One turn of either loop. */
  lemma MatchingTurn(clouds: seq<Cloud>, i: nat, base: Cloud)
    requires i < |clouds|
    ensures var before, after := Matching(clouds[..i], base), Matching(clouds[..i + 1], base);
      if SameSchema(clouds[i], base)
      then after == before + [clouds[i]] && |after| == |before| + 1 && after[..|before|] == before
      else after == before
  {
    assert clouds[..i + 1][..i] == clouds[..i];
  }

  method CountPoints(clouds: seq<Cloud>) returns (totalPoints: nat)
    ensures totalPoints == Total(Included(clouds))
  {
    totalPoints := 0;
    for i := 0 to |clouds|
      invariant totalPoints == if i == 0 then 0 else Total(Matching(clouds[..i], clouds[0]))
    {
      MatchingTurn(clouds, i, clouds[0]);
      if i > 0 && (clouds[i].pointStep != clouds[0].pointStep || clouds[i].fields != clouds[0].fields) { continue; }
      SpanIsProduct(clouds[i].height, clouds[i].width);
      totalPoints := totalPoints + clouds[i].width * clouds[i].height;
    }
    assert clouds[..|clouds|] == clouds;
  }

  method BuildCombinedCloud(clouds: seq<Cloud>, target: string) returns (out: Option<Cloud>)
    ensures out == Combine(clouds, target)
  {
    var totalPoints := CountPoints(clouds);
    if |clouds| == 0 || totalPoints == 0 { return None; }
    var base := clouds[0];
    var data: seq<byte>, dense, stamp := [], true, base.stamp;
    for i := 0 to |clouds|
      invariant data == Joined(Matching(clouds[..i], base))
      invariant dense == AllDense(Matching(clouds[..i], base))
      invariant stamp == Newest(Matching(clouds[..i], base), base.stamp)
    {
      MatchingTurn(clouds, i, base);
      if clouds[i].pointStep != base.pointStep || clouds[i].fields != base.fields { continue; }
      data := data + clouds[i].data;
      dense := dense && clouds[i].dense;
      if clouds[i].stamp > stamp { stamp := clouds[i].stamp; }
    }
    assert clouds[..|clouds|] == clouds;
    if data == [] { return None; }
    var width := Wrap32(totalPoints);
    SpanIsProduct(width, base.pointStep);
    out := Some(Cloud(stamp, target, 1, width, base.fields, base.bigEndian, base.pointStep,
                      Wrap32(base.pointStep * width), data, dense));
  }

  // ---- what the result contains ----

  /** Every cloud is included as often as it was given if its schema is the base's, and never otherwise. */
  lemma {:induction false} MatchingCounts(clouds: seq<Cloud>, base: Cloud, c: Cloud)
    ensures multiset(Matching(clouds, base))[c] == if SameSchema(c, base) then multiset(clouds)[c] else 0
  {
    if clouds != [] {
      var init, last := clouds[..|clouds| - 1], clouds[|clouds| - 1];
      MatchingCounts(init, base, c);
      assert clouds == init + [last];
    }
  }

  lemma {:induction false} MatchingMembers(clouds: seq<Cloud>, base: Cloud, c: Cloud)
    ensures c in Matching(clouds, base) <==> c in clouds && SameSchema(c, base)
  {
    MatchingCounts(clouds, base, c);
    assert c in Matching(clouds, base) <==> c in multiset(Matching(clouds, base));
    assert c in clouds <==> c in multiset(clouds);
  }

  /** Newest is attained and is an upper bound. */
  lemma {:induction false} NewestIsMaximum(clouds: seq<Cloud>, floor: nat)
    ensures Newest(clouds, floor) >= floor
    ensures forall c :: c in clouds ==> c.stamp <= Newest(clouds, floor)
    ensures Newest(clouds, floor) == floor || exists c :: c in clouds && c.stamp == Newest(clouds, floor)
  {
    if clouds != [] {
      var init, last := clouds[..|clouds| - 1], clouds[|clouds| - 1];
      NewestIsMaximum(init, floor);
      assert forall c :: c in clouds <==> c in init || c == last;
      assert last in clouds;
    }
  }

  /** The published stamp is the newest among the included clouds. */
  lemma CombinedStamp(clouds: seq<Cloud>, target: string, c: Cloud)
    requires Combine(clouds, target).Some?
    ensures c in clouds && SameSchema(c, clouds[0]) ==> c.stamp <= Combine(clouds, target).value.stamp
    ensures exists d :: d in clouds && SameSchema(d, clouds[0]) && d.stamp == Combine(clouds, target).value.stamp
  {
    var parts := Included(clouds);
    var stamp := Combine(clouds, target).value.stamp;
    NewestIsMaximum(parts, clouds[0].stamp);
    MatchingMembers(clouds, clouds[0], c);
    if stamp == clouds[0].stamp {
      assert clouds[0] in clouds && SameSchema(clouds[0], clouds[0]);
    } else {
      var d :| d in parts && d.stamp == stamp;
      MatchingMembers(clouds, clouds[0], d);
    }
  }

  /** Each included cloud announces exactly the bytes it carries. */
  predicate Tight(clouds: seq<Cloud>, step: nat) {
    forall i :: 0 <= i < |clouds| ==> clouds[i].pointStep == step && |clouds[i].data| == Span(clouds[i].Points(), step)
  }

  lemma {:induction false} JoinedLength(clouds: seq<Cloud>, step: nat)
    requires Tight(clouds, step)
    ensures |Joined(clouds)| == Span(Total(clouds), step)
  {
    if clouds != [] {
      var init, last := clouds[..|clouds| - 1], clouds[|clouds| - 1];
      JoinedLength(init, step);
      SpanPlus(Total(init), last.Points(), step);
    }
  }

  lemma RecBefore(a: seq<byte>, b: seq<byte>, step: nat, k: nat)
    requires Span(k, step) + step <= |a|
    ensures Rec(a + b, step, k) == Rec(a, step, k)
  {
  }

  lemma RecAfter(a: seq<byte>, b: seq<byte>, step: nat, m: nat, j: nat)
    requires |a| == Span(m, step) && Span(j, step) + step <= |b|
    ensures Span(m + j, step) + step <= |a + b|
    ensures Rec(a + b, step, m + j) == Rec(b, step, j)
  {
    SpanPlus(m, j, step);
    var from := Span(j, step);
    assert (a + b)[|a| + from..|a| + from + step] == b[from..from + step];
  }

  /** Point `j` of part `i` is point `Total(parts[..i]) + j` of the joined buffer. */
  lemma {:induction false} JoinedPoint(parts: seq<Cloud>, step: nat, i: nat, j: nat, k: nat)
    requires Tight(parts, step) && i < |parts| && j < parts[i].Points()
    requires k == Total(parts[..i]) + j
    ensures k < Total(parts)
    ensures Span(k, step) + step <= |Joined(parts)| && Span(j, step) + step <= |parts[i].data|
    ensures Rec(Joined(parts), step, k) == Rec(parts[i].data, step, j)
  {
    var init, last := parts[..|parts| - 1], parts[|parts| - 1];
    SpanWithin(j, parts[i].Points(), step);
    JoinedLength(init, step);
    if i < |init| {
      assert init[..i] == parts[..i];
      JoinedPoint(init, step, i, j, k);
      RecBefore(Joined(init), last.data, step, k);
    } else {
      RecAfter(Joined(init), last.data, step, Total(init), j);
    }
  }

  /** Conversely every point of the joined buffer comes from some part. */
  lemma {:induction false} JoinedSource(parts: seq<Cloud>, k: nat) returns (i: nat, j: nat)
    requires k < Total(parts)
    ensures i < |parts| && j < parts[i].Points() && k == Total(parts[..i]) + j
  {
    var init := parts[..|parts| - 1];
    if k < Total(init) {
      i, j := JoinedSource(init, k);
      assert init[..i] == parts[..i];
    } else {
      i, j := |init|, k - Total(init);
    }
  }

  /** Conservation: with tightly packed parts and fewer than 2^32 points, the message announces exactly the points
      of the included clouds and carries exactly their bytes. */
  lemma CombinedConserves(clouds: seq<Cloud>, target: string, parts: seq<Cloud>, out: Cloud)
    requires clouds != [] && parts == Included(clouds) && Tight(parts, clouds[0].pointStep)
    requires Total(parts) < TWO_32 && Combine(clouds, target) == Some(out)
    ensures out.width == Total(parts) && out.height == 1
    ensures |out.data| == out.width * out.pointStep
    ensures |out.data| < TWO_32 ==> out.rowStep == |out.data|
    ensures out.rowStep == Wrap32(out.width * out.pointStep) && out.bigEndian == clouds[0].bigEndian
  {
    JoinedLength(parts, clouds[0].pointStep);
    SpanIsProduct(Total(parts), clouds[0].pointStep);
  }
}
