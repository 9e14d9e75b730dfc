/** The per-sender summary the web API serves: the point count, the latest fix, and an
    altitude trend over the last five points. */
module Summary {
  import opened Common
  import opened Records
  import History

  /** `'rising'`, `'falling'` or `'stable'`. */
  datatype Trend = Rising | Falling | Stable

  /** The dictionary `_calculate_altitude_trend` returns. */
  datatype AltitudeInfo = AltitudeInfo(currentAltitude: Option<real>, trend: Trend, change: real)

  /** The fixed noise gate of the trend, in metres. */
  const Threshold: real := 5.0

  /** `round(x, 1)` on exact values: the nearest multiple of 0.1, a tie going to the even
      multiple. */
  function RoundTenths(x: real): (r: real)
    ensures -0.05 <= r - x <= 0.05
    ensures (r * 10.0).Floor as real == r * 10.0
  {
    var y := x * 10.0;
    var f := y.Floor;
    var d := y - f as real;
    var n := if d < 0.5 then f else if d > 0.5 then f + 1 else if f % 2 == 0 then f else f + 1;
    n as real / 10.0
  }

  /** A value that already is a multiple of 0.1 rounds to itself. */
  lemma RoundTenthsOfTenths(k: int)
    ensures RoundTenths(k as real / 10.0) == k as real / 10.0
  {
    var x := k as real / 10.0;
    assert x * 10.0 == k as real;
  }

  /** `points[-5:] if len(points) >= 5 else points`. */
  function Recent(points: seq<Record>): (r: seq<Record>)
    ensures |r| == (if |points| >= 5 then 5 else |points|)
    ensures r == points[|points| - |r|..]
  {
    if |points| >= 5 then points[|points| - 5..] else points
  }

  /** The altitudes present among `points`, in order. */
  function Altitudes(points: seq<Record>): (r: seq<real>)
    ensures |r| <= |points|
    ensures (forall i :: 0 <= i < |points| ==> points[i].altitude.Some?) ==> |r| == |points|
    ensures r == [] <==> forall i :: 0 <= i < |points| ==> points[i].altitude.None?
    decreases |points|
  {
    if points == [] then []
    else
      var init, last := points[..|points| - 1], points[|points| - 1];
      assert forall i :: 0 <= i < |init| ==> init[i] == points[i];
      Altitudes(init) + (if last.altitude.Some? then [last.altitude.value] else [])
  }

  /** The first altitude collected is that of the first point that has one. */
  lemma {:induction false} AltitudesFirst(points: seq<Record>, i: int)
    requires 0 <= i < |points| && points[i].altitude.Some?
    requires forall j :: 0 <= j < i ==> points[j].altitude.None?
    ensures Altitudes(points) != [] && Altitudes(points)[0] == points[i].altitude.value
    decreases |points|
  {
    var n := |points| - 1;
    var init := points[..n];
    if i < n {
      assert init[i] == points[i];
      assert forall j :: 0 <= j < i ==> init[j] == points[j];
      AltitudesFirst(init, i);
    } else {
      assert forall j :: 0 <= j < |init| ==> init[j] == points[j];
      assert Altitudes(init) == [];
    }
  }

  /** The last altitude collected is that of the last point that has one. */
  lemma {:induction false} AltitudesLast(points: seq<Record>, i: int)
    requires 0 <= i < |points| && points[i].altitude.Some?
    requires forall j :: i < j < |points| ==> points[j].altitude.None?
    ensures Altitudes(points) != [] && Altitudes(points)[|Altitudes(points)| - 1] == points[i].altitude.value
    decreases |points|
  {
    var n := |points| - 1;
    var init := points[..n];
    if i < n {
      assert init[i] == points[i];
      assert forall j :: i < j < |init| ==> init[j] == points[j];
      AltitudesLast(init, i);
    }
  }

  /** The rounded altitude of the last point, when it has one. */
  function CurrentAltitude(points: seq<Record>): (r: Option<real>)
    ensures r.Some? <==> points != [] && points[|points| - 1].altitude.Some?
    ensures r.Some? ==> r.value == RoundTenths(points[|points| - 1].altitude.value)
    ensures r.Some? ==> -0.05 <= r.value - points[|points| - 1].altitude.value <= 0.05
  {
    if points != [] && points[|points| - 1].altitude.Some? then
      Some(RoundTenths(points[|points| - 1].altitude.value))
    else None
  }

  /** The trend of a change against the gate; a change of exactly the gate is stable. */
  function TrendOf(change: real): (t: Trend)
    ensures t == Rising <==> change > Threshold
    ensures t == Falling <==> change < -Threshold
  {
    if change > Threshold then Rising
    else if change < -Threshold then Falling
    else Stable
  }

  /** `_calculate_altitude_trend`. */
  function AltitudeTrend(points: seq<Record>): (r: AltitudeInfo)
    ensures r.currentAltitude == CurrentAltitude(points)
    ensures var alts := Altitudes(Recent(points));
      && (|alts| < 2 ==> r.trend == Stable && r.change == 0.0)
      && (|alts| >= 2 ==> r.trend == TrendOf(alts[|alts| - 1] - alts[0]))
      && (|alts| >= 2 ==> r.change == RoundTenths(alts[|alts| - 1] - alts[0]))
  {
    var current := CurrentAltitude(points);
    if |points| < 2 then
      AltitudeInfo(current, Stable, 0.0)
    else
      var alts := Altitudes(Recent(points));
      if |alts| < 2 then AltitudeInfo(current, Stable, 0.0)
      else
        var change := alts[|alts| - 1] - alts[0];
        AltitudeInfo(current, TrendOf(change), RoundTenths(change))
  }

  /** The reported (rounded) change never contradicts the trend: a rising trend reports at
      least 5.0, a falling one at most -5.0, a stable one a change within [-5.0, 5.0]. */
  lemma ChangeAgreesWithTrend(points: seq<Record>)
    ensures AltitudeTrend(points).trend == Rising ==> AltitudeTrend(points).change >= Threshold
    ensures AltitudeTrend(points).trend == Falling ==> AltitudeTrend(points).change <= -Threshold
    ensures AltitudeTrend(points).trend == Stable ==> -Threshold <= AltitudeTrend(points).change <= Threshold
  {
    var alts := Altitudes(Recent(points));
    if |points| >= 2 && |alts| >= 2 {
      RoundedChangeAgrees(alts[|alts| - 1] - alts[0]);
    }
  }

  /** Rounding a change to tenths keeps it on the same side of the gate. */
  lemma RoundedChangeAgrees(change: real)
    ensures TrendOf(change) == Rising ==> RoundTenths(change) >= Threshold
    ensures TrendOf(change) == Falling ==> RoundTenths(change) <= -Threshold
    ensures TrendOf(change) == Stable ==> -Threshold <= RoundTenths(change) <= Threshold
  {
    var y := change * 10.0;
    var f := y.Floor;
    if change > Threshold {
      assert y > 50.0;
      assert f >= 50;
    } else if change < -Threshold {
      assert y < -50.0;
      assert f <= -51;
    } else {
      assert -50.0 <= y <= 50.0;
      assert -50 <= f <= 50;
    }
  }

  /** Only the last five points matter: older points before them change nothing. */
  lemma TrendIgnoresOlderPoints(older: seq<Record>, points: seq<Record>)
    requires |points| >= 5
    ensures AltitudeTrend(older + points) == AltitudeTrend(points)
  {
    var all := older + points;
    assert all[|all| - 5..] == points[|points| - 5..];
    assert Altitudes(Recent(all)) == Altitudes(Recent(points));
    assert all[|all| - 1] == points[|points| - 1];
    assert CurrentAltitude(all) == CurrentAltitude(points);
  }

  /** A point with the given altitude; only the altitude is read by the trend. */
  predicate HasAltitude(p: Record, a: real) {
    p.altitude == Some(a)
  }

  /** 500 -> 502 -> 498: a 2 m drop is inside the gate, so the trend is stable at 498.0. */
  lemma StableExample(p0: Record, p1: Record, p2: Record)
    requires HasAltitude(p0, 500.0) && HasAltitude(p1, 502.0) && HasAltitude(p2, 498.0)
    ensures AltitudeTrend([p0, p1, p2]) == AltitudeInfo(Some(498.0), Stable, -2.0)
  {
    var ps := [p0, p1, p2];
    assert Recent(ps) == ps;
    assert Altitudes(ps[..1]) == [500.0];
    assert Altitudes(ps[..2]) == [500.0, 502.0];
    assert Altitudes(ps) == [500.0, 502.0, 498.0];
    RoundTenthsOfTenths(4980);
    RoundTenthsOfTenths(-20);
  }

  /** 100 -> 110 -> 120: a 20 m climb is rising at 120.0. */
  lemma RisingExample(p0: Record, p1: Record, p2: Record)
    requires HasAltitude(p0, 100.0) && HasAltitude(p1, 110.0) && HasAltitude(p2, 120.0)
    ensures AltitudeTrend([p0, p1, p2]) == AltitudeInfo(Some(120.0), Rising, 20.0)
  {
    var ps := [p0, p1, p2];
    assert Recent(ps) == ps;
    assert Altitudes(ps[..1]) == [100.0];
    assert Altitudes(ps[..2]) == [100.0, 110.0];
    assert Altitudes(ps) == [100.0, 110.0, 120.0];
    RoundTenthsOfTenths(1200);
    RoundTenthsOfTenths(200);
  }

  /** 200 -> 190 -> 180: a 20 m descent is falling at 180.0, with change -20.0. */
  lemma FallingExample(p0: Record, p1: Record, p2: Record)
    requires HasAltitude(p0, 200.0) && HasAltitude(p1, 190.0) && HasAltitude(p2, 180.0)
    ensures AltitudeTrend([p0, p1, p2]) == AltitudeInfo(Some(180.0), Falling, -20.0)
  {
    var ps := [p0, p1, p2];
    assert Recent(ps) == ps;
    assert Altitudes(ps[..1]) == [200.0];
    assert Altitudes(ps[..2]) == [200.0, 190.0];
    assert Altitudes(ps) == [200.0, 190.0, 180.0];
    RoundTenthsOfTenths(1800);
    RoundTenthsOfTenths(-200);
  }

  /** One entry of `get_sender_summary`. */
  datatype SenderSummary = SenderSummary(
    totalPoints: nat,
    latestPosition: (real, real),
    latestTime: Option<string>,
    emergencyActive: bool,
    altitude: Option<real>,
    altitudeTrend: Trend,
    altitudeChange: real)

  /** The summary of a non-empty history: its last point gives the position, time and
      emergency flag (false when the point has none). */
  function SummaryOf(points: seq<Record>): (r: SenderSummary)
    requires points != []
    ensures r.totalPoints == |points|
    ensures r.latestPosition == (points[|points| - 1].lat, points[|points| - 1].lng)
    ensures r.emergencyActive <==> points[|points| - 1].emergency == Some(true)
    ensures r.latestTime == points[|points| - 1].timestamp
    ensures r.altitude == AltitudeTrend(points).currentAltitude
    ensures r.altitudeTrend == AltitudeTrend(points).trend
    ensures r.altitudeChange == AltitudeTrend(points).change
  {
    var latest := points[|points| - 1];
    var info := AltitudeTrend(points);
    SenderSummary(|points|, (latest.lat, latest.lng), latest.timestamp, latest.emergency.GetOr(false),
      info.currentAltitude, info.trend, info.change)
  }

  /** `get_sender_summary`: one entry per sender with a non-empty history. */
  function Summaries(data: map<SenderId, seq<Record>>): (r: map<SenderId, SenderSummary>)
    ensures forall s :: s in r <==> s in data && data[s] != []
    ensures forall s :: s in r ==> r[s] == SummaryOf(data[s])
  {
    map s | s in data && data[s] != [] :: SummaryOf(data[s])
  }

  /** On a consistent store the summary covers every sender, counts at most the cap, and
      reports each sender's latest position. */
  lemma SummariesOfConsistentStore(st: History.Store, cap: nat, s: SenderId)
    requires History.Consistent(st, cap) && s in st.data
    ensures s in Summaries(st.data)
    ensures 1 <= Summaries(st.data)[s].totalPoints <= cap
    ensures Summaries(st.data)[s].latestPosition == (st.latest[s].lat, st.latest[s].lng)
  {
    assert History.GoodHistory(st.data[s], st.latest[s], s, cap);
  }

  /** The summary of one sender's non-empty history counts its points and reports its last one. */
  lemma SummaryAt(data: map<SenderId, seq<Record>>, s: SenderId)
    requires s in data && data[s] != []
    ensures s in Summaries(data)
    ensures Summaries(data)[s].totalPoints == |data[s]|
    ensures Summaries(data)[s].latestPosition == (data[s][|data[s]| - 1].lat, data[s][|data[s]| - 1].lng)
  {
  }

  /** After a batch with points of sender `s`, its summary reports the last of them and counts
      the old history plus the new points, capped. */
  lemma SummaryAfterBatch(st: History.Store, ps: seq<Record>, cap: nat, s: SenderId)
    requires cap >= 1 && History.OfSender(ps, s) != []
    ensures var st', f := History.AppendBatch(st, ps, cap), History.OfSender(ps, s);
      && s in Summaries(st'.data)
      && Summaries(st'.data)[s].latestPosition == (f[|f| - 1].lat, f[|f| - 1].lng)
      && Summaries(st'.data)[s].totalPoints == (if |History.HistoryOf(st, s)| + |f| <= cap then |History.HistoryOf(st, s)| + |f| else cap)
  {
    HistoryAfterBatch(st, ps, cap, s);
    SummaryAt(History.AppendBatch(st, ps, cap).data, s);
  }

  /** After a batch holding points of `s`, the history of `s` is non-empty, ends with the
      last of them, and holds the earlier and new points up to the cap. */
  lemma HistoryAfterBatch(st: History.Store, ps: seq<Record>, cap: nat, s: SenderId)
    requires cap >= 1 && History.OfSender(ps, s) != []
    ensures s in History.AppendBatch(st, ps, cap).data
    ensures History.AppendBatch(st, ps, cap).data[s] ==
      History.Trim(History.HistoryOf(st, s) + History.OfSender(ps, s), cap)
    ensures var h, f := History.AppendBatch(st, ps, cap).data[s], History.OfSender(ps, s);
      h != [] && h[|h| - 1] == f[|f| - 1]
  {
    History.AppendBatchHistory(st, ps, cap, s);
    History.TrimKeepsLast(History.HistoryOf(st, s), History.OfSender(ps, s), cap);
  }
}
