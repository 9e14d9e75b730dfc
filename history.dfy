/** The in-memory half of the tracker's store: per-sender bounded histories and the latest
    position of each sender, filled by `store_gps_data` and by `load_historical_data`. */
module History {
  import opened Common
  import opened Records

  /** The two dictionaries: `gps_data` (sender to records, oldest first) and `latest_positions`. */
  datatype Store = Store(data: map<SenderId, seq<Record>>, latest: map<SenderId, Record>)

  const Empty: Store := Store(map[], map[])

  /** `if len(lst) > cap: lst = lst[-cap:]`: for a cap of at least 1 the last `cap` records
      are kept; a cap of 0 keeps everything, since `lst[-0:]` is the whole list. */
  function Trim<T>(s: seq<T>, cap: nat): (r: seq<T>)
    ensures cap >= 1 ==> |r| == (if |s| <= cap then |s| else cap) && r == s[|s| - |r|..]
    ensures cap == 0 ==> r == s
  {
    if |s| > cap && cap > 0 then s[|s| - cap..] else s
  }

  /** Trimming keeps the newest point: with a cap of at least 1, the trimmed list ends with
      the last point appended. */
  lemma TrimKeepsLast<T>(a: seq<T>, b: seq<T>, cap: nat)
    requires cap >= 1 && b != []
    ensures Trim(a + b, cap) != [] && Trim(a + b, cap)[|Trim(a + b, cap)| - 1] == b[|b| - 1]
  {
    var ab, t := a + b, Trim(a + b, cap);
    assert t == ab[|ab| - |t|..];
    assert ab[|ab| - 1] == b[|b| - 1];
  }

  /** `gps_data[sender]` of a defaultdict: the empty list for a sender never seen. */
  function HistoryOf(st: Store, s: SenderId): seq<Record> {
    if s in st.data then st.data[s] else []
  }

  /** One pass of the loop of `store_gps_data`: append, trim to the cap, set the latest position. */
  function AppendPoint(st: Store, p: Record, cap: nat): Store {
    Store(st.data[p.sender := Trim(HistoryOf(st, p.sender) + [p], cap)], st.latest[p.sender := p])
  }

  /** `store_gps_data` on a batch: the points appended one at a time, in order. */
  function AppendBatch(st: Store, ps: seq<Record>, cap: nat): Store
    decreases |ps|
  {
    if ps == [] then st
    else AppendPoint(AppendBatch(st, ps[..|ps| - 1], cap), ps[|ps| - 1], cap)
  }

  /** The records of `ps` from sender `s`, in order. */
  function OfSender(ps: seq<Record>, s: SenderId): (r: seq<Record>)
    ensures |r| <= |ps|
    ensures forall x :: x in r ==> x in ps && x.sender == s
    decreases |ps|
  {
    if ps == [] then []
    else OfSender(ps[..|ps| - 1], s) + (if ps[|ps| - 1].sender == s then [ps[|ps| - 1]] else [])
  }

  /** The store invariant: both dictionaries have the same senders, every history is non-empty,
      no longer than the cap, holds only its sender's records and ends with its latest position. */
  ghost predicate Consistent(st: Store, cap: nat) {
    && st.data.Keys == st.latest.Keys
    && forall s :: s in st.data ==> GoodHistory(st.data[s], st.latest[s], s, cap)
  }

  /** Trimming before or after one more append gives the same list. */
  lemma TrimAppend<T>(a: seq<T>, x: T, cap: nat)
    ensures Trim(Trim(a, cap) + [x], cap) == Trim(a + [x], cap)
  {
    if cap >= 1 && |a| > cap {
      var t := a[|a| - cap..];
      assert Trim(a, cap) == t;
      assert Trim(t + [x], cap) == (t + [x])[1..] == a[|a| - cap + 1..] + [x];
      assert Trim(a + [x], cap) == (a + [x])[|a| + 1 - cap..] == a[|a| - cap + 1..] + [x];
    }
  }

  /** The invariant's condition on one sender's history. */
  ghost predicate GoodHistory(h: seq<Record>, last: Record, s: SenderId, cap: nat) {
    && 1 <= |h| <= cap
    && last == h[|h| - 1]
    && forall x :: x in h ==> x.sender == s
  }

  /** The trimmed history of one sender after an append satisfies the invariant's condition. */
  lemma AppendedHistoryGood(h: seq<Record>, p: Record, cap: nat)
    requires cap >= 1 && forall x :: x in h ==> x.sender == p.sender
    ensures GoodHistory(Trim(h + [p], cap), p, p.sender, cap)
  {
    var l := h + [p];
    var t := Trim(l, cap);
    assert t[|t| - 1] == p;
    forall x | x in t
      ensures x.sender == p.sender
    {
      assert x in l;
    }
  }

  /** Replacing one sender's history and latest position by a good pair keeps the invariant. */
  lemma ConsistentUpdate(st: Store, k: SenderId, h: seq<Record>, last: Record, cap: nat)
    requires Consistent(st, cap) && GoodHistory(h, last, k, cap)
    ensures Consistent(Store(st.data[k := h], st.latest[k := last]), cap)
  {
    var st' := Store(st.data[k := h], st.latest[k := last]);
    forall s | s in st'.data
      ensures GoodHistory(st'.data[s], st'.latest[s], s, cap)
    {
      if s != k {
        assert GoodHistory(st.data[s], st.latest[s], s, cap);
      }
    }
  }

  /** `store_gps_data` keeps the store invariant when the cap is at least 1. */
  lemma AppendPointConsistent(st: Store, p: Record, cap: nat)
    requires cap >= 1 && Consistent(st, cap)
    ensures Consistent(AppendPoint(st, p, cap), cap)
  {
    var k := p.sender;
    if k in st.data {
      assert GoodHistory(st.data[k], st.latest[k], k, cap);
    }
    AppendedHistoryGood(HistoryOf(st, k), p, cap);
    ConsistentUpdate(st, k, Trim(HistoryOf(st, k) + [p], cap), p, cap);
  }

  /** One more point of a batch. */
  lemma AppendBatchSnoc(st: Store, ps: seq<Record>, i: nat, mid: Store, cap: nat)
    requires i < |ps| && mid == AppendBatch(st, ps[..i], cap)
    ensures AppendPoint(mid, ps[i], cap) == AppendBatch(st, ps[..i + 1], cap)
  {
    assert ps[..i + 1][..i] == ps[..i];
  }

  /** The histories after one append, with the trim written as the slice `lst[-cap:]`. */
  lemma AppendPointData(st: Store, p: Record, cap: nat)
    requires cap >= 1
    ensures var list := HistoryOf(st, p.sender) + [p];
      AppendPoint(st, p, cap).data == st.data[p.sender := if |list| > cap then list[|list| - cap..] else list]
  {
  }

  /** The invariant survives a whole batch. */
  lemma {:induction false} AppendBatchConsistent(st: Store, ps: seq<Record>, cap: nat)
    requires cap >= 1 && Consistent(st, cap)
    ensures Consistent(AppendBatch(st, ps, cap), cap)
    decreases |ps|
  {
    if ps != [] {
      AppendBatchConsistent(st, ps[..|ps| - 1], cap);
      AppendPointConsistent(AppendBatch(st, ps[..|ps| - 1], cap), ps[|ps| - 1], cap);
    }
  }

  /** A batch with one more point at its end. */
  lemma AppendBatchLast(st: Store, init: seq<Record>, x: Record, cap: nat)
    ensures AppendBatch(st, init + [x], cap) == AppendPoint(AppendBatch(st, init, cap), x, cap)
  {
    var ps := init + [x];
    assert ps[..|ps| - 1] == init;
  }

  /** Appending a batch in two parts is appending it at once. */
  lemma {:induction false} AppendBatchSplit(st: Store, a: seq<Record>, b: seq<Record>, cap: nat)
    ensures AppendBatch(st, a + b, cap) == AppendBatch(AppendBatch(st, a, cap), b, cap)
    decreases |b|
  {
    if b == [] {
      assert a + b == a;
    } else {
      var init, x := b[..|b| - 1], b[|b| - 1];
      assert b == init + [x];
      assert a + b == (a + init) + [x];
      AppendBatchSplit(st, a, init, cap);
      AppendBatchLast(st, a + init, x, cap);
      AppendBatchLast(AppendBatch(st, a, cap), init, x, cap);
    }
  }

  /** The effect of a batch on one sender: with none of its points the history is untouched;
      otherwise it is the old one followed by the sender's points in order, trimmed to the cap. */
  lemma {:induction false} AppendBatchPerSender(st: Store, ps: seq<Record>, cap: nat, s: SenderId)
    ensures var st', f := AppendBatch(st, ps, cap), OfSender(ps, s);
      && (f == [] ==> (s in st'.data <==> s in st.data) && HistoryOf(st', s) == HistoryOf(st, s))
      && (f != [] ==> s in st'.data && st'.data[s] == Trim(HistoryOf(st, s) + f, cap))
    decreases |ps|
  {
    if ps != [] {
      var init, x := ps[..|ps| - 1], ps[|ps| - 1];
      AppendBatchPerSender(st, init, cap, s);
      var mid, f0 := AppendBatch(st, init, cap), OfSender(init, s);
      var f := OfSender(ps, s);
      assert AppendBatch(st, ps, cap).data == mid.data[x.sender := Trim(HistoryOf(mid, x.sender) + [x], cap)];
      if x.sender == s {
        assert f == f0 + [x];
        var h := HistoryOf(st, s);
        if f0 == [] {
          assert HistoryOf(mid, s) == h;
          assert f == [x];
        } else {
          assert HistoryOf(mid, s) == Trim(h + f0, cap);
          TrimAppend(h + f0, x, cap);
          AppendAssoc(h, f0, [x]);
        }
      } else {
        assert f == f0;
      }
    }
  }

  /** The history of a sender with points in the batch, as `AppendBatchPerSender` gives it. */
  lemma AppendBatchHistory(st: Store, ps: seq<Record>, cap: nat, s: SenderId)
    requires OfSender(ps, s) != []
    ensures s in AppendBatch(st, ps, cap).data
    ensures AppendBatch(st, ps, cap).data[s] == Trim(HistoryOf(st, s) + OfSender(ps, s), cap)
  {
    AppendBatchPerSender(st, ps, cap, s);
  }

  /** A non-empty batch is its prefix followed by its last point. */
  lemma AppendBatchUnfold(st: Store, ps: seq<Record>, cap: nat)
    requires ps != []
    ensures AppendBatch(st, ps, cap) == AppendPoint(AppendBatch(st, ps[..|ps| - 1], cap), ps[|ps| - 1], cap)
  {
  }

  /** The sender's points of a non-empty batch. */
  lemma OfSenderUnfold(ps: seq<Record>, s: SenderId)
    requires ps != []
    ensures OfSender(ps, s) == OfSender(ps[..|ps| - 1], s) + (if ps[|ps| - 1].sender == s then [ps[|ps| - 1]] else [])
  {
  }

  /** One point's effect on a sender's latest position. */
  lemma LatestAfterPoint(st: Store, x: Record, cap: nat, s: SenderId)
    ensures x.sender == s ==> s in AppendPoint(st, x, cap).latest && AppendPoint(st, x, cap).latest[s] == x
    ensures x.sender != s ==> (s in AppendPoint(st, x, cap).latest <==> s in st.latest)
    ensures x.sender != s && s in st.latest ==> AppendPoint(st, x, cap).latest[s] == st.latest[s]
  {
  }

  /** The effect of a batch on one sender's latest position: untouched without any of its
      points, otherwise the last of them. */
  lemma {:induction false} LatestPerSender(st: Store, ps: seq<Record>, cap: nat, s: SenderId)
    ensures var st', f := AppendBatch(st, ps, cap), OfSender(ps, s);
      && (f == [] ==> (s in st'.latest <==> s in st.latest) && (s in st.latest ==> st'.latest[s] == st.latest[s]))
      && (f != [] ==> s in st'.latest && st'.latest[s] == f[|f| - 1])
    decreases |ps|
  {
    if ps != [] {
      var init, x := ps[..|ps| - 1], ps[|ps| - 1];
      LatestPerSender(st, init, cap, s);
      AppendBatchUnfold(st, ps, cap);
      OfSenderUnfold(ps, s);
      LatestAfterPoint(AppendBatch(st, init, cap), x, cap, s);
    }
  }

  /** The records of `ps` all come from sender `s`. */
  lemma {:induction false} OfOneSender(ps: seq<Record>, s: SenderId)
    requires forall x :: x in ps ==> x.sender == s
    ensures OfSender(ps, s) == ps
    decreases |ps|
  {
    if ps != [] {
      assert ps[..|ps| - 1] + [ps[|ps| - 1]] == ps;
      OfOneSender(ps[..|ps| - 1], s);
    }
  }

  /** `OfSender` is the filter of the batch by sender: a point of `s` is appended right after
      the points of `s` before it, and any other point is skipped. */
  lemma OfSenderStep(ps: seq<Record>, s: SenderId)
    ensures forall i :: 0 <= i < |ps| && ps[i].sender == s ==>
      OfSender(ps[..i + 1], s) == OfSender(ps[..i], s) + [ps[i]]
    ensures forall i :: 0 <= i < |ps| && ps[i].sender != s ==>
      OfSender(ps[..i + 1], s) == OfSender(ps[..i], s)
  {
    forall i | 0 <= i < |ps|
      ensures OfSender(ps[..i + 1], s) ==
        OfSender(ps[..i], s) + (if ps[i].sender == s then [ps[i]] else [])
    {
      assert ps[..i + 1][..i] == ps[..i];
    }
  }

  /** The points of `s` among a prefix of the batch come first, in the same order. */
  lemma {:induction false} OfSenderPrefix(ps: seq<Record>, s: SenderId)
    ensures forall i :: 0 <= i <= |ps| ==> OfSender(ps[..i], s) <= OfSender(ps, s)
    decreases |ps|
  {
    if ps != [] {
      var n := |ps| - 1;
      var init := ps[..n];
      OfSenderPrefix(init, s);
      forall i | 0 <= i <= |ps|
        ensures OfSender(ps[..i], s) <= OfSender(ps, s)
      {
        if i <= n {
          assert ps[..i] == init[..i];
        } else {
          assert ps[..i] == ps;
        }
      }
    }
  }

  /** Every point of `s` in the batch is kept. */
  lemma OfSenderKeepsAll(ps: seq<Record>, s: SenderId)
    ensures forall i :: 0 <= i < |ps| && ps[i].sender == s ==> ps[i] in OfSender(ps, s)
  {
    OfSenderStep(ps, s);
    OfSenderPrefix(ps, s);
    forall i | 0 <= i < |ps| && ps[i].sender == s
      ensures ps[i] in OfSender(ps, s)
    {
      var f := OfSender(ps[..i + 1], s);
      assert f[|f| - 1] == ps[i];
      assert f <= OfSender(ps, s);
    }
  }

  /** The last point of `s` in the batch ends the filtered list. */
  lemma {:induction false} OfSenderLast(ps: seq<Record>, s: SenderId, i: int)
    requires 0 <= i < |ps| && ps[i].sender == s
    requires forall j :: i < j < |ps| ==> ps[j].sender != s
    ensures OfSender(ps, s) != [] && OfSender(ps, s)[|OfSender(ps, s)| - 1] == ps[i]
    decreases |ps|
  {
    var n := |ps| - 1;
    OfSenderUnfold(ps, s);
    if i < n {
      var init := ps[..n];
      assert init[i] == ps[i];
      OfSenderLast(init, s, i);
    }
  }

  /** Appending `cap + 5` points of one sender to an empty store keeps exactly the last `cap`,
      the oldest five evicted, and the latest position is the last point appended. */
  lemma CapEvictsOldest(ps: seq<Record>, s: SenderId, cap: nat)
    requires cap >= 1 && |ps| == cap + 5 && forall x :: x in ps ==> x.sender == s
    ensures s in AppendBatch(Empty, ps, cap).data
    ensures AppendBatch(Empty, ps, cap).data[s] == ps[5..]
    ensures AppendBatch(Empty, ps, cap).latest[s] == ps[|ps| - 1]
  {
    OfOneSender(ps, s);
    AppendBatchPerSender(Empty, ps, cap, s);
    LatestPerSender(Empty, ps, cap, s);
    assert HistoryOf(Empty, s) + ps == ps;
  }

  /** With a cap of 0 nothing is ever evicted: every point of the batch stays in its
      sender's history, so the retention cap stops working. */
  lemma ZeroCapNeverEvicts(st: Store, ps: seq<Record>, s: SenderId)
    requires OfSender(ps, s) != []
    ensures s in AppendBatch(st, ps, 0).data
    ensures |AppendBatch(st, ps, 0).data[s]| == |HistoryOf(st, s)| + |OfSender(ps, s)|
  {
    AppendBatchPerSender(st, ps, 0, s);
  }

  /** A row of the `gps_points` table, as the bulk loader's query returns it. */
  datatype Row = Row(
    sender: SenderId,
    senderType: Option<string>,
    latitude: real,
    longitude: real,
    altitude: Option<real>,
    speed: Option<real>,
    course: Option<real>,
    timestamp: Option<string>,
    gpsTime: Option<string>,
    fixType: Option<string>,
    satellites: Option<int>,
    emergency: Option<bool>,
    protocol: Option<string>)

  /** The record built from a row; a missing emergency value reads as false. */
  function RowToRecord(row: Row): (r: Record)
    ensures r.sender == row.sender && r.senderType == row.senderType
    ensures r.lat == row.latitude && r.lng == row.longitude
    ensures r.altitude == row.altitude && r.speed == row.speed && r.course == row.course
    ensures r.timestamp == row.timestamp && r.gpsTime == row.gpsTime && r.fixType == row.fixType
    ensures r.satellites == row.satellites && r.protocol == row.protocol
    ensures r.emergency == Some(row.emergency == Some(true))
  {
    var emergency := row.emergency.GetOr(false);
    assert emergency == (row.emergency == Some(true));
    Record(
      row.sender, row.senderType, row.latitude, row.longitude, row.timestamp, row.protocol,
      row.altitude, row.speed, row.course, row.gpsTime, row.fixType, row.satellites,
      Some(emergency))
  }

  /** The loader's accumulators: `current_sender`, `points_for_sender`, and the store. */
  datatype Loader = Loader(current: SenderId, points: seq<Record>, store: Store)

  /** Python truthiness of `current_sender`: neither None nor the empty string. */
  predicate Truthy(current: SenderId) {
    current.Some? && current.value != ""
  }

  /** Installing the finished run of `current_sender`, trimmed to the cap. */
  function Flush(acc: Loader, cap: nat): Store
    requires cap >= 1
  {
    if Truthy(acc.current) && acc.points != [] then Install(acc.store, acc.current, acc.points, cap)
    else acc.store
  }

  /** One pass of the loader's loop over a row. */
  function LoadRow(acc: Loader, row: Row, cap: nat): Loader
    requires cap >= 1
  {
    var acc' := if acc.current != row.sender then Loader(row.sender, [], Flush(acc, cap)) else acc;
    acc'.(points := acc'.points + [RowToRecord(row)])
  }

  /** The loader's accumulators after the loop has read `rows`. */
  function LoadFold(st: Store, rows: seq<Row>, cap: nat): Loader
    requires cap >= 1
    decreases |rows|
  {
    if rows == [] then Loader(None, [], st)
    else LoadRow(LoadFold(st, rows[..|rows| - 1], cap), rows[|rows| - 1], cap)
  }

  /** One more row read by the loader. */
  lemma LoadFoldSnoc(st: Store, rows: seq<Row>, i: nat, acc: Loader, cap: nat)
    requires cap >= 1 && i < |rows| && acc == LoadFold(st, rows[..i], cap)
    ensures LoadRow(acc, rows[i], cap) == LoadFold(st, rows[..i + 1], cap)
  {
    assert rows[..i + 1][..i] == rows[..i];
  }

  /** `load_historical_data`: the loop over the rows, then the final run installed. */
  function LoadRows(st: Store, rows: seq<Row>, cap: nat): Store
    requires cap >= 1
  {
    Flush(LoadFold(st, rows, cap), cap)
  }

  /** Installing a run keeps the store invariant. */
  lemma FlushConsistent(acc: Loader, cap: nat)
    requires cap >= 1 && Consistent(acc.store, cap)
    requires forall x :: x in acc.points ==> x.sender == acc.current
    ensures Consistent(Flush(acc, cap), cap)
  {
    if Truthy(acc.current) && acc.points != [] {
      var st, k := acc.store, acc.current;
      var kept := Trim(acc.points, cap);
      var last := kept[|kept| - 1];
      forall x | x in kept
        ensures x.sender == k
      {
        assert x in acc.points;
      }
      ConsistentUpdate(st, k, kept, last, cap);
    }
  }

  /** One row keeps the store invariant, and the pending points belong to the current sender. */
  lemma LoadRowConsistent(acc: Loader, row: Row, cap: nat)
    requires cap >= 1 && Consistent(acc.store, cap)
    requires forall x :: x in acc.points ==> x.sender == acc.current
    ensures Consistent(LoadRow(acc, row, cap).store, cap)
    ensures forall x :: x in LoadRow(acc, row, cap).points ==> x.sender == LoadRow(acc, row, cap).current
  {
    FlushConsistent(acc, cap);
  }

  /** The loader keeps the store invariant, and its pending points belong to the current sender. */
  lemma {:induction false} LoadFoldConsistent(st: Store, rows: seq<Row>, cap: nat)
    requires cap >= 1 && Consistent(st, cap)
    ensures Consistent(LoadFold(st, rows, cap).store, cap)
    ensures forall x :: x in LoadFold(st, rows, cap).points ==> x.sender == LoadFold(st, rows, cap).current
    decreases |rows|
  {
    if rows != [] {
      LoadFoldConsistent(st, rows[..|rows| - 1], cap);
      LoadRowConsistent(LoadFold(st, rows[..|rows| - 1], cap), rows[|rows| - 1], cap);
    }
  }

  /** `load_historical_data` keeps the store invariant. */
  lemma LoadRowsConsistent(st: Store, rows: seq<Row>, cap: nat)
    requires cap >= 1 && Consistent(st, cap)
    ensures Consistent(LoadRows(st, rows, cap), cap)
  {
    LoadFoldConsistent(st, rows, cap);
    FlushConsistent(LoadFold(st, rows, cap), cap);
  }

  /** The rows are grouped by sender: the rows of one sender are contiguous, as the query's
      `ORDER BY sender, timestamp` makes them. */
  ghost predicate Grouped(rows: seq<Row>) {
    forall i, j, k :: 0 <= i < j < k < |rows| && rows[i].sender == rows[k].sender ==> rows[j].sender == rows[k].sender
  }

  /** The senders of the rows, as store keys. */
  ghost function Senders(rows: seq<Row>): set<SenderId> {
    set i | 0 <= i < |rows| :: rows[i].sender
  }

  /** The records that replaying `rows` through `store_gps_data` would append: every row
      whose sender is not the empty string. */
  function Replayed(rows: seq<Row>): seq<Record>
    decreases |rows|
  {
    if rows == [] then []
    else Replayed(rows[..|rows| - 1]) + (if Truthy(rows[|rows| - 1].sender) then [RowToRecord(rows[|rows| - 1])] else [])
  }

  /** The store with one sender's run installed, trimmed to the cap. */
  function Install(st: Store, k: SenderId, pts: seq<Record>, cap: nat): Store
    requires cap >= 1 && pts != []
  {
    var kept := Trim(pts, cap);
    Store(st.data[k := kept], st.latest[k := kept[|kept| - 1]])
  }

  /** The histories after appending to an installed run. */
  lemma InstallAppendData(st: Store, pts: seq<Record>, rec: Record, cap: nat)
    requires cap >= 1 && pts != []
    ensures AppendPoint(Install(st, rec.sender, pts, cap), rec, cap).data == st.data[rec.sender := Trim(pts + [rec], cap)]
  {
    TrimAppend(pts, rec, cap);
  }

  /** The latest positions after appending to an installed run. */
  lemma InstallAppendLatest(st: Store, pts: seq<Record>, rec: Record, cap: nat)
    requires cap >= 1 && pts != []
    ensures AppendPoint(Install(st, rec.sender, pts, cap), rec, cap).latest == st.latest[rec.sender := rec]
  {
  }

  /** Installing a run that ends with `rec` makes `rec` the latest position. */
  lemma InstallEndingWith(st: Store, pts: seq<Record>, rec: Record, cap: nat)
    requires cap >= 1
    ensures Install(st, rec.sender, pts + [rec], cap) == Store(st.data[rec.sender := Trim(pts + [rec], cap)], st.latest[rec.sender := rec])
  {
    var kept := Trim(pts + [rec], cap);
    assert kept[|kept| - 1] == rec;
  }

  /** Appending to an installed run is installing the longer run. */
  lemma InstallAppend(st: Store, pts: seq<Record>, rec: Record, cap: nat)
    requires cap >= 1 && pts != []
    ensures AppendPoint(Install(st, rec.sender, pts, cap), rec, cap) == Install(st, rec.sender, pts + [rec], cap)
  {
    InstallAppendData(st, pts, rec, cap);
    InstallAppendLatest(st, pts, rec, cap);
    InstallEndingWith(st, pts, rec, cap);
  }

  /** Continuing a run: installing the longer run is appending the new record to the
      installed shorter one. */
  lemma FlushContinue(acc: Loader, rec: Record, cap: nat)
    requires cap >= 1 && Truthy(acc.current) && acc.points != [] && rec.sender == acc.current
    ensures Flush(acc.(points := acc.points + [rec]), cap) == AppendPoint(Flush(acc, cap), rec, cap)
  {
    InstallAppend(acc.store, acc.points, rec, cap);
  }

  /** Starting a run of a sender the store does not hold: installing it is appending its
      first record. */
  lemma FlushFresh(st: Store, rec: Record, cap: nat)
    requires cap >= 1 && Truthy(rec.sender) && rec.sender !in st.data
    ensures Flush(Loader(rec.sender, [rec], st), cap) == AppendPoint(st, rec, cap)
  {
    assert HistoryOf(st, rec.sender) + [rec] == [rec];
  }

  /** A sender that starts a new run in grouped rows has not been seen before. */
  lemma NewRunIsFresh(rows: seq<Row>)
    requires |rows| >= 2 && Grouped(rows)
    requires rows[|rows| - 2].sender != rows[|rows| - 1].sender
    ensures rows[|rows| - 1].sender !in Senders(rows[..|rows| - 1])
  {
  }

  /** One row's effect on the installed store: the row's record is appended to it, unless
      the row's sender is the empty string, which the loader never installs. */
  lemma FlushLoadRow(acc: Loader, row: Row, cap: nat)
    requires cap >= 1
    requires acc.current.Some? ==> acc.points != []
    requires acc.current != row.sender ==> row.sender !in Flush(acc, cap).data
    ensures Truthy(row.sender) ==> Flush(LoadRow(acc, row, cap), cap) == AppendPoint(Flush(acc, cap), RowToRecord(row), cap)
    ensures !Truthy(row.sender) ==> Flush(LoadRow(acc, row, cap), cap) == Flush(acc, cap)
  {
    var rec := RowToRecord(row);
    if acc.current != row.sender {
      assert LoadRow(acc, row, cap) == Loader(rec.sender, [rec], Flush(acc, cap));
      if Truthy(row.sender) {
        FlushFresh(Flush(acc, cap), rec, cap);
      }
    } else {
      assert LoadRow(acc, row, cap) == acc.(points := acc.points + [rec]);
      if Truthy(row.sender) {
        FlushContinue(acc, rec, cap);
      }
    }
  }

  /** Installing a run adds at most the current sender to the store. */
  lemma FlushKeys(acc: Loader, cap: nat)
    requires cap >= 1
    ensures acc.store.data.Keys <= Flush(acc, cap).data.Keys <= acc.store.data.Keys + {acc.current}
  {
  }

  /** After a row, the loader's current sender is the row's and its run is non-empty. */
  lemma LoadRowShape(acc: Loader, row: Row, cap: nat)
    requires cap >= 1
    ensures LoadRow(acc, row, cap).current == row.sender && LoadRow(acc, row, cap).points != []
    ensures LoadRow(acc, row, cap).store.data.Keys <= Flush(acc, cap).data.Keys
  {
    FlushKeys(acc, cap);
  }

  /** The senders of one more row. */
  lemma SendersSnoc(rows: seq<Row>)
    requires rows != []
    ensures Senders(rows) == Senders(rows[..|rows| - 1]) + {rows[|rows| - 1].sender}
  {
    var n := |rows| - 1;
    forall k | k in Senders(rows)
      ensures k in Senders(rows[..n]) + {rows[n].sender}
    {
      var i :| 0 <= i < |rows| && k == rows[i].sender;
      if i < n {
        assert k == rows[..n][i].sender;
      }
    }
    forall k | k in Senders(rows[..n])
      ensures k in Senders(rows)
    {
      var i :| 0 <= i < n && k == rows[..n][i].sender;
      assert k == rows[i].sender;
    }
  }

  /** The shape of the loader's accumulators, and which senders its store can hold. */
  lemma {:induction false} LoadShape(rows: seq<Row>, cap: nat)
    requires cap >= 1
    ensures rows == [] ==> LoadFold(Empty, rows, cap) == Loader(None, [], Empty)
    ensures rows != [] ==> LoadFold(Empty, rows, cap).current == rows[|rows| - 1].sender
    ensures rows != [] ==> LoadFold(Empty, rows, cap).points != []
    ensures LoadFold(Empty, rows, cap).store.data.Keys <= Senders(rows)
    ensures Flush(LoadFold(Empty, rows, cap), cap).data.Keys <= Senders(rows)
    decreases |rows|
  {
    if rows != [] {
      var n := |rows| - 1;
      LoadShape(rows[..n], cap);
      SendersSnoc(rows);
      var acc := LoadFold(Empty, rows[..n], cap);
      LoadRowShape(acc, rows[n], cap);
      FlushKeys(LoadRow(acc, rows[n], cap), cap);
    }
  }

  /** A prefix of grouped rows is grouped. */
  lemma GroupedPrefix(rows: seq<Row>, n: nat)
    requires n <= |rows| && Grouped(rows)
    ensures Grouped(rows[..n])
  {
    assert forall i :: 0 <= i < n ==> rows[..n][i] == rows[i];
  }

  /** Replaying one more row appends its record, unless its sender is the empty string. */
  lemma ReplayedSnoc(rows: seq<Row>, cap: nat)
    requires rows != []
    ensures var init, row := rows[..|rows| - 1], rows[|rows| - 1];
      AppendBatch(Empty, Replayed(rows), cap) ==
        if Truthy(row.sender) then AppendPoint(AppendBatch(Empty, Replayed(init), cap), RowToRecord(row), cap)
        else AppendBatch(Empty, Replayed(init), cap)
  {
    var init, row := rows[..|rows| - 1], rows[|rows| - 1];
    if Truthy(row.sender) {
      var r := Replayed(rows);
      assert r[..|r| - 1] == Replayed(init);
    } else {
      assert Replayed(rows) == Replayed(init);
    }
  }

  /** What `FlushLoadRow` needs of the accumulators before the last of grouped rows. */
  lemma LoadBeforeLast(rows: seq<Row>, cap: nat)
    requires cap >= 1 && rows != [] && Grouped(rows)
    ensures var acc, row := LoadFold(Empty, rows[..|rows| - 1], cap), rows[|rows| - 1];
      && (acc.current.Some? ==> acc.points != [])
      && (acc.current != row.sender ==> row.sender !in Flush(acc, cap).data)
  {
    var n := |rows| - 1;
    LoadShape(rows[..n], cap);
    if n >= 1 && LoadFold(Empty, rows[..n], cap).current != rows[n].sender {
      NewRunIsFresh(rows);
    }
  }

  /** Bulk loading rows grouped by sender gives the store that appending, one by one to an
      empty store, the records of the rows whose sender is neither None nor empty gives:
      the loader drops such rows through its truthiness tests, and `Replayed` leaves them
      out of the batch. */
  lemma {:induction false} LoadMatchesReplay(rows: seq<Row>, cap: nat)
    requires cap >= 1 && Grouped(rows)
    ensures LoadRows(Empty, rows, cap) == AppendBatch(Empty, Replayed(rows), cap)
    decreases |rows|
  {
    if rows != [] {
      var n := |rows| - 1;
      var init, row := rows[..n], rows[n];
      GroupedPrefix(rows, n);
      LoadMatchesReplay(init, cap);
      LoadBeforeLast(rows, cap);
      var acc := LoadFold(Empty, init, cap);
      FlushLoadRow(acc, row, cap);
      ReplayedSnoc(rows, cap);
    }
  }

  /** The tracker's in-memory state: `gps_data`, `latest_positions` and the retention cap. */
  class Tracker {
    var gpsData: map<SenderId, seq<Record>>
    var latestPositions: map<SenderId, Record>
    const maxPointsPerSender: nat

    function State(): Store
      reads this
    {
      Store(gpsData, latestPositions)
    }

    ghost predicate Valid()
      reads this
    {
      maxPointsPerSender >= 1 && Consistent(State(), maxPointsPerSender)
    }

    /** The state `__init__` sets up before loading; the cap has passed `Config.validate`. */
    constructor (maxPoints: nat)
      requires maxPoints >= 1
      ensures Valid() && State() == Empty && maxPointsPerSender == maxPoints
    {
      gpsData := map[];
      latestPositions := map[];
      maxPointsPerSender := maxPoints;
    }

    /** One pass of the loop of `store_gps_data`: append to the sender's list, cut it back to
        its last `max_points_per_sender` entries when it is longer, set the latest position. */
    method StorePoint(point: Record)
      requires maxPointsPerSender >= 1
      modifies this
      ensures State() == AppendPoint(old(State()), point, maxPointsPerSender)
    {
      var sender := point.sender;
      var list := (if sender in gpsData then gpsData[sender] else []) + [point];
      gpsData := gpsData[sender := list];
      if |list| > maxPointsPerSender {
        gpsData := gpsData[sender := list[|list| - maxPointsPerSender..]];
      }
      latestPositions := latestPositions[sender := point];
      AppendPointData(old(State()), point, maxPointsPerSender);
    }

    /** The in-memory half of `store_gps_data`. */
    method StoreGpsData(points: seq<Record>)
      requires Valid()
      modifies this
      ensures Valid()
      ensures State() == AppendBatch(old(State()), points, maxPointsPerSender)
    {
      if points == [] {
        return;
      }
      ghost var st0 := State();
      for i := 0 to |points|
        invariant maxPointsPerSender >= 1
        invariant State() == AppendBatch(st0, points[..i], maxPointsPerSender)
      {
        ghost var before := State();
        StorePoint(points[i]);
        AppendBatchSnoc(st0, points, i, before, maxPointsPerSender);
      }
      assert points[..|points|] == points;
      assert State() == AppendBatch(st0, points, maxPointsPerSender);
      AppendBatchConsistent(st0, points, maxPointsPerSender);
    }

    /** The block that installs the run of `current_sender` once its rows are read: the run is
        cut back to its last `max_points_per_sender` points when longer, and its last point
        becomes the latest position. Nothing happens for a falsy sender or an empty run. */
    method InstallRun(current: SenderId, points: seq<Record>)
      requires maxPointsPerSender >= 1
      modifies this
      ensures State() == Flush(Loader(current, points, old(State())), maxPointsPerSender)
    {
      if current.Some? && current.value != "" && points != [] {
        var kept := points;
        if |kept| > maxPointsPerSender {
          kept := kept[|kept| - maxPointsPerSender..];
        }
        gpsData := gpsData[current := kept];
        latestPositions := latestPositions[current := kept[|kept| - 1]];
      }
    }

    /** The grouping loop of `load_historical_data` over the rows its query returns. */
    method LoadHistoricalData(rows: seq<Row>)
      requires Valid()
      modifies this
      ensures Valid()
      ensures State() == LoadRows(old(State()), rows, maxPointsPerSender)
    {
      ghost var st0 := State();
      ghost var acc := LoadFold(st0, [], maxPointsPerSender);
      var currentSender: SenderId := None;
      var pointsForSender: seq<Record> := [];
      for i := 0 to |rows|
        invariant maxPointsPerSender >= 1
        invariant acc == LoadFold(st0, rows[..i], maxPointsPerSender)
        invariant currentSender == acc.current && pointsForSender == acc.points && State() == acc.store
      {
        var sender := rows[i].sender;
        if currentSender != sender {
          InstallRun(currentSender, pointsForSender);
          currentSender := sender;
          pointsForSender := [];
        }
        pointsForSender := pointsForSender + [RowToRecord(rows[i])];
        LoadFoldSnoc(st0, rows, i, acc, maxPointsPerSender);
        acc := LoadRow(acc, rows[i], maxPointsPerSender);
      }
      InstallRun(currentSender, pointsForSender);
      assert rows[..|rows|] == rows;
      LoadRowsConsistent(st0, rows, maxPointsPerSender);
    }
  }
}
