/** The report extractor: `parse_gps_data` and `_extract_gps_point`, from a parsed
    message tree to the position records it carries. */
module Extraction {
  import opened Common
  import opened Xml
  import opened Records

  /** Python's `float(text)` and `int(text)`: each either converts the text or fails. */
  datatype Conversions = Conversions(toFloat: string -> Option<real>, toInt: string -> Option<int>)

  /** What `parse_gps_data` reads from `meta` and passes to every point. */
  datatype Meta = Meta(sender: SenderId, senderType: string, timestamp: Option<string>, protocol: Option<string>)

  /** The report tags, in the order they are tried. */
  const ReportTypes: seq<string> := [
    "nalGpsReport3", "nalGpsReport4", "nalGpsReport5",
    "nalGpsReport6", "nalGpsReport7", "nal10ByteGpsReport0",
    "pecosP3GpsReport", "pecosP4GpsReport"]

  /** The report tags whose points are `point` children rather than the report itself. */
  const MultiPointTypes: seq<string> := ["nalGpsReport3", "nalGpsReport4"]

  /** The text of a child, or None when the child is missing or has no text. */
  function ChildText(e: Element, name: string): Option<string> {
    match FindChild(e, name)
    case None => None
    case Some(c) => c.text
  }

  /** `float(child.text)`, None when the child is missing, has no text or does not convert. */
  function FloatField(e: Element, name: string, conv: Conversions): Option<real> {
    match ChildText(e, name)
    case None => None
    case Some(t) => conv.toFloat(t)
  }

  /** `int(child.text)`, None when the child is missing, has no text or does not convert. */
  function IntField(e: Element, name: string, conv: Conversions): Option<int> {
    match ChildText(e, name)
    case None => None
    case Some(t) => conv.toInt(t)
  }

  /** The emergency flag: absent without an `emer` child, otherwise whether its text is "1". */
  function EmergencyField(e: Element): (r: Option<bool>)
    ensures r.None? <==> FindChild(e, "emer").None?
    ensures r == Some(true) <==> FindChild(e, "emer").Some? && FindChild(e, "emer").value.text == Some("1")
  {
    match FindChild(e, "emer")
    case None => None
    case Some(c) => Some(c.text == Some("1"))
  }

  /** `_extract_gps_point`: a record when `lat` and `lng` convert and lie in range, and None
      otherwise; each optional field is kept only when its child is there and converts. */
  function ExtractGpsPoint(e: Element, meta: Meta, conv: Conversions): (r: Option<Record>)
    ensures r.Some? <==>
      && FloatField(e, "lat", conv).Some? && FloatField(e, "lng", conv).Some?
      && ValidCoordinates(FloatField(e, "lat", conv).value, FloatField(e, "lng", conv).value)
    ensures r.Some? ==> ValidCoordinates(r.value.lat, r.value.lng)
    ensures r.Some? ==> r.value.sender == meta.sender && r.value.senderType == Some(meta.senderType)
    ensures r.Some? ==> r.value.timestamp == meta.timestamp && r.value.protocol == meta.protocol
    ensures r.Some? ==> r.value.lat == FloatField(e, "lat", conv).value && r.value.lng == FloatField(e, "lng", conv).value
    ensures r.Some? ==> r.value.altitude == FloatField(e, "alt", conv) && r.value.speed == FloatField(e, "gndVel", conv)
    ensures r.Some? ==> r.value.course == FloatField(e, "course", conv) && r.value.satellites == IntField(e, "sats", conv)
    ensures r.Some? ==> r.value.gpsTime == ChildText(e, "time") && r.value.fixType == ChildText(e, "fix")
    ensures r.Some? ==> r.value.emergency == EmergencyField(e)
  {
    match (FloatField(e, "lat", conv), FloatField(e, "lng", conv))
    case (Some(lat), Some(lng)) =>
      if ValidCoordinates(lat, lng) then
        Some(Record(
          meta.sender, Some(meta.senderType), lat, lng, meta.timestamp, meta.protocol,
          FloatField(e, "alt", conv), FloatField(e, "gndVel", conv), FloatField(e, "course", conv),
          ChildText(e, "time"), ChildText(e, "fix"), IntField(e, "sats", conv), EmergencyField(e)))
      else None
    case _ => None
  }

  /** `if gps_point: gps_points.append(gps_point)` for one point. */
  function PointRecords(p: Element, meta: Meta, conv: Conversions): (r: seq<Record>)
    ensures |r| <= 1
    ensures r == [] <==> ExtractGpsPoint(p, meta, conv).None?
    ensures forall rec :: rec in r ==> ExtractGpsPoint(p, meta, conv) == Some(rec)
    ensures forall rec :: rec in r ==> ValidCoordinates(rec.lat, rec.lng) && rec.sender == meta.sender
  {
    match ExtractGpsPoint(p, meta, conv)
    case Some(rec) => [rec]
    case None => []
  }

  /** The records of the candidate point elements, in document order, dropping each point
      that yields none. */
  function Collect(points: seq<Element>, meta: Meta, conv: Conversions): (r: seq<Record>)
    ensures |r| <= |points|
    ensures forall rec :: rec in r ==>
      exists i :: 0 <= i < |points| && ExtractGpsPoint(points[i], meta, conv) == Some(rec)
    ensures forall rec :: rec in r ==> ValidCoordinates(rec.lat, rec.lng) && rec.sender == meta.sender
  {
    if points == [] then []
    else
      var head, tail := PointRecords(points[0], meta, conv), Collect(points[1..], meta, conv);
      assert forall j :: 0 <= j < |points| - 1 ==> points[1..][j] == points[j + 1];
      head + tail
  }

  /** Points are extracted independently: the records of two runs of points are those of the
      first followed by those of the second. */
  lemma {:induction false} CollectAppend(ps: seq<Element>, qs: seq<Element>, meta: Meta, conv: Conversions)
    ensures Collect(ps + qs, meta, conv) == Collect(ps, meta, conv) + Collect(qs, meta, conv)
  {
    if ps == [] {
      assert ps + qs == qs;
    } else {
      var head := PointRecords(ps[0], meta, conv);
      assert (ps + qs)[0] == ps[0];
      assert (ps + qs)[1..] == ps[1..] + qs;
      assert Collect(ps + qs, meta, conv) == head + Collect(ps[1..] + qs, meta, conv);
      CollectAppend(ps[1..], qs, meta, conv);
      assert Collect(ps, meta, conv) == head + Collect(ps[1..], meta, conv);
      AppendAssoc(head, Collect(ps[1..], meta, conv), Collect(qs, meta, conv));
    }
  }

  /** A point that yields a record is never lost because of its siblings: the records of the
      points before it come first, then its own, then those of the points after it. */
  lemma PointKeptAmongSiblings(ps: seq<Element>, i: int, meta: Meta, conv: Conversions)
    requires 0 <= i < |ps| && ExtractGpsPoint(ps[i], meta, conv).Some?
    ensures Collect(ps, meta, conv) ==
      Collect(ps[..i], meta, conv) + [ExtractGpsPoint(ps[i], meta, conv).value] + Collect(ps[i + 1..], meta, conv)
  {
    var rec := ExtractGpsPoint(ps[i], meta, conv).value;
    var tail := ps[i..];
    assert ps == ps[..i] + tail;
    CollectAppend(ps[..i], tail, meta, conv);
    assert tail[0] == ps[i] && tail[1..] == ps[i + 1..];
    assert Collect(tail, meta, conv) == [rec] + Collect(ps[i + 1..], meta, conv);
    AppendAssoc(Collect(ps[..i], meta, conv), [rec], Collect(ps[i + 1..], meta, conv));
  }

  /** The position in `ReportTypes`, at or after `i`, of the first tag the root has a child
      for, or -1. */
  function FirstReport(root: Element, i: nat): (k: int)
    requires i <= |ReportTypes|
    decreases |ReportTypes| - i
    ensures k == -1 ==> forall j :: i <= j < |ReportTypes| ==> FindChild(root, ReportTypes[j]).None?
    ensures k != -1 ==> i <= k < |ReportTypes| && FindChild(root, ReportTypes[k]).Some?
    ensures k != -1 ==> forall j :: i <= j < k ==> FindChild(root, ReportTypes[j]).None?
  {
    if i == |ReportTypes| then -1
    else if FindChild(root, ReportTypes[i]).Some? then i
    else FirstReport(root, i + 1)
  }

  /** The sender data of `meta`, or None when `meta` or `meta/sender` is missing. */
  function MetaOf(root: Element): (r: Option<Meta>)
    ensures r.None? <==>
      FindChild(root, "meta").None? || FindChild(FindChild(root, "meta").value, "sender").None?
    ensures r.Some? ==>
      var sender := FindChild(FindChild(root, "meta").value, "sender").value;
      r.value.sender == sender.text && r.value.senderType == Get(sender, "type", "Unknown")
    ensures r.Some? ==>
      var meta := FindChild(root, "meta").value;
      r.value.timestamp == ChildText(meta, "time") && r.value.protocol == ChildText(meta, "protocol")
  {
    match FindChild(root, "meta")
    case None => None
    case Some(m) =>
      match FindChild(m, "sender")
      case None => None
      case Some(s) => Some(Meta(s.text, Get(s, "type", "Unknown"), ChildText(m, "time"), ChildText(m, "protocol")))
  }

  /** The target-sender filter: set and non-empty, and different from the message's sender. */
  predicate FilteredOut(target: Option<string>, sender: SenderId) {
    target.Some? && target.value != "" && sender != Some(target.value)
  }

  /** The records of the first report present, in the order the tags are tried. */
  function ReportRecords(root: Element, meta: Meta, conv: Conversions): seq<Record> {
    var k := FirstReport(root, 0);
    if k == -1 then []
    else
      var report := FindChild(root, ReportTypes[k]).value;
      if ReportTypes[k] in MultiPointTypes then Collect(FindAll(report, "point"), meta, conv)
      else Collect([report], meta, conv)
  }

  /** The candidate point elements of the first report present: its `point` children for a
      collection report, the report itself otherwise, none when no report is present. */
  function ReportPoints(root: Element): seq<Element> {
    var k := FirstReport(root, 0);
    if k == -1 then []
    else
      var report := FindChild(root, ReportTypes[k]).value;
      if ReportTypes[k] in MultiPointTypes then FindAll(report, "point") else [report]
  }

  /** `parse_gps_data` on an already parsed tree: None for a message without `meta`, without
      `meta/sender`, or from a sender the filter rejects; otherwise the records of the first
      report tag present, at most one per `point` for the two collection reports and at most
      one for the others. */
  function ParseGpsData(root: Element, target: Option<string>, conv: Conversions): (r: Option<seq<Record>>)
    ensures r.None? <==> MetaOf(root).None? || FilteredOut(target, MetaOf(root).value.sender)
    ensures r.Some? ==> forall rec :: rec in r.value ==>
      ValidCoordinates(rec.lat, rec.lng) && rec.sender == MetaOf(root).value.sender
    ensures r.Some? && FirstReport(root, 0) == -1 ==> r.value == []
    ensures r.Some? && FirstReport(root, 0) != -1 ==>
      var tag := ReportTypes[FirstReport(root, 0)];
      if tag in MultiPointTypes then |r.value| <= |FindAll(FindChild(root, tag).value, "point")|
      else |r.value| <= 1
  {
    match MetaOf(root)
    case None => None
    case Some(meta) =>
      if FilteredOut(target, meta.sender) then None
      else Some(ReportRecords(root, meta, conv))
  }

  /** The report tags are pairwise different. */
  lemma ReportTypesDistinct(a: int, b: int)
    requires 0 <= a < b < |ReportTypes|
    ensures ReportTypes[a] != ReportTypes[b]
  {
    assert a == 0 || a == 1 || a == 2 || a == 3 || a == 4 || a == 5 || a == 6;
    assert b == 1 || b == 2 || b == 3 || b == 4 || b == 5 || b == 6 || b == 7;
  }

  /** No report tag is `meta`. */
  lemma ReportIsNotMeta(j: int)
    requires 0 <= j < |ReportTypes|
    ensures ReportTypes[j] != "meta"
  {
    assert ReportTypes[j][0] != "meta"[0] by {
      assert j == 0 || j == 1 || j == 2 || j == 3 || j == 4 || j == 5 || j == 6 || j == 7;
    }
  }

  /** Two messages that agree on every report tag up to the first one present in `root`
      pick the same report. */
  lemma SameFirstReport(root: Element, root': Element, k: int)
    requires k == FirstReport(root, 0) && k != -1
    requires forall a :: 0 <= a <= k ==> FindChild(root', ReportTypes[a]) == FindChild(root, ReportTypes[a])
    ensures FirstReport(root', 0) == k
  {
  }

  /** First match wins: adding a report of a lower-priority tag anywhere in a message that
      already holds a report changes nothing. */
  lemma LowerPriorityReportIgnored(root: Element, target: Option<string>, conv: Conversions, i: nat, x: Element, j: int)
    requires i <= |root.children|
    requires FirstReport(root, 0) != -1 && FirstReport(root, 0) < j < |ReportTypes| && x.tag == ReportTypes[j]
    ensures ParseGpsData(InsertChild(root, i, x), target, conv) == ParseGpsData(root, target, conv)
  {
    var root', k := InsertChild(root, i, x), FirstReport(root, 0);
    ReportIsNotMeta(j);
    FindChildAfterInsert(root, i, x, "meta");
    assert MetaOf(root') == MetaOf(root);
    forall a | 0 <= a <= k
      ensures FindChild(root', ReportTypes[a]) == FindChild(root, ReportTypes[a])
    {
      ReportTypesDistinct(a, j);
      FindChildAfterInsert(root, i, x, ReportTypes[a]);
    }
    SameFirstReport(root, root', k);
    if MetaOf(root).Some? {
      var meta := MetaOf(root).value;
      assert ReportRecords(root', meta, conv) == ReportRecords(root, meta, conv);
    }
  }

  /** Every record of a message is the extraction of one of the chosen report's candidate
      points: nothing is invented, and a point that fails extraction contributes nothing. */
  lemma ParsedRecordsExtracted(root: Element, target: Option<string>, conv: Conversions)
    requires ParseGpsData(root, target, conv).Some?
    ensures forall rec :: rec in ParseGpsData(root, target, conv).value ==>
      exists i :: 0 <= i < |ReportPoints(root)| && ExtractGpsPoint(ReportPoints(root)[i], MetaOf(root).value, conv) == Some(rec)
  {
    var meta := MetaOf(root).value;
    assert ParseGpsData(root, target, conv).value == Collect(ReportPoints(root), meta, conv);
  }

  /** No record of the chosen report is lost: a point of a collection report that yields a
      record contributes it in document order, between the records of the points before it
      and those after it; a single-point report that yields a record is the whole result. */
  lemma ChosenReportRecordKept(root: Element, target: Option<string>, conv: Conversions, i: int)
    requires ParseGpsData(root, target, conv).Some? && FirstReport(root, 0) != -1
    ensures var tag := ReportTypes[FirstReport(root, 0)];
      var report, meta := FindChild(root, tag).value, MetaOf(root).value;
      var points, r := FindAll(report, "point"), ParseGpsData(root, target, conv).value;
      && (tag in MultiPointTypes && 0 <= i < |points| && ExtractGpsPoint(points[i], meta, conv).Some? ==>
            r == Collect(points[..i], meta, conv) + [ExtractGpsPoint(points[i], meta, conv).value]
              + Collect(points[i + 1..], meta, conv))
      && (tag !in MultiPointTypes && ExtractGpsPoint(report, meta, conv).Some? ==>
            r == [ExtractGpsPoint(report, meta, conv).value])
  {
    var tag := ReportTypes[FirstReport(root, 0)];
    var report, meta := FindChild(root, tag).value, MetaOf(root).value;
    var points := FindAll(report, "point");
    if tag in MultiPointTypes && 0 <= i < |points| && ExtractGpsPoint(points[i], meta, conv).Some? {
      PointKeptAmongSiblings(points, i, meta, conv);
    }
    if tag !in MultiPointTypes {
      assert [report][1..] == [];
    }
  }
}
