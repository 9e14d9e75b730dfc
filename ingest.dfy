/** The receive path of `listen`: each chunk read from the socket is appended to the buffer,
    complete `<data>` envelopes are cut out, parsed, and their records stored. */
module Ingest {
  import opened Common
  import opened Xml
  import opened Records
  import Framing
  import Extraction
  import History

  /** The records one message contributes: none when its XML does not parse (the parser's
      exception handler returns None), when `parse_gps_data` returns None, or when it returns
      an empty list. */
  function MessageRecords(m: string, parseXml: string -> Option<Element>, target: Option<string>,
                          conv: Extraction.Conversions): (r: seq<Record>)
    ensures forall x :: x in r ==> ValidCoordinates(x.lat, x.lng)
    ensures parseXml(m).None? ==> r == []
    ensures parseXml(m).Some? ==>
      var root := parseXml(m).value;
      if Extraction.MetaOf(root).None? || Extraction.FilteredOut(target, Extraction.MetaOf(root).value.sender)
      then r == []
      else r == Extraction.ReportRecords(root, Extraction.MetaOf(root).value, conv)
  {
    match parseXml(m)
    case None => []
    case Some(root) =>
      match Extraction.ParseGpsData(root, target, conv)
      case None => []
      case Some(rs) => rs
  }

  /** The records of a sequence of messages, message after message. */
  function AllRecords(msgs: seq<string>, parseXml: string -> Option<Element>, target: Option<string>,
                      conv: Extraction.Conversions): (r: seq<Record>)
    ensures forall x :: x in r ==> ValidCoordinates(x.lat, x.lng)
    decreases |msgs|
  {
    if msgs == [] then []
    else
      var init := AllRecords(msgs[..|msgs| - 1], parseXml, target, conv);
      var last := MessageRecords(msgs[|msgs| - 1], parseXml, target, conv);
      assert forall x :: x in init + last ==> x in init || x in last;
      init + last
  }

  /** Messages are handled independently: the records of two runs of messages are those of
      the first run followed by those of the second. */
  lemma {:induction false} AllRecordsAppend(a: seq<string>, b: seq<string>, parseXml: string -> Option<Element>,
                                            target: Option<string>, conv: Extraction.Conversions)
    ensures AllRecords(a + b, parseXml, target, conv) ==
      AllRecords(a, parseXml, target, conv) + AllRecords(b, parseXml, target, conv)
    decreases |b|
  {
    if b == [] {
      assert a + b == a;
    } else {
      var init := b[..|b| - 1];
      var last := MessageRecords(b[|b| - 1], parseXml, target, conv);
      assert (a + b)[..|a + b| - 1] == a + init;
      assert (a + b)[|a + b| - 1] == b[|b| - 1];
      AllRecordsAppend(a, init, parseXml, target, conv);
      AppendAssoc(AllRecords(a, parseXml, target, conv), AllRecords(init, parseXml, target, conv), last);
    }
  }

  /** One chunk handled by `listen`: buffer the data, cut out every complete envelope with the
      corrected framer, and store the records of each message in order. Returns the buffer
      left for the next chunk. */
  method ReceiveChunk(t: History.Tracker, buffer: string, data: string,
                      parseXml: string -> Option<Element>, target: Option<string>,
                      conv: Extraction.Conversions)
    returns (rest: string)
    requires t.Valid()
    modifies t
    ensures t.Valid()
    ensures rest == Framing.FramesCorrected(buffer + data).1
    ensures t.State() == History.AppendBatch(old(t.State()),
      AllRecords(Framing.FramesCorrected(buffer + data).0, parseXml, target, conv), t.maxPointsPerSender)
  {
    var msgs;
    msgs, rest := Framing.DrainCorrected(buffer + data);
    ghost var st0 := t.State();
    for i := 0 to |msgs|
      invariant t.Valid()
      invariant t.State() == History.AppendBatch(st0, AllRecords(msgs[..i], parseXml, target, conv), t.maxPointsPerSender)
    {
      ghost var mid := t.State();
      var points := MessageRecords(msgs[i], parseXml, target, conv);
      if points != [] {
        t.StoreGpsData(points);
      }
      AllRecordsSnoc(msgs, i, parseXml, target, conv);
      BatchThenMore(st0, AllRecords(msgs[..i], parseXml, target, conv), points, mid, t.maxPointsPerSender);
    }
    assert msgs[..|msgs|] == msgs;
  }

  /** One more message. */
  lemma AllRecordsSnoc(msgs: seq<string>, i: nat, parseXml: string -> Option<Element>, target: Option<string>,
                       conv: Extraction.Conversions)
    requires i < |msgs|
    ensures AllRecords(msgs[..i + 1], parseXml, target, conv) ==
      AllRecords(msgs[..i], parseXml, target, conv) + MessageRecords(msgs[i], parseXml, target, conv)
  {
    assert msgs[..i + 1][..i] == msgs[..i];
  }

  /** Storing a further batch after a first one is storing both at once. */
  lemma BatchThenMore(st0: History.Store, first: seq<Record>, more: seq<Record>, mid: History.Store, cap: nat)
    requires mid == History.AppendBatch(st0, first, cap)
    ensures History.AppendBatch(mid, more, cap) == History.AppendBatch(st0, first + more, cap)
  {
    History.AppendBatchSplit(st0, first, more, cap);
  }

  /** A chunk that completes no envelope stores nothing and keeps the whole buffer. */
  lemma IncompleteChunkStoresNothing(buffer: string, data: string, parseXml: string -> Option<Element>,
                                     target: Option<string>, conv: Extraction.Conversions)
    requires !Framing.HasEnvelope(buffer + data)
    ensures Framing.FramesCorrected(buffer + data) == ([], buffer + data)
    ensures AllRecords(Framing.FramesCorrected(buffer + data).0, parseXml, target, conv) == []
  {
  }
}
