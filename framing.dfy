/** The stream framer of `GPSWebTracker.listen`: it cuts complete
    `<data>...</data>` envelopes out of the receive buffer and keeps the
    incomplete tail for the next read. */
module Framing {
  import opened Text
  import opened Common

  const Open: string := "<data>"
  const Close: string := "</data>"

  /** The guard of the inner loop: both tags occur somewhere in the buffer. */
  predicate Guard(b: string) {
    Contains(b, Open) && Contains(b, Close)
  }

  /** `start = buffer.find('<data>')`. */
  function Start(b: string): int {
    Find(b, Open, 0)
  }

  /** `end = buffer.find('</data>', start) + 7`. */
  function End(b: string): int
    requires Start(b) >= 0
  {
    Find(b, Close, Start(b)) + |Close|
  }

  /** The condition under which one pass of the loop body emits a message. */
  predicate Advances(b: string) {
    Start(b) != -1 && End(b) > Start(b)
  }

  /** The loop guard holds but the body changes nothing: the loop spins forever. */
  predicate Stalls(b: string) {
    Guard(b) && !Advances(b)
  }

  /** Every buffer the inner loop reaches from `b` with its guard true makes progress. */
  predicate Terminates(b: string)
    decreases |b|
  {
    Guard(b) ==> Advances(b) && Terminates(b[End(b)..])
  }

  /** The messages the inner loop emits from `b`, in order, and the buffer it leaves. */
  function Frames(b: string): (seq<string>, string)
    requires Terminates(b)
    decreases |b|
  {
    if !Guard(b) then ([], b)
    else
      var next := Frames(b[End(b)..]);
      ([b[Start(b)..End(b)]] + next.0, next.1)
  }

  /** A complete envelope: it begins with `<data>`, ends with `</data>`,
      and contains no earlier `</data>`. */
  predicate WellFramed(m: string) {
    && IsAt(m, Open, 0)
    && IsAt(m, Close, |m| - |Close|)
    && forall j :: 0 <= j < |m| - |Close| ==> !IsAt(m, Close, j)
  }

  /** No character of `</data>` after the first is `<`. */
  lemma CloseTailHasNoOpenBracket(k: int)
    requires 1 <= k < |Close|
    ensures Close[k] != '<'
  {
    assert k == 1 || k == 2 || k == 3 || k == 4 || k == 5 || k == 6;
  }

  /** A `<data>` cannot start inside a `</data>`. */
  lemma OpenNotInsideClose(b: string, i: int, s: int)
    requires IsAt(b, Close, i) && IsAt(b, Open, s) && i < s
    ensures s >= i + |Close|
  {
    if s < i + |Close| {
      assert b[i..i + |Close|][s - i] == b[s];
      assert b[s..s + |Open|][0] == b[s] == '<';
      CloseTailHasNoOpenBracket(s - i);
      assert false;
    }
  }

  /** The body stalls exactly when every `</data>` of the buffer precedes its first `<data>`. */
  lemma StallsIff(b: string)
    ensures Stalls(b) <==> Guard(b) && Find(b, Close, Start(b)) == -1
  {
    if Guard(b) && Find(b, Close, Start(b)) == -1 {
      var s, i := Start(b), Find(b, Close, 0);
      assert IsAt(b, Open, s) && IsAt(b, Close, i);
      assert i < s;
      OpenNotInsideClose(b, i, s);
    }
  }

  /** A stalled buffer is a fixed point of the loop body while the guard stays true,
      so the loop never exits. */
  lemma StallIsPermanent(b: string)
    requires Stalls(b)
    ensures Guard(b) && !Terminates(b)
  {
  }

  /** One pass of the body on a buffer that advances: the emitted slice is a complete envelope,
      it starts at the first `<data>`, and what is left is the suffix after it. */
  lemma StepEmitsEnvelope(b: string)
    requires Guard(b) && Advances(b)
    ensures 0 <= Start(b) < End(b) <= |b|
    ensures forall j :: 0 <= j < Start(b) ==> !IsAt(b, Open, j)
    ensures WellFramed(b[Start(b)..End(b)])
  {
    var s, e := Start(b), End(b);
    StallsIff(b);
    var c := Find(b, Close, s);
    assert c != -1 && e == c + |Close|;
    var m := b[s..e];
    IsAtSlice(b, s, e, Open, 0);
    IsAtSlice(b, s, e, Close, |m| - |Close|);
    forall j | 0 <= j < |m| - |Close|
      ensures !IsAt(m, Close, j)
    {
      IsAtSlice(b, s, e, Close, j);
    }
  }

  /** Every message the loop emits is a complete envelope. */
  lemma {:induction false} FramesWellFramed(b: string)
    requires Terminates(b)
    ensures forall m :: m in Frames(b).0 ==> WellFramed(m)
    decreases |b|
  {
    if Guard(b) {
      StepEmitsEnvelope(b);
      var t := b[End(b)..];
      FramesWellFramed(t);
      assert Frames(b).0 == [b[Start(b)..End(b)]] + Frames(t).0;
    }
  }

  /** The buffer the loop leaves is a suffix of its input, on which the guard fails. */
  lemma {:induction false} FramesRest(b: string)
    requires Terminates(b)
    ensures !Guard(Frames(b).1)
    ensures |Frames(b).1| <= |b| && Frames(b).1 == b[|b| - |Frames(b).1|..]
    decreases |b|
  {
    if Guard(b) {
      var t := b[End(b)..];
      FramesRest(t);
      assert Frames(b).1 == Frames(t).1;
      assert t[|t| - |Frames(t).1|..] == b[|b| - |Frames(t).1|..];
    }
  }

  /** Every message the loop emits is a complete envelope, the buffer it leaves is a suffix
      of the input, and the loop leaves it only once the guard fails. */
  lemma FramesSound(b: string)
    requires Terminates(b)
    ensures forall m :: m in Frames(b).0 ==> WellFramed(m)
    ensures !Guard(Frames(b).1)
    ensures |Frames(b).1| <= |b| && Frames(b).1 == b[|b| - |Frames(b).1|..]
  {
    FramesWellFramed(b);
    FramesRest(b);
  }

  /** The inner framing loop exactly as written. It returns only when the loop does, which
      `Terminates` characterises; the defect is shown by `LeadingCloseStalls`. */
  method Drain(buffer: string) returns (msgs: seq<string>, rest: string)
    requires Terminates(buffer)
    ensures (msgs, rest) == Frames(buffer)
    ensures forall m :: m in msgs ==> WellFramed(m)
    ensures !Guard(rest)
  {
    msgs, rest := [], buffer;
    assert msgs + Frames(rest).0 == Frames(rest).0;
    while Contains(rest, Open) && Contains(rest, Close)
      invariant Terminates(rest)
      invariant Frames(buffer) == (msgs + Frames(rest).0, Frames(rest).1)
      decreases |rest|
    {
      FramesUnfold(rest);
      var start := Find(rest, Open, 0);
      var end := Find(rest, Close, start) + 7;
      assert start == Start(rest) && end == End(rest);
      if start != -1 && end > start {
        ghost var before, emitted := rest, msgs;
        ghost var next := Frames(before[End(before)..]);
        msgs := msgs + [rest[start..end]];
        rest := rest[end..];
        assert next == Frames(rest);
        AppendAssoc(emitted, [before[start..end]], next.0);
      }
    }
    assert msgs + [] == msgs;
    FramesSound(buffer);
  }

  /** One pass of the loop on a terminating buffer whose guard holds. */
  lemma FramesUnfold(b: string)
    requires Terminates(b) && Guard(b)
    ensures Advances(b) && 0 <= Start(b) < End(b) <= |b| && Terminates(b[End(b)..])
    ensures Frames(b) == ([b[Start(b)..End(b)]] + Frames(b[End(b)..]).0, Frames(b[End(b)..]).1)
  {
    StepEmitsEnvelope(b);
  }

  /** `pat` does not occur at `j` when one of its characters disagrees with the string. */
  lemma NotAtWhenCharDiffers(s: string, pat: string, j: int, k: int)
    requires 0 <= j && 0 <= k < |pat| && j + k < |s| && s[j + k] != pat[k]
    ensures !IsAt(s, pat, j)
  {
  }

  /** The defect: a buffer whose only `</data>` precedes its first `<data>` (a stream joined
      just after the end of one message, the next one not yet complete) stalls the loop,
      while the corrected loop leaves it alone to wait for more data. */
  lemma LeadingCloseStalls()
    ensures Stalls("</data><data>") && !Terminates("</data><data>")
    ensures FramesCorrected("</data><data>") == ([], "</data><data>")
  {
    var b := "</data><data>";
    assert IsAt(b, Open, 7) && IsAt(b, Close, 0);
    NotAtWhenCharDiffers(b, Open, 0, 1);
    forall j | 1 <= j < 7
      ensures !IsAt(b, Open, j)
    {
      NotAtWhenCharDiffers(b, Open, j, 0);
    }
    assert Start(b) == 7;
    StallsIff(b);
  }

  /** The corrected loop condition: some `</data>` follows the first `<data>`. */
  predicate HasEnvelope(b: string) {
    Start(b) != -1 && Find(b, Close, Start(b)) != -1
  }

  /** The messages the corrected loop emits from `b`, and the buffer it leaves. */
  function FramesCorrected(b: string): (seq<string>, string)
    decreases |b|
  {
    if !HasEnvelope(b) then ([], b)
    else
      var next := FramesCorrected(b[End(b)..]);
      ([b[Start(b)..End(b)]] + next.0, next.1)
  }

  /** Wherever the loop as written terminates, the corrected loop emits the same messages
      and leaves the same buffer. */
  lemma {:induction false} CorrectedAgrees(b: string)
    requires Terminates(b)
    ensures FramesCorrected(b) == Frames(b)
  {
    StallsIff(b);
    if Guard(b) {
      assert HasEnvelope(b);
      CorrectedAgrees(b[End(b)..]);
    } else if Start(b) != -1 {
      var c := Find(b, Close, Start(b));
      if c != -1 {
        ContainsIff(b, Close, c);
      }
    }
  }

  /** Every message of the corrected loop is a complete envelope. */
  lemma {:induction false} FramesCorrectedWellFramed(b: string)
    ensures forall m :: m in FramesCorrected(b).0 ==> WellFramed(m)
    decreases |b|
  {
    if HasEnvelope(b) {
      ContainsIff(b, Close, Find(b, Close, Start(b)));
      StallsIff(b);
      StepEmitsEnvelope(b);
      var t := b[End(b)..];
      FramesCorrectedWellFramed(t);
      assert FramesCorrected(b).0 == [b[Start(b)..End(b)]] + FramesCorrected(t).0;
    }
  }

  /** The buffer the corrected loop leaves is a suffix of its input holding no `<data>`
      followed by a `</data>`. */
  lemma {:induction false} FramesCorrectedRest(b: string)
    ensures !HasEnvelope(FramesCorrected(b).1)
    ensures |FramesCorrected(b).1| <= |b|
    ensures FramesCorrected(b).1 == b[|b| - |FramesCorrected(b).1|..]
    decreases |b|
  {
    if HasEnvelope(b) {
      ContainsIff(b, Close, Find(b, Close, Start(b)));
      StallsIff(b);
      var t := b[End(b)..];
      FramesCorrectedRest(t);
      assert FramesCorrected(b).1 == FramesCorrected(t).1;
      assert t[|t| - |FramesCorrected(t).1|..] == b[|b| - |FramesCorrected(t).1|..];
    }
  }

  /** Every message of the corrected loop is a complete envelope, and the buffer it leaves is
      a suffix of the input holding no `<data>` followed by a `</data>`. */
  lemma FramesCorrectedSound(b: string)
    ensures forall m :: m in FramesCorrected(b).0 ==> WellFramed(m)
    ensures !HasEnvelope(FramesCorrected(b).1)
    ensures |FramesCorrected(b).1| <= |b|
    ensures FramesCorrected(b).1 == b[|b| - |FramesCorrected(b).1|..]
  {
    FramesCorrectedWellFramed(b);
    FramesCorrectedRest(b);
  }

  /** The framing loop with its condition corrected: it stops as soon as no `</data>` follows
      the first `<data>`, so it always terminates. */
  method DrainCorrected(buffer: string) returns (msgs: seq<string>, rest: string)
    ensures (msgs, rest) == FramesCorrected(buffer)
    ensures forall m :: m in msgs ==> WellFramed(m)
    ensures !HasEnvelope(rest)
    ensures Terminates(buffer) ==> (msgs, rest) == Frames(buffer)
  {
    msgs, rest := [], buffer;
    assert msgs + FramesCorrected(rest).0 == FramesCorrected(rest).0;
    while true
      invariant FramesCorrected(buffer) == (msgs + FramesCorrected(rest).0, FramesCorrected(rest).1)
      decreases |rest|
    {
      var start := Find(rest, Open, 0);
      if start == -1 {
        break;
      }
      var close := Find(rest, Close, start);
      if close == -1 {
        break;
      }
      var end := close + 7;
      assert start == Start(rest) && end == End(rest);
      ghost var before, emitted := rest, msgs;
      ghost var next := FramesCorrected(before[end..]);
      msgs := msgs + [rest[start..end]];
      rest := rest[end..];
      assert FramesCorrected(before) == ([before[start..end]] + next.0, next.1);
      AppendAssoc(emitted, [before[start..end]], next.0);
    }
    assert FramesCorrected(rest) == ([], rest);
    assert msgs + [] == msgs;
    FramesCorrectedSound(buffer);
    if Terminates(buffer) {
      CorrectedAgrees(buffer);
    }
  }

  /** A buffer that holds only a proper prefix of a complete envelope contains no `</data>`. */
  lemma PrefixHasNoClose(m: string, k: int)
    requires WellFramed(m) && 0 <= k < |m|
    ensures !Contains(m[..k], Close)
  {
    var p := m[..k];
    var r := Find(p, Close, 0);
    if r != -1 {
      IsAtSlice(m, 0, k, Close, r);
      assert false;
    }
  }

  /** The first `<data>` of a complete envelope is at its start, and its first `</data>`
      closes it. */
  lemma EnvelopeBounds(m: string)
    requires WellFramed(m)
    ensures Start(m) == 0 && Find(m, Close, 0) == |m| - |Close| && End(m) == |m|
    ensures Guard(m) && HasEnvelope(m)
  {
    ContainsIff(m, Open, 0);
    ContainsIff(m, Close, |m| - |Close|);
  }

  /** A read that ends anywhere before the end of an envelope emits nothing and keeps the
      whole buffer, in the loop as written and in the corrected one. */
  lemma PartialEnvelopeKept(m: string, k: int)
    requires WellFramed(m) && 0 <= k < |m|
    ensures Terminates(m[..k]) && Frames(m[..k]) == ([], m[..k])
    ensures FramesCorrected(m[..k]) == ([], m[..k])
  {
    PrefixHasNoClose(m, k);
    var p := m[..k];
    if Start(p) != -1 {
      var c := Find(p, Close, Start(p));
      if c != -1 {
        ContainsIff(p, Close, c);
      }
    }
  }

  /** A buffer holding exactly one complete envelope emits it and keeps nothing, in the loop
      as written and in the corrected one. */
  lemma CompletedEnvelopeEmitted(m: string)
    requires WellFramed(m)
    ensures Terminates(m) && Frames(m) == ([m], "")
    ensures FramesCorrected(m) == ([m], "")
  {
    EnvelopeBounds(m);
    assert m[Start(m)..End(m)] == m && m[End(m)..] == "";
    assert Frames("") == ([], "") && FramesCorrected("") == ([], "");
    assert [m] + [] == [m];
  }

  /** An envelope split across two reads anywhere before its end is emitted once: nothing
      after the first read, and the envelope itself once the second read is appended to
      the kept buffer. */
  lemma SplitEnvelopeEmittedOnce(m: string, k: int)
    requires WellFramed(m) && 0 <= k < |m|
    ensures Terminates(m[..k]) && Frames(m[..k]).0 == []
    ensures Terminates(Frames(m[..k]).1 + m[k..])
    ensures Frames(Frames(m[..k]).1 + m[k..]) == ([m], "")
  {
    PartialEnvelopeKept(m, k);
    assert m[..k] + m[k..] == m;
    CompletedEnvelopeEmitted(m);
  }

  /** The loop as written terminates on a buffer exactly when the corrected loop leaves a
      buffer on which the original guard is false: it spins forever precisely when, after
      the complete envelopes are cut off, some `</data>` is left that precedes the first
      `<data>`. */
  lemma {:induction false} TerminatesIff(b: string)
    ensures Terminates(b) <==> !Guard(FramesCorrected(b).1)
    decreases |b|
  {
    StallsIff(b);
    if HasEnvelope(b) {
      ContainsIff(b, Close, Find(b, Close, Start(b)));
      StepEmitsEnvelope(b);
      TerminatesIff(b[End(b)..]);
    }
  }
}
