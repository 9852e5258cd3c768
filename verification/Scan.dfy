// The recovery scan of internal/wal/recovery.go as a function of the bytes it
// finds, whatever wrote them: reassembly of fragments, torn tails, corruption.
module Scan {
  import opened Bytes
  import opened Framing

  // A logical record found by the scan, with the place the index gets.
  datatype Entry = Entry(seqNo: nat, payload: seq<byte>, segment: nat, offset: nat, size: nat)

  datatype ScanState = ScanState(
    assembling: bool, seqNo: nat, start: nat, data: seq<byte>, lastSeq: nat, out: seq<Entry>)

  datatype Reason =
    | Undecodable(error: DecodeError)
    | UnexpectedSequence
    | OrphanContinuation
    | CrossesSegment
    | SegmentGap
    | UnrelatedFragment

  datatype Step = Advance(next: nat, st: ScanState) | TornHere | Broken(reason: Reason)

  function Initial(lastSeq: nat): ScanState {
    ScanState(false, 0, 0, [], lastSeq, [])
  }

  // What one accepted fragment does to the state.
  function Accept(st: ScanState, rec: Record, segment: nat, next: nat): ScanState
    requires st.start <= next
  {
    var data := st.data + rec.data;
    if IsLast(rec.flags)
    then st.(assembling := false, data := [], lastSeq := rec.seqNo,
             out := st.out + [Entry(rec.seqNo, data, segment, st.start, next - st.start)])
    else st.(data := data)
  }

  predicate Placed(st: ScanState, offset: nat) {
    st.assembling ==> st.start < offset && st.seqNo == st.lastSeq + 1
  }

  function ScanStep(file: seq<byte>, segment: nat, max: nat, offset: nat, st: ScanState): (step: Step)
    requires Placed(st, offset)
    ensures step.Advance? ==> offset + HEADER <= step.next <= |file| && Placed(step.st, step.next)
  {
    match DecodeAt(file, offset, max)
    case Bad(EndOfFile) => TornHere
    case Bad(error) => Broken(Undecodable(error))
    case Good(rec, next) =>
      if IsPadding(rec.flags) then Advance(next, st)
      else if IsFirst(rec.flags) then
        if st.assembling || rec.seqNo != st.lastSeq + 1 then Broken(UnexpectedSequence)
        else
          Advance(next, Accept(st.(assembling := true, seqNo := rec.seqNo, start := offset, data := []), rec, segment,
                               next))
      else if !st.assembling || rec.seqNo != st.seqNo then Broken(OrphanContinuation)
      else Advance(next, Accept(st, rec, segment, next))
  }

  datatype Scanned = Whole(st: ScanState) | Torn(st: ScanState, at: nat) | Corrupt(at: nat, reason: Reason)

  function ScanFrom(file: seq<byte>, segment: nat, max: nat, offset: nat, st: ScanState): (r: Scanned)
    requires offset <= |file| && Placed(st, offset)
    ensures r.Whole? ==> Placed(r.st, |file|)
    ensures r.Torn? ==> offset <= r.at < |file| && Placed(r.st, r.at)
    decreases |file| - offset
  {
    if offset == |file| then Whole(st)
    else
      match ScanStep(file, segment, max, offset, st)
      case Advance(next, st') => ScanFrom(file, segment, max, next, st')
      case TornHere => Torn(st, offset)
      case Broken(reason) => Corrupt(offset, reason)
  }

  // Everything before this point is complete records and padding.
  function Boundary(st: ScanState, offset: nat): nat {
    if st.assembling then st.start else offset
  }

  // What recovery makes of the last segment: how much of the file it keeps, the
  // last complete sequence and the records found.
  datatype Tail = Kept(keep: nat, lastSeq: nat, out: seq<Entry>) | Refused(at: nat, why: Reason)

  function TailFrom(file: seq<byte>, segment: nat, max: nat, offset: nat, st: ScanState): (r: Tail)
    requires offset <= |file| && Placed(st, offset)
    ensures r.Kept? ==> r.keep <= |file|
  {
    match ScanFrom(file, segment, max, offset, st)
    case Whole(s) => Kept(Boundary(s, |file|), s.lastSeq, s.out)
    case Torn(s, at) => Kept(Boundary(s, at), s.lastSeq, s.out)
    case Corrupt(at, reason) => Refused(at, reason)
  }

  lemma TailAtEnd(file: seq<byte>, segment: nat, max: nat, st: ScanState)
    requires Placed(st, |file|)
    ensures TailFrom(file, segment, max, |file|, st) == Kept(Boundary(st, |file|), st.lastSeq, st.out)
  {
  }

  lemma TailStep(file: seq<byte>, segment: nat, max: nat, offset: nat, st: ScanState)
    requires offset < |file| && Placed(st, offset)
    ensures var step := ScanStep(file, segment, max, offset, st);
            TailFrom(file, segment, max, offset, st) ==
            match step
            case Advance(next, st') => TailFrom(file, segment, max, next, st')
            case TornHere => Kept(Boundary(st, offset), st.lastSeq, st.out)
            case Broken(reason) => Refused(offset, reason)
  {
  }

  // One step either completes nothing and leaves the boundary where it was, or
  // moves the boundary to where it arrives.
  lemma StepBoundary(file: seq<byte>, segment: nat, max: nat, offset: nat, st: ScanState)
    requires Placed(st, offset)
    requires ScanStep(file, segment, max, offset, st).Advance?
    ensures var Advance(next, s) := ScanStep(file, segment, max, offset, st);
            || (s.assembling && s.start == Boundary(st, offset) && s.out == st.out && s.lastSeq == st.lastSeq)
            || (!s.assembling && s.out == st.out && s.lastSeq == st.lastSeq && !st.assembling)
            || (!s.assembling && |s.out| == |st.out| + 1 && s.out[..|st.out|] == st.out
                && s.out[|st.out|].offset == Boundary(st, offset)
                && s.out[|st.out|].offset + s.out[|st.out|].size == next)
  {
    hide DecodeAt, IsFirst, IsLast, IsPadding;
  }

  ghost predicate EndsBeyond(out: seq<Entry>, from: nat, k: nat) {
    forall j :: from <= j < |out| ==> out[j].offset + out[j].size > k
  }

  ghost predicate EndsWithin(out: seq<Entry>, from: nat, k: nat) {
    forall j :: from <= j < |out| ==> out[j].offset + out[j].size <= k
  }

  // The rest of a scan keeps what was found, and every record it adds ends
  // after the current offset and inside the part that is kept.
  lemma {:induction false} TailProgress(file: seq<byte>, segment: nat, max: nat, offset: nat, st: ScanState)
    requires offset <= |file| && Placed(st, offset)
    requires TailFrom(file, segment, max, offset, st).Kept?
    ensures var r := TailFrom(file, segment, max, offset, st);
            && st.out <= r.out
            && EndsBeyond(r.out, |st.out|, offset)
            && EndsWithin(r.out, |st.out|, r.keep)
            && (|| r.keep > offset
                || (r.keep == Boundary(st, offset) && r.out == st.out && r.lastSeq == st.lastSeq))
    decreases |file| - offset
  {
    hide ScanStep, ScanFrom, TailFrom;
    if offset == |file| {
      TailAtEnd(file, segment, max, st);
    } else {
      TailStep(file, segment, max, offset, st);
      var step := ScanStep(file, segment, max, offset, st);
      if step.Advance? {
        StepBoundary(file, segment, max, offset, st);
        TailProgress(file, segment, max, step.next, step.st);
      }
    }
  }

  // The cut theorem, for arbitrary bytes. If recovery accepts a file as the last
  // segment, it accepts the file cut anywhere, and finds exactly the records
  // that end within the cut; cutting at or after the kept part changes nothing.
  lemma {:induction false} CutAnywhere(file: seq<byte>, k: nat, segment: nat, max: nat, offset: nat, st: ScanState)
    requires offset <= k <= |file| && Placed(st, offset)
    requires TailFrom(file, segment, max, offset, st).Kept?
    ensures var whole := TailFrom(file, segment, max, offset, st);
            var cut := TailFrom(file[..k], segment, max, offset, st);
            && cut.Kept?
            && cut.keep <= k
            && cut.out <= whole.out
            && EndsWithin(cut.out, |st.out|, k)
            && EndsBeyond(whole.out, |cut.out|, k)
            && (whole.keep <= k ==> cut == whole)
    decreases |file| - offset
  {
    hide ScanStep, ScanFrom, TailFrom;
    TailProgress(file, segment, max, offset, st);
    if offset == k {
      TailAtEnd(file[..k], segment, max, st);
    } else {
      TailStep(file, segment, max, offset, st);
      TailStep(file[..k], segment, max, offset, st);
      StepCut(file, k, segment, max, offset, st);
      var step := ScanStep(file, segment, max, offset, st);
      if step.Advance? {
        StepBoundary(file, segment, max, offset, st);
        TailProgress(file, segment, max, step.next, step.st);
        if step.next <= k {
          CutAnywhere(file, k, segment, max, step.next, step.st);
        } else {
          StepReach(file, segment, max, offset, st);
        }
      }
    }
  }

  // Records found after a step that overruns k end beyond k.
  lemma StepReach(file: seq<byte>, segment: nat, max: nat, offset: nat, st: ScanState)
    requires Placed(st, offset)
    requires ScanStep(file, segment, max, offset, st).Advance?
    ensures var Advance(next, s) := ScanStep(file, segment, max, offset, st);
            EndsBeyond(s.out, |st.out|, next - 1)
  {
    StepBoundary(file, segment, max, offset, st);
  }

  lemma StepCut(file: seq<byte>, k: nat, segment: nat, max: nat, offset: nat, st: ScanState)
    requires offset <= k <= |file| && Placed(st, offset)
    ensures var a := ScanStep(file, segment, max, offset, st);
            var b := ScanStep(file[..k], segment, max, offset, st);
            && (a.TornHere? ==> b.TornHere?)
            && (a.Advance? ==> b == if a.next <= k then a else TornHere)
  {
    hide DecodeAt;
    DecodeCut(file, k, offset, max);
  }

  // Repairing a file and scanning it again finds the same records and nothing
  // left to repair; so does a scan after a crash at any point of the repair.
  lemma RepairIsIdempotent(file: seq<byte>, segment: nat, max: nat, lastSeq: nat, k: nat)
    requires TailFrom(file, segment, max, 0, Initial(lastSeq)).Kept?
    requires TailFrom(file, segment, max, 0, Initial(lastSeq)).keep <= k <= |file|
    ensures TailFrom(file[..k], segment, max, 0, Initial(lastSeq)) == TailFrom(file, segment, max, 0, Initial(lastSeq))
  {
    CutAnywhere(file, k, segment, max, 0, Initial(lastSeq));
  }
}
