/** `check_read` and `helper_overlapper`: per paired record, put the longer read first, index it,
    locate an overlap, apply the minimum-length cut, then hand the result on and count it. */
module Overlapper {
  import opened Wrappers
  import opened Reads
  import opened KmerIndex
  import opened OverlapVerifier
  import opened OverlapLocator
  import opened Stats

  /** The run's configuration. */
  datatype Params = Params(misDensity: Density, minOver: nat, checkLengths: nat, kmer: nat,
                           kmerOffset: nat, minLength: nat)

  /** What `check_read` needs so that no unsigned index underflows and no substring runs out
      of range: a positive stride, and a shorter read at least checkLengths + kmer long. */
  predicate Applicable(one: Read, two: Read, p: Params) {
    && WellFormed(one) && WellFormed(two) && ValidDensity(p.misDensity) && p.kmerOffset > 0
    && |one.bases| >= p.checkLengths + p.kmer && |two.bases| >= p.checkLengths + p.kmer
  }

  /** The pair after the swap: the (weakly) longer read first. */
  function Normalized(one: Read, two: Read): (Read, Read) {
    if |one.bases| < |two.bases| then (two, one) else (one, two)
  }

  lemma IndexFitsRead(s: string, k: nat, stride: nat)
    requires stride > 0
    ensures IndexFits(Index(s, k, stride), |s|)
  {
    forall e | e in Index(s, k, stride)
      ensures e.off <= |s|
    {
      IndexSound(s, k, stride, e);
    }
  }

  /** The located overlap of the normalised pair, before the minimum-length cut. */
  function Located(one: Read, two: Read, p: Params): Option<Read>
    requires Applicable(one, two, p)
  {
    var (r1, r2) := Normalized(one, two);
    IndexFitsRead(r1.bases, p.kmer, p.kmerOffset);
    Locate(r1, r2, Index(r1.bases, p.kmer, p.kmerOffset), p.misDensity, p.minOver, p.checkLengths, p.kmer)
  }

  /** What `check_read` returns: the located overlap, unless it is shorter than minLength. */
  function CheckReadResult(one: Read, two: Read, p: Params): Option<Read>
    requires Applicable(one, two, p)
  {
    var o := Located(one, two, p);
    if o.Some? && Length(o.value) < p.minLength then None else o
  }

  /** `check_read`: swaps the pair's reads in place when read one is the shorter, then indexes
      read one and locates the overlap. */
  method CheckRead(pe: PairedEndRead, p: Params) returns (overlapped: Option<Read>)
    requires Applicable(pe.one, pe.two, p)
    modifies pe
    ensures (pe.one, pe.two) == Normalized(old(pe.one), old(pe.two))
    ensures overlapped == CheckReadResult(old(pe.one), old(pe.two), p)
  {
    if Length(pe.one) < Length(pe.two) {
      pe.one, pe.two := pe.two, pe.one;
    }
    var mOne := ReadOneMap(pe.one.bases, p.kmer, p.kmerOffset);
    IndexFitsRead(pe.one.bases, p.kmer, p.kmerOffset);
    overlapped := GetOverlappedReads(pe.one, pe.two, mOne, p.misDensity, p.minOver, p.checkLengths, p.kmer);
    if overlapped.Some? && Length(overlapped.value) < p.minLength {
      return None;
    }
  }

  /** After the swap read one is the longer, and the pair holds the same two reads. */
  lemma NormalizedLongerFirst(one: Read, two: Read)
    ensures |Normalized(one, two).0.bases| >= |Normalized(one, two).1.bases|
    ensures Normalized(one, two) == (one, two) || Normalized(one, two) == (two, one)
    ensures Normalized(one, two) == (two, one) <==> |one.bases| < |two.bases| || one == two
  {
  }

  /** `check_read` returns nothing exactly when every candidate of the normalised pair is rejected
      or the merge is shorter than minLength; a returned read is at least minLength long, carries
      the longer read's identifier, one quality per base, and is a fresh, untrimmed, kept read. */
  lemma CheckReadOutcome(one: Read, two: Read, p: Params)
    requires Applicable(one, two, p)
    ensures CheckReadResult(one, two, p).None? <==>
              Located(one, two, p).None? || Length(Located(one, two, p).value) < p.minLength
    ensures CheckReadResult(one, two, p).Some? ==>
              var m := CheckReadResult(one, two, p).value;
              && Length(m) >= p.minLength && m.id == Normalized(one, two).0.id
              && |m.quals| == |m.bases| && m.lTrim == 0 && m.rTrim == 0 && !m.discard
  {
    var (r1, r2) := Normalized(one, two);
    if CheckReadResult(one, two, p).Some? {
      var index := Index(r1.bases, p.kmer, p.kmerOffset);
      IndexFitsRead(r1.bases, p.kmer, p.kmerOffset);
      ProbesFitLemma(|r2.bases|, p.checkLengths, p.kmer);
      var cands := Candidates(index, SeqRc(r2), Probes(|r2.bases|, p.checkLengths, p.kmer), p.kmer);
      CandidatesFitLemma(r1, r2, index, Probes(|r2.bases|, p.checkLengths, p.kmer), p.kmer);
      FirstHitIsFirst(r1, r2, cands, p.misDensity, p.minOver);
      var j :| 0 <= j < |cands|
             && Overlap(r1, r2, cands[j].off, cands[j].bp, p.misDensity, p.minOver)
                == FirstHit(r1, r2, cands, p.misDensity, p.minOver)
             && forall i :: 0 <= i < j ==> Overlap(r1, r2, cands[i].off, cands[i].bp, p.misDensity, p.minOver).None?;
      MergedShape(r1, r2, cands[j].off, cands[j].bp);
    }
  }

  /** `checkDiscarded(min_length)`: flags a read whose true length is below the minimum.
      (read.h is not part of this model; this is the behaviour its name and use imply.) */
  function CheckDiscarded(r: Read, minLength: nat): (r': Read)
    ensures r'.discard <==> r.discard || LengthTrue(r) < minLength
    ensures r' == r.(discard := r'.discard)
  {
    if LengthTrue(r) < minLength then r.(discard := true) else r
  }

  /** The length check on a merged read is a no-op: check_read has already dropped every merge
      shorter than minLength, and a merge is untrimmed. */
  lemma ConsensusNeverDiscarded(one: Read, two: Read, p: Params)
    requires Applicable(one, two, p) && CheckReadResult(one, two, p).Some?
    ensures CheckDiscarded(CheckReadResult(one, two, p).value, p.minLength) == CheckReadResult(one, two, p).value
  {
    CheckReadOutcome(one, two, p);
  }

  /** What `helper_overlapper` passes to `writer_helper`: the pair as it stands after the swap,
      or a single read. */
  datatype Handoff = PairOut(one: Read, two: Read) | SingleOut(r: Read)

  /** The counters' state: the counter map and the insert-length histogram. */
  datatype Tally = Tally(c: map<string, nat>, hist: seq<nat>)

  /** The outcome of a run over a record stream: the final counters, everything handed on, and
      the exception that stopped the run, if any. */
  datatype Outcome = Outcome(tally: Tally, handed: seq<Handoff>, error: Option<string>)

  predicate RecordsApplicable(records: seq<Record>, p: Params) {
    forall i :: 0 <= i < |records| && records[i].PairedRecord? ==> Applicable(records[i].r1, records[i].r2, p)
  }

  /** One paired record: the handoff and the counters after it. */
  function PairedStep(t: Tally, one: Read, two: Read, p: Params): (Tally, Handoff)
    requires Applicable(one, two, p)
  {
    var (a, b) := Normalized(one, two);
    var o := CheckReadResult(one, two, p);
    var o' := if o.Some? then Some(CheckDiscarded(o.value, p.minLength)) else None;
    var h := if o'.Some? then SingleOut(o'.value) else PairOut(a, b);
    (Tally(PairedCounts(t.c, a, b, o'), PairedHistogram(t.hist, o')), h)
  }

  /** `helper_overlapper` over the records still to come. */
  function Run(t: Tally, records: seq<Record>, p: Params): Outcome
    requires RecordsApplicable(records, p)
    decreases |records|
  {
    if records == [] then Outcome(t, [], None)
    else
      assert RecordsApplicable(records[1..], p) by {
        forall i | 0 <= i < |records[1..]| && records[1..][i].PairedRecord?
          ensures Applicable(records[1..][i].r1, records[1..][i].r2, p)
        {
          assert records[1..][i] == records[i + 1];
        }
      }
      match records[0]
      case PairedRecord(r1, r2) =>
        var (t', h) := PairedStep(t, r1, r2, p);
        var rest := Run(t', records[1..], p);
        Outcome(rest.tally, [h] + rest.handed, rest.error)
      case SingleRecord(r) =>
        var rest := Run(Tally(SingleCounts(t.c, r), t.hist), records[1..], p);
        Outcome(rest.tally, [SingleOut(r)] + rest.handed, rest.error)
      case UnknownRecord => Outcome(t, [], Some("Unknown read type"))
  }

  /** The paired branch of `helper_overlapper`: check the pair, length-check a merge, hand the
      result on, then count it against the (possibly swapped) pair. */
  method HandlePaired(r1: Read, r2: Read, counters: OverlapperCounters, p: Params) returns (h: Handoff)
    requires Applicable(r1, r2, p)
    modifies counters
    ensures (Tally(counters.c, counters.insertLength), h) == PairedStep(Tally(old(counters.c), old(counters.insertLength)), r1, r2, p)
  {
    var per := new PairedEndRead(r1, r2);
    var overlapped := CheckRead(per, p);
    if overlapped.None? {
      h := PairOut(per.one, per.two);
    } else {
      overlapped := Some(CheckDiscarded(overlapped.value, p.minLength));
      h := SingleOut(overlapped.value);
    }
    counters.OutputPaired(per.one, per.two, overlapped);
  }

  /** One step of Run, unfolded for the loop of HelperOverlapper. */
  lemma RunCons(t: Tally, records: seq<Record>, p: Params)
    requires RecordsApplicable(records, p) && records != []
    ensures RecordsApplicable(records[1..], p)
    ensures records[0].PairedRecord? ==>
              var (t', h) := PairedStep(t, records[0].r1, records[0].r2, p);
              var rest := Run(t', records[1..], p);
              Run(t, records, p) == Outcome(rest.tally, [h] + rest.handed, rest.error)
    ensures records[0].SingleRecord? ==>
              var rest := Run(Tally(SingleCounts(t.c, records[0].r), t.hist), records[1..], p);
              Run(t, records, p) == Outcome(rest.tally, [SingleOut(records[0].r)] + rest.handed, rest.error)
    ensures records[0].UnknownRecord? ==> Run(t, records, p) == Outcome(t, [], Some("Unknown read type"))
  {
    forall i | 0 <= i < |records[1..]| && records[1..][i].PairedRecord?
      ensures Applicable(records[1..][i].r1, records[1..][i].r2, p)
    {
      assert records[1..][i] == records[i + 1];
    }
  }

  lemma HandedAssoc(a: seq<Handoff>, h: Handoff, b: seq<Handoff>)
    ensures a + ([h] + b) == (a + [h]) + b
  {
  }

  /** `helper_overlapper`: one record after another until the stream ends or an unknown record
      raises "Unknown read type". */
  method HelperOverlapper(records: seq<Record>, counters: OverlapperCounters, p: Params)
    returns (handed: seq<Handoff>, error: Option<string>)
    requires RecordsApplicable(records, p)
    modifies counters
    ensures Outcome(Tally(counters.c, counters.insertLength), handed, error)
         == Run(Tally(old(counters.c), old(counters.insertLength)), records, p)
  {
    handed := [];
    var i := 0;
    while i < |records|
      invariant 0 <= i <= |records|
      invariant RecordsApplicable(records[i..], p)
      invariant var rest := Run(Tally(counters.c, counters.insertLength), records[i..], p);
                Run(Tally(old(counters.c), old(counters.insertLength)), records, p)
                == Outcome(rest.tally, handed + rest.handed, rest.error)
    {
      assert records[i..][1..] == records[i + 1..];
      assert records[i..][0] == records[i];
      ghost var t := Tally(counters.c, counters.insertLength);
      RunCons(t, records[i..], p);
      match records[i] {
        case PairedRecord(r1, r2) => {
          var h := HandlePaired(r1, r2, counters, p);
          HandedAssoc(handed, h, Run(Tally(counters.c, counters.insertLength), records[i + 1..], p).handed);
          handed := handed + [h];
        }
        case SingleRecord(r) => {
          HandedAssoc(handed, SingleOut(r), Run(Tally(SingleCounts(t.c, r), t.hist), records[i + 1..], p).handed);
          handed := handed + [SingleOut(r)];
          counters.OutputSingle(r);
        }
        case UnknownRecord => {
          return handed, Some("Unknown read type");
        }
      }
      i := i + 1;
    }
    error := None;
  }

  /** Every record before the first unknown one is handed on exactly once, in order; the run
      stops with "Unknown read type" exactly when the stream holds an unknown record. */
  lemma {:induction false} RunHandsOnEachRecord(t: Tally, records: seq<Record>, p: Params)
    requires RecordsApplicable(records, p)
    ensures Run(t, records, p).error.Some? <==> exists j :: 0 <= j < |records| && records[j].UnknownRecord?
    ensures Run(t, records, p).error.Some? ==> Run(t, records, p).error == Some("Unknown read type")
    ensures Run(t, records, p).error.None? ==> |Run(t, records, p).handed| == |records|
    ensures |Run(t, records, p).handed| <= |records|
    decreases |records|
  {
    if records != [] {
      assert RecordsApplicable(records[1..], p) by {
        forall i | 0 <= i < |records[1..]| && records[1..][i].PairedRecord?
          ensures Applicable(records[1..][i].r1, records[1..][i].r2, p)
        {
          assert records[1..][i] == records[i + 1];
        }
      }
      match records[0]
      case UnknownRecord =>
      case PairedRecord(r1, r2) =>
        var (t', h) := PairedStep(t, r1, r2, p);
        RunHandsOnEachRecord(t', records[1..], p);
        if exists j :: 0 <= j < |records[1..]| && records[1..][j].UnknownRecord? {
          var j :| 0 <= j < |records[1..]| && records[1..][j].UnknownRecord?;
          assert records[j + 1] == records[1..][j];
        }
        if exists j :: 0 <= j < |records| && records[j].UnknownRecord? {
          var j :| 0 <= j < |records| && records[j].UnknownRecord?;
          assert records[1..][j - 1] == records[j];
        }
      case SingleRecord(r) =>
        RunHandsOnEachRecord(Tally(SingleCounts(t.c, r), t.hist), records[1..], p);
        if exists j :: 0 <= j < |records[1..]| && records[1..][j].UnknownRecord? {
          var j :| 0 <= j < |records[1..]| && records[1..][j].UnknownRecord?;
          assert records[j + 1] == records[1..][j];
        }
        if exists j :: 0 <= j < |records| && records[j].UnknownRecord? {
          var j :| 0 <= j < |records| && records[j].UnknownRecord?;
          assert records[1..][j - 1] == records[j];
        }
    }
  }

  /** Pass-through: a single-end record is handed on unchanged, and a paired record without a
      qualifying overlap is handed on as the same two reads, longer first. */
  lemma PassThrough(t: Tally, one: Read, two: Read, r: Read, p: Params)
    requires Applicable(one, two, p)
    ensures Run(t, [SingleRecord(r)], p).handed == [SingleOut(r)]
    ensures CheckReadResult(one, two, p).None? ==>
              PairedStep(t, one, two, p).1 == PairOut(Normalized(one, two).0, Normalized(one, two).1)
    ensures CheckReadResult(one, two, p).Some? ==>
              PairedStep(t, one, two, p).1 == SingleOut(CheckReadResult(one, two, p).value)
  {
    assert RecordsApplicable([SingleRecord(r)][1..], p);
    if CheckReadResult(one, two, p).Some? {
      ConsensusNeverDiscarded(one, two, p);
    }
  }
}
