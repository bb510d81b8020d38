/** `getOverlappedReads`: probes a few k-mers at both ends of read two's reverse complement against
    the index of read one and returns the first candidate the verifier accepts. */
module OverlapLocator {
  import opened Wrappers
  import opened Bases
  import opened Reads
  import opened KmerIndex
  import opened OverlapVerifier

  /** `equal_range`: the offsets stored under `key`, in the order of the entry sequence. */
  function Lookup(index: seq<Entry>, key: string): (r: seq<nat>)
    ensures forall o :: o in r ==> Entry(key, o) in index
    ensures forall e :: e in index && e.key == key ==> e.off in r
  {
    if index == [] then []
    else (if index[0].key == key then [index[0].off] else []) + Lookup(index[1..], key)
  }

  /** The offsets lo, lo+1, ..., hi-1. */
  function Range(lo: nat, hi: nat): (r: seq<nat>)
    ensures |r| == if lo <= hi then hi - lo else 0
    ensures forall j :: 0 <= j < |r| ==> r[j] == lo + j
    decreases hi - lo
  {
    if lo >= hi then [] else [lo] + Range(lo + 1, hi)
  }

  /** The probe positions in scan order: the leading edge 0 .. checkLengths-1, then the trailing
      edge len2-(checkLengths+k) .. len2-k-1. */
  function Probes(len2: nat, checkLengths: nat, k: nat): seq<nat>
    requires len2 >= checkLengths + k
  {
    Range(0, checkLengths) + Range(len2 - (checkLengths + k), len2 - k)
  }

  /** An anchor pair: the offset in read one and the probe position in read two's reverse complement. */
  datatype Candidate = Candidate(off: nat, bp: nat)

  function Pair(offs: seq<nat>, bp: nat): (r: seq<Candidate>)
    ensures |r| == |offs|
    ensures forall j :: 0 <= j < |r| ==> r[j] == Candidate(offs[j], bp)
  {
    if offs == [] then [] else [Candidate(offs[0], bp)] + Pair(offs[1..], bp)
  }

  /** The candidates of one probe: every indexed offset of the k-mer at bp. */
  function ProbeCandidates(index: seq<Entry>, s2: string, bp: nat, k: nat): seq<Candidate>
    requires bp + k <= |s2|
  {
    Pair(Lookup(index, s2[bp .. bp + k]), bp)
  }

  predicate ProbesFit(probes: seq<nat>, k: nat, len2: nat) {
    forall j :: 0 <= j < |probes| ==> probes[j] + k <= len2
  }

  /** All candidates, probe after probe. */
  function Candidates(index: seq<Entry>, s2: string, probes: seq<nat>, k: nat): seq<Candidate>
    requires ProbesFit(probes, k, |s2|)
  {
    if probes == [] then []
    else ProbeCandidates(index, s2, probes[0], k) + Candidates(index, s2, probes[1..], k)
  }

  predicate IndexFits(index: seq<Entry>, len1: nat) {
    forall e :: e in index ==> e.off <= len1
  }

  predicate CandidatesFit(cands: seq<Candidate>, r1: Read, r2: Read) {
    forall j :: 0 <= j < |cands| ==> cands[j].off <= |r1.bases| && cands[j].bp <= |r2.bases|
  }

  /** The first candidate the verifier accepts, or None when none does. */
  function FirstHit(r1: Read, r2: Read, cands: seq<Candidate>, d: Density, minOverlap: nat): Option<Read>
    requires WellFormed(r1) && WellFormed(r2) && ValidDensity(d) && CandidatesFit(cands, r1, r2)
  {
    if cands == [] then None
    else
      var o := Overlap(r1, r2, cands[0].off, cands[0].bp, d, minOverlap);
      if o.Some? then o else FirstHit(r1, r2, cands[1..], d, minOverlap)
  }

  /** What the locator returns. */
  function Locate(r1: Read, r2: Read, index: seq<Entry>, d: Density, minOverlap: nat, checkLengths: nat, k: nat): Option<Read>
    requires WellFormed(r1) && WellFormed(r2) && ValidDensity(d)
    requires |r2.bases| >= checkLengths + k && IndexFits(index, |r1.bases|)
  {
    ProbesFitLemma(|r2.bases|, checkLengths, k);
    var cands := Candidates(index, SeqRc(r2), Probes(|r2.bases|, checkLengths, k), k);
    CandidatesFitLemma(r1, r2, index, Probes(|r2.bases|, checkLengths, k), k);
    FirstHit(r1, r2, cands, d, minOverlap)
  }

  lemma ProbesFitLemma(len2: nat, checkLengths: nat, k: nat)
    requires len2 >= checkLengths + k
    ensures ProbesFit(Probes(len2, checkLengths, k), k, len2)
  {
  }

  lemma {:induction false} CandidatesFitLemma(r1: Read, r2: Read, index: seq<Entry>, probes: seq<nat>, k: nat)
    requires ProbesFit(probes, k, |r2.bases|) && IndexFits(index, |r1.bases|)
    ensures CandidatesFit(Candidates(index, SeqRc(r2), probes, k), r1, r2)
  {
    if probes != [] {
      CandidatesFitLemma(r1, r2, index, probes[1..], k);
      ProbeCandidatesFit(r1, r2, index, probes[0], k);
    }
  }

  lemma ProbeCandidatesFit(r1: Read, r2: Read, index: seq<Entry>, bp: nat, k: nat)
    requires bp + k <= |r2.bases| && IndexFits(index, |r1.bases|)
    ensures CandidatesFit(ProbeCandidates(index, SeqRc(r2), bp, k), r1, r2)
  {
    var pc := ProbeCandidates(index, SeqRc(r2), bp, k);
    forall j | 0 <= j < |pc|
      ensures pc[j].off <= |r1.bases| && pc[j].bp <= |r2.bases|
    {
      var offs := Lookup(index, SeqRc(r2)[bp .. bp + k]);
      assert offs[j] in offs;
    }
  }

  lemma {:induction false} CandidatesAppend(index: seq<Entry>, s2: string, a: seq<nat>, b: seq<nat>, k: nat)
    requires ProbesFit(a, k, |s2|) && ProbesFit(b, k, |s2|)
    ensures ProbesFit(a + b, k, |s2|)
    ensures Candidates(index, s2, a + b, k) == Candidates(index, s2, a, k) + Candidates(index, s2, b, k)
  {
    if a == [] {
      assert a + b == b;
    } else {
      assert (a + b)[0] == a[0];
      assert (a + b)[1..] == a[1..] + b;
      CandidatesAppend(index, s2, a[1..], b, k);
      var pc := ProbeCandidates(index, s2, a[0], k);
      calc {
        Candidates(index, s2, a + b, k);
        pc + Candidates(index, s2, a[1..] + b, k);
        pc + (Candidates(index, s2, a[1..], k) + Candidates(index, s2, b, k));
        (pc + Candidates(index, s2, a[1..], k)) + Candidates(index, s2, b, k);
      }
    }
  }

  /** Splitting the candidate list: the first hit of a + b is a's when a has one, b's otherwise. */
  lemma {:induction false} FirstHitAppend(r1: Read, r2: Read, a: seq<Candidate>, b: seq<Candidate>, d: Density, minOverlap: nat)
    requires WellFormed(r1) && WellFormed(r2) && ValidDensity(d)
    requires CandidatesFit(a, r1, r2) && CandidatesFit(b, r1, r2)
    ensures CandidatesFit(a + b, r1, r2)
    ensures FirstHit(r1, r2, a + b, d, minOverlap)
         == if FirstHit(r1, r2, a, d, minOverlap).Some? then FirstHit(r1, r2, a, d, minOverlap)
            else FirstHit(r1, r2, b, d, minOverlap)
  {
    if a == [] {
      assert a + b == b;
    } else {
      assert (a + b)[0] == a[0];
      assert (a + b)[1..] == a[1..] + b;
      FirstHitAppend(r1, r2, a[1..], b, d, minOverlap);
    }
  }

  /** First success wins: a hit is the verifier's result on some candidate all of whose
      predecessors were rejected, and there is no hit exactly when every candidate is rejected. */
  lemma {:induction false} FirstHitIsFirst(r1: Read, r2: Read, cands: seq<Candidate>, d: Density, minOverlap: nat)
    requires WellFormed(r1) && WellFormed(r2) && ValidDensity(d) && CandidatesFit(cands, r1, r2)
    ensures FirstHit(r1, r2, cands, d, minOverlap).None? <==>
            forall j :: 0 <= j < |cands| ==> Overlap(r1, r2, cands[j].off, cands[j].bp, d, minOverlap).None?
    ensures FirstHit(r1, r2, cands, d, minOverlap).Some? ==>
            exists j :: 0 <= j < |cands|
                     && Overlap(r1, r2, cands[j].off, cands[j].bp, d, minOverlap) == FirstHit(r1, r2, cands, d, minOverlap)
                     && forall i :: 0 <= i < j ==> Overlap(r1, r2, cands[i].off, cands[i].bp, d, minOverlap).None?
  {
    if cands != [] {
      var rest := cands[1..];
      FirstHitIsFirst(r1, r2, rest, d, minOverlap);
      if Overlap(r1, r2, cands[0].off, cands[0].bp, d, minOverlap).None? {
        forall j | 0 <= j < |rest|
          ensures cands[j + 1] == rest[j]
        {
        }
        if FirstHit(r1, r2, rest, d, minOverlap).Some? {
          var j :| 0 <= j < |rest|
                && Overlap(r1, r2, rest[j].off, rest[j].bp, d, minOverlap) == FirstHit(r1, r2, rest, d, minOverlap)
                && forall i :: 0 <= i < j ==> Overlap(r1, r2, rest[i].off, rest[i].bp, d, minOverlap).None?;
          assert cands[j + 1] == rest[j];
        }
      }
    }
  }

  /** The inner loop of both probe loops: every indexed offset of the k-mer at bp, in turn. */
  method TryProbe(r1: Read, r2: Read, seq1Map: seq<Entry>, bp: nat, misDensity: Density, minOver: nat, kmer: nat)
    returns (overlapped: Option<Read>)
    requires WellFormed(r1) && WellFormed(r2) && ValidDensity(misDensity)
    requires IndexFits(seq1Map, |r1.bases|) && bp + kmer <= |r2.bases|
    ensures CandidatesFit(ProbeCandidates(seq1Map, SeqRc(r2), bp, kmer), r1, r2)
    ensures overlapped == FirstHit(r1, r2, ProbeCandidates(seq1Map, SeqRc(r2), bp, kmer), misDensity, minOver)
  {
    var seq2 := SeqRc(r2);
    ProbeCandidatesFit(r1, r2, seq1Map, bp, kmer);
    var test := Lookup(seq1Map, seq2[bp .. bp + kmer]);
    ghost var all := ProbeCandidates(seq1Map, seq2, bp, kmer);
    var it := 0;
    while it < |test|
      invariant 0 <= it <= |test|
      invariant CandidatesFit(all, r1, r2)
      invariant all[it..] == Pair(test[it..], bp)
      invariant FirstHit(r1, r2, all, misDensity, minOver) == FirstHit(r1, r2, all[it..], misDensity, minOver)
    {
      assert test[it] in test;
      assert all[it] == Candidate(test[it], bp);
      overlapped := CheckIfOverlap(r1, r2, test[it], bp, misDensity, minOver);
      if overlapped.Some? {
        return;
      }
      assert all[it..][1..] == all[it + 1..];
      assert Pair(test[it..], bp)[1..] == Pair(test[it + 1..], bp);
      it := it + 1;
    }
    overlapped := None;
  }

  lemma RangeStep(lo: nat, hi: nat)
    requires lo < hi
    ensures Range(lo, hi)[0] == lo
    ensures Range(lo, hi)[1..] == Range(lo + 1, hi)
  {
  }

  /** The state of a scan with `probes` still to try: every remaining candidate fits, and `goal`
      is the first hit among them. */
  ghost predicate Scanned(r1: Read, r2: Read, index: seq<Entry>, probes: seq<nat>, k: nat, d: Density,
                          minOverlap: nat, goal: Option<Read>)
  {
    && WellFormed(r1) && WellFormed(r2) && ValidDensity(d)
    && ProbesFit(probes, k, |r2.bases|)
    && CandidatesFit(Candidates(index, SeqRc(r2), probes, k), r1, r2)
    && goal == FirstHit(r1, r2, Candidates(index, SeqRc(r2), probes, k), d, minOverlap)
  }

  /** One probe of the scan: the candidates of probes[0] come first, then those of the rest. */
  lemma LocateStep(r1: Read, r2: Read, index: seq<Entry>, probes: seq<nat>, k: nat, d: Density, minOverlap: nat,
                   goal: Option<Read>)
    requires IndexFits(index, |r1.bases|) && probes != [] && Scanned(r1, r2, index, probes, k, d, minOverlap, goal)
    ensures probes[0] + k <= |r2.bases|
    ensures CandidatesFit(ProbeCandidates(index, SeqRc(r2), probes[0], k), r1, r2)
    ensures FirstHit(r1, r2, ProbeCandidates(index, SeqRc(r2), probes[0], k), d, minOverlap).Some? ==>
              goal == FirstHit(r1, r2, ProbeCandidates(index, SeqRc(r2), probes[0], k), d, minOverlap)
    ensures FirstHit(r1, r2, ProbeCandidates(index, SeqRc(r2), probes[0], k), d, minOverlap).None? ==>
              Scanned(r1, r2, index, probes[1..], k, d, minOverlap, goal)
  {
    CandidatesFitLemma(r1, r2, index, probes[1..], k);
    ProbeCandidatesFit(r1, r2, index, probes[0], k);
    FirstHitAppend(r1, r2, ProbeCandidates(index, SeqRc(r2), probes[0], k),
                   Candidates(index, SeqRc(r2), probes[1..], k), d, minOverlap);
  }

  /** One of the two probe loops of `getOverlappedReads`: probe positions lo .. hi-1 in turn. */
  method ScanProbes(r1: Read, r2: Read, seq1Map: seq<Entry>, misDensity: Density, minOver: nat,
                    lo: nat, hi: nat, kmer: nat, ghost goal: Option<Read>)
    returns (overlapped: Option<Read>)
    requires IndexFits(seq1Map, |r1.bases|) && Scanned(r1, r2, seq1Map, Range(lo, hi), kmer, misDensity, minOver, goal)
    ensures overlapped == goal
  {
    if hi <= lo {
      return None;
    }
    for bp := lo to hi
      invariant Scanned(r1, r2, seq1Map, Range(bp, hi), kmer, misDensity, minOver, goal)
    {
      RangeStep(bp, hi);
      LocateStep(r1, r2, seq1Map, Range(bp, hi), kmer, misDensity, minOver, goal);
      overlapped := TryProbe(r1, r2, seq1Map, bp, misDensity, minOver, kmer);
      if overlapped.Some? {
        return;
      }
    }
    overlapped := None;
  }

  /** The first hit among the candidates of `probes`. */
  ghost function ScanResult(r1: Read, r2: Read, index: seq<Entry>, probes: seq<nat>, k: nat, d: Density,
                            minOverlap: nat): (r: Option<Read>)
    requires WellFormed(r1) && WellFormed(r2) && ValidDensity(d)
    requires ProbesFit(probes, k, |r2.bases|) && IndexFits(index, |r1.bases|)
    ensures Scanned(r1, r2, index, probes, k, d, minOverlap, r)
  {
    CandidatesFitLemma(r1, r2, index, probes, k);
    FirstHit(r1, r2, Candidates(index, SeqRc(r2), probes, k), d, minOverlap)
  }

  /** The locator's result splits into the leading scan's and the trailing scan's. */
  lemma LocateSplit(r1: Read, r2: Read, index: seq<Entry>, d: Density, minOverlap: nat, checkLengths: nat, k: nat)
    requires WellFormed(r1) && WellFormed(r2) && ValidDensity(d)
    requires |r2.bases| >= checkLengths + k && IndexFits(index, |r1.bases|)
    ensures ProbesFit(Range(0, checkLengths), k, |r2.bases|)
    ensures ProbesFit(Range(|r2.bases| - (checkLengths + k), |r2.bases| - k), k, |r2.bases|)
    ensures Locate(r1, r2, index, d, minOverlap, checkLengths, k)
         == var lead := ScanResult(r1, r2, index, Range(0, checkLengths), k, d, minOverlap);
            if lead.Some? then lead
            else ScanResult(r1, r2, index, Range(|r2.bases| - (checkLengths + k), |r2.bases| - k), k, d, minOverlap)
  {
    var leading := Range(0, checkLengths);
    var trailing := Range(|r2.bases| - (checkLengths + k), |r2.bases| - k);
    CandidatesFitLemma(r1, r2, index, leading, k);
    CandidatesFitLemma(r1, r2, index, trailing, k);
    CandidatesAppend(index, SeqRc(r2), leading, trailing, k);
    var ca, cb := Candidates(index, SeqRc(r2), leading, k), Candidates(index, SeqRc(r2), trailing, k);
    FirstHitAppend(r1, r2, ca, cb, d, minOverlap);
    assert Probes(|r2.bases|, checkLengths, k) == leading + trailing;
    assert Locate(r1, r2, index, d, minOverlap, checkLengths, k) == FirstHit(r1, r2, ca + cb, d, minOverlap);
    assert ScanResult(r1, r2, index, leading, k, d, minOverlap) == FirstHit(r1, r2, ca, d, minOverlap);
    assert ScanResult(r1, r2, index, trailing, k, d, minOverlap) == FirstHit(r1, r2, cb, d, minOverlap);
  }

  /** The goals of the two probe loops, whose combination is the locator's result. */
  lemma ScanGoals(r1: Read, r2: Read, index: seq<Entry>, d: Density, minOverlap: nat, checkLengths: nat, k: nat)
    returns (lead: Option<Read>, trail: Option<Read>)
    requires WellFormed(r1) && WellFormed(r2) && ValidDensity(d)
    requires |r2.bases| >= checkLengths + k && IndexFits(index, |r1.bases|)
    ensures Scanned(r1, r2, index, Range(0, checkLengths), k, d, minOverlap, lead)
    ensures Scanned(r1, r2, index, Range(|r2.bases| - (checkLengths + k), |r2.bases| - k), k, d, minOverlap, trail)
    ensures Locate(r1, r2, index, d, minOverlap, checkLengths, k) == if lead.Some? then lead else trail
  {
    LocateSplit(r1, r2, index, d, minOverlap, checkLengths, k);
    lead := ScanResult(r1, r2, index, Range(0, checkLengths), k, d, minOverlap);
    trail := ScanResult(r1, r2, index, Range(|r2.bases| - (checkLengths + k), |r2.bases| - k), k, d, minOverlap);
  }

  /** `getOverlappedReads`: leading probes first, then trailing probes; the first accepted
      candidate is the result. */
  method GetOverlappedReads(r1: Read, r2: Read, seq1Map: seq<Entry>, misDensity: Density, minOver: nat,
                            checkLengths: nat, kmer: nat)
    returns (overlapped: Option<Read>)
    requires WellFormed(r1) && WellFormed(r2) && ValidDensity(misDensity)
    requires |r2.bases| >= checkLengths + kmer && IndexFits(seq1Map, |r1.bases|)
    ensures overlapped == Locate(r1, r2, seq1Map, misDensity, minOver, checkLengths, kmer)
  {
    var len2 := |r2.bases|;
    var lo2, hi2 := len2 - (checkLengths + kmer), len2 - kmer;
    ghost var lead, trail := ScanGoals(r1, r2, seq1Map, misDensity, minOver, checkLengths, kmer);
    assert Scanned(r1, r2, seq1Map, Range(lo2, hi2), kmer, misDensity, minOver, trail);
    overlapped := ScanProbes(r1, r2, seq1Map, misDensity, minOver, 0, checkLengths, kmer, lead);
    if overlapped.Some? {
      return;
    }
    overlapped := ScanProbes(r1, r2, seq1Map, misDensity, minOver, lo2, hi2, kmer, trail);
  }
}
