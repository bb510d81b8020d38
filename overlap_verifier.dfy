/** `checkIfOverlap`: verifies one candidate alignment of read one against read two's reverse
    complement and, when it holds, builds the consensus read. */
module OverlapVerifier {
  import opened Wrappers
  import opened Bases
  import opened Reads

  /** The mismatch density, a fraction num/den (the source's `double misDensity`). */
  datatype Density = Density(num: nat, den: nat)

  predicate ValidDensity(d: Density) { d.den > 0 }

  function Min(a: int, b: int): int { if a < b then a else b }

  function Max(a: int, b: int): int { if a < b then b else a }

  /** `maxMis`: the mismatch budget of a window, floor(maxLoop * misDensity). */
  function MaxMis(maxLoop: nat, d: Density): (r: nat)
    requires ValidDensity(d)
    ensures r * d.den <= maxLoop * d.num < (r + 1) * d.den
  {
    maxLoop * d.num / d.den
  }

  /** Consensus base: the common base on a match; on a mismatch read one's base only when its
      quality is strictly higher, otherwise read two's. */
  function MergeBase(b1: char, q1: char, b2: char, q2: char): (r: char)
    ensures r == b1 || r == b2
    ensures b1 != b2 ==> (r == b1 <==> q1 > q2)
  {
    if b1 == b2 then b1 else if q1 > q2 then b1 else b2
  }

  /** Consensus quality: on a match the qualities add (Phred+33, so one offset is taken off),
      capped at Phred 40 ('I'); on a mismatch the difference, floored at Phred 1 ('"'). */
  function MergeQual(b1: char, q1: char, b2: char, q2: char): (r: char)
    requires PhredChar(q1) && PhredChar(q2)
    ensures PhredChar(r)
  {
    if b1 == b2 then Min(q1 as int + q2 as int - 33, 40 + 33) as char
    else Max(q1 as int - q2 as int + 33, 1 + 33) as char
  }

  /** On a match the quality never drops below either input unless it hits the cap 'I' (Phred 40);
      on a mismatch it never exceeds read one's unless it sits at the floor '"' (Phred 1). */
  lemma MergeQualBounds(b1: char, q1: char, b2: char, q2: char)
    requires PhredChar(q1) && PhredChar(q2)
    ensures b1 == b2 ==> MergeQual(b1, q1, b2, q2) <= 'I'
    ensures b1 == b2 ==> MergeQual(b1, q1, b2, q2) == 'I' || (MergeQual(b1, q1, b2, q2) >= q1 && MergeQual(b1, q1, b2, q2) >= q2)
    ensures b1 != b2 ==> MergeQual(b1, q1, b2, q2) >= '"'
    ensures b1 != b2 ==> MergeQual(b1, q1, b2, q2) == '"' || MergeQual(b1, q1, b2, q2) <= q1
  {
  }

  /** The consensus bases of the window of length n starting at t1 in s1 and t2 in s2. */
  function ConsensusBases(s1: string, q1: string, s2: string, q2: string, t1: nat, t2: nat, n: nat): (r: string)
    requires t1 + n <= |s1| && t1 + n <= |q1| && t2 + n <= |s2| && t2 + n <= |q2|
    ensures |r| == n
  {
    seq(n, i requires 0 <= i < n => MergeBase(s1[t1 + i], q1[t1 + i], s2[t2 + i], q2[t2 + i]))
  }

  predicate PhredString(q: string) {
    forall i :: 0 <= i < |q| ==> PhredChar(q[i])
  }

  /** The consensus qualities of the same window. */
  function ConsensusQuals(s1: string, q1: string, s2: string, q2: string, t1: nat, t2: nat, n: nat): (r: string)
    requires t1 + n <= |s1| && t1 + n <= |q1| && t2 + n <= |s2| && t2 + n <= |q2|
    requires PhredString(q1) && PhredString(q2)
    ensures |r| == n
  {
    seq(n, i requires 0 <= i < n => MergeQual(s1[t1 + i], q1[t1 + i], s2[t2 + i], q2[t2 + i]))
  }

  /** The number of mismatching positions among the first n of the window. */
  function Mismatches(s1: string, s2: string, t1: nat, t2: nat, n: nat): nat
    requires t1 + n <= |s1| && t2 + n <= |s2|
  {
    if n == 0 then 0
    else Mismatches(s1, s2, t1, t2, n - 1) + (if s1[t1 + n - 1] != s2[t2 + n - 1] then 1 else 0)
  }

  lemma {:induction false} MismatchesMonotone(s1: string, s2: string, t1: nat, t2: nat, a: nat, b: nat)
    requires a <= b && t1 + b <= |s1| && t2 + b <= |s2|
    ensures Mismatches(s1, s2, t1, t2, a) <= Mismatches(s1, s2, t1, t2, b)
    decreases b - a
  {
    if a < b {
      MismatchesMonotone(s1, s2, t1, t2, a, b - 1);
    }
  }

  /** No mismatch counted means the window agrees base for base. */
  lemma {:induction false} NoMismatchesMeansEqual(s1: string, s2: string, t1: nat, t2: nat, n: nat)
    requires t1 + n <= |s1| && t2 + n <= |s2|
    ensures Mismatches(s1, s2, t1, t2, n) == 0 <==> s1[t1 .. t1 + n] == s2[t2 .. t2 + n]
  {
    if n > 0 {
      NoMismatchesMeansEqual(s1, s2, t1, t2, n - 1);
      assert s1[t1 .. t1 + n] == s1[t1 .. t1 + n - 1] + [s1[t1 + n - 1]];
      assert s2[t2 .. t2 + n] == s2[t2 .. t2 + n - 1] + [s2[t2 + n - 1]];
      if s1[t1 .. t1 + n] == s2[t2 .. t2 + n] {
        assert s1[t1 + n - 1] == s1[t1 .. t1 + n][n - 1];
        assert s1[t1 .. t1 + n - 1] == s1[t1 .. t1 + n][.. n - 1];
        assert s2[t2 .. t2 + n - 1] == s2[t2 .. t2 + n][.. n - 1];
      }
    }
  }

  /** What the overlapper needs of its inputs. */
  predicate Admissible(r1: Read, r2: Read, loc1: nat, loc2: nat)
  {
    WellFormed(r1) && WellFormed(r2) && loc1 <= |r1.bases| && loc2 <= |r2.bases|
  }

  /** Anchor normalisation: both offsets less their minimum, so one of them is 0. */
  function Shift1(loc1: nat, loc2: nat): (t: nat)
    ensures t == 0 || Shift2(loc1, loc2) == 0
  {
    loc1 - Min(loc1, loc2)
  }

  function Shift2(loc1: nat, loc2: nat): nat { loc2 - Min(loc1, loc2) }

  /** `maxLoop`: how far the window runs before one of the two reads ends. */
  function WindowLength(r1: Read, r2: Read, loc1: nat, loc2: nat): (n: nat)
    requires loc1 <= |r1.bases| && loc2 <= |r2.bases|
    ensures Shift1(loc1, loc2) + n <= |r1.bases| && Shift2(loc1, loc2) + n <= |r2.bases|
    ensures Shift1(loc1, loc2) + n == |r1.bases| || Shift2(loc1, loc2) + n == |r2.bases|
  {
    Min(|r1.bases| - Shift1(loc1, loc2), |r2.bases| - Shift2(loc1, loc2))
  }

  lemma ReverseIsPhred(q: string)
    requires PhredString(q)
    ensures PhredString(Reverse(q))
  {
  }

  /** The bases read one contributes before the window: all of them up to its anchor, only when
      read one is the one that starts first. */
  function PrefixLength(loc1: nat, loc2: nat): nat
  {
    if Shift1(loc1, loc2) >= Shift2(loc1, loc2) then Shift1(loc1, loc2) else 0
  }

  /** Read two's reverse complement is appended from position maxLoop on, when read one ends first. */
  predicate HasSuffix(r1: Read, r2: Read, loc1: nat, loc2: nat)
    requires loc1 <= |r1.bases| && loc2 <= |r2.bases|
  {
    |r1.bases| - Shift1(loc1, loc2) < |r2.bases|
  }

  /** The merged bases: prefix of read one, the window consensus, then the tail of read two's
      reverse complement. */
  function MergedBases(r1: Read, r2: Read, loc1: nat, loc2: nat): string
    requires Admissible(r1, r2, loc1, loc2)
  {
    var n := WindowLength(r1, r2, loc1, loc2);
    r1.bases[.. PrefixLength(loc1, loc2)]
      + ConsensusBases(r1.bases, r1.quals, SeqRc(r2), QualRc(r2), Shift1(loc1, loc2), Shift2(loc1, loc2), n)
      + (if HasSuffix(r1, r2, loc1, loc2) then SeqRc(r2)[n ..] else [])
  }

  /** The merged qualities, assembled like the bases. */
  function MergedQuals(r1: Read, r2: Read, loc1: nat, loc2: nat): string
    requires Admissible(r1, r2, loc1, loc2)
  {
    ReverseIsPhred(r2.quals);
    var n := WindowLength(r1, r2, loc1, loc2);
    r1.quals[.. PrefixLength(loc1, loc2)]
      + ConsensusQuals(r1.bases, r1.quals, SeqRc(r2), QualRc(r2), Shift1(loc1, loc2), Shift2(loc1, loc2), n)
      + (if HasSuffix(r1, r2, loc1, loc2) then QualRc(r2)[n ..] else [])
  }

  /** The merged read, with read one's identifier. */
  function Merged(r1: Read, r2: Read, loc1: nat, loc2: nat): (m: Read)
    requires Admissible(r1, r2, loc1, loc2)
  {
    NewRead(MergedBases(r1, r2, loc1, loc2), MergedQuals(r1, r2, loc1, loc2), r1.id)
  }

  /** The verifier's outcome: no overlap when the window is not longer than minOverlap or when it
      holds more mismatches than its budget; the merged read otherwise. */
  function Overlap(r1: Read, r2: Read, loc1: nat, loc2: nat, d: Density, minOverlap: nat): Option<Read>
    requires Admissible(r1, r2, loc1, loc2) && ValidDensity(d)
  {
    var n := WindowLength(r1, r2, loc1, loc2);
    if n <= minOverlap then None
    else if Mismatches(r1.bases, SeqRc(r2), Shift1(loc1, loc2), Shift2(loc1, loc2), n) > MaxMis(n, d) then None
    else Some(Merged(r1, r2, loc1, loc2))
  }

  lemma ConsensusSnoc(s1: string, q1: string, s2: string, q2: string, t1: nat, t2: nat, i: nat)
    requires t1 + i < |s1| && t1 + i < |q1| && t2 + i < |s2| && t2 + i < |q2|
    requires PhredString(q1) && PhredString(q2)
    ensures ConsensusBases(s1, q1, s2, q2, t1, t2, i + 1)
         == ConsensusBases(s1, q1, s2, q2, t1, t2, i) + [MergeBase(s1[t1 + i], q1[t1 + i], s2[t2 + i], q2[t2 + i])]
    ensures ConsensusQuals(s1, q1, s2, q2, t1, t2, i + 1)
         == ConsensusQuals(s1, q1, s2, q2, t1, t2, i) + [MergeQual(s1[t1 + i], q1[t1 + i], s2[t2 + i], q2[t2 + i])]
  {
  }

  /** The window walk of `checkIfOverlap`: builds the consensus base by base and gives up as soon
      as the mismatch count exceeds maxMis. */
  method WalkWindow(seq1: string, qual1: string, seq2: string, qual2: string,
                    loc1_t: nat, loc2_t: nat, maxLoop: nat, maxMis: nat)
    returns (window: Option<(string, string)>)
    requires loc1_t + maxLoop <= |seq1| && loc1_t + maxLoop <= |qual1|
    requires loc2_t + maxLoop <= |seq2| && loc2_t + maxLoop <= |qual2|
    requires PhredString(qual1) && PhredString(qual2)
    ensures window.None? <==> Mismatches(seq1, seq2, loc1_t, loc2_t, maxLoop) > maxMis
    ensures window.Some? ==> window.value == (ConsensusBases(seq1, qual1, seq2, qual2, loc1_t, loc2_t, maxLoop),
                                              ConsensusQuals(seq1, qual1, seq2, qual2, loc1_t, loc2_t, maxLoop))
  {
    var finalSeq, finalQual := "", "";
    var misMatches: nat := 0;
    for i := 0 to maxLoop
      invariant finalSeq == ConsensusBases(seq1, qual1, seq2, qual2, loc1_t, loc2_t, i)
      invariant finalQual == ConsensusQuals(seq1, qual1, seq2, qual2, loc1_t, loc2_t, i)
      invariant misMatches == Mismatches(seq1, seq2, loc1_t, loc2_t, i) <= maxMis
    {
      var read1_bp, read2_bp := loc1_t + i, loc2_t + i;
      var bp, qual;
      if seq1[read1_bp] == seq2[read2_bp] {
        bp := seq1[read1_bp];
        qual := Min(qual1[read1_bp] as int + qual2[read2_bp] as int - 33, 40 + 33) as char;
      } else {
        bp := if qual1[read1_bp] > qual2[read2_bp] then seq1[read1_bp] else seq2[read2_bp];
        qual := Max(qual1[read1_bp] as int - qual2[read2_bp] as int + 33, 1 + 33) as char;
        misMatches := misMatches + 1;
        if misMatches > maxMis {
          MismatchesMonotone(seq1, seq2, loc1_t, loc2_t, i + 1, maxLoop);
          return None;
        }
      }
      assert bp == MergeBase(seq1[read1_bp], qual1[read1_bp], seq2[read2_bp], qual2[read2_bp]);
      assert qual == MergeQual(seq1[read1_bp], qual1[read1_bp], seq2[read2_bp], qual2[read2_bp]);
      ConsensusSnoc(seq1, qual1, seq2, qual2, loc1_t, loc2_t, i);
      finalSeq := finalSeq + [bp];
      finalQual := finalQual + [qual];
    }
    window := Some((finalSeq, finalQual));
  }

  /** `checkIfOverlap`: normalise the anchors, reject short windows, walk the window, then add the
      prefix of read one and the tail of read two's reverse complement. */
  method CheckIfOverlap(r1: Read, r2: Read, loc1: nat, loc2: nat, misDensity: Density, minOverlap: nat)
    returns (overlap: Option<Read>)
    requires Admissible(r1, r2, loc1, loc2) && ValidDensity(misDensity)
    ensures overlap == Overlap(r1, r2, loc1, loc2, misDensity, minOverlap)
  {
    var minLoc := Min(loc1, loc2);
    var loc1_t: nat, loc2_t: nat := loc1 - minLoc, loc2 - minLoc;
    var maxLoop: nat := Min(|r1.bases| - loc1_t, |r2.bases| - loc2_t);
    var maxMis := MaxMis(maxLoop, misDensity);
    if maxLoop <= minOverlap {
      return None;
    }
    var seq1, seq2, qual1, qual2 := r1.bases, SeqRc(r2), r1.quals, QualRc(r2);
    ReverseIsPhred(r2.quals);
    var window := WalkWindow(seq1, qual1, seq2, qual2, loc1_t, loc2_t, maxLoop, maxMis);
    if window.None? {
      return None;
    }
    assert loc1_t == Shift1(loc1, loc2) && loc2_t == Shift2(loc1, loc2) && maxLoop == WindowLength(r1, r2, loc1, loc2);
    var merged := AddFlanks(r1, r2, loc1, loc2, loc1_t, loc2_t, maxLoop, window.value.0, window.value.1);
    overlap := Some(merged);
  }

  /** The end of `checkIfOverlap`: read one's bases before the window when read one starts first,
      and read two's reverse-complemented tail after it when read one ends first. */
  method AddFlanks(r1: Read, r2: Read, loc1: nat, loc2: nat, loc1_t: nat, loc2_t: nat, maxLoop: nat,
                   windowSeq: string, windowQual: string)
    returns (merged: Read)
    requires Admissible(r1, r2, loc1, loc2) && PhredString(QualRc(r2))
    requires loc1_t == Shift1(loc1, loc2) && loc2_t == Shift2(loc1, loc2) && maxLoop == WindowLength(r1, r2, loc1, loc2)
    requires windowSeq == ConsensusBases(r1.bases, r1.quals, SeqRc(r2), QualRc(r2), loc1_t, loc2_t, maxLoop)
    requires windowQual == ConsensusQuals(r1.bases, r1.quals, SeqRc(r2), QualRc(r2), loc1_t, loc2_t, maxLoop)
    ensures merged == Merged(r1, r2, loc1, loc2)
  {
    var seq1, seq2, qual1, qual2 := r1.bases, SeqRc(r2), r1.quals, QualRc(r2);
    var finalSeq, finalQual := windowSeq, windowQual;
    if loc1_t >= loc2_t {
      finalSeq := seq1[.. loc1_t] + finalSeq;
      finalQual := qual1[.. loc1_t] + finalQual;
    }
    ghost var pre, preQ := if loc1_t >= loc2_t then seq1[.. loc1_t] else [], if loc1_t >= loc2_t then qual1[.. loc1_t] else [];
    assert finalSeq == pre + windowSeq && finalQual == preQ + windowQual;
    if |r1.bases| - loc1_t < |r2.bases| {
      finalSeq := finalSeq + seq2[maxLoop .. |r2.bases|];
      finalQual := finalQual + qual2[maxLoop .. |r2.bases|];
    }
    ghost var cond := |r1.bases| - loc1_t < |r2.bases|;
    assert finalSeq == pre + windowSeq + (if cond then seq2[maxLoop .. |r2.bases|] else []);
    assert finalQual == preQ + windowQual + (if cond then qual2[maxLoop .. |r2.bases|] else []);
    AssembleMerged(r1, r2, loc1, loc2, loc1_t, loc2_t, maxLoop, windowSeq, windowQual, finalSeq, finalQual);
    merged := NewRead(finalSeq, finalQual, r1.id);
  }

  /** The pieces `checkIfOverlap` glues together make up the merged read. */
  lemma AssembleMerged(r1: Read, r2: Read, loc1: nat, loc2: nat, t1: nat, t2: nat, n: nat,
                       cb: string, cq: string, bases: string, quals: string)
    requires Admissible(r1, r2, loc1, loc2) && PhredString(QualRc(r2))
    requires t1 == Shift1(loc1, loc2) && t2 == Shift2(loc1, loc2) && n == WindowLength(r1, r2, loc1, loc2)
    requires cb == ConsensusBases(r1.bases, r1.quals, SeqRc(r2), QualRc(r2), t1, t2, n)
    requires cq == ConsensusQuals(r1.bases, r1.quals, SeqRc(r2), QualRc(r2), t1, t2, n)
    requires bases == (if t1 >= t2 then r1.bases[.. t1] else []) + cb
                      + (if |r1.bases| - t1 < |r2.bases| then SeqRc(r2)[n .. |r2.bases|] else [])
    requires quals == (if t1 >= t2 then r1.quals[.. t1] else []) + cq
                      + (if |r1.bases| - t1 < |r2.bases| then QualRc(r2)[n .. |r2.bases|] else [])
    ensures NewRead(bases, quals, r1.id) == Merged(r1, r2, loc1, loc2)
  {
    var p := PrefixLength(loc1, loc2);
    assert r1.bases[.. p] == (if Shift1(loc1, loc2) >= Shift2(loc1, loc2) then r1.bases[.. Shift1(loc1, loc2)] else []);
    assert r1.quals[.. p] == (if Shift1(loc1, loc2) >= Shift2(loc1, loc2) then r1.quals[.. Shift1(loc1, loc2)] else []);
    assert SeqRc(r2)[WindowLength(r1, r2, loc1, loc2) ..] == SeqRc(r2)[WindowLength(r1, r2, loc1, loc2) .. |r2.bases|];
    assert QualRc(r2)[WindowLength(r1, r2, loc1, loc2) ..] == QualRc(r2)[WindowLength(r1, r2, loc1, loc2) .. |r2.bases|];
  }

  /** A candidate is accepted exactly when its window is longer than minOverlap and holds at most
      floor(maxLoop * misDensity) mismatches; one mismatch more rejects it. */
  lemma OverlapAccepts(r1: Read, r2: Read, loc1: nat, loc2: nat, d: Density, minOverlap: nat)
    requires Admissible(r1, r2, loc1, loc2) && ValidDensity(d)
    ensures var n := WindowLength(r1, r2, loc1, loc2);
            Overlap(r1, r2, loc1, loc2, d, minOverlap).Some? <==>
              n > minOverlap && Mismatches(r1.bases, SeqRc(r2), Shift1(loc1, loc2), Shift2(loc1, loc2), n) <= MaxMis(n, d)
  {
  }

  /** The merged read has read one's identifier, one quality per base, and is laid out as
      prefix (read one's first t1 bases when it starts first), the maxLoop consensus positions,
      then read two's reverse complement from maxLoop on when read one ends first. */
  lemma MergedShape(r1: Read, r2: Read, loc1: nat, loc2: nat)
    requires Admissible(r1, r2, loc1, loc2)
    ensures var m, n, p := Merged(r1, r2, loc1, loc2), WindowLength(r1, r2, loc1, loc2), PrefixLength(loc1, loc2);
            && m.id == r1.id && !m.discard && m.lTrim == 0 && m.rTrim == 0
            && |m.bases| == |m.quals| == p + n + (if HasSuffix(r1, r2, loc1, loc2) then |r2.bases| - n else 0)
            && m.bases[.. p] == r1.bases[.. p] && m.quals[.. p] == r1.quals[.. p]
            && (HasSuffix(r1, r2, loc1, loc2) ==> m.bases[p + n ..] == SeqRc(r2)[n ..] && m.quals[p + n ..] == QualRc(r2)[n ..])
            && (!HasSuffix(r1, r2, loc1, loc2) ==> |m.bases| == p + n)
  {
    var m, n, p := Merged(r1, r2, loc1, loc2), WindowLength(r1, r2, loc1, loc2), PrefixLength(loc1, loc2);
    assert |m.bases| >= p + n;
  }

  /** The three pieces of a merged read, written out for the lemmas below. */
  lemma MergedLayout(r1: Read, r2: Read, loc1: nat, loc2: nat)
    requires Admissible(r1, r2, loc1, loc2)
    ensures PhredString(QualRc(r2))
    ensures var t1, t2, n, p := Shift1(loc1, loc2), Shift2(loc1, loc2), WindowLength(r1, r2, loc1, loc2), PrefixLength(loc1, loc2);
            && Merged(r1, r2, loc1, loc2).bases
               == r1.bases[.. p] + ConsensusBases(r1.bases, r1.quals, SeqRc(r2), QualRc(r2), t1, t2, n)
                  + (if HasSuffix(r1, r2, loc1, loc2) then SeqRc(r2)[n ..] else [])
            && Merged(r1, r2, loc1, loc2).quals
               == r1.quals[.. p] + ConsensusQuals(r1.bases, r1.quals, SeqRc(r2), QualRc(r2), t1, t2, n)
                  + (if HasSuffix(r1, r2, loc1, loc2) then QualRc(r2)[n ..] else [])
  {
    ReverseIsPhred(r2.quals);
  }

  /** Position by position, the consensus bases of the merged read follow MergeBase. */
  lemma MergedConsensusBase(r1: Read, r2: Read, loc1: nat, loc2: nat, i: nat)
    requires Admissible(r1, r2, loc1, loc2) && i < WindowLength(r1, r2, loc1, loc2)
    ensures PrefixLength(loc1, loc2) + i < |Merged(r1, r2, loc1, loc2).bases|
    ensures Merged(r1, r2, loc1, loc2).bases[PrefixLength(loc1, loc2) + i]
         == MergeBase(r1.bases[Shift1(loc1, loc2) + i], r1.quals[Shift1(loc1, loc2) + i],
                      SeqRc(r2)[Shift2(loc1, loc2) + i], QualRc(r2)[Shift2(loc1, loc2) + i])
  {
    MergedLayout(r1, r2, loc1, loc2);
    var t1, t2, n := Shift1(loc1, loc2), Shift2(loc1, loc2), WindowLength(r1, r2, loc1, loc2);
    var sb := if HasSuffix(r1, r2, loc1, loc2) then SeqRc(r2)[n ..] else [];
    ConsensusBaseAt(r1.bases[.. PrefixLength(loc1, loc2)], r1.bases, r1.quals, SeqRc(r2), QualRc(r2), t1, t2, n, sb, i);
  }

  /** Position by position, the consensus qualities of the merged read follow MergeQual (whose
      contract gives the bounds: at most 'I' on a match, at least '"' on a mismatch). */
  lemma MergedConsensusQual(r1: Read, r2: Read, loc1: nat, loc2: nat, i: nat)
    requires Admissible(r1, r2, loc1, loc2) && i < WindowLength(r1, r2, loc1, loc2)
    ensures PhredChar(QualRc(r2)[Shift2(loc1, loc2) + i])
    ensures PrefixLength(loc1, loc2) + i < |Merged(r1, r2, loc1, loc2).quals|
    ensures Merged(r1, r2, loc1, loc2).quals[PrefixLength(loc1, loc2) + i]
         == MergeQual(r1.bases[Shift1(loc1, loc2) + i], r1.quals[Shift1(loc1, loc2) + i],
                      SeqRc(r2)[Shift2(loc1, loc2) + i], QualRc(r2)[Shift2(loc1, loc2) + i])
  {
    MergedLayout(r1, r2, loc1, loc2);
    var t1, t2, n := Shift1(loc1, loc2), Shift2(loc1, loc2), WindowLength(r1, r2, loc1, loc2);
    var sq := if HasSuffix(r1, r2, loc1, loc2) then QualRc(r2)[n ..] else [];
    ConsensusQualAt(r1.quals[.. PrefixLength(loc1, loc2)], r1.bases, r1.quals, SeqRc(r2), QualRc(r2), t1, t2, n, sq, i);
  }

  lemma ConsensusBaseAt(a: string, s1: string, q1: string, s2: string, q2: string, t1: nat, t2: nat, n: nat,
                        c: string, i: nat)
    requires t1 + n <= |s1| && t1 + n <= |q1| && t2 + n <= |s2| && t2 + n <= |q2| && i < n
    ensures |a| + i < |a + ConsensusBases(s1, q1, s2, q2, t1, t2, n) + c|
    ensures (a + ConsensusBases(s1, q1, s2, q2, t1, t2, n) + c)[|a| + i]
         == MergeBase(s1[t1 + i], q1[t1 + i], s2[t2 + i], q2[t2 + i])
  {
    IndexMiddle(a, ConsensusBases(s1, q1, s2, q2, t1, t2, n), c, i);
  }

  lemma ConsensusQualAt(a: string, s1: string, q1: string, s2: string, q2: string, t1: nat, t2: nat, n: nat,
                        c: string, i: nat)
    requires t1 + n <= |s1| && t1 + n <= |q1| && t2 + n <= |s2| && t2 + n <= |q2| && i < n
    requires PhredString(q1) && PhredString(q2)
    ensures |a| + i < |a + ConsensusQuals(s1, q1, s2, q2, t1, t2, n) + c|
    ensures (a + ConsensusQuals(s1, q1, s2, q2, t1, t2, n) + c)[|a| + i]
         == MergeQual(s1[t1 + i], q1[t1 + i], s2[t2 + i], q2[t2 + i])
  {
    IndexMiddle(a, ConsensusQuals(s1, q1, s2, q2, t1, t2, n), c, i);
  }

  lemma IndexMiddle(a: string, b: string, c: string, i: nat)
    requires i < |b|
    ensures |a| + i < |a + b + c| && (a + b + c)[|a| + i] == b[i]
  {
  }

  /** Every quality byte of a merged read is printable Phred+33. */
  lemma MergedQualsPrintable(r1: Read, r2: Read, loc1: nat, loc2: nat)
    requires Admissible(r1, r2, loc1, loc2)
    ensures PhredString(Merged(r1, r2, loc1, loc2).quals)
  {
    MergedLayout(r1, r2, loc1, loc2);
    var t1, t2, n, p := Shift1(loc1, loc2), Shift2(loc1, loc2), WindowLength(r1, r2, loc1, loc2), PrefixLength(loc1, loc2);
    var q2 := QualRc(r2);
    ConsensusQualsPrintable(r1.bases, r1.quals, SeqRc(r2), q2, t1, t2, n);
    PhredSlice(r1.quals, 0, p);
    assert r1.quals[0 .. p] == r1.quals[.. p];
    if HasSuffix(r1, r2, loc1, loc2) {
      PhredSlice(q2, n, |q2|);
      assert q2[n .. |q2|] == q2[n ..];
    }
    PhredConcat3(r1.quals[.. p], ConsensusQuals(r1.bases, r1.quals, SeqRc(r2), q2, t1, t2, n),
                 if HasSuffix(r1, r2, loc1, loc2) then q2[n ..] else []);
  }

  lemma ConsensusQualsPrintable(s1: string, q1: string, s2: string, q2: string, t1: nat, t2: nat, n: nat)
    requires t1 + n <= |s1| && t1 + n <= |q1| && t2 + n <= |s2| && t2 + n <= |q2|
    requires PhredString(q1) && PhredString(q2)
    ensures PhredString(ConsensusQuals(s1, q1, s2, q2, t1, t2, n))
  {
    var cq := ConsensusQuals(s1, q1, s2, q2, t1, t2, n);
    forall i | 0 <= i < n
      ensures PhredChar(cq[i])
    {
      assert cq[i] == MergeQual(s1[t1 + i], q1[t1 + i], s2[t2 + i], q2[t2 + i]);
    }
  }

  lemma PhredSlice(q: string, lo: nat, hi: nat)
    requires PhredString(q) && lo <= hi <= |q|
    ensures PhredString(q[lo .. hi])
  {
  }

  lemma PhredConcat3(a: string, b: string, c: string)
    requires PhredString(a) && PhredString(b) && PhredString(c)
    ensures PhredString(a + b + c)
  {
  }

  /** Two Phred 0 bases that agree give Phred 0 ('!'): a matching position can sit below '"'. */
  lemma MatchQualityFloor()
    ensures MergeQual('A', '!', 'A', '!') == '!'
  {
  }

  /** With read one at least as long as read two, a suffix is only appended when read two's
      anchor is the normalised 0, so the tail continues exactly after the window. */
  lemma SuffixFollowsWindow(r1: Read, r2: Read, loc1: nat, loc2: nat)
    requires Admissible(r1, r2, loc1, loc2) && |r1.bases| >= |r2.bases|
    ensures HasSuffix(r1, r2, loc1, loc2) ==> Shift2(loc1, loc2) == 0
    ensures Shift2(loc1, loc2) > 0 ==> PrefixLength(loc1, loc2) == 0 && !HasSuffix(r1, r2, loc1, loc2)
  {
  }
}
