/** `OverlapperCounters`: the long-insert / short-insert / no-overlap classification, the
    auto-growing insert-length histogram, and the out/discard/trim counters. */
module Stats {
  import opened Wrappers
  import opened Reads

  /** `c[k]` as `operator[]` reads it: an absent key counts as 0. */
  function Get(c: map<string, nat>, k: string): nat {
    if k in c then c[k] else 0
  }

  /** `c[k] += n`: key k (inserted when absent) rises by n, every other key is unchanged. */
  function Add(c: map<string, nat>, k: string, n: nat): map<string, nat> {
    c[k := Get(c, k) + n]
  }

  /** `++c[k]`. */
  function Inc(c: map<string, nat>, k: string): map<string, nat> {
    Add(c, k, 1)
  }

  /** The keys the constructor sets to zero (the generic keys of the base class are not part of
      this model). */
  const OverlapKeys: seq<string> :=
    ["lins", "sins", "SE_Discard", "R1_Discard", "R2_Discard", "R1_Adapter_Trim", "R2_Adapter_Trim",
     "SE_Length", "Nolins"]

  /** How a paired record is classified. */
  datatype Insert = LongInsert | ShortInsert | NoOverlap

  /** The counter a classification bumps. */
  function InsertKey(i: Insert): string {
    match i
    case LongInsert => "lins"
    case ShortInsert => "sins"
    case NoOverlap => "Nolins"
  }

  /** Short insert when either original read is longer (after trimming) than the merged read:
      the reads ran past the fragment into adapter. */
  function Classify(one: Read, two: Read, overlapped: Option<Read>): Insert {
    if overlapped.None? then NoOverlap
    else
      var insertSize := LengthTrue(overlapped.value);
      if LengthTrue(one) > insertSize || LengthTrue(two) > insertSize then ShortInsert else LongInsert
  }

  /** The histogram after recording one insert of length `size`: grown with zero buckets to at
      least size+1 entries, then bucket `size` incremented. */
  function RecordInsert(hist: seq<nat>, size: nat): seq<nat> {
    var grown := if size + 1 > |hist| then hist + seq(size + 1 - |hist|, _ => 0) else hist;
    grown[size := grown[size] + 1]
  }

  /** `SE_stats`: the merged read's true length and the two originals' left trims. */
  function SeStatsCounts(c: map<string, nat>, se: Read, one: Read, two: Read): map<string, nat> {
    Add(Add(Add(c, "SE_Length", LengthTrue(se)), "R1_Adapter_Trim", one.lTrim), "R2_Adapter_Trim", two.lTrim)
  }

  /** `output(SingleEndRead)`. */
  function SingleCounts(c: map<string, nat>, r: Read): map<string, nat> {
    if r.discard then Inc(c, "SE_Discard") else Inc(c, "SE_Out")
  }

  /** The out/discard part of `output(PairedEndRead, overlapped)`. */
  function PairedOutCounts(c: map<string, nat>, one: Read, two: Read, overlapped: Option<Read>): map<string, nat> {
    if overlapped.Some? then
      var c' := if !overlapped.value.discard then Inc(c, "SE_Out") else Inc(c, "SE_Discard");
      SeStatsCounts(c', overlapped.value, one, two)
    else if !one.discard && !two.discard then Inc(c, "PE_Out")
    else if one.discard && two.discard then Inc(Inc(c, "R1_Discard"), "R2_Discard")
    else if one.discard then Inc(c, "R1_Discard")
    else Inc(c, "R2_Discard")
  }

  /** The counters after `output(PairedEndRead, overlapped)`. */
  function PairedCounts(c: map<string, nat>, one: Read, two: Read, overlapped: Option<Read>): map<string, nat> {
    PairedOutCounts(Inc(c, InsertKey(Classify(one, two, overlapped))), one, two, overlapped)
  }

  /** The histogram after `output(PairedEndRead, overlapped)`. */
  function PairedHistogram(hist: seq<nat>, overlapped: Option<Read>): seq<nat> {
    if overlapped.Some? then RecordInsert(hist, LengthTrue(overlapped.value)) else hist
  }

  class OverlapperCounters {
    var c: map<string, nat>
    var insertLength: seq<nat>

    constructor ()
      ensures c == map k | k in OverlapKeys :: 0
      ensures insertLength == [0]
    {
      c := map k | k in OverlapKeys :: 0;
      insertLength := [0];
    }

    method SeStats(se: Read, one: Read, two: Read)
      modifies this
      ensures c == SeStatsCounts(old(c), se, one, two)
      ensures insertLength == old(insertLength)
    {
      c := Add(c, "SE_Length", LengthTrue(se));
      c := Add(c, "R1_Adapter_Trim", one.lTrim);
      c := Add(c, "R2_Adapter_Trim", two.lTrim);
    }

    /** Grows the histogram to insertSize+1 buckets when it is shorter, then bumps bucket insertSize. */
    method CountInsert(insertSize: nat)
      modifies this
      ensures insertLength == RecordInsert(old(insertLength), insertSize)
      ensures c == old(c)
    {
      if insertSize + 1 > |insertLength| {
        insertLength := insertLength + seq(insertSize + 1 - |insertLength|, _ => 0);
      }
      insertLength := insertLength[insertSize := insertLength[insertSize] + 1];
    }

    method OutputSingle(ser: Read)
      modifies this
      ensures c == SingleCounts(old(c), ser)
      ensures insertLength == old(insertLength)
    {
      if ser.discard {
        c := Inc(c, "SE_Discard");
      } else {
        c := Inc(c, "SE_Out");
      }
    }

    method OutputPaired(one: Read, two: Read, overlapped: Option<Read>)
      modifies this
      ensures c == PairedCounts(old(c), one, two, overlapped)
      ensures insertLength == PairedHistogram(old(insertLength), overlapped)
    {
      if overlapped.Some? {
        var insertSize := LengthTrue(overlapped.value);
        if LengthTrue(one) > insertSize || LengthTrue(two) > insertSize {
          c := Inc(c, "sins");
        } else {
          c := Inc(c, "lins");
        }
        CountInsert(insertSize);
      } else {
        c := Inc(c, "Nolins");
      }

      if overlapped.Some? {
        if !overlapped.value.discard {
          c := Inc(c, "SE_Out");
        } else {
          c := Inc(c, "SE_Discard");
        }
        SeStats(overlapped.value, one, two);
      } else {
        if !one.discard && !two.discard {
          c := Inc(c, "PE_Out");
        } else if one.discard && two.discard {
          c := Inc(c, "R1_Discard");
          c := Inc(c, "R2_Discard");
        } else if one.discard {
          c := Inc(c, "R1_Discard");
        } else if two.discard {
          c := Inc(c, "R2_Discard");
        }
      }
    }
  }

  /** `c[k] += n` raises key k by n, inserting it when absent, and changes no other key. */
  lemma AddCounts(c: map<string, nat>, k: string, n: nat)
    ensures Add(c, k, n).Keys == c.Keys + {k}
    ensures Get(Add(c, k, n), k) == Get(c, k) + n
    ensures forall j :: j != k ==> Get(Add(c, k, n), j) == Get(c, j)
  {
  }

  /** The out/discard update leaves the three classification counters alone. */
  lemma PairedOutKeepsClasses(c: map<string, nat>, one: Read, two: Read, overlapped: Option<Read>, k: string)
    requires k == "lins" || k == "sins" || k == "Nolins"
    ensures Get(PairedOutCounts(c, one, two, overlapped), k) == Get(c, k)
  {
  }

  /** Exactly one of lins, sins, Nolins rises, by one; sins is the one exactly when there is an
      overlap and either original read's true length exceeds the insert size. */
  lemma ExactlyOneClass(c: map<string, nat>, one: Read, two: Read, overlapped: Option<Read>)
    ensures var c' := PairedCounts(c, one, two, overlapped);
            && Get(c', "lins") + Get(c', "sins") + Get(c', "Nolins") == Get(c, "lins") + Get(c, "sins") + Get(c, "Nolins") + 1
            && Get(c', "lins") >= Get(c, "lins") && Get(c', "sins") >= Get(c, "sins") && Get(c', "Nolins") >= Get(c, "Nolins")
    ensures Get(PairedCounts(c, one, two, overlapped), "sins") == Get(c, "sins") + 1 <==>
            overlapped.Some? && (LengthTrue(one) > LengthTrue(overlapped.value) || LengthTrue(two) > LengthTrue(overlapped.value))
    ensures Get(PairedCounts(c, one, two, overlapped), "Nolins") == Get(c, "Nolins") + 1 <==> overlapped.None?
  {
    var c1 := Inc(c, InsertKey(Classify(one, two, overlapped)));
    PairedOutKeepsClasses(c1, one, two, overlapped, "lins");
    PairedOutKeepsClasses(c1, one, two, overlapped, "sins");
    PairedOutKeepsClasses(c1, one, two, overlapped, "Nolins");
  }

  /** On an overlap of true length n the histogram has at least n+1 buckets, bucket n rises by
      exactly one (from 0 when it is new), and every other bucket keeps its value (0 for new ones);
      without an overlap it is unchanged. */
  lemma HistogramRecordsInsert(hist: seq<nat>, overlapped: Option<Read>)
    ensures overlapped.None? ==> PairedHistogram(hist, overlapped) == hist
    ensures overlapped.Some? ==>
              var n, h := LengthTrue(overlapped.value), PairedHistogram(hist, overlapped);
              && |h| == (if n + 1 > |hist| then n + 1 else |hist|)
              && h[n] == (if n < |hist| then hist[n] else 0) + 1
              && (forall i :: 0 <= i < |hist| && i != n ==> h[i] == hist[i])
              && (forall i :: |hist| <= i < |h| && i != n ==> h[i] == 0)
  {
  }

  /** Without an overlap the out/discard counters follow the pair's discard flags: PE_Out when both
      reads survive, R1_Discard / R2_Discard for each discarded read. */
  lemma NoOverlapRouting(c: map<string, nat>, one: Read, two: Read)
    ensures var c' := PairedCounts(c, one, two, None);
            && Get(c', "PE_Out") == Get(c, "PE_Out") + (if !one.discard && !two.discard then 1 else 0)
            && Get(c', "R1_Discard") == Get(c, "R1_Discard") + (if one.discard then 1 else 0)
            && Get(c', "R2_Discard") == Get(c, "R2_Discard") + (if two.discard then 1 else 0)
            && Get(c', "SE_Out") == Get(c, "SE_Out") && Get(c', "SE_Length") == Get(c, "SE_Length")
  {
  }

  /** With an overlap the merged read is counted as single-end output (or discard), its true
      length is added to SE_Length and the originals' left trims to the adapter-trim counters. */
  lemma OverlapRouting(c: map<string, nat>, one: Read, two: Read, merged: Read)
    ensures var c' := PairedCounts(c, one, two, Some(merged));
            && Get(c', "SE_Out") == Get(c, "SE_Out") + (if merged.discard then 0 else 1)
            && Get(c', "SE_Discard") == Get(c, "SE_Discard") + (if merged.discard then 1 else 0)
            && Get(c', "SE_Length") == Get(c, "SE_Length") + LengthTrue(merged)
            && Get(c', "R1_Adapter_Trim") == Get(c, "R1_Adapter_Trim") + one.lTrim
            && Get(c', "R2_Adapter_Trim") == Get(c, "R2_Adapter_Trim") + two.lTrim
            && Get(c', "PE_Out") == Get(c, "PE_Out")
            && Get(c', "R1_Discard") == Get(c, "R1_Discard") && Get(c', "R2_Discard") == Get(c, "R2_Discard")
  {
  }

  /** A single-end record bumps exactly one of SE_Out / SE_Discard, according to its flag. */
  lemma SingleRouting(c: map<string, nat>, r: Read)
    ensures Get(SingleCounts(c, r), "SE_Discard") == Get(c, "SE_Discard") + (if r.discard then 1 else 0)
    ensures Get(SingleCounts(c, r), "SE_Out") == Get(c, "SE_Out") + (if r.discard then 0 else 1)
  {
  }
}
