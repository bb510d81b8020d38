/** The k-mer lookup table (`readOneMap`): sampled k-mers of the longer read and their offsets.
    `seqLookup` is a `std::unordered_multimap`, which fixes no order; the model takes insertion
    order, one of the orders it allows. The locator lemmas hold for any order, while the merge
    chosen as the first accepted candidate depends on it. */
module KmerIndex {

  datatype Entry = Entry(key: string, off: nat)

  /** The entries the sampling loop inserts from offset `from` on: one every `stride` bases,
      for as long as `from + stride + k < |s|`, so the loop never reaches the last sampled window
      (nor the one before it when `|s| - k` is a multiple of `stride`). */
  function Windows(s: string, k: nat, stride: nat, from: nat): seq<Entry>
    requires stride > 0
    decreases |s| - from
  {
    if from + stride + k < |s| then [Entry(s[from .. from + k], from)] + Windows(s, k, stride, from + stride)
    else []
  }

  /** The whole index over `s`. */
  function Index(s: string, k: nat, stride: nat): seq<Entry>
    requires stride > 0
  {
    Windows(s, k, stride, 0)
  }

  /** An offset the sampling loop visits. */
  predicate Sampled(s: string, k: nat, stride: nat, off: nat)
    requires stride > 0
  {
    off % stride == 0 && off + stride + k < |s|
  }

  /** Every entry has the key read at its offset, a sampled offset, and fits before the end. */
  predicate SoundEntry(s: string, k: nat, stride: nat, e: Entry)
    requires stride > 0
  {
    Sampled(s, k, stride, e.off) && e.key == s[e.off .. e.off + k]
  }

  lemma {:induction false} WindowsShape(s: string, k: nat, stride: nat, from: nat, j: nat)
    requires stride > 0 && j < |Windows(s, k, stride, from)|
    ensures Windows(s, k, stride, from)[j].off == from + j * stride
    ensures from + j * stride + stride + k < |s|
    ensures Windows(s, k, stride, from)[j].key == s[from + j * stride .. from + j * stride + k]
    decreases |s| - from
  {
    if j > 0 {
      WindowsShape(s, k, stride, from + stride, j - 1);
      assert from + stride + (j - 1) * stride == from + j * stride;
    }
  }

  lemma {:induction false} WindowsComplete(s: string, k: nat, stride: nat, from: nat, j: nat)
    requires stride > 0 && from + j * stride + stride + k < |s|
    ensures j < |Windows(s, k, stride, from)|
    decreases j
  {
    if j > 0 {
      assert from + stride + (j - 1) * stride == from + j * stride;
      WindowsComplete(s, k, stride, from + stride, j - 1);
    }
  }

  /** Soundness: every entry (key, off) satisfies key == s[off .. off + k], off is a multiple of the
      stride and off + stride + k < |s|. */
  lemma IndexSound(s: string, k: nat, stride: nat, e: Entry)
    requires stride > 0 && e in Index(s, k, stride)
    ensures SoundEntry(s, k, stride, e)
  {
    var j :| 0 <= j < |Index(s, k, stride)| && Index(s, k, stride)[j] == e;
    WindowsShape(s, k, stride, 0, j);
    MultipleMod(j, stride);
  }

  lemma MulLe(a: int, b: int, m: nat)
    requires a <= b
    ensures a * m <= b * m
  {
  }

  /** A multiple of m leaves no remainder. */
  lemma MultipleMod(j: nat, m: nat)
    requires m > 0
    ensures (j * m) % m == 0
  {
    var q, r := (j * m) / m, (j * m) % m;
    assert m * q + r == j * m;
    assert (q + 1) * m == q * m + m && (j + 1) * m == j * m + m;
    if q < j {
      MulLe(q + 1, j, m);
      assert false;
    } else if q > j {
      MulLe(j + 1, q, m);
      assert false;
    }
  }

  /** Completeness: every sampled offset is in the index, with its k-mer. */
  lemma IndexComplete(s: string, k: nat, stride: nat, off: nat)
    requires stride > 0 && Sampled(s, k, stride, off)
    ensures Entry(s[off .. off + k], off) in Index(s, k, stride)
  {
    var j := off / stride;
    assert off == j * stride;
    WindowsComplete(s, k, stride, 0, j);
    WindowsShape(s, k, stride, 0, j);
    assert Index(s, k, stride)[j] == Entry(s[off .. off + k], off);
  }

  /** The last k-mer window need not be indexed: in a read of length 6 sampled with k = 4 and
      stride 1 only offset 0 is stored, so the windows at 1 and 2 are never looked up. */
  lemma LastWindowNotIndexed()
    ensures Index("ACGTAC", 4, 1) == [Entry("ACGT", 0)]
    ensures forall e :: e in Index("ACGTAC", 4, 1) ==> e.off != 6 - 4
  {
    assert Windows("ACGTAC", 4, 1, 1) == [];
    assert "ACGTAC"[0 .. 4] == "ACGT";
  }

  /** `readOneMap`: walks the read with the sampling stride and inserts each k-mer with its offset.
      The code's extra tail insertion only fires when |seq1| < k, where it would start before the
      read; the precondition |seq1| >= k rules that out. */
  method ReadOneMap(seq1: string, kmer: nat, kmerOffset: nat) returns (baseReadMap: seq<Entry>)
    requires kmerOffset > 0 && |seq1| >= kmer
    ensures baseReadMap == Index(seq1, kmer, kmerOffset)
    ensures forall e :: e in baseReadMap ==> SoundEntry(seq1, kmer, kmerOffset, e)
  {
    baseReadMap := [];
    var it: nat := 0;
    while it < |seq1| - (kmerOffset + kmer)
      invariant baseReadMap + Windows(seq1, kmer, kmerOffset, it) == Index(seq1, kmer, kmerOffset)
      decreases |seq1| - it
    {
      baseReadMap := baseReadMap + [Entry(seq1[it .. it + kmer], it)];
      it := it + kmerOffset;
    }
    forall e | e in baseReadMap
      ensures SoundEntry(seq1, kmer, kmerOffset, e)
    {
      IndexSound(seq1, kmer, kmerOffset, e);
    }
  }
}
