/** The read abstraction the overlapper and the I/O layer work on.
    The source's `Read`, `SingleEndRead` and `PairedEndRead` live in read.h, which is not part of
    this model; only the accessors the modelled code calls are given here. */
module Reads {
  import opened Bases

  /** A read: bases, Phred+33 qualities, identifier, left/right trim counts, discard flag, comments. */
  datatype Read = Read(bases: string, quals: string, id: string, lTrim: nat, rTrim: nat,
                       discard: bool, comments: seq<string>)

  /** `Read(seq, qual, id)`: a fresh, untrimmed, kept read without comments. */
  function NewRead(bases: string, quals: string, id: string): (r: Read)
    ensures r.bases == bases && r.quals == quals && r.id == id
    ensures r.lTrim == 0 && r.rTrim == 0 && !r.discard && r.comments == []
  {
    Read(bases, quals, id, 0, 0, false, [])
  }

  /** `getLength`: the raw length. */
  function Length(r: Read): nat { |r.bases| }

  /** No base is left once the two trims cover the whole read (always so for an empty read). */
  predicate NoBaseLeft(r: Read) { r.lTrim + r.rTrim >= |r.bases| }

  /** `get_sub_seq`: the bases left after trimming, or the placeholder "N" when none are left. */
  function SubSeq(r: Read): (s: string)
    ensures |s| > 0
    ensures NoBaseLeft(r) ==> s == "N"
    ensures !NoBaseLeft(r) ==> |s| == |r.bases| - (r.lTrim + r.rTrim)
                               && forall i :: 0 <= i < |s| ==> s[i] == r.bases[r.lTrim + i]
  {
    if NoBaseLeft(r) then "N" else r.bases[r.lTrim .. |r.bases| - r.rTrim]
  }

  /** `get_sub_qual`: the qualities of the bases left, or the placeholder "#" when none are left. */
  function SubQual(r: Read): (s: string)
    ensures NoBaseLeft(r) ==> s == "#"
    ensures !NoBaseLeft(r) && r.lTrim + r.rTrim <= |r.quals| ==>
            |s| == |r.quals| - (r.lTrim + r.rTrim) && forall i :: 0 <= i < |s| ==> s[i] == r.quals[r.lTrim + i]
  {
    if NoBaseLeft(r) then "#"
    else if r.lTrim + r.rTrim <= |r.quals| then r.quals[r.lTrim .. |r.quals| - r.rTrim]
    else []
  }

  /** `getLengthTrue`: the number of bases left, or 1 for the placeholder of a read with none left. */
  function LengthTrue(r: Read): (n: nat)
    ensures n >= 1
    ensures NoBaseLeft(r) ==> n == 1
    ensures !NoBaseLeft(r) ==> n == Length(r) - (r.lTrim + r.rTrim)
  {
    |SubSeq(r)|
  }

  /** `get_seq_rc`: reverse complement of the bases. */
  function SeqRc(r: Read): string { ReverseComplement(r.bases) }

  /** `get_qual_rc`: the qualities reversed. */
  function QualRc(r: Read): string { Reverse(r.quals) }

  /** `join_comment`: appends comment fields to the read. */
  function JoinComment(r: Read, c: seq<string>): (r': Read)
    ensures r'.comments == r.comments + c
    ensures r' == r.(comments := r'.comments)
  {
    r.(comments := r.comments + c)
  }

  /** A quality byte in the printable Phred+33 range. */
  predicate PhredChar(q: char) { '!' <= q <= '~' }

  /** What the overlapper relies on: one quality byte per base, all printable Phred+33. */
  predicate WellFormed(r: Read) {
    |r.quals| == |r.bases| && forall i :: 0 <= i < |r.quals| ==> PhredChar(r.quals[i])
  }

  /** A paired-end record whose two reads are updated in place (swapped, comment-joined). */
  class PairedEndRead {
    var one: Read
    var two: Read

    constructor (r1: Read, r2: Read)
      ensures one == r1 && two == r2
    {
      one := r1;
      two := r2;
    }
  }

  /** A record as the input stream yields it; `UnknownRecord` stands for any other `ReadBase` subtype. */
  datatype Record = PairedRecord(r1: Read, r2: Read) | SingleRecord(r: Read) | UnknownRecord
}
