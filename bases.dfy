/** Base complement and the reverse-complement view of a read (the `rc` helper of the overlapper). */
module Bases {

  /** The bases a read is expected to hold. */
  predicate IsBase(b: char) {
    b == 'A' || b == 'C' || b == 'G' || b == 'T' || b == 'N'
  }

  predicate IsBaseString(s: string) {
    forall i :: 0 <= i < |s| ==> IsBase(s[i])
  }

  /** Complement of one base; anything that is not A, C, G or T becomes N. */
  function Rc(bp: char): (r: char)
    ensures IsBase(r)
    ensures r == 'N' <==> !(bp == 'A' || bp == 'C' || bp == 'G' || bp == 'T')
  {
    if bp == 'C' then 'G'
    else if bp == 'G' then 'C'
    else if bp == 'T' then 'A'
    else if bp == 'A' then 'T'
    else 'N'
  }

  /** A proper base is never its own complement. */
  lemma RcProperties(bp: char)
    ensures (bp == 'A' || bp == 'C' || bp == 'G' || bp == 'T') ==> Rc(bp) != bp
  {
  }

  /** Complementing twice gives the base back, on the read alphabet. */
  lemma RcInvolution(bp: char)
    requires IsBase(bp)
    ensures Rc(Rc(bp)) == bp
  {
  }

  /** Reverse of a string. */
  function Reverse(s: string): (r: string)
    ensures |r| == |s|
    ensures forall i :: 0 <= i < |s| ==> r[i] == s[|s| - 1 - i]
  {
    if s == [] then [] else [s[|s| - 1]] + Reverse(s[..|s| - 1])
  }

  /** Reverse complement: the sequence read from the other strand. */
  function ReverseComplement(s: string): (r: string)
    ensures |r| == |s|
  {
    if s == [] then [] else [Rc(s[|s| - 1])] + ReverseComplement(s[..|s| - 1])
  }

  lemma {:induction false} ReverseComplementAt(s: string, i: nat)
    requires i < |s|
    ensures ReverseComplement(s)[i] == Rc(s[|s| - 1 - i])
  {
    if i > 0 {
      ReverseComplementAt(s[..|s| - 1], i - 1);
    }
  }

  /** Reversing twice gives the string back. */
  lemma ReverseInvolution(s: string)
    ensures Reverse(Reverse(s)) == s
  {
  }

  /** The reverse complement of the reverse complement of a base string is the string itself. */
  lemma ReverseComplementInvolution(s: string)
    requires IsBaseString(s)
    ensures ReverseComplement(ReverseComplement(s)) == s
  {
    var r := ReverseComplement(s);
    forall i | 0 <= i < |s|
      ensures ReverseComplement(r)[i] == s[i]
    {
      ReverseComplementAt(r, i);
      ReverseComplementAt(s, |s| - 1 - i);
      RcInvolution(s[i]);
    }
  }
}
