/** The writers and the readers against each other: what a FASTQ, interleaved or tab writer emits
    is read back by the matching `load_read` / `next()` as the active part of each read. */
module Roundtrip {
  import opened Wrappers
  import opened Bases
  import opened Reads
  import opened Streams
  import opened Parsers
  import opened Writers

  /** What can be written and read back as a FASTQ record: single-line id, bases and qualities,
      and one quality per active base (the active sequence is never empty: a read with no base left
      is written as the placeholder "N"). */
  predicate FastqWritable(r: Read) {
    OneLine(r.id) && OneLine(SubSeq(r)) && OneLine(SubQual(r)) && |SubQual(r)| == |SubSeq(r)|
  }

  /** What a reader yields for a written read: a fresh read of the active bases and qualities. */
  function ReadBack(r: Read): Read {
    NewRead(SubSeq(r), SubQual(r), r.id)
  }

  /** The written record regrouped as the reader consumes it, line by line. */
  lemma FastqRecordLines(id: string, bases: string, quals: string, rest: string)
    ensures "@" + id + "\n" + bases + "\n+\n" + quals + "\n" + rest == FastqText(id, bases, quals, rest)
  {
    FastqRecordRegroup(id, bases, quals, rest);
  }

  /** `FastqRecord(r) + rest` is the reader's record text. */
  lemma FastqRecordText(r: Read, rest: string)
    ensures FastqRecord(r) + rest == FastqText(r.id, SubSeq(r), SubQual(r), rest)
  {
    FastqRecordLines(r.id, SubSeq(r), SubQual(r), rest);
  }

  /** A written FASTQ record, after any blank lines and before anything that does not start with a
      line break, is read back as its active bases and qualities under its id; the reader's buffers
      end up holding its four lines and the stream is left at the next record. */
  lemma FastqRoundTrip(b: FastqBuffers, n: nat, r: Read, rest: string)
    requires FastqWritable(r)
    requires rest == [] || !IsBreak(rest[0])
    ensures ParseFastq(b, Open(Newlines(n) + (FastqRecord(r) + rest)))
         == Loaded(Ok(ReadBack(r)), IStream(rest, rest == [], rest == []),
                   FastqBuffers("@" + r.id, SubSeq(r), "+", SubQual(r)))
  {
    FastqRecordText(r, rest);
    FastqParsesRecord(b, n, r.id, SubSeq(r), SubQual(r), rest, "", rest);
  }

  /** `format_writer_rc` read back: the reverse complement of the whole read, its qualities
      reversed; reverse-complementing the bases read back restores the original bases. */
  lemma FastqRcRoundTrip(b: FastqBuffers, n: nat, r: Read, rest: string)
    requires OneLine(r.id) && IsBaseString(r.bases) && |r.bases| > 0 && |r.quals| == |r.bases|
    requires OneLine(r.quals)
    requires rest == [] || !IsBreak(rest[0])
    ensures var l := ParseFastq(b, Open(Newlines(n) + (FastqRecordRc(r) + rest)));
            && l.result == Ok(NewRead(SeqRc(r), QualRc(r), r.id))
            && ReverseComplement(l.result.value.bases) == r.bases
            && Reverse(l.result.value.quals) == r.quals
            && l.stream == IStream(rest, rest == [], rest == [])
  {
    RcOneLine(r.bases);
    ReverseOneLine(r.quals);
    FastqRecordLines(r.id, SeqRc(r), QualRc(r), rest);
    FastqParsesRecord(b, n, r.id, SeqRc(r), QualRc(r), rest, "", rest);
    ReverseComplementInvolution(r.bases);
    ReverseInvolution(r.quals);
  }

  /** A reverse complement of bases holds no line break. */
  lemma RcOneLine(s: string)
    requires IsBaseString(s)
    ensures OneLine(ReverseComplement(s)) && |ReverseComplement(s)| == |s|
  {
    var t := ReverseComplement(s);
    forall i | 0 <= i < |t|
      ensures t[i] != '\n'
    {
      ReverseComplementAt(s, i);
    }
  }

  /** Reversing keeps a string on one line. */
  lemma ReverseOneLine(s: string)
    requires OneLine(s)
    ensures OneLine(Reverse(s)) && |Reverse(s)| == |s|
  {
    var t := Reverse(s);
    forall i | 0 <= i < |t|
      ensures t[i] != '\n'
    {
      assert t[i] == s[|s| - 1 - i];
    }
  }

  /** An interleaved pair written by `PairedEndReadOutInter` is read back as that pair. */
  lemma InterRoundTrip(b: FastqBuffers, n: nat, r1: Read, r2: Read, rest: string)
    requires FastqWritable(r1) && FastqWritable(r2)
    requires rest == [] || !IsBreak(rest[0])
    ensures InterNext(b, Open(Newlines(n) + (InterFastq(r1, r2) + rest)))
         == Loaded(Ok(PairedRecord(ReadBack(r1), ReadBack(r2))), IStream(rest, rest == [], rest == []),
                   FastqBuffers("@" + r2.id, SubSeq(r2), "+", SubQual(r2)))
  {
    var tail := FastqRecord(r2) + rest;
    AppendAssoc(FastqRecord(r1), FastqRecord(r2), rest);
    FastqRoundTrip(b, n, r1, tail);
    FastqParsesRecord(FastqBuffers("@" + r1.id, SubSeq(r1), "+", SubQual(r1)), 0, r2.id, SubSeq(r2), SubQual(r2), rest, "", rest);
    FastqRecordText(r2, rest);
    NoBlankLines(tail);
  }

  /** The two files written by `PairedEndReadOutFastq` are read back, record by record, as the pair. */
  lemma PairedRoundTrip(b: FastqBuffers, n1: nat, n2: nat, r1: Read, r2: Read, rest1: string, rest2: string)
    requires FastqWritable(r1) && FastqWritable(r2)
    requires rest1 == [] || !IsBreak(rest1[0])
    requires rest2 == [] || !IsBreak(rest2[0])
    ensures var p := PairedFastq(r1, r2);
            (PairedNext(b, Open(Newlines(n1) + (p.0 + rest1)), Open(Newlines(n2) + (p.1 + rest2)))
             == PairLoaded(Ok(PairedRecord(ReadBack(r1), ReadBack(r2))),
                           IStream(rest1, rest1 == [], rest1 == []), IStream(rest2, rest2 == [], rest2 == []),
                           FastqBuffers("@" + r2.id, SubSeq(r2), "+", SubQual(r2))))
  {
    FastqRoundTrip(b, n1, r1, rest1);
    FastqRoundTrip(FastqBuffers("@" + r1.id, SubSeq(r1), "+", SubQual(r1)), n2, r2, rest2);
  }

  // ---------------------------------------------------------------- tab-delimited

  /** Comments that survive a tab line: no tab, line break or '|' inside any of them. */
  predicate TabComments(c: seq<string>) {
    NoDelim(c, '\t') && NoDelim(c, '\n') && NoDelim(c, '|')
  }

  /** A column value that survives a tab line: no tab and no line break. */
  predicate TabColumn(s: string) { NoTab(s) && OneLine(s) }

  /** What can be written and read back as a single-end tab line: plain columns, one quality per
      base and comments without separators. */
  predicate TabLineWritable(id: string, bases: string, quals: string, c: seq<string>) {
    TabColumn(id) && TabColumn(bases) && TabColumn(quals) && |quals| == |bases| && TabComments(c)
  }

  /** A read whose tab line can be written and read back. */
  predicate TabWritable(r: Read) {
    TabLineWritable(r.id, SubSeq(r), SubQual(r), r.comments)
  }

  /** '|'-free comments joined by '|' split back into those comments. */
  lemma SplitBarJoin(c: seq<string>)
    requires |c| >= 1 && NoDelim(c, '|')
    ensures Split(Join(c, "|"), '|') == c
  {
    SplitJoin(c, '|');
  }

  /** A single-end tab line is one non-empty line. */
  lemma TabSeBodyOneLine(id: string, bases: string, quals: string, c: seq<string>)
    requires TabLineWritable(id, bases, quals, c)
    ensures var body := TabSeBody(id, bases, quals, c);
            OneLine(body) && |body| > 0
  {
    JoinNoDelim(c, "|", '\n');
    var tc := TabComment(c);
    if |c| > 0 {
      OneLineCat("\t", Join(c, "|"));
    }
    assert OneLine(tc);
    OneLineCat(quals, tc);
    OneLineTab(bases, quals + tc);
    OneLineTab(id, bases + "\t" + (quals + tc));
  }

  /** A single-end tab line followed by a line break is read back as a read of those bases and
      qualities, under that id and with those comments; the reader's buffer holds the line and the
      stream is left at the next line. */
  lemma TabSeLineRoundTrip(tabLine: string, n: nat, id: string, bases: string, quals: string,
                           c: seq<string>, rest: string)
    requires TabLineWritable(id, bases, quals, c)
    requires rest == [] || !IsBreak(rest[0])
    ensures ParseTab(tabLine, Open(Newlines(n) + (TabSeBody(id, bases, quals, c) + "\n" + rest)))
         == Loaded(Ok([JoinComment(NewRead(bases, quals, id), c)]), IStream(rest, rest == [], rest == []),
                   TabSeBody(id, bases, quals, c))
  {
    var body := TabSeBody(id, bases, quals, c);
    TabSeBodyOneLine(id, bases, quals, c);
    SkipEmptyFindsLine(n, body, rest, tabLine);
    SkipBreaksDropsBreaks(Open(rest), "", rest);
    TabSeFieldsBack(id, bases, quals, c);
  }

  /** A tab line written for a single-end read is read back as its active bases and qualities (the
      placeholders "N" and "#" when no base is left), under its id and with its comments; the
      reader's buffer holds the line and the stream is left at the next line. */
  lemma TabSeRoundTrip(tabLine: string, n: nat, r: Read, rest: string)
    requires TabWritable(r)
    requires rest == [] || !IsBreak(rest[0])
    ensures ParseTab(tabLine, Open(Newlines(n) + (TabSe(r) + rest)))
         == Loaded(Ok([JoinComment(ReadBack(r), r.comments)]), IStream(rest, rest == [], rest == []),
                   TabSeBody(r.id, SubSeq(r), SubQual(r), r.comments))
  {
    assert TabSe(r) + rest == TabSeBody(r.id, SubSeq(r), SubQual(r), r.comments) + "\n" + rest;
    TabSeLineRoundTrip(tabLine, n, r.id, SubSeq(r), SubQual(r), r.comments, rest);
  }

  /** A tab line written by `format_writer_rc` is read back as the reverse complement of the whole
      read and its reversed qualities, under its id and with its comments; an empty read gives an
      empty line that is read back as an empty read. */
  lemma TabSeRcRoundTrip(tabLine: string, n: nat, r: Read, rest: string)
    requires TabColumn(r.id) && TabColumn(r.quals) && |r.quals| == |r.bases| && TabComments(r.comments)
    requires rest == [] || !IsBreak(rest[0])
    ensures ParseTab(tabLine, Open(Newlines(n) + (TabSeRc(r) + rest)))
         == Loaded(Ok([JoinComment(NewRead(SeqRc(r), QualRc(r), r.id), r.comments)]),
                   IStream(rest, rest == [], rest == []), TabSeBody(r.id, SeqRc(r), QualRc(r), r.comments))
  {
    RcFields(r);
    assert TabSeRc(r) + rest == TabSeBody(r.id, SeqRc(r), QualRc(r), r.comments) + "\n" + rest;
    TabSeLineRoundTrip(tabLine, n, r.id, SeqRc(r), QualRc(r), r.comments, rest);
  }

  /** The columns of a single-end tab line give back the read with its comments. */
  lemma TabSeFieldsBack(id: string, bases: string, quals: string, c: seq<string>)
    requires TabLineWritable(id, bases, quals, c)
    ensures TabReads(Split(TabSeBody(id, bases, quals, c), '\t')) == Ok([JoinComment(NewRead(bases, quals, id), c)])
  {
    var body := TabSeBody(id, bases, quals, c);
    TabSeColumns(id, bases, quals, c);
    if |c| > 0 {
      SplitBarJoin(c);
      TabSeFour(id, bases, quals, Join(c, "|"), c);
    } else {
      assert Split(body, '\t') == [id, bases, quals];
      assert JoinComment(NewRead(bases, quals, id), []) == NewRead(bases, quals, id);
    }
  }

  /** The four fields of a single-end tab line with comments. */
  lemma TabSeFour(id: string, bases: string, quals: string, j: string, c: seq<string>)
    requires Split(j, '|') == c && |bases| == |quals|
    ensures TabReads([id, bases, quals] + [j]) == Ok([JoinComment(NewRead(bases, quals, id), c)])
  {
    var f := [id, bases, quals] + [j];
    assert f == [id, bases, quals, j];
    assert |f| == 4 && f[1] == bases && f[2] == quals && f[3] == j && f[0] == id;
  }

  /** How a read's comments come back from a paired tab line that carries comment columns: an empty
      column splits into one empty comment. */
  function CommentsBack(c: seq<string>): seq<string> {
    if |c| > 0 then c else [""]
  }

  /** The comments each read of a pair comes back with. */
  function PairCommentsBack(c: seq<string>, other: seq<string>): seq<string> {
    if |c| > 0 || |other| > 0 then CommentsBack(c) else []
  }

  /** A comment column of a paired tab line splits back into the read's comments. */
  lemma SplitJoined(c: seq<string>)
    requires NoDelim(c, '|')
    ensures Split(JoinedComments(c), '|') == CommentsBack(c)
  {
    if |c| > 0 {
      SplitBarJoin(c);
    } else {
      SplitNoDelim("", '|');
    }
  }

  /** A paired tab line is one non-empty line. */
  lemma TabPeBodyOneLine(r1: Read, r2: Read)
    requires TabWritable(r1) && TabWritable(r2)
    ensures OneLine(TabPeBody(r1, r2)) && |TabPeBody(r1, r2)| > 0
  {
    JoinNoDelim(r1.comments, "|", '\n');
    JoinNoDelim(r2.comments, "|", '\n');
    var j1, j2 := JoinedComments(r1.comments), JoinedComments(r2.comments);
    assert OneLine(j1) && OneLine(j2);
    var c := TabPeComment(r1.comments, r2.comments);
    if |r1.comments| > 0 || |r2.comments| > 0 {
      OneLineTab(j1, j2);
      OneLineCat("\t", j1 + "\t" + j2);
    }
    assert OneLine(c);
    OneLineCat(SubQual(r2), c);
    var x5 := SubQual(r2) + c;
    OneLineTab(SubSeq(r2), x5);
    var x4 := SubSeq(r2) + "\t" + x5;
    OneLineTab(r2.id, x4);
    var x3 := r2.id + "\t" + x4;
    OneLineTab(SubQual(r1), x3);
    var x2 := SubQual(r1) + "\t" + x3;
    OneLineTab(SubSeq(r1), x2);
    var x1 := SubSeq(r1) + "\t" + x2;
    OneLineTab(r1.id, x1);
    assert TabPeBody(r1, r2) == r1.id + "\t" + x1;
  }

  lemma OneLineCat(a: string, b: string)
    requires OneLine(a) && OneLine(b)
    ensures OneLine(a + b)
  {
  }

  lemma OneLineTab(a: string, b: string)
    requires OneLine(a) && OneLine(b)
    ensures OneLine(a + "\t" + b) && |a + "\t" + b| > 0
  {
  }

  /** The six fields of a paired tab line without comments. */
  lemma TabPeSix(id1: string, b1: string, q1: string, id2: string, b2: string, q2: string)
    requires |b1| == |q1| && |b2| == |q2|
    ensures TabReads([id1, b1, q1, id2, b2, q2] + []) == Ok([NewRead(b1, q1, id1), NewRead(b2, q2, id2)])
  {
    assert [id1, b1, q1, id2, b2, q2] + [] == [id1, b1, q1, id2, b2, q2];
  }

  /** The eight fields of a paired tab line with comment columns. */
  lemma TabPeEight(id1: string, b1: string, q1: string, id2: string, b2: string, q2: string,
                   j1: string, j2: string, k1: seq<string>, k2: seq<string>)
    requires |b1| == |q1| && |b2| == |q2| && Split(j1, '|') == k1 && Split(j2, '|') == k2
    ensures TabReads([id1, b1, q1, id2, b2, q2] + [j1, j2])
         == Ok([JoinComment(NewRead(b1, q1, id1), k1), JoinComment(NewRead(b2, q2, id2), k2)])
  {
    var f := [id1, b1, q1, id2, b2, q2] + [j1, j2];
    assert f == [id1, b1, q1, id2, b2, q2, j1, j2];
    assert |f| == 8 && f[6] == j1 && f[7] == j2;
  }

  /** The columns of a paired tab line give back the two reads. */
  lemma TabPeFieldsBack(r1: Read, r2: Read)
    requires TabWritable(r1) && TabWritable(r2)
    ensures TabReads(Split(TabPeBody(r1, r2), '\t'))
         == Ok([JoinComment(ReadBack(r1), PairCommentsBack(r1.comments, r2.comments)),
                JoinComment(ReadBack(r2), PairCommentsBack(r2.comments, r1.comments))])
  {
    JoinNoDelim(r1.comments, "|", '\t');
    JoinNoDelim(r2.comments, "|", '\t');
    TabPeColumns(r1, r2);
    if |r1.comments| > 0 || |r2.comments| > 0 {
      SplitJoined(r1.comments);
      SplitJoined(r2.comments);
      TabPeEight(r1.id, SubSeq(r1), SubQual(r1), r2.id, SubSeq(r2), SubQual(r2),
                 JoinedComments(r1.comments), JoinedComments(r2.comments),
                 CommentsBack(r1.comments), CommentsBack(r2.comments));
    } else {
      TabPeSix(r1.id, SubSeq(r1), SubQual(r1), r2.id, SubSeq(r2), SubQual(r2));
      assert JoinComment(ReadBack(r1), []) == ReadBack(r1) && JoinComment(ReadBack(r2), []) == ReadBack(r2);
    }
  }

  /** A tab line written for a pair is read back as the two reads' active bases and qualities
      under their ids; when either read had comments both come back with their comment columns,
      an empty one as a single empty comment. */
  lemma TabPeRoundTrip(tabLine: string, n: nat, r1: Read, r2: Read, rest: string)
    requires TabWritable(r1) && TabWritable(r2)
    requires rest == [] || !IsBreak(rest[0])
    ensures ParseTab(tabLine, Open(Newlines(n) + (TabPeBody(r1, r2) + "\n" + rest)))
         == Loaded(Ok([JoinComment(ReadBack(r1), PairCommentsBack(r1.comments, r2.comments)),
                       JoinComment(ReadBack(r2), PairCommentsBack(r2.comments, r1.comments))]),
                   IStream(rest, rest == [], rest == []), TabPeBody(r1, r2))
  {
    var body := TabPeBody(r1, r2);
    TabPeBodyOneLine(r1, r2);
    SkipEmptyFindsLine(n, body, rest, tabLine);
    SkipBreaksDropsBreaks(Open(rest), "", rest);
    TabPeFieldsBack(r1, r2);
  }
}
