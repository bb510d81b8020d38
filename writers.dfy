/** The output side: the FASTQ, interleaved, unmapped-SAM and tab serialisers, and the
    `WriterHelper` visitor that decides which reads of a record are written, as a pair or as an
    orphaned single read. Read ids are written as `Read.id`: the id decorations of `read.h`
    (`get_id_fastq`, `get_id_tab`, `get_id_first`) are not part of this model. */
module Writers {
  import opened Streams
  import opened Reads
  import opened Bases

  // ---------------------------------------------------------------- FASTQ and interleaved

  /** No field of a FASTQ record holds a line break. */
  predicate FastqFields(id: string, bases: string, quals: string) {
    '\n' !in id && '\n' !in bases && '\n' !in quals
  }

  /** A record followed by more text, regrouped line by line. */
  lemma FastqRecordRegroup(id: string, bases: string, quals: string, rest: string)
    ensures "@" + id + "\n" + bases + "\n+\n" + quals + "\n" + rest
         == ("@" + id) + "\n" + (bases + "\n" + ("+" + "\n" + (quals + "\n" + rest)))
  {
    assert "\n+\n" == "\n" + ("+" + "\n");
    var t3 := quals + "\n" + rest;
    var t2 := "+" + "\n" + t3;
    var t1 := bases + "\n" + t2;
    assert (bases + "\n+\n") + (quals + "\n") + rest == (bases + "\n+\n") + ((quals + "\n") + rest);
    assert bases + "\n+\n" + quals + "\n" + rest == bases + "\n+\n" + t3;
    assert bases + "\n+\n" + t3 == t1;
    assert "@" + id + "\n" + bases + "\n+\n" + quals + "\n" + rest
        == ("@" + id + "\n") + (bases + "\n+\n" + quals + "\n" + rest);
  }

  /** The four lines of a record, then whatever follows, as a line splitter sees them. */
  lemma FastqRecordSplit(id: string, bases: string, quals: string, rest: string)
    ensures FastqFields(id, bases, quals) ==>
            Split("@" + id + "\n" + bases + "\n+\n" + quals + "\n" + rest, '\n')
            == ["@" + id, bases, "+", quals] + Split(rest, '\n')
  {
    if FastqFields(id, bases, quals) {
      var head := "@" + id;
      assert head[1 ..] == id;
      assert '\n' !in head;
      var t3 := quals + "\n" + rest;
      var t2 := "+" + "\n" + t3;
      var t1 := bases + "\n" + t2;
      FastqRecordRegroup(id, bases, quals, rest);
      SplitCons(head, t1, '\n');
      SplitCons(bases, t2, '\n');
      SplitCons("+", t3, '\n');
      SplitCons(quals, rest, '\n');
      var tail := Split(rest, '\n');
      assert Split(head + "\n" + t1, '\n') == [head] + ([bases] + ([ "+"] + ([quals] + tail)));
      ConsFour(head, bases, "+", quals, tail);
    }
  }

  /** Four pieces consed one at a time onto a tail form one display. */
  lemma ConsFour<T>(a: T, b: T, c: T, d: T, tail: seq<T>)
    ensures [a] + ([b] + ([c] + ([d] + tail))) == [a, b, c, d] + tail
  {
  }

  /** A record on its own: its four lines and the empty piece after the last line break. */
  lemma FastqRecordAlone(id: string, bases: string, quals: string)
    ensures FastqFields(id, bases, quals) ==>
            Split("@" + id + "\n" + bases + "\n+\n" + quals + "\n", '\n') == ["@" + id, bases, "+", quals, ""]
  {
    var text := "@" + id + "\n" + bases + "\n+\n" + quals + "\n";
    assert text + "" == text;
    assert Split("", '\n') == [""];
    FastqRecordSplit(id, bases, quals, "");
    SnocFour("@" + id, bases, "+", quals, "");
  }

  lemma SnocFour<T>(a: T, b: T, c: T, d: T, e: T)
    ensures [a, b, c, d] + [e] == [a, b, c, d, e]
  {
  }

  /** `format_writer` of the FASTQ writers: the id line, the active bases, the '+' line and the
      active qualities, each ended by a line break. */
  function FastqRecord(r: Read): (text: string)
    ensures FastqFields(r.id, SubSeq(r), SubQual(r)) ==>
            Split(text, '\n') == ["@" + r.id, SubSeq(r), "+", SubQual(r), ""]
  {
    FastqRecordAlone(r.id, SubSeq(r), SubQual(r));
    "@" + r.id + "\n" + SubSeq(r) + "\n+\n" + SubQual(r) + "\n"
  }

  /** `format_writer_rc`: the whole read, reverse-complemented, with its qualities reversed. The
      reverse complement is a base string, so only the id and the qualities can break a line. */
  function FastqRecordRc(r: Read): (text: string)
    ensures '\n' !in r.id && '\n' !in r.quals ==>
            Split(text, '\n') == ["@" + r.id, SeqRc(r), "+", QualRc(r), ""]
  {
    RcFields(r);
    FastqRecordAlone(r.id, SeqRc(r), QualRc(r));
    "@" + r.id + "\n" + SeqRc(r) + "\n+\n" + QualRc(r) + "\n"
  }

  /** The reverse-complemented bases hold neither a line break nor a tab, and the reversed
      qualities hold one only when the qualities do. */
  lemma RcFields(r: Read)
    ensures '\n' !in SeqRc(r) && '\t' !in SeqRc(r)
    ensures ('\n' in r.quals) == ('\n' in QualRc(r))
    ensures ('\t' in r.quals) == ('\t' in QualRc(r))
  {
    var b := SeqRc(r);
    var q := QualRc(r);
    forall i | 0 <= i < |b|
      ensures b[i] != '\n' && b[i] != '\t'
    {
      ReverseComplementAt(r.bases, i);
    }
    forall i | 0 <= i < |q|
      ensures q[i] == r.quals[|r.quals| - 1 - i]
    {
    }
    forall i | 0 <= i < |r.quals|
      ensures r.quals[i] == q[|q| - 1 - i]
    {
    }
  }

  /** The bases and qualities `write_read` emits: reverse-complemented or the active range. */
  function WrittenFields(r: Read, rc: bool): (string, string) {
    if rc then (SeqRc(r), QualRc(r)) else (SubSeq(r), SubQual(r))
  }

  /** `write_read` of the single-end FASTQ writer. */
  function FastqWriteRead(r: Read, rc: bool): (text: string)
    ensures var (b, q) := WrittenFields(r, rc);
            FastqFields(r.id, b, q) ==> Split(text, '\n') == ["@" + r.id, b, "+", q, ""]
  {
    RcFields(r);
    if rc then FastqRecordRc(r) else FastqRecord(r)
  }

  /** `PairedEndReadOutFastq::format_writer`: one record to each of the two outputs. */
  function PairedFastq(r1: Read, r2: Read): (out: (string, string))
    ensures FastqFields(r1.id, SubSeq(r1), SubQual(r1)) ==>
            Split(out.0, '\n') == ["@" + r1.id, SubSeq(r1), "+", SubQual(r1), ""]
    ensures FastqFields(r2.id, SubSeq(r2), SubQual(r2)) ==>
            Split(out.1, '\n') == ["@" + r2.id, SubSeq(r2), "+", SubQual(r2), ""]
  {
    (FastqRecord(r1), FastqRecord(r2))
  }

  /** `PairedEndReadOutInter::format_writer`: both records, read one first, to the same output. */
  function InterFastq(r1: Read, r2: Read): (text: string)
    ensures FastqFields(r1.id, SubSeq(r1), SubQual(r1)) && FastqFields(r2.id, SubSeq(r2), SubQual(r2)) ==>
            Split(text, '\n') == ["@" + r1.id, SubSeq(r1), "+", SubQual(r1),
                                   "@" + r2.id, SubSeq(r2), "+", SubQual(r2), ""]
  {
    FastqRecordSplit(r1.id, SubSeq(r1), SubQual(r1), FastqRecord(r2));
    FastqRecord(r1) + FastqRecord(r2)
  }

  // ---------------------------------------------------------------- unmapped SAM

  /** FLAG 4 (segment unmapped) for single-end reads; 77 = 1 + 4 + 8 + 64 and 141 = 1 + 4 + 8 + 128
      (paired, both segments unmapped, first / last segment) for the two reads of a pair, as in
      section 1.4 of the SAM format specification. */
  const SeFlag: nat := 4
  const Pe1Flag: nat := 77
  const Pe2Flag: nat := 141

  /** The optional fields: each comment preceded by a tab. */
  function SamComment(comments: seq<string>): string {
    if comments == [] then "" else "\t" + Join(comments, "\t")
  }

  /** An unmapped SAM line without its newline: QNAME, FLAG, then RNAME "*", POS 0, MAPQ 0,
      CIGAR "*", RNEXT "*", PNEXT 0, TLEN 0, then SEQ, QUAL and the comments. */
  function SamBody(id: string, flag: nat, bases: string, quals: string, comments: seq<string>): string {
    id + "\t" + (NatToString(flag) + "\t" + ("*" + "\t" + ("0" + "\t" + ("0" + "\t" + ("*" + "\t" + ("*" + "\t"
    + ("0" + "\t" + ("0" + "\t" + (bases + "\t" + (quals + SamComment(comments)))))))))))
  }

  /** The eleven mandatory SAM columns followed by the comments. */
  function SamFields(id: string, flag: nat, bases: string, quals: string, comments: seq<string>): seq<string> {
    [id, NatToString(flag), "*", "0", "0", "*", "*", "0", "0", bases, quals] + comments
  }

  /** One more comment adds a tab and the comment. */
  lemma SamCommentSnoc(done: seq<string>, c: string)
    ensures SamComment(done + [c]) == SamComment(done) + "\t" + c
  {
    if done != [] {
      JoinSnoc(done, c, "\t");
    } else {
      assert [] + [c] == [c];
      assert Join([c], "\t") == c;
    }
  }

  /** The comment loop of `samout`: appends a tab and each comment in turn. */
  method SamCommentLoop(comments: seq<string>) returns (samComment: string)
    ensures samComment == SamComment(comments)
  {
    samComment := "";
    for i := 0 to |comments|
      invariant samComment == SamComment(comments[.. i])
    {
      SamCommentSnoc(comments[.. i], comments[i]);
      assert comments[.. i + 1] == comments[.. i] + [comments[i]];
      samComment := samComment + "\t" + comments[i];
    }
    assert comments[.. |comments|] == comments;
  }

  /** `samout`: the unmapped line of the read's active bases and qualities. */
  method Samout(r: Read, flag: nat) returns (line: string)
    ensures line == SamBody(r.id, flag, SubSeq(r), SubQual(r), r.comments) + "\n"
  {
    var samComment := SamCommentLoop(r.comments);
    line := r.id + "\t" + (NatToString(flag) + "\t" + ("*" + "\t" + ("0" + "\t" + ("0" + "\t" + ("*" + "\t" + ("*" + "\t"
            + ("0" + "\t" + ("0" + "\t" + (SubSeq(r) + "\t" + (SubQual(r) + samComment)))))))))) + "\n";
  }

  /** `samout_rc`: the unmapped line of the whole read, reverse-complemented. */
  method SamoutRc(r: Read, flag: nat) returns (line: string)
    ensures line == SamBody(r.id, flag, SeqRc(r), QualRc(r), r.comments) + "\n"
  {
    var samComment := SamCommentLoop(r.comments);
    line := r.id + "\t" + (NatToString(flag) + "\t" + ("*" + "\t" + ("0" + "\t" + ("0" + "\t" + ("*" + "\t" + ("*" + "\t"
            + ("0" + "\t" + ("0" + "\t" + (SeqRc(r) + "\t" + (QualRc(r) + samComment)))))))))) + "\n";
  }

  /** `ReadBaseOutUnmapped::format_writer` of a pair: read one with FLAG 77, then read two with 141. */
  method SamPaired(r1: Read, r2: Read) returns (text: string)
    ensures text == SamBody(r1.id, Pe1Flag, SubSeq(r1), SubQual(r1), r1.comments) + "\n"
                  + (SamBody(r2.id, Pe2Flag, SubSeq(r2), SubQual(r2), r2.comments) + "\n")
  {
    var l1 := Samout(r1, Pe1Flag);
    var l2 := Samout(r2, Pe2Flag);
    text := l1 + l2;
  }

  /** `write_read` of the unmapped writer: FLAG 4, reverse-complemented when asked. */
  method SamWriteRead(r: Read, rc: bool) returns (line: string)
    ensures line == if rc then SamBody(r.id, SeFlag, SeqRc(r), QualRc(r), r.comments) + "\n"
                    else SamBody(r.id, SeFlag, SubSeq(r), SubQual(r), r.comments) + "\n"
  {
    if rc {
      line := SamoutRc(r, SeFlag);
    } else {
      line := Samout(r, SeFlag);
    }
  }

  predicate NoTab(s: string) { '\t' !in s }

  /** A tab-free first column followed by a tab splits off as the first piece. */
  lemma SplitTab(a: string, rest: string)
    requires NoTab(a)
    ensures Split(a + "\t" + rest, '\t') == [a] + Split(rest, '\t')
  {
    SplitCons(a, rest, '\t');
  }

  /** Tab-free columns joined by tabs split back into those columns. */
  lemma SplitTabJoin(parts: seq<string>)
    requires |parts| >= 1 && NoDelim(parts, '\t')
    ensures Split(Join(parts, "\t"), '\t') == parts
  {
    SplitJoin(parts, '\t');
  }

  /** The quality column followed by the SAM comment columns, regrouped. */
  lemma SamCommentAppend(quals: string, comments: seq<string>)
    ensures quals + SamComment(comments)
         == if comments == [] then quals else quals + "\t" + Join(comments, "\t")
  {
  }

  /** The last mandatory column and the comment columns. */
  lemma SamLastColumns(quals: string, comments: seq<string>)
    requires NoTab(quals) && NoDelim(comments, '\t')
    ensures Split(quals + SamComment(comments), '\t') == [quals] + comments
  {
    SamCommentAppend(quals, comments);
    if comments == [] {
      SplitNoDelim(quals, '\t');
    } else {
      SplitTabJoin(comments);
      SplitTab(quals, Join(comments, "\t"));
    }
  }

  /** Split on tabs, an unmapped line gives back its eleven mandatory columns in order, followed by
      one column per comment, provided no value holds a tab itself. */
  lemma SamColumns(id: string, flag: nat, bases: string, quals: string, comments: seq<string>)
    requires NoTab(id) && NoTab(bases) && NoTab(quals) && NoDelim(comments, '\t')
    ensures Split(SamBody(id, flag, bases, quals, comments), '\t') == SamFields(id, flag, bases, quals, comments)
    ensures |SamFields(id, flag, bases, quals, comments)| == 11 + |comments|
  {
    var last := quals + SamComment(comments);
    SamLastColumns(quals, comments);
    var digits := NatToString(flag);
    assert NoTab(digits);
    var s9 := bases + "\t" + last;
    SplitTab(bases, last);
    var s8 := "0" + "\t" + s9;
    SplitTab("0", s9);
    var s7 := "0" + "\t" + s8;
    SplitTab("0", s8);
    var s6 := "*" + "\t" + s7;
    SplitTab("*", s7);
    var s5 := "*" + "\t" + s6;
    SplitTab("*", s6);
    var s4 := "0" + "\t" + s5;
    SplitTab("0", s5);
    var s3 := "0" + "\t" + s4;
    SplitTab("0", s4);
    var s2 := "*" + "\t" + s3;
    SplitTab("*", s3);
    var s1 := digits + "\t" + s2;
    SplitTab(digits, s2);
    SplitTab(id, s1);
    Columns11(id, digits, "*", "0", "0", "*", "*", "0", "0", bases, quals, comments);
  }

  // ---------------------------------------------------------------- tab-delimited

  /** The optional comment column of a single-end tab line. */
  function TabComment(comments: seq<string>): string {
    if |comments| > 0 then "\t" + Join(comments, "|") else ""
  }

  /** A single-end tab line without its newline: id, bases, qualities and the optional comments. */
  function TabSeBody(id: string, bases: string, quals: string, comments: seq<string>): string {
    id + "\t" + (bases + "\t" + (quals + TabComment(comments)))
  }

  /** The tab columns of a single-end line: id, bases, qualities and, when there are comments,
      the comments joined by '|'. */
  function TabSeColumnsOf(id: string, bases: string, quals: string, comments: seq<string>): seq<string> {
    [id, bases, quals] + (if |comments| > 0 then [Join(comments, "|")] else [])
  }

  /** A single-end tab line, newline dropped, splits on tabs into its columns. */
  lemma TabSeLine(id: string, bases: string, quals: string, comments: seq<string>)
    ensures var text := TabSeBody(id, bases, quals, comments) + "\n";
            NoTab(id) && NoTab(bases) && NoTab(quals) && NoDelim(comments, '\t') ==>
            Split(text[.. |text| - 1], '\t') == TabSeColumnsOf(id, bases, quals, comments)
  {
    var body := TabSeBody(id, bases, quals, comments);
    assert (body + "\n")[.. |body|] == body;
    if NoTab(id) && NoTab(bases) && NoTab(quals) && NoDelim(comments, '\t') {
      TabSeColumns(id, bases, quals, comments);
    }
  }

  /** `ReadBaseOutTab::format_writer` of a single read: a line whose tab-separated columns are the
      id, the active bases, the active qualities and the joined comments. */
  function TabSe(r: Read): (text: string)
    ensures |text| > 0 && text[|text| - 1] == '\n'
    ensures NoTab(r.id) && NoTab(SubSeq(r)) && NoTab(SubQual(r)) && NoDelim(r.comments, '\t') ==>
            Split(text[.. |text| - 1], '\t') == TabSeColumnsOf(r.id, SubSeq(r), SubQual(r), r.comments)
  {
    TabSeLine(r.id, SubSeq(r), SubQual(r), r.comments);
    TabSeBody(r.id, SubSeq(r), SubQual(r), r.comments) + "\n"
  }

  /** `ReadBaseOutTab::format_writer_rc`: the same line over the reverse complement and the
      reversed qualities; the reverse complement never holds a tab. */
  function TabSeRc(r: Read): (text: string)
    ensures |text| > 0 && text[|text| - 1] == '\n'
    ensures NoTab(r.id) && NoTab(r.quals) && NoDelim(r.comments, '\t') ==>
            Split(text[.. |text| - 1], '\t') == TabSeColumnsOf(r.id, SeqRc(r), QualRc(r), r.comments)
  {
    RcFields(r);
    TabSeLine(r.id, SeqRc(r), QualRc(r), r.comments);
    TabSeBody(r.id, SeqRc(r), QualRc(r), r.comments) + "\n"
  }

  /** `write_read` of the tab writer. */
  function TabWriteRead(r: Read, rc: bool): (text: string)
    ensures |text| > 0 && text[|text| - 1] == '\n'
    ensures var (b, q) := WrittenFields(r, rc);
            NoTab(r.id) && NoTab(b) && NoTab(q) && NoDelim(r.comments, '\t') ==>
            Split(text[.. |text| - 1], '\t') == TabSeColumnsOf(r.id, b, q, r.comments)
  {
    RcFields(r);
    if rc then TabSeRc(r) else TabSe(r)
  }

  /** A read's comments joined by '|', or nothing when it has none. */
  function JoinedComments(comments: seq<string>): string {
    if |comments| > 0 then Join(comments, "|") else ""
  }

  /** The comment part of a paired tab line: a tab and the two comment columns when either read has
      comments, nothing otherwise. */
  function TabPeComment(c1: seq<string>, c2: seq<string>): string {
    if |c1| > 0 || |c2| > 0 then "\t" + (JoinedComments(c1) + "\t" + JoinedComments(c2)) else ""
  }

  /** A paired tab line without its newline: the six columns of the two reads, then the comments. */
  function TabPeBody(r1: Read, r2: Read): string {
    r1.id + "\t" + (SubSeq(r1) + "\t" + (SubQual(r1) + "\t" + (r2.id + "\t" + (SubSeq(r2) + "\t"
    + (SubQual(r2) + TabPeComment(r1.comments, r2.comments))))))
  }

  /** `ReadBaseOutTab::format_writer` of a pair, which assembles the comment columns piece by piece. */
  method TabPe(r1: Read, r2: Read) returns (line: string)
    ensures line == TabPeBody(r1, r2) + "\n"
  {
    var tail := "";
    if |r1.comments| > 0 || |r2.comments| > 0 {
      var strComment := "";
      if |r1.comments| > 0 {
        strComment := strComment + Join(r1.comments, "|");
      }
      strComment := strComment + "\t";
      if |r2.comments| > 0 {
        strComment := strComment + Join(r2.comments, "|");
      }
      tail := "\t" + strComment;
    }
    line := r1.id + "\t" + (SubSeq(r1) + "\t" + (SubQual(r1) + "\t" + (r2.id + "\t" + (SubSeq(r2) + "\t"
            + (SubQual(r2) + tail))))) + "\n";
  }

  /** A join of delimiter-free parts with a delimiter-free separator has no delimiter. */
  lemma {:induction false} JoinNoDelim(parts: seq<string>, sep: string, t: char)
    requires NoDelim(parts, t) && t !in sep
    ensures t !in Join(parts, sep)
    decreases |parts|
  {
    if |parts| > 1 {
      assert NoDelim(parts[1 ..], t) by {
        forall k | 0 <= k < |parts[1 ..]|
          ensures t !in parts[1 ..][k]
        {
          assert parts[1 ..][k] == parts[k + 1];
        }
      }
      JoinNoDelim(parts[1 ..], sep, t);
      assert t !in parts[0];
    } else if |parts| == 1 {
      assert t !in parts[0];
    }
  }

  /** The quality column followed by the single-end comment column, regrouped. */
  lemma TabCommentAppend(quals: string, comments: seq<string>)
    ensures quals + TabComment(comments) == if |comments| > 0 then quals + "\t" + Join(comments, "|") else quals
  {
  }

  /** The last column of a single-end tab line and the optional comment column. */
  lemma TabSeLastColumns(quals: string, comments: seq<string>)
    requires NoTab(quals) && NoDelim(comments, '\t')
    ensures Split(quals + TabComment(comments), '\t')
         == [quals] + (if |comments| > 0 then [Join(comments, "|")] else [])
  {
    TabCommentAppend(quals, comments);
    if |comments| > 0 {
      JoinNoDelim(comments, "|", '\t');
      SplitNoDelim(Join(comments, "|"), '\t');
      SplitTab(quals, Join(comments, "|"));
    } else {
      SplitNoDelim(quals, '\t');
    }
  }

  /** Three leading columns, regrouped as a display. */
  lemma Columns3(a: string, b: string, c: string, xs: seq<string>)
    ensures [a] + ([b] + ([c] + xs)) == [a, b, c] + xs
  {
  }

  /** Six leading columns, regrouped as a display. */
  lemma Columns6(a: string, b: string, c: string, d: string, e: string, f: string, xs: seq<string>)
    ensures [a] + ([b] + ([c] + ([d] + ([e] + ([f] + xs))))) == [a, b, c, d, e, f] + xs
  {
    Columns3(d, e, f, xs);
    Columns3(a, b, c, [d, e, f] + xs);
  }

  /** Eleven leading columns, regrouped as a display. */
  lemma Columns11(a: string, b: string, c: string, d: string, e: string, f: string, g: string, h: string,
                  i: string, j: string, k: string, xs: seq<string>)
    ensures [a] + ([b] + ([c] + ([d] + ([e] + ([f] + ([g] + ([h] + ([i] + ([j] + ([k] + xs))))))))))
         == [a, b, c, d, e, f, g, h, i, j, k] + xs
  {
    Columns3(i, j, k, xs);
    Columns6(c, d, e, f, g, h, [i, j, k] + xs);
    Columns3(a, b, c, [d, e, f, g, h, i, j, k] + xs);
  }

  /** Split on tabs, a single-end tab line gives back id, bases, qualities and, when there are
      comments, their '|'-joined column. */
  lemma TabSeColumns(id: string, bases: string, quals: string, comments: seq<string>)
    requires NoTab(id) && NoTab(bases) && NoTab(quals) && NoDelim(comments, '\t')
    ensures Split(TabSeBody(id, bases, quals, comments), '\t')
         == [id, bases, quals] + (if |comments| > 0 then [Join(comments, "|")] else [])
  {
    var tail := if |comments| > 0 then [Join(comments, "|")] else [];
    var last := quals + TabComment(comments);
    TabSeLastColumns(quals, comments);
    SplitTab(bases, last);
    SplitTab(id, bases + "\t" + last);
    Columns3(id, bases, quals, tail);
  }

  /** The quality column followed by the paired comment columns, regrouped. */
  lemma TabPeCommentAppend(quals: string, c1: seq<string>, c2: seq<string>)
    ensures quals + TabPeComment(c1, c2)
         == if |c1| > 0 || |c2| > 0 then quals + "\t" + (JoinedComments(c1) + "\t" + JoinedComments(c2))
            else quals
  {
  }

  /** The last read column of a paired tab line and the comment columns. */
  lemma TabPeLastColumns(quals: string, c1: seq<string>, c2: seq<string>)
    requires NoTab(quals) && NoDelim(c1, '\t') && NoDelim(c2, '\t')
    ensures Split(quals + TabPeComment(c1, c2), '\t')
         == [quals] + (if |c1| > 0 || |c2| > 0 then [JoinedComments(c1), JoinedComments(c2)] else [])
  {
    var j1, j2 := JoinedComments(c1), JoinedComments(c2);
    TabPeCommentAppend(quals, c1, c2);
    if |c1| > 0 || |c2| > 0 {
      JoinNoDelim(c1, "|", '\t');
      JoinNoDelim(c2, "|", '\t');
      SplitNoDelim(j2, '\t');
      SplitTab(j1, j2);
      SplitTab(quals, j1 + "\t" + j2);
      ConsPair(quals, j1, j2);
    } else {
      SplitNoDelim(quals, '\t');
    }
  }

  lemma ConsPair<T>(a: T, b: T, c: T)
    ensures [a] + ([b] + [c]) == [a] + [b, c]
  {
  }

  /** Split on tabs, a paired tab line gives back the six columns of the two reads and, when either
      read has comments, the two comment columns. */
  lemma TabPeColumns(r1: Read, r2: Read)
    requires NoTab(r1.id) && NoTab(SubSeq(r1)) && NoTab(SubQual(r1)) && NoDelim(r1.comments, '\t')
    requires NoTab(r2.id) && NoTab(SubSeq(r2)) && NoTab(SubQual(r2)) && NoDelim(r2.comments, '\t')
    ensures Split(TabPeBody(r1, r2), '\t')
         == [r1.id, SubSeq(r1), SubQual(r1), r2.id, SubSeq(r2), SubQual(r2)]
            + (if |r1.comments| > 0 || |r2.comments| > 0
               then [JoinedComments(r1.comments), JoinedComments(r2.comments)] else [])
  {
    var last := SubQual(r2) + TabPeComment(r1.comments, r2.comments);
    TabPeLastColumns(SubQual(r2), r1.comments, r2.comments);
    var s5 := SubSeq(r2) + "\t" + last;
    SplitTab(SubSeq(r2), last);
    var s4 := r2.id + "\t" + s5;
    SplitTab(r2.id, s5);
    var s3 := SubQual(r1) + "\t" + s4;
    SplitTab(SubQual(r1), s4);
    var s2 := SubSeq(r1) + "\t" + s3;
    SplitTab(SubSeq(r1), s3);
    SplitTab(r1.id, s2);
    Columns6(r1.id, SubSeq(r1), SubQual(r1), r2.id, SubSeq(r2), SubQual(r2),
             if |r1.comments| > 0 || |r2.comments| > 0
             then [JoinedComments(r1.comments), JoinedComments(r2.comments)] else []);
  }

  // ---------------------------------------------------------------- WriterHelper

  /** One call on a writer: `pe->write(pair)`, `se->write_read(read, rc)` or `se->write(single)`. */
  datatype Write = PairWrite(one: Read, two: Read) | ReadWrite(r: Read, rc: bool) | SingleWrite(r: Read)

  /** What `visit(PairedEndRead*)` writes: the pair when neither read is discarded; otherwise, unless
      orphans are suppressed, the surviving read with the other read's comments joined on, read two
      reverse-complemented when the library is stranded. */
  function RoutePair(one: Read, two: Read, stranded: bool, noOrphans: bool): seq<Write> {
    if !one.discard && !two.discard then [PairWrite(one, two)]
    else if !one.discard && !noOrphans then [ReadWrite(JoinComment(one, two.comments), false)]
    else if !two.discard && !noOrphans then [ReadWrite(JoinComment(two, one.comments), stranded)]
    else []
  }

  /** What `visit(SingleEndRead*)` writes. */
  function RouteSingle(r: Read): seq<Write> {
    if !r.discard then [SingleWrite(r)] else []
  }

  /** `WriterHelper`: the two writers are a log of the calls made on them. */
  class WriterHelper {
    const stranded: bool
    const noOrphans: bool
    var written: seq<Write>

    constructor (stranded': bool, noOrphans': bool)
      ensures stranded == stranded' && noOrphans == noOrphans' && written == []
    {
      stranded := stranded';
      noOrphans := noOrphans';
      written := [];
    }

    /** `visit(PairedEndRead*)`: the surviving orphan takes on the other read's comments in place. */
    method VisitPaired(per: PairedEndRead)
      modifies this, per
      ensures written == old(written) + RoutePair(old(per.one), old(per.two), stranded, noOrphans)
      ensures per.one == (if !old(per.one.discard) && old(per.two.discard) && !noOrphans
                          then JoinComment(old(per.one), old(per.two.comments)) else old(per.one))
      ensures per.two == (if old(per.one.discard) && !old(per.two.discard) && !noOrphans
                          then JoinComment(old(per.two), old(per.one.comments)) else old(per.two))
    {
      if !per.one.discard && !per.two.discard {
        written := written + [PairWrite(per.one, per.two)];
      } else if !per.one.discard && !noOrphans {
        per.one := JoinComment(per.one, per.two.comments);
        written := written + [ReadWrite(per.one, false)];
      } else if !per.two.discard && !noOrphans {
        per.two := JoinComment(per.two, per.one.comments);
        written := written + [ReadWrite(per.two, stranded)];
      }
    }

    /** `visit(SingleEndRead*)`. */
    method VisitSingle(r: Read)
      modifies this
      ensures written == old(written) + RouteSingle(r)
    {
      if !r.discard {
        written := written + [SingleWrite(r)];
      }
    }
  }

  /** The routing table of a paired record: at most one write; the pair exactly when both reads
      survive; read one alone (never reverse-complemented) exactly when only it survives and
      orphans are allowed; read two alone, reverse-complemented iff stranded, exactly when only it
      survives and orphans are allowed; nothing otherwise. */
  lemma PairRouting(one: Read, two: Read, stranded: bool, noOrphans: bool)
    ensures |RoutePair(one, two, stranded, noOrphans)| <= 1
    ensures RoutePair(one, two, stranded, noOrphans) == [PairWrite(one, two)] <==> !one.discard && !two.discard
    ensures RoutePair(one, two, stranded, noOrphans) == [ReadWrite(JoinComment(one, two.comments), false)]
            <==> !one.discard && two.discard && !noOrphans
    ensures RoutePair(one, two, stranded, noOrphans) == [ReadWrite(JoinComment(two, one.comments), stranded)]
            <==> one.discard && !two.discard && !noOrphans
    ensures RoutePair(one, two, stranded, noOrphans) == []
            <==> (one.discard && two.discard) || ((one.discard || two.discard) && noOrphans)
  {
  }

  /** A single-end record is written, unchanged, exactly when its read is not discarded. */
  lemma SingleRouting(r: Read)
    ensures RouteSingle(r) == [SingleWrite(r)] <==> !r.discard
    ensures RouteSingle(r) == [] <==> r.discard
  {
  }
}
