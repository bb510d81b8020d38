/** The record parsers: `string2fasta`, the FASTQ, FASTA and tab-delimited `load_read`s with their
    member line buffers, and the `next()` wrappers of the tab, interleaved, paired and single
    readers. A thrown `HtsIOException` is an `Err` carrying its message, together with the
    stream and buffer state at the point of the throw. */
module Parsers {
  import opened Wrappers
  import opened Streams
  import opened Reads

  // ---------------------------------------------------------------- string2fasta

  /** One FASTA record of `string2fasta`: header ">" + prefix + index, then the field. */
  function FastaEntry(prefix: string, index: nat, field: string): string {
    ">" + prefix + NatToString(index) + "\n" + field + "\n"
  }

  /** The records of `fields`, numbered from `from`. */
  function FastaEntries(fields: seq<string>, prefix: string, from: nat): string {
    if fields == [] then "" else FastaEntry(prefix, from, fields[0]) + FastaEntries(fields[1 ..], prefix, from + 1)
  }

  /** The records still to come from a string stream: none once it is no longer good. */
  function Pending(ss: IStream, prefix: string, delim: char, index: nat): string {
    if Good(ss) then FastaEntries(Split(ss.rest, delim), prefix, index) else ""
  }

  /** One getline on a good stream emits the record of the first piece of the split. */
  lemma PendingStep(ss: IStream, prefix: string, delim: char, index: nat)
    requires Good(ss)
    ensures var g := Getline(ss, "", delim);
            Pending(ss, prefix, delim, index) == FastaEntry(prefix, index, g.line) + Pending(g.stream, prefix, delim, index + 1)
  {
    var g := Getline(ss, "", delim);
    var i := IndexOf(ss.rest, delim);
    if i == |ss.rest| {
      assert Split(ss.rest, delim) == [g.line];
      assert FastaEntries([g.line], prefix, index) == FastaEntry(prefix, index, g.line) + FastaEntries([], prefix, index + 1);
    } else {
      assert Split(ss.rest, delim) == [g.line] + Split(g.stream.rest, delim);
    }
  }

  /** `string2fasta`: numbers the pieces of `seqstring` split on `delim` from 1 and emits each as a
      FASTA record. */
  method String2Fasta(seqstring: string, prefix: string, delim: char) returns (newfa: string)
    ensures newfa == FastaEntries(Split(seqstring, delim), prefix, 1)
  {
    newfa := "";
    var index: nat := 1;
    var ss := Open(seqstring);
    while Good(ss)
      invariant newfa + Pending(ss, prefix, delim, index) == FastaEntries(Split(seqstring, delim), prefix, 1)
      decreases |ss.rest| + (if Good(ss) then 1 else 0)
    {
      PendingStep(ss, prefix, delim, index);
      var g := Getline(ss, "", delim);
      ss := g.stream;
      newfa := newfa + FastaEntry(prefix, index, g.line);
      index := index + 1;
    }
  }

  /** `string2fasta` called without a delimiter: the header's default splits on commas. */
  method String2FastaCommas(seqstring: string, prefix: string) returns (newfa: string)
    ensures newfa == FastaEntries(Split(seqstring, ','), prefix, 1)
  {
    newfa := String2Fasta(seqstring, prefix, ',');
  }

  lemma {:induction false} FastaEntriesAppend(a: seq<string>, b: seq<string>, prefix: string, from: nat)
    ensures FastaEntries(a + b, prefix, from) == FastaEntries(a, prefix, from) + FastaEntries(b, prefix, from + |a|)
    decreases |a|
  {
    if a == [] {
      assert a + b == b;
    } else {
      assert (a + b)[0] == a[0] && (a + b)[1 ..] == a[1 ..] + b;
      FastaEntriesAppend(a[1 ..], b, prefix, from + 1);
    }
  }

  /** The i-th piece (counting from 0) becomes record number from+i, between the records of the
      pieces before and after it. */
  lemma FastaEntriesAt(fields: seq<string>, prefix: string, from: nat, i: nat)
    requires i < |fields|
    ensures FastaEntries(fields, prefix, from)
         == FastaEntries(fields[.. i], prefix, from) + FastaEntry(prefix, from + i, fields[i])
            + FastaEntries(fields[i + 1 ..], prefix, from + i + 1)
  {
    assert fields == fields[.. i] + ([fields[i]] + fields[i + 1 ..]);
    FastaEntriesAppend(fields[.. i], [fields[i]] + fields[i + 1 ..], prefix, from);
    FastaEntriesAppend([fields[i]], fields[i + 1 ..], prefix, from + i);
    assert FastaEntries([fields[i]], prefix, from + i) == FastaEntry(prefix, from + i, fields[i]) + FastaEntries([], prefix, from + i + 1);
  }

  /** An empty input yields one record with an empty body. */
  lemma String2FastaEmpty(prefix: string, delim: char)
    ensures FastaEntries(Split("", delim), prefix, 1) == ">" + prefix + "1\n\n"
  {
    assert Split("", delim) == [""];
    assert NatToString(1) == "1";
  }

  /** A trailing delimiter adds one last record with an empty body. */
  lemma String2FastaTrailingDelimiter(s: string, prefix: string, delim: char)
    ensures FastaEntries(Split(s + [delim], delim), prefix, 1)
         == FastaEntries(Split(s, delim), prefix, 1) + FastaEntry(prefix, |Split(s, delim)| + 1, "")
  {
    SplitTrailingDelimiter(s, delim);
    FastaEntriesAppend(Split(s, delim), [""], prefix, 1);
    assert FastaEntries([""], prefix, |Split(s, delim)| + 1) == FastaEntry(prefix, |Split(s, delim)| + 1, "") + "";
  }

  // ---------------------------------------------------------------- FASTQ

  /** `InputFastq`'s member line buffers. */
  datatype FastqBuffers = FastqBuffers(id: string, sequence: string, id2: string, qual: string)

  /** What a `load_read` leaves behind: its result (or the exception it threw), the stream and
      the member buffers. */
  datatype Loaded<T, B> = Loaded(result: Result<T>, stream: IStream, buffers: B)

  /** `InputFastq::load_read`. */
  function ParseFastq(b: FastqBuffers, st: IStream): Loaded<Read, FastqBuffers> {
    var g1 := SkipEmpty(st, b.id);
    var b1 := b.(id := g1.line);
    if |g1.line| < 1 then Loaded(Err("invalid id line empty"), g1.stream, b1)
    else if g1.line[0] != '@' then Loaded(Err("id line did not begin with @"), g1.stream, b1)
    else
      var g2 := Getline(g1.stream, b.sequence, '\n');
      var b2 := b1.(sequence := g2.line);
      if |g2.line| < 1 then Loaded(Err("invalid seq line empty"), g2.stream, b2)
      else
        var g3 := Getline(g2.stream, b.id2, '\n');
        var b3 := b2.(id2 := g3.line);
        if |g3.line| < 1 then Loaded(Err("invalid id2 line empty"), g3.stream, b3)
        else if g3.line[0] != '+' then Loaded(Err("invalid id2 line did not begin with +"), g3.stream, b3)
        else
          var g4 := Getline(g3.stream, b.qual, '\n');
          var b4 := b3.(qual := g4.line);
          if |g4.line| != |g2.line| then Loaded(Err("qual string not the same length as sequence"), g4.stream, b4)
          else Loaded(Ok(NewRead(g2.line, g4.line, g1.line[1 ..])), SkipBreaks(g4.stream), b4)
  }

  /** `InterReadImpl::next()`: two FASTQ records from one stream; a failure on the second is
      reported as an odd record count. */
  function InterNext(b: FastqBuffers, st: IStream): Loaded<Record, FastqBuffers> {
    var l1 := ParseFastq(b, st);
    if l1.result.Err? then Loaded(Err(l1.result.msg), l1.stream, l1.buffers)
    else
      var l2 := ParseFastq(l1.buffers, l1.stream);
      if l2.result.Err? then Loaded(Err("odd number of sequences in interleaved file"), l2.stream, l2.buffers)
      else Loaded(Ok(PairedRecord(l1.result.value, l2.result.value)), l2.stream, l2.buffers)
  }

  /** The two streams and the shared buffers after `PairedEndReadFastqImpl::next()`. */
  datatype PairLoaded = PairLoaded(result: Result<Record>, in1: IStream, in2: IStream, buffers: FastqBuffers)

  /** `PairedEndReadFastqImpl::next()`: one FASTQ record from each stream, through the same buffers. */
  function PairedNext(b: FastqBuffers, in1: IStream, in2: IStream): PairLoaded {
    var l1 := ParseFastq(b, in1);
    if l1.result.Err? then PairLoaded(Err(l1.result.msg), l1.stream, in2, l1.buffers)
    else
      var l2 := ParseFastq(l1.buffers, in2);
      if l2.result.Err? then PairLoaded(Err(l2.result.msg), l1.stream, l2.stream, l2.buffers)
      else PairLoaded(Ok(PairedRecord(l1.result.value, l2.result.value)), l1.stream, l2.stream, l2.buffers)
  }

  /** `InputFastq` with its buffers; the FASTQ single-end, paired and interleaved readers. */
  class FastqReader {
    var id: string
    var sequence: string
    var id2: string
    var qual: string

    constructor ()
      ensures Buffers() == FastqBuffers("", "", "", "")
    {
      id, sequence, id2, qual := "", "", "", "";
    }

    function Buffers(): FastqBuffers
      reads this
    {
      FastqBuffers(id, sequence, id2, qual)
    }

    /** `InputFastq::load_read`. */
    method LoadRead(input: IStream) returns (result: Result<Read>, st: IStream)
      modifies this
      ensures Loaded(result, st, Buffers()) == ParseFastq(old(Buffers()), input)
    {
      st, id := SkipEmptyLines(input, id);
      if |id| < 1 {
        return Err("invalid id line empty"), st;
      }
      if id[0] != '@' {
        return Err("id line did not begin with @"), st;
      }
      var g := Getline(st, sequence, '\n');
      st, sequence := g.stream, g.line;
      if |sequence| < 1 {
        return Err("invalid seq line empty"), st;
      }
      g := Getline(st, id2, '\n');
      st, id2 := g.stream, g.line;
      if |id2| < 1 {
        return Err("invalid id2 line empty"), st;
      }
      if id2[0] != '+' {
        return Err("invalid id2 line did not begin with +"), st;
      }
      g := Getline(st, qual, '\n');
      st, qual := g.stream, g.line;
      if |qual| != |sequence| {
        return Err("qual string not the same length as sequence"), st;
      }
      st := SkipLineBreaks(st);
      result := Ok(NewRead(sequence, qual, id[1 ..]));
    }

    /** `SingleEndReadFastqImpl::next()`. */
    method NextSingle(input: IStream) returns (result: Result<Record>, st: IStream)
      modifies this
      ensures var l := ParseFastq(old(Buffers()), input);
              && st == l.stream && Buffers() == l.buffers
              && result == if l.result.Ok? then Ok(SingleRecord(l.result.value)) else Err(l.result.msg)
    {
      var r;
      r, st := LoadRead(input);
      if r.Err? {
        return Err(r.msg), st;
      }
      result := Ok(SingleRecord(r.value));
    }

    /** `InterReadImpl::next()`. */
    method NextInterleaved(input: IStream) returns (result: Result<Record>, st: IStream)
      modifies this
      ensures Loaded(result, st, Buffers()) == InterNext(old(Buffers()), input)
    {
      var r1, r2;
      r1, st := LoadRead(input);
      if r1.Err? {
        return Err(r1.msg), st;
      }
      r2, st := LoadRead(st);
      if r2.Err? {
        return Err("odd number of sequences in interleaved file"), st;
      }
      result := Ok(PairedRecord(r1.value, r2.value));
    }

    /** `PairedEndReadFastqImpl::next()`. */
    method NextPaired(in1: IStream, in2: IStream) returns (result: Result<Record>, st1: IStream, st2: IStream)
      modifies this
      ensures PairLoaded(result, st1, st2, Buffers()) == PairedNext(old(Buffers()), in1, in2)
    {
      var r1, r2;
      st2 := in2;
      r1, st1 := LoadRead(in1);
      if r1.Err? {
        return Err(r1.msg), st1, st2;
      }
      r2, st2 := LoadRead(in2);
      if r2.Err? {
        return Err(r2.msg), st1, st2;
      }
      result := Ok(PairedRecord(r1.value, r2.value));
    }
  }

  /** The text of one FASTQ record, followed by `rest`. */
  function FastqText(id: string, sequence: string, qual: string, rest: string): string {
    ("@" + id) + "\n" + (sequence + "\n" + ("+" + "\n" + (qual + "\n" + rest)))
  }

  predicate OneLine(s: string) { '\n' !in s }

  lemma GetlineTakesLine(line: string, rest: string, buf: string)
    requires OneLine(line)
    ensures Getline(Open(line + "\n" + rest), buf, '\n') == Got(Open(rest), line)
  {
    var st := Open(line + "\n" + rest);
    IndexOfPrefix(line, rest, '\n');
    assert st.rest[.. |line|] == line && st.rest[|line| + 1 ..] == rest;
  }

  /** A well-formed record after any number of blank lines parses to (sequence, qual, id without
      '@'), and the line breaks that follow it are consumed. */
  lemma FastqParsesRecord(b: FastqBuffers, n: nat, id: string, sequence: string, qual: string,
                          tail: string, breaks: string, rest: string)
    requires OneLine(id) && OneLine(sequence) && OneLine(qual) && |sequence| > 0 && |qual| == |sequence|
    requires tail == breaks + rest && forall j :: 0 <= j < |breaks| ==> IsBreak(breaks[j])
    requires rest == [] || !IsBreak(rest[0])
    ensures ParseFastq(b, Open(Newlines(n) + FastqText(id, sequence, qual, tail)))
         == Loaded(Ok(NewRead(sequence, qual, id)), IStream(rest, rest == [], rest == []), FastqBuffers("@" + id, sequence, "+", qual))
  {
    var t3 := qual + "\n" + tail;
    var t2 := "+" + "\n" + t3;
    var t1 := sequence + "\n" + t2;
    SkipEmptyFindsLine(n, "@" + id, t1, b.id);
    GetlineTakesLine(sequence, t2, b.sequence);
    GetlineTakesLine("+", t3, b.id2);
    GetlineTakesLine(qual, tail, b.qual);
    SkipBreaksDropsBreaks(Open(tail), breaks, rest);
    assert ("@" + id)[1 ..] == id;
  }

  lemma {:induction false} BlankLinesGiveEmptyLine(n: nat, buf: string)
    ensures SkipEmpty(Open(Newlines(n)), buf).line == ""
    decreases n
  {
    if n > 0 {
      assert Open(Newlines(n)).rest == "\n" + Newlines(n - 1);
      BlankLinesGiveEmptyLine(n - 1, "");
    }
  }

  /** Only blank lines left: the id line is empty. */
  lemma FastqBlankInput(b: FastqBuffers, n: nat)
    ensures ParseFastq(b, Open(Newlines(n))).result == Err("invalid id line empty")
  {
    BlankLinesGiveEmptyLine(n, b.id);
  }

  /** The first non-blank line must start with '@'. */
  lemma FastqRejectsBadId(b: FastqBuffers, n: nat, line: string, rest: string)
    requires OneLine(line) && |line| > 0 && line[0] != '@'
    ensures ParseFastq(b, Open(Newlines(n) + (line + "\n" + rest))).result == Err("id line did not begin with @")
  {
    SkipEmptyFindsLine(n, line, rest, b.id);
  }

  /** An empty sequence line is rejected. */
  lemma FastqRejectsEmptySeq(b: FastqBuffers, n: nat, id: string, rest: string)
    requires OneLine(id)
    ensures ParseFastq(b, Open(Newlines(n) + (("@" + id) + "\n" + ("" + "\n" + rest)))).result == Err("invalid seq line empty")
  {
    SkipEmptyFindsLine(n, "@" + id, "" + "\n" + rest, b.id);
    GetlineTakesLine("", rest, b.sequence);
  }

  /** The third line must not be empty. */
  lemma FastqRejectsEmptySeparator(b: FastqBuffers, n: nat, id: string, sequence: string, rest: string)
    requires OneLine(id) && OneLine(sequence) && |sequence| > 0
    ensures ParseFastq(b, Open(Newlines(n) + (("@" + id) + "\n" + (sequence + "\n" + ("\n" + rest))))).result
         == Err("invalid id2 line empty")
  {
    var t2 := "\n" + rest;
    var t1 := sequence + "\n" + t2;
    SkipEmptyFindsLine(n, "@" + id, t1, b.id);
    GetlineTakesLine(sequence, t2, b.sequence);
    assert t2 == "" + "\n" + rest;
    GetlineTakesLine("", rest, b.id2);
  }

  /** The third line must start with '+'. */
  lemma FastqRejectsBadSeparator(b: FastqBuffers, n: nat, id: string, sequence: string, sep: string, rest: string)
    requires OneLine(id) && OneLine(sequence) && OneLine(sep) && |sequence| > 0 && |sep| > 0 && sep[0] != '+'
    ensures ParseFastq(b, Open(Newlines(n) + (("@" + id) + "\n" + (sequence + "\n" + (sep + "\n" + rest))))).result
         == Err("invalid id2 line did not begin with +")
  {
    var t2 := sep + "\n" + rest;
    var t1 := sequence + "\n" + t2;
    SkipEmptyFindsLine(n, "@" + id, t1, b.id);
    GetlineTakesLine(sequence, t2, b.sequence);
    GetlineTakesLine(sep, rest, b.id2);
  }

  /** A quality line of the wrong length is rejected. */
  lemma FastqRejectsQualityLength(b: FastqBuffers, n: nat, id: string, sequence: string, qual: string, rest: string)
    requires OneLine(id) && OneLine(sequence) && OneLine(qual) && |sequence| > 0 && |qual| != |sequence|
    ensures ParseFastq(b, Open(Newlines(n) + FastqText(id, sequence, qual, rest))).result
         == Err("qual string not the same length as sequence")
  {
    var t3 := qual + "\n" + rest;
    var t2 := "+" + "\n" + t3;
    var t1 := sequence + "\n" + t2;
    SkipEmptyFindsLine(n, "@" + id, t1, b.id);
    GetlineTakesLine(sequence, t2, b.sequence);
    GetlineTakesLine("+", t3, b.id2);
    GetlineTakesLine(qual, rest, b.qual);
  }

  /** On a stream that is no longer good every getline fails and leaves its buffer alone, so the
      parse re-validates the buffers of the previous record and returns that record again. */
  lemma FastqAtEndRepeatsLastRecord(b: FastqBuffers, st: IStream)
    requires !Good(st)
    requires |b.id| > 0 && b.id[0] == '@' && |b.sequence| > 0 && |b.id2| > 0 && b.id2[0] == '+' && |b.qual| == |b.sequence|
    ensures ParseFastq(b, st).result == Ok(NewRead(b.sequence, b.qual, b.id[1 ..]))
  {
  }

  /** As written, an interleaved file holding a single record does not raise the odd-count error:
      the second parse meets the exhausted stream and repeats the first record. */
  lemma InterOddRecordIsPairedWithItself(n: nat, id: string, sequence: string, qual: string)
    requires OneLine(id) && OneLine(sequence) && OneLine(qual) && |sequence| > 0 && |qual| == |sequence|
    ensures InterNext(FastqBuffers("", "", "", ""), Open(Newlines(n) + FastqText(id, sequence, qual, ""))).result
         == Ok(PairedRecord(NewRead(sequence, qual, id), NewRead(sequence, qual, id)))
  {
    var b := FastqBuffers("", "", "", "");
    FastqParsesRecord(b, n, id, sequence, qual, "", "", "");
    var l1 := ParseFastq(b, Open(Newlines(n) + FastqText(id, sequence, qual, "")));
    FastqAtEndRepeatsLastRecord(l1.buffers, l1.stream);
  }

  /** `load_read` as evidently intended: a getline that fails on the id line (the stream is
      exhausted) is the empty-id error instead of a reuse of the old buffer. */
  function ParseFastqChecked(b: FastqBuffers, st: IStream): Loaded<Read, FastqBuffers> {
    var g1 := SkipEmpty(st, b.id);
    if g1.stream.fail then Loaded(Err("invalid id line empty"), g1.stream, b.(id := g1.line))
    else ParseFastq(b, st)
  }

  /** The interleaved `next()` on top of the intended parse. */
  function InterNextChecked(b: FastqBuffers, st: IStream): Loaded<Record, FastqBuffers> {
    var l1 := ParseFastqChecked(b, st);
    if l1.result.Err? then Loaded(Err(l1.result.msg), l1.stream, l1.buffers)
    else
      var l2 := ParseFastqChecked(l1.buffers, l1.stream);
      if l2.result.Err? then Loaded(Err("odd number of sequences in interleaved file"), l2.stream, l2.buffers)
      else Loaded(Ok(PairedRecord(l1.result.value, l2.result.value)), l2.stream, l2.buffers)
  }

  /** With the intended parse a lone final record raises the odd-count error. */
  lemma InterCheckedReportsOddCount(b: FastqBuffers, n: nat, id: string, sequence: string, qual: string)
    requires OneLine(id) && OneLine(sequence) && OneLine(qual) && |sequence| > 0 && |qual| == |sequence|
    ensures InterNextChecked(b, Open(Newlines(n) + FastqText(id, sequence, qual, ""))).result
         == Err("odd number of sequences in interleaved file")
  {
    SkipEmptyFindsLine(n, "@" + id, sequence + "\n" + ("+" + "\n" + (qual + "\n" + "")), b.id);
    FastqParsesRecord(b, n, id, sequence, qual, "", "", "");
  }

  /** The intended parse of a well-formed record agrees with the parse as written. */
  lemma FastqCheckedParsesRecord(b: FastqBuffers, n: nat, id: string, sequence: string, qual: string, rest: string)
    requires OneLine(id) && OneLine(sequence) && OneLine(qual) && |sequence| > 0 && |qual| == |sequence|
    requires rest == [] || !IsBreak(rest[0])
    ensures ParseFastqChecked(b, Open(Newlines(n) + FastqText(id, sequence, qual, rest)))
         == Loaded(Ok(NewRead(sequence, qual, id)), IStream(rest, rest == [], rest == []), FastqBuffers("@" + id, sequence, "+", qual))
  {
    SkipEmptyFindsLine(n, "@" + id, sequence + "\n" + ("+" + "\n" + (qual + "\n" + rest)), b.id);
    FastqParsesRecord(b, n, id, sequence, qual, rest, "", rest);
  }

  /** With the intended parse two records still make a pair. */
  lemma InterCheckedPairsTwoRecords(b: FastqBuffers, n: nat, id: string, sequence: string, qual: string,
                                    id': string, sequence': string, qual': string)
    requires OneLine(id) && OneLine(sequence) && OneLine(qual) && |sequence| > 0 && |qual| == |sequence|
    requires OneLine(id') && OneLine(sequence') && OneLine(qual') && |sequence'| > 0 && |qual'| == |sequence'|
    ensures InterNextChecked(b, Open(Newlines(n) + FastqText(id, sequence, qual, FastqText(id', sequence', qual', "")))).result
         == Ok(PairedRecord(NewRead(sequence, qual, id), NewRead(sequence', qual', id')))
  {
    var second := FastqText(id', sequence', qual', "");
    assert second != [] && second[0] == '@';
    FastqCheckedParsesRecord(b, n, id, sequence, qual, second);
    NoBlankLines(second);
    FastqCheckedParsesRecord(FastqBuffers("@" + id, sequence, "+", qual), 0, id', sequence', qual', "");
  }

  // ---------------------------------------------------------------- FASTA

  /** `InputFasta`'s member buffers. */
  datatype FastaBuffers = FastaBuffers(id: string, sequence: string, tmpSeq: string)

  datatype Collected = Collected(stream: IStream, tmpSeq: string, sequence: string)

  /** The sequence loop after the header: each line getline delivers is appended to `acc`, and the
      loop stops when getline fails or when the line is followed by a '>'. */
  function CollectSeq(st: IStream, tmp: string, acc: string): Collected
    decreases |st.rest|
  {
    var g := Getline(st, tmp, '\n');
    if g.stream.fail then Collected(g.stream, g.line, acc)
    else
      var (st2, c) := Peek(g.stream);
      if c == Some('>') then Collected(st2, g.line, acc + g.line)
      else CollectSeq(st2, g.line, acc + g.line)
  }

  /** `InputFasta::load_read`. */
  function ParseFasta(b: FastaBuffers, st: IStream): Loaded<Read, FastaBuffers> {
    var g1 := SkipEmpty(st, b.id);
    var b1 := b.(id := g1.line);
    if |g1.line| < 1 then Loaded(Err("invalid id - line empty"), g1.stream, b1)
    else if g1.line[0] != '>' then Loaded(Err("id line did not begin with >"), g1.stream, b1)
    else
      var col := CollectSeq(g1.stream, b.tmpSeq, "");
      var b2 := b1.(sequence := col.sequence, tmpSeq := col.tmpSeq);
      if |col.sequence| < 1 then Loaded(Err("no sequence"), col.stream, b2)
      else Loaded(Ok(NewRead(col.sequence, "", g1.line[1 ..])), SkipBreaks(col.stream), b2)
  }

  /** `InputFasta` with its buffers. */
  class FastaReader {
    var id: string
    var sequence: string
    var tmpSeq: string

    constructor ()
      ensures Buffers() == FastaBuffers("", "", "")
    {
      id, sequence, tmpSeq := "", "", "";
    }

    function Buffers(): FastaBuffers
      reads this
    {
      FastaBuffers(id, sequence, tmpSeq)
    }

    /** The sequence loop of `load_read`, which resets and fills `sequence`. */
    method CollectSequence(input: IStream) returns (st: IStream)
      modifies this
      ensures Collected(st, tmpSeq, sequence) == CollectSeq(input, old(tmpSeq), "")
      ensures id == old(id)
    {
      sequence := "";
      st := input;
      ghost var col := CollectSeq(input, tmpSeq, "");
      while true
        invariant col == CollectSeq(st, tmpSeq, sequence)
        invariant id == old(id)
        decreases |st.rest|
      {
        var g := Getline(st, tmpSeq, '\n');
        st, tmpSeq := g.stream, g.line;
        if st.fail {
          return;
        }
        sequence := sequence + tmpSeq;
        var (st', c) := Peek(st);
        st := st';
        if c == Some('>') {
          return;
        }
      }
    }

    /** `InputFasta::load_read`. */
    method LoadRead(input: IStream) returns (result: Result<Read>, st: IStream)
      modifies this
      ensures Loaded(result, st, Buffers()) == ParseFasta(old(Buffers()), input)
    {
      st, id := SkipEmptyLines(input, id);
      if |id| < 1 {
        return Err("invalid id - line empty"), st;
      }
      if id[0] != '>' {
        return Err("id line did not begin with >"), st;
      }
      st := CollectSequence(st);
      if |sequence| < 1 {
        return Err("no sequence"), st;
      }
      st := SkipLineBreaks(st);
      result := Ok(NewRead(sequence, "", id[1 ..]));
    }

    /** `FastaReadImpl`'s `next()`. */
    method NextSingle(input: IStream) returns (result: Result<Record>, st: IStream)
      modifies this
      ensures var l := ParseFasta(old(Buffers()), input);
              && st == l.stream && Buffers() == l.buffers
              && result == if l.result.Ok? then Ok(SingleRecord(l.result.value)) else Err(l.result.msg)
    {
      var r;
      r, st := LoadRead(input);
      if r.Err? {
        return Err(r.msg), st;
      }
      result := Ok(SingleRecord(r.value));
    }
  }

  /** Lines, each followed by a newline, then `rest`. */
  function LinesThen(lines: seq<string>, rest: string): string {
    if lines == [] then rest else lines[0] + "\n" + LinesThen(lines[1 ..], rest)
  }

  function Concat(lines: seq<string>): string {
    if lines == [] then "" else lines[0] + Concat(lines[1 ..])
  }

  /** Lines without newlines, all but the first of which do not start with '>' (the first one is
      read before any peek). */
  predicate ContinuationLines(lines: seq<string>) {
    && (forall i :: 0 <= i < |lines| ==> OneLine(lines[i]))
    && (forall i :: 1 <= i < |lines| ==> lines[i] == [] || lines[i][0] != '>')
  }

  lemma ContinuationTail(lines: seq<string>)
    requires |lines| >= 1 && ContinuationLines(lines)
    ensures ContinuationLines(lines[1 ..])
  {
    assert forall i :: 0 <= i < |lines[1 ..]| ==> lines[1 ..][i] == lines[i + 1];
  }

  /** One round of the sequence loop over a line and its newline. */
  lemma CollectStep(line: string, after: string, tmp: string, acc: string)
    requires OneLine(line)
    ensures CollectSeq(Open(line + "\n" + after), tmp, acc)
         == if after == [] then Collected(IStream([], true, true), line, acc + line)
            else if after[0] == '>' then Collected(Open(after), line, acc + line)
            else CollectSeq(Open(after), line, acc + line)
  {
    GetlineTakesLine(line, after, tmp);
  }

  lemma CollectOne(line: string, rest: string, tmp: string, acc: string)
    requires OneLine(line) && (rest == [] || rest[0] == '>')
    ensures CollectSeq(Open(LinesThen([line], rest)), tmp, acc)
         == Collected(if rest == [] then IStream([], true, true) else Open(rest), line, acc + line)
  {
    assert LinesThen([line], rest) == line + "\n" + rest;
    CollectStep(line, rest, tmp, acc);
  }

  lemma CollectMore(lines: seq<string>, rest: string, tmp: string, acc: string)
    requires |lines| >= 2 && ContinuationLines(lines)
    ensures CollectSeq(Open(LinesThen(lines, rest)), tmp, acc)
         == CollectSeq(Open(LinesThen(lines[1 ..], rest)), lines[0], acc + lines[0])
    ensures ContinuationLines(lines[1 ..]) && Concat(lines) == lines[0] + Concat(lines[1 ..])
  {
    var after := LinesThen(lines[1 ..], rest);
    assert OneLine(lines[0]);
    CollectStep(lines[0], after, tmp, acc);
    ContinuationTail(lines);
    assert lines[1 ..][0] == lines[1];
    assert after[0] != '>';
  }

  lemma AppendAssoc(a: string, b: string, c: string)
    ensures (a + b) + c == a + (b + c)
  {
  }

  /** The sequence loop concatenates the lines up to the next header, or to the end of the input. */
  lemma {:induction false} CollectLines(tmp: string, acc: string, lines: seq<string>, rest: string)
    requires |lines| >= 1 && ContinuationLines(lines) && (rest == [] || rest[0] == '>')
    ensures CollectSeq(Open(LinesThen(lines, rest)), tmp, acc)
         == Collected(if rest == [] then IStream([], true, true) else Open(rest), lines[|lines| - 1], acc + Concat(lines))
    decreases |lines|
  {
    if |lines| == 1 {
      CollectOne(lines[0], rest, tmp, acc);
      assert Concat(lines) == lines[0];
    } else {
      CollectMore(lines, rest, tmp, acc);
      CollectLines(lines[0], acc + lines[0], lines[1 ..], rest);
      AppendAssoc(acc, lines[0], Concat(lines[1 ..]));
      assert lines[1 ..][|lines[1 ..]| - 1] == lines[|lines| - 1];
      var stream := if rest == [] then IStream([], true, true) else Open(rest);
      assert CollectSeq(Open(LinesThen(lines[1 ..], rest)), lines[0], acc + lines[0])
          == Collected(stream, lines[|lines| - 1], acc + Concat(lines));
    }
  }

  /** A FASTA record's sequence is its lines concatenated; a following header is left unread. */
  lemma FastaParsesRecord(b: FastaBuffers, n: nat, id: string, lines: seq<string>, rest: string)
    requires OneLine(id) && |lines| >= 1 && ContinuationLines(lines) && |Concat(lines)| > 0
    requires rest == [] || rest[0] == '>'
    ensures var l := ParseFasta(b, Open(Newlines(n) + ((">" + id) + "\n" + LinesThen(lines, rest))));
            && l.result == Ok(NewRead(Concat(lines), "", id))
            && (rest != [] ==> l.stream == Open(rest))
  {
    var t := LinesThen(lines, rest);
    var header := ">" + id;
    SkipEmptyFindsLine(n, header, t, b.id);
    CollectLines(b.tmpSeq, "", lines, rest);
    var col := CollectSeq(Open(t), b.tmpSeq, "");
    assert col.sequence == Concat(lines);
    assert header[0] == '>' && header[1 ..] == id;
  }

  lemma {:induction false} BlankLines(n: nat)
    ensures LinesThen(seq(n, _ => ""), "") == Newlines(n)
    ensures ContinuationLines(seq(n, _ => "")) && Concat(seq(n, _ => "")) == ""
    decreases n
  {
    if n > 0 {
      BlankLines(n - 1);
      assert seq(n, _ => "")[1 ..] == seq(n - 1, _ => "");
    }
  }

  /** A header followed only by blank lines (or nothing) has no sequence. */
  lemma FastaRejectsMissingSequence(b: FastaBuffers, m: nat, id: string, n: nat)
    requires OneLine(id)
    ensures ParseFasta(b, Open(Newlines(m) + ((">" + id) + "\n" + Newlines(n)))).result == Err("no sequence")
  {
    SkipEmptyFindsLine(m, ">" + id, Newlines(n), b.id);
    if n > 0 {
      BlankLines(n);
      CollectLines(b.tmpSeq, "", seq(n, _ => ""), "");
    }
  }

  /** The first line after a header is taken without looking at it, so a header with no sequence
      swallows the next header line into its sequence. */
  lemma FastaEmptyRecordAbsorbsNextHeader(b: FastaBuffers, n: nat, id: string, header: string, line: string, rest: string)
    requires OneLine(id) && OneLine(header) && OneLine(line) && (line == [] || line[0] != '>')
    requires rest == [] || rest[0] == '>'
    ensures ParseFasta(b, Open(Newlines(n) + ((">" + id) + "\n" + LinesThen([">" + header, line], rest)))).result
         == Ok(NewRead(">" + header + line, "", id))
  {
    var first := ">" + header;
    var lines := [first, line];
    assert [line][1 ..] == [];
    assert Concat([line]) == line;
    assert lines[1 ..] == [line];
    assert Concat(lines) == first + line;
    assert first[0] == '>' && first[1 ..] == header;
    assert OneLine(first);
    FastaParsesRecord(b, n, id, lines, rest);
  }

  // ---------------------------------------------------------------- tab-delimited

  const TabCountMessage: string :=
    "There are not either 3 (SE, itab3), 4 (SE, itab with tags) 5 (PE, itab5), or 6 (PE, itab6), or 8 (PE, itab6 with tags) elements within a tab delimited file line"

  predicate TabFieldCount(n: nat) { n == 3 || n == 4 || n == 5 || n == 6 || n == 8 }

  /** The reads of one tab line already split into fields. */
  function TabReads(f: seq<string>): Result<seq<Read>>
    requires |f| >= 1
  {
    if !TabFieldCount(|f|) then Err(TabCountMessage)
    else if |f[1]| != |f[2]| then Err("sequence and qualities are not the same length 1")
    else
      var r0 := NewRead(f[1], f[2], f[0]);
      if |f| == 3 then Ok([r0])
      else if |f| == 4 then Ok([JoinComment(r0, Split(f[3], '|'))])
      else if |f| == 5 then
        if |f[3]| != |f[4]| then Err("sequence and qualities are not the same length 2")
        else Ok([r0, NewRead(f[3], f[4], f[0])])
      else if |f[4]| != |f[5]| then Err("sequence and qualities are not the same length 2")
      else if |f| == 6 then Ok([r0, NewRead(f[4], f[5], f[3])])
      else Ok([JoinComment(r0, Split(f[6], '|')), JoinComment(NewRead(f[4], f[5], f[3]), Split(f[7], '|'))])
  }

  /** `TabReadImpl::load_read`. */
  function ParseTab(tabLine: string, st: IStream): Loaded<seq<Read>, string> {
    var g := SkipEmpty(st, tabLine);
    var rs := TabReads(Split(g.line, '\t'));
    if rs.Err? then Loaded(rs, g.stream, g.line)
    else Loaded(rs, SkipBreaks(g.stream), g.line)
  }

  /** `next()` of the tab reader: one read is a single-end record, two a paired one. */
  function WrapTab(rs: seq<Read>): Record
    requires |rs| == 1 || |rs| == 2
  {
    if |rs| == 1 then SingleRecord(rs[0]) else PairedRecord(rs[0], rs[1])
  }

  /** `TabReadImpl` with its line buffer. */
  class TabReader {
    var tabLine: string

    constructor ()
      ensures tabLine == ""
    {
      tabLine := "";
    }

    /** `TabReadImpl::load_read`. */
    method LoadRead(input: IStream) returns (result: Result<seq<Read>>, st: IStream)
      modifies this
      ensures Loaded(result, st, tabLine) == ParseTab(old(tabLine), input)
    {
      st, tabLine := SkipEmptyLines(input, tabLine);
      var parsedRead := Split(tabLine, '\t');
      var n := |parsedRead|;
      if n != 3 && n != 4 && n != 5 && n != 6 && n != 8 {
        return Err(TabCountMessage), st;
      }
      if |parsedRead[1]| != |parsedRead[2]| {
        return Err("sequence and qualities are not the same length 1"), st;
      }
      var loaded := [NewRead(parsedRead[1], parsedRead[2], parsedRead[0])];
      if n == 4 {
        loaded := loaded[0 := JoinComment(loaded[0], Split(parsedRead[3], '|'))];
      }
      if n == 5 {
        if |parsedRead[3]| != |parsedRead[4]| {
          return Err("sequence and qualities are not the same length 2"), st;
        }
        loaded := loaded + [NewRead(parsedRead[3], parsedRead[4], parsedRead[0])];
      }
      if n == 6 {
        if |parsedRead[4]| != |parsedRead[5]| {
          return Err("sequence and qualities are not the same length 2"), st;
        }
        loaded := loaded + [NewRead(parsedRead[4], parsedRead[5], parsedRead[3])];
      }
      if n == 8 {
        if |parsedRead[4]| != |parsedRead[5]| {
          return Err("sequence and qualities are not the same length 2"), st;
        }
        loaded := loaded + [NewRead(parsedRead[4], parsedRead[5], parsedRead[3])];
        loaded := loaded[0 := JoinComment(loaded[0], Split(parsedRead[6], '|'))];
        loaded := loaded[1 := JoinComment(loaded[1], Split(parsedRead[7], '|'))];
      }
      assert TabReads(parsedRead).Ok? && loaded == TabReads(parsedRead).value;
      st := SkipLineBreaks(st);
      result := Ok(loaded);
    }

    /** The tab reader's `next()`. */
    method Next(input: IStream) returns (result: Result<Record>, st: IStream)
      modifies this
      ensures var l := ParseTab(old(tabLine), input);
              && st == l.stream && tabLine == l.buffers
              && (l.result.Ok? ==> |l.result.value| == 1 || |l.result.value| == 2)
              && result == if l.result.Ok? then Ok(WrapTab(l.result.value)) else Err(l.result.msg)
    {
      var rs;
      rs, st := LoadRead(input);
      if rs.Err? {
        return Err(rs.msg), st;
      }
      TabReadsShape(Split(SkipEmpty(input, old(tabLine)).line, '\t'));
      result := Ok(WrapTab(rs.value));
    }
  }

  /** A tab line is accepted exactly when it has 3, 4, 5, 6 or 8 fields and each read's sequence
      and quality have equal length; it then yields one read for 3 or 4 fields and two otherwise,
      laid out as (id f0, sequence f1, qual f2), then (f0, f3, f4) for 5 fields or (f3, f4, f5) for
      6 and 8; field 3 of a 4-field line and fields 6 and 7 of an 8-field line, split on '|',
      become the comments. */
  lemma TabReadsShape(f: seq<string>)
    requires |f| >= 1
    ensures TabReads(f).Ok? <==>
              TabFieldCount(|f|) && |f[1]| == |f[2]|
              && (|f| == 5 ==> |f[3]| == |f[4]|) && (|f| >= 6 ==> |f[4]| == |f[5]|)
    ensures !TabFieldCount(|f|) ==> TabReads(f) == Err(TabCountMessage)
    ensures TabReads(f).Ok? ==>
              var rs := TabReads(f).value;
              && (|rs| == 1 <==> |f| <= 4) && (|rs| == 1 || |rs| == 2)
              && rs[0].bases == f[1] && rs[0].quals == f[2] && rs[0].id == f[0]
              && rs[0].comments == (if |f| == 4 then Split(f[3], '|') else if |f| == 8 then Split(f[6], '|') else [])
              && (|f| == 5 ==> rs[1] == NewRead(f[3], f[4], f[0]))
              && (|f| == 6 ==> rs[1] == NewRead(f[4], f[5], f[3]))
              && (|f| == 8 ==> rs[1] == JoinComment(NewRead(f[4], f[5], f[3]), Split(f[7], '|')))
  {
  }
}
