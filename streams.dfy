/** The input-stream behaviour the record parsers rely on, at character level: `std::getline`
    (which erases its buffer only once the stream's sentry succeeds), `peek`, `get`, the
    line-break skipping loop the parsers share, plus split/join on a delimiter and decimal
    formatting. */
module Streams {
  import opened Wrappers

  /** The unread characters and the eof / fail state bits. */
  datatype IStream = IStream(rest: string, eof: bool, fail: bool)

  /** A stream opened on `s`. */
  function Open(s: string): IStream { IStream(s, false, false) }

  predicate Good(st: IStream) { !st.eof && !st.fail }

  /** The position of the first `d` in `s`, or |s| when there is none. */
  function IndexOf(s: string, d: char): (i: nat)
    ensures i <= |s|
    ensures i < |s| ==> s[i] == d
    ensures forall j :: 0 <= j < i ==> s[j] != d
  {
    if s == [] then 0 else if s[0] == d then 0 else 1 + IndexOf(s[1..], d)
  }

  /** A stream together with a line buffer. */
  datatype Got = Got(stream: IStream, line: string)

  /** `std::getline(is, buf, delim)`. On a stream that is not good the sentry fails: failbit is set
      and `buf` keeps its old contents. Otherwise `buf` receives the characters up to the
      delimiter, which is consumed; running out first sets eofbit, and failbit too when nothing
      at all was extracted. */
  function Getline(st: IStream, buf: string, delim: char): (r: Got)
    ensures !Good(st) ==> r == Got(st.(fail := true), buf)
    ensures |r.stream.rest| <= |st.rest|
    ensures !r.stream.fail ==> |r.stream.rest| < |st.rest|
  {
    if !Good(st) then Got(st.(fail := true), buf)
    else
      var i := IndexOf(st.rest, delim);
      if i < |st.rest| then Got(st.(rest := st.rest[i + 1 ..]), st.rest[.. i])
      else Got(IStream([], true, st.rest == []), st.rest)
  }

  /** What getline extracts from a good stream: the line and the delimiter, or (at the end of the
      input) the whole rest; it fails exactly when the good stream was already empty. */
  lemma GetlineSplitsInput(st: IStream, buf: string, delim: char)
    requires Good(st)
    ensures var r := Getline(st, buf, delim);
            && (r.stream.fail <==> st.rest == [])
            && (forall j :: 0 <= j < |r.line| ==> r.line[j] != delim)
            && (if delim in st.rest then st.rest == r.line + [delim] + r.stream.rest && Good(r.stream)
                else r.line == st.rest && r.stream.rest == [] && r.stream.eof)
  {
    var i := IndexOf(st.rest, delim);
    if i < |st.rest| {
      assert st.rest == st.rest[.. i] + [delim] + st.rest[i + 1 ..];
    } else {
      assert delim !in st.rest;
    }
  }

  /** `peek()`: the next character without consuming it, or None (eof) — setting eofbit at the end
      of the input and failbit on a stream that is not good. */
  function Peek(st: IStream): (IStream, Option<char>) {
    if !Good(st) then (st.(fail := true), None)
    else if st.rest == [] then (st.(eof := true), None)
    else (st, Some(st.rest[0]))
  }

  /** `get()`: consumes one character. */
  function Get(st: IStream): IStream {
    if !Good(st) then st.(fail := true)
    else if st.rest == [] then st.(eof := true, fail := true)
    else st.(rest := st.rest[1 ..])
  }

  predicate IsBreak(c: char) { c == '\n' || c == '\r' }

  /**
   * The result of `while (good() && (peek() == '\n' || peek() == '\r')) get();`.  At the end
   * of a good stream the first `peek` sets eofbit, so the second `peek` of the disjunction
   * meets a stream that is no longer good and sets failbit as well.
   */
  function SkipBreaks(st: IStream): (r: IStream)
    ensures !Good(st) ==> r == st
    ensures Good(st) ==> r.eof == (r.rest == []) && r.fail == (r.rest == [])
    ensures r.rest != [] && Good(r) ==> !IsBreak(r.rest[0])
    decreases |st.rest|
  {
    if !Good(st) then st
    else if st.rest == [] then st.(eof := true, fail := true)
    else if IsBreak(st.rest[0]) then SkipBreaks(st.(rest := st.rest[1 ..]))
    else st
  }

  /** Skipping line breaks drops exactly a run of '\n' / '\r' from the front of a good stream. */
  lemma {:induction false} SkipBreaksDropsBreaks(st: IStream, breaks: string, rest: string)
    requires Good(st) && st.rest == breaks + rest
    requires forall j :: 0 <= j < |breaks| ==> IsBreak(breaks[j])
    requires rest == [] || !IsBreak(rest[0])
    ensures SkipBreaks(st) == IStream(rest, rest == [], rest == [])
    decreases |breaks|
  {
    if breaks != [] {
      assert st.rest[1 ..] == breaks[1 ..] + rest;
      SkipBreaksDropsBreaks(st.(rest := st.rest[1 ..]), breaks[1 ..], rest);
    } else {
      assert st.rest == rest;
    }
  }

  /** The line-break skipping loop that ends each `load_read` (and `skip_lr`). */
  method SkipLineBreaks(input: IStream) returns (st: IStream)
    ensures st == SkipBreaks(input)
  {
    st := input;
    while Good(st)
      invariant SkipBreaks(st) == SkipBreaks(input)
      decreases |st.rest|, Good(st)
    {
      var (st1, c1) := Peek(st);
      st := st1;
      var isBreak := c1 == Some('\n');
      if !isBreak {
        var (st2, c2) := Peek(st);
        st := st2;
        isBreak := c2 == Some('\r');
      }
      if !isBreak {
        break;
      }
      st := Get(st);
    }
  }

  /** The result of `while (std::getline(is, buf) && buf.size() < 1) {}`: the first non-empty
      line, or whatever the buffer holds once getline fails. */
  function SkipEmpty(st: IStream, buf: string): (r: Got)
    decreases |st.rest|
  {
    var g := Getline(st, buf, '\n');
    if !g.stream.fail && |g.line| < 1 then SkipEmpty(g.stream, g.line) else g
  }

  /** `while (std::getline(is, buf) && buf.size() < 1) {}` as a loop. */
  method SkipEmptyLines(input: IStream, buf0: string) returns (st: IStream, buf: string)
    ensures Got(st, buf) == SkipEmpty(input, buf0)
  {
    var g := Getline(input, buf0, '\n');
    st, buf := g.stream, g.line;
    while !st.fail && |buf| < 1
      invariant SkipEmpty(input, buf0) == if !st.fail && |buf| < 1 then SkipEmpty(st, buf) else Got(st, buf)
      decreases |st.rest| + (if st.fail then 0 else 1)
    {
      g := Getline(st, buf, '\n');
      st, buf := g.stream, g.line;
    }
  }

  /** Leading empty lines are passed over: after n line breaks, the first non-empty line (up to its
      newline) is the result and the stream stays good. */
  lemma {:induction false} SkipEmptyFindsLine(n: nat, line: string, rest: string, buf: string)
    requires |line| > 0 && '\n' !in line
    ensures SkipEmpty(Open(Newlines(n) + (line + "\n" + rest)), buf) == Got(Open(rest), line)
    decreases n
  {
    var st := Open(Newlines(n) + (line + "\n" + rest));
    if n == 0 {
      assert st.rest == line + "\n" + rest;
      IndexOfPrefix(line, rest, '\n');
      assert st.rest[.. |line|] == line && st.rest[|line| + 1 ..] == rest;
    } else {
      assert st.rest == "\n" + (Newlines(n - 1) + (line + "\n" + rest));
      assert IndexOf(st.rest, '\n') == 0;
      SkipEmptyFindsLine(n - 1, line, rest, "");
    }
  }

  /** n line breaks. */
  function Newlines(n: nat): (s: string)
    ensures |s| == n && forall j :: 0 <= j < n ==> s[j] == '\n'
  {
    if n == 0 then "" else "\n" + Newlines(n - 1)
  }

  lemma NoBlankLines(s: string)
    ensures Newlines(0) + s == s
  {
  }

  /** `boost::split(parts, s, is_any_of(d))` (no token compression): the pieces between
      delimiters, one more than there are delimiters. */
  function Split(s: string, d: char): (parts: seq<string>)
    ensures |parts| >= 1
    decreases |s|
  {
    var i := IndexOf(s, d);
    if i == |s| then [s] else [s[.. i]] + Split(s[i + 1 ..], d)
  }

  /** `strjoin(parts, d)`: the parts with `d` between neighbours. */
  function Join(parts: seq<string>, d: string): string {
    if parts == [] then ""
    else if |parts| == 1 then parts[0]
    else parts[0] + d + Join(parts[1 ..], d)
  }

  predicate NoDelim(parts: seq<string>, d: char) {
    forall i :: 0 <= i < |parts| ==> d !in parts[i]
  }

  /** Joining the pieces of a split gives back the string. */
  lemma {:induction false} JoinSplit(s: string, d: char)
    ensures Join(Split(s, d), [d]) == s
    ensures NoDelim(Split(s, d), d)
    decreases |s|
  {
    var i := IndexOf(s, d);
    if i < |s| {
      JoinSplit(s[i + 1 ..], d);
      assert s == s[.. i] + [d] + s[i + 1 ..];
      var parts := Split(s, d);
      assert parts[1 ..] == Split(s[i + 1 ..], d);
      assert d !in s[.. i];
      forall k | 0 <= k < |parts|
        ensures d !in parts[k]
      {
        if k > 0 {
          assert parts[k] == Split(s[i + 1 ..], d)[k - 1];
        }
      }
    } else {
      assert d !in s;
    }
  }

  /** Splitting a join of delimiter-free pieces gives back the pieces. */
  lemma {:induction false} SplitJoin(parts: seq<string>, d: char)
    requires |parts| >= 1 && NoDelim(parts, d)
    ensures Split(Join(parts, [d]), d) == parts
    decreases |parts|
  {
    var s := Join(parts, [d]);
    assert d !in parts[0];
    if |parts| == 1 {
      assert IndexOf(s, d) == |s|;
    } else {
      assert NoDelim(parts[1 ..], d) by {
        forall k | 0 <= k < |parts[1 ..]|
          ensures d !in parts[1 ..][k]
        {
          assert parts[1 ..][k] == parts[k + 1];
        }
      }
      SplitJoin(parts[1 ..], d);
      assert s == parts[0] + [d] + Join(parts[1 ..], [d]);
      IndexOfPrefix(parts[0], Join(parts[1 ..], [d]), d);
      assert s[|parts[0]| + 1 ..] == Join(parts[1 ..], [d]);
      assert s[.. |parts[0]|] == parts[0];
    }
  }

  /** A delimiter-free string is one piece. */
  lemma SplitNoDelim(s: string, d: char)
    requires d !in s
    ensures Split(s, d) == [s]
  {
    assert IndexOf(s, d) == |s|;
  }

  /** A delimiter-free head followed by the delimiter is the first piece. */
  lemma SplitCons(a: string, rest: string, d: char)
    requires d !in a
    ensures Split(a + [d] + rest, d) == [a] + Split(rest, d)
  {
    var s := a + [d] + rest;
    IndexOfPrefix(a, rest, d);
    assert s[.. |a|] == a && s[|a| + 1 ..] == rest;
  }

  /** Joining one more part appends the delimiter and the part. */
  lemma {:induction false} JoinSnoc(parts: seq<string>, x: string, d: string)
    requires parts != []
    ensures Join(parts + [x], d) == Join(parts, d) + d + x
    decreases |parts|
  {
    var ps := parts + [x];
    assert ps[0] == parts[0];
    if |parts| == 1 {
      assert ps[1 ..] == [x];
    } else {
      assert ps[1 ..] == parts[1 ..] + [x];
      JoinSnoc(parts[1 ..], x, d);
      assert Join(ps, d) == parts[0] + d + (Join(parts[1 ..], d) + d + x);
    }
  }

  lemma IndexOfPrefix(a: string, b: string, d: char)
    requires d !in a
    ensures IndexOf(a + [d] + b, d) == |a|
  {
    var s := a + [d] + b;
    assert s[|a|] == d;
    assert forall j :: 0 <= j < |a| ==> s[j] == a[j];
  }

  /** A trailing delimiter contributes one empty last piece. */
  lemma {:induction false} SplitTrailingDelimiter(s: string, d: char)
    ensures Split(s + [d], d) == Split(s, d) + [""]
    decreases |s|
  {
    var i := IndexOf(s, d);
    if i < |s| {
      assert (s + [d])[.. i] == s[.. i];
      assert (s + [d])[i] == d;
      assert IndexOf(s + [d], d) == i;
      assert (s + [d])[i + 1 ..] == s[i + 1 ..] + [d];
      SplitTrailingDelimiter(s[i + 1 ..], d);
    } else {
      assert d !in s;
      IndexOfPrefix(s, [], d);
      assert s + [d] == s + [d] + [];
      assert (s + [d])[|s| + 1 ..] == [];
      assert (s + [d])[.. |s|] == s;
    }
  }

  function DigitChar(n: nat): (c: char)
    requires n < 10
    ensures '0' <= c <= '9' && (c - '0') as nat == n
  {
    ('0' as int + n) as char
  }

  /** `std::to_string` of a non-negative number: its decimal digits, most significant first. */
  function NatToString(n: nat): (s: string)
    ensures |s| >= 1
    ensures forall j :: 0 <= j < |s| ==> '0' <= s[j] <= '9'
  {
    if n < 10 then [DigitChar(n)] else NatToString(n / 10) + [DigitChar(n % 10)]
  }

  /** The value of a string of decimal digits. */
  function DecimalValue(s: string): nat
    requires forall j :: 0 <= j < |s| ==> '0' <= s[j] <= '9'
  {
    if s == [] then 0 else 10 * DecimalValue(s[.. |s| - 1]) + (s[|s| - 1] - '0') as nat
  }

  /** The decimal rendering reads back as the number. */
  lemma {:induction false} NatToStringValue(n: nat)
    ensures DecimalValue(NatToString(n)) == n
  {
    if n >= 10 {
      NatToStringValue(n / 10);
      var s := NatToString(n);
      assert s[.. |s| - 1] == NatToString(n / 10);
      assert s[|s| - 1] == DigitChar(n % 10);
      assert DecimalValue(s) == 10 * (n / 10) + n % 10;
    }
  }
}
