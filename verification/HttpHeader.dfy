/** Reading and writing of header blocks (splitHTTPHeader and writeHTTPHeader, pkg/lb/httpcommon.go).  A string is a
    sequence of bytes here. */
module HttpHeader {
  import opened Options
  import opened Text

  const MAX_LINE_LEN: nat := 1 * 1024 * 1024
  const MAX_HEADERS_LEN: nat := 10 * 1024 * 1024

  /** http.Header: the values of each canonical name, in the order they were added. */
  type Header = map<string, seq<string>>

  function Values(hdr: Header, name: string): seq<string> {
    if name in hdr then hdr[name] else []
  }

  /** http.Header.Add, with textproto's canonical form of names as a parameter. */
  function Add(hdr: Header, canon: string -> string, name: string, value: string): Header {
    hdr[canon(name) := Values(hdr, canon(name)) + [value]]
  }

  // ---- what a header block means: a plain split at line feeds ------------------------------------------------------

  function TrimSpaces(s: string): string {
    if s != "" && s[0] == ' ' then TrimSpaces(s[1..]) else s
  }

  /** A line without its terminator, a line feed with or without a carriage return before it. */
  function Strip(raw: string): string {
    var m := |raw|;
    if m >= 2 && raw[m - 2] == '\r' then raw[..m - 2] else if m >= 1 then raw[..m - 1] else ""
  }

  /** The lines of the stream with their terminators, up to and including the first blank one. */
  function Head(s: string): Option<seq<string>>
    decreases |s|
  {
    var p := IndexOf(s, '\n');
    if p == |s| then None
    else if Strip(s[..p + 1]) == "" then Some([s[..p + 1]])
    else
      var rest := Head(s[p + 1..]);
      if rest.None? then None else Some([s[..p + 1]] + rest.value)
  }

  function Flatten(lines: seq<string>): string {
    if lines == [] then "" else lines[0] + Flatten(lines[1..])
  }

  /** One stripped line: the first becomes the status line, any other a header field. */
  function TakeLine(status: string, hdr: Header, canon: string -> string, line: string): (string, Header) {
    if status == "" then (line, hdr)
    else
      var idx := IndexOf(line, ':');
      if idx == |line| then (status, Add(hdr, canon, line, ""))
      else (status, Add(hdr, canon, line[..idx], TrimSpaces(line[idx + 1..])))
  }

  /** What the lines before the blank one amount to. */
  function Meaning(lines: seq<string>, canon: string -> string): (string, Header) {
    if lines == [] then ("", map[])
    else
      var (status, hdr) := Meaning(lines[..|lines| - 1], canon);
      TakeLine(status, hdr, canon, Strip(lines[|lines| - 1]))
  }

  /** The stream has a complete header block and every line and the whole keep within the limits. */
  predicate Acceptable(s: string) {
    var head := Head(s);
    && head.Some?
    && |Flatten(head.value)| <= MAX_HEADERS_LEN
    && forall i :: 0 <= i < |head.value| ==> |head.value[i]| <= MAX_LINE_LEN
  }

  // ---- the reader --------------------------------------------------------------------------------------------------

  /** How bufio's ReadSlice('\n') returned. */
  datatype ReadResult = Delimiter | BufferFull | ReadError

  datatype Fragment = Fragment(data: string, result: ReadResult)

  /** A fragment ends with its only line feed, or has none. */
  predicate FragmentOk(f: Fragment) {
    if f.result.Delimiter? then IsLine(f.data) else '\n' !in f.data
  }

  /** A way of reading a stream: any cuts, and an error (such as end of file) at the end. */
  predicate Reading(fs: seq<Fragment>) {
    && fs != []
    && (forall i :: 0 <= i < |fs| ==> FragmentOk(fs[i]))
    && (forall i :: 0 <= i < |fs| ==> (fs[i].result.ReadError? <==> i == |fs| - 1))
  }

  function Stream(fs: seq<Fragment>): string {
    if fs == [] then "" else fs[0].data + Stream(fs[1..])
  }

  datatype SplitError = NoError | LineTooLong | HeadersTooLong | Communication

  // ---- lines that have been read -------------------------------------------------------------------------------

  /** One line feed, at the end. */
  predicate IsLine(raw: string) {
    raw != "" && '\n' !in raw[..|raw| - 1] && raw[|raw| - 1] == '\n'
  }

  /** Complete lines, none of them blank. */
  predicate Complete(lines: seq<string>) {
    forall i :: 0 <= i < |lines| ==> IsLine(lines[i]) && Strip(lines[i]) != ""
  }

  /** A line feed is not found before the place where the first one can be. */
  lemma FirstFeed(cur: string, rest: string)
    requires cur != "" && '\n' !in cur[..|cur| - 1]
    ensures IndexOf(cur + rest, '\n') >= |cur| - 1
    ensures cur[|cur| - 1] == '\n' ==> IndexOf(cur + rest, '\n') == |cur| - 1
  {
    var s, p := cur + rest, IndexOf(cur + rest, '\n');
    assert s[|cur| - 1] == cur[|cur| - 1];
    if p > |cur| - 1 {
      assert s[|cur| - 1] == s[..p][|cur| - 1];
    }
  }

  lemma HeadStep(raw: string, rest: string)
    requires IsLine(raw)
    ensures Head(raw + rest) ==
              if Strip(raw) == "" then Some([raw])
              else if Head(rest).None? then None
              else Some([raw] + Head(rest).value)
  {
    FirstFeed(raw, rest);
    var s := raw + rest;
    assert s[..|raw|] == raw && s[|raw|..] == rest;
  }

  lemma FlattenFirst(line: string, lines: seq<string>)
    ensures Flatten([line] + lines) == line + Flatten(lines)
  {
    assert ([line] + lines)[1..] == lines;
  }

  /** The header block of complete lines followed by something is the lines followed by that something's block. */
  lemma {:induction false} HeadSkips(lines: seq<string>, rest: string)
    requires Complete(lines)
    ensures Head(Flatten(lines) + rest).Some? <==> Head(rest).Some?
    ensures Head(rest).Some? ==> Head(Flatten(lines) + rest).value == lines + Head(rest).value
  {
    hide Head, Strip, IsLine, IndexOf;
    if lines == [] {
      assert Flatten(lines) + rest == rest;
    } else {
      var tail := Flatten(lines[1..]) + rest;
      assert Flatten(lines) + rest == lines[0] + tail by { Assoc(lines[0], Flatten(lines[1..]), rest); }
      HeadStep(lines[0], tail);
      HeadSkips(lines[1..], rest);
      if Head(rest).Some? {
        Assoc([lines[0]], lines[1..], Head(rest).value);
        assert [lines[0]] + lines[1..] == lines;
      }
    }
  }

  lemma {:induction false} FlattenConcat(a: seq<string>, b: seq<string>)
    ensures Flatten(a + b) == Flatten(a) + Flatten(b)
  {
    hide Flatten;
    if a == [] {
      assert a + b == b;
      FlattenNone();
      assert "" + Flatten(b) == Flatten(b);
    } else {
      assert a == [a[0]] + a[1..];
      Assoc([a[0]], a[1..], b);
      FlattenFirst(a[0], a[1..] + b);
      FlattenFirst(a[0], a[1..]);
      FlattenConcat(a[1..], b);
      Assoc(a[0], Flatten(a[1..]), Flatten(b));
    }
  }

  lemma FlattenNone()
    ensures Flatten([]) == ""
  {
  }

  lemma FlattenAppend(lines: seq<string>, line: string)
    ensures Flatten(lines + [line]) == Flatten(lines) + line
  {
    FlattenConcat(lines, [line]);
    assert [line][1..] == [];
  }

  /** The stream cut at the point reached: complete lines, the line under way, and what has not been read. */
  predicate Midway(s: string, lines: seq<string>, line: string, rest: string, nr: nat) {
    && s == Flatten(lines) + (line + rest)
    && Complete(lines) && (forall i :: 0 <= i < |lines| ==> |lines[i]| <= MAX_LINE_LEN)
    && '\n' !in line && |line| <= MAX_LINE_LEN
    && nr == |Flatten(lines)| + |line| <= MAX_HEADERS_LEN
  }

  lemma Begin(s: string)
    ensures Midway(s, [], "", s, 0)
  {
    assert "" + ("" + s) == s;
  }

  /** A fragment that ends no line. */
  lemma GoesOn(s: string, lines: seq<string>, line: string, data: string, rest: string, nr: nat)
    requires Midway(s, lines, line, data + rest, nr)
    requires '\n' !in data && |line + data| <= MAX_LINE_LEN && nr + |data| <= MAX_HEADERS_LEN
    ensures Midway(s, lines, line + data, rest, nr + |data|)
  {
    Assoc(line, data, rest);
  }

  /** Once the bytes of the line under way are too many, alone or with the lines before, nothing later can help. */
  lemma NoWayBack(s: string, lines: seq<string>, line: string, data: string, rest: string, nr: nat)
    requires Midway(s, lines, line, data + rest, nr)
    requires data != "" ==> '\n' !in data[..|data| - 1]
    requires |line + data| > MAX_LINE_LEN || nr + |data| > MAX_HEADERS_LEN
    ensures !Acceptable(s)
  {
    var cur := line + data;
    Assoc(line, data, rest);
    HeadSkips(lines, cur + rest);
    if Head(cur + rest).Some? {
      assert cur[..|cur| - 1] == line + data[..|data| - 1];
      FirstFeed(cur, rest);
      var head := Head(cur + rest).value;
      assert |head[0]| >= |cur|;
      FlattenConcat(lines, head);
      assert (lines + head)[|lines|] == head[0];
    }
  }

  /** A stream that ends within a line has no header block there. */
  lemma CutOff(s: string, lines: seq<string>, line: string, data: string, nr: nat)
    requires Midway(s, lines, line, data, nr) && '\n' !in data
    ensures Head(s) == None && !Acceptable(s) && nr + |data| == |s|
  {
    HeadSkips(lines, line + data);
  }

  /** A line under way that is too long, as seen in the stream. */
  lemma TooLong(s: string, lines: seq<string>, line: string, data: string, rest: string, nr: nat)
    requires Midway(s, lines, line, data + rest, nr) && |line + data| > MAX_LINE_LEN
    requires data != "" ==> '\n' !in data[..|data| - 1]
    ensures LongLine(s, nr + |data|)
  {
    var i, cur := |Flatten(lines)|, line + data;
    Assoc(line, data, rest);
    assert s == Flatten(lines) + (cur + rest);
    assert s[i..nr + |data|] == cur && cur[..|cur| - 1] == line + data[..|data| - 1];
    assert s[i..nr + |data| - 1] == cur[..|cur| - 1];
    assert OneLineAtMost(s, i, nr + |data|);
  }

  /** Before position n there are more than a mebibyte of the stream without a line feed but at the end. */
  ghost predicate LongLine(s: string, n: nat) {
    n <= |s| && exists i: nat :: i + 1048576 < n && OneLineAtMost(s, i, n)
  }

  ghost predicate OneLineAtMost(s: string, i: nat, n: nat)
    requires i < n <= |s|
  {
    '\n' !in s[i..n - 1]
  }

  lemma LineGrows(line: string, data: string)
    requires '\n' !in line && IsLine(data)
    ensures IsLine(line + data)
  {
    var raw := line + data;
    assert raw[..|raw| - 1] == line + data[..|data| - 1];
  }

  lemma OneMore(lines: seq<string>, raw: string)
    requires Complete(lines) && IsLine(raw) && Strip(raw) != "" && |raw| <= MAX_LINE_LEN
    requires forall i :: 0 <= i < |lines| ==> |lines[i]| <= MAX_LINE_LEN
    ensures Complete(lines + [raw])
    ensures forall i :: 0 <= i <= |lines| ==> |(lines + [raw])[i]| <= MAX_LINE_LEN
  {
    hide IsLine, Strip;
  }

  /** A fragment that ends the line under way: it was the blank line, or one more line is complete. */
  lemma LineEnds(s: string, lines: seq<string>, line: string, data: string, rest: string, nr: nat)
    requires Midway(s, lines, line, data + rest, nr) && IsLine(data)
    requires |line + data| <= MAX_LINE_LEN && nr + |data| <= MAX_HEADERS_LEN
    ensures Strip(line + data) == "" ==> Acceptable(s) && Head(s).value == lines + [line + data]
    ensures |Flatten(lines + [line + data])| == nr + |data|
    ensures Strip(line + data) != "" ==> Midway(s, lines + [line + data], "", rest, nr + |data|)
  {
    hide IsLine, Strip, Head, Flatten, IndexOf, Complete;
    var raw := line + data;
    LineGrows(line, data);
    assert s == Flatten(lines) + (raw + rest) by { Assoc(line, data, rest); }
    FlattenAppend(lines, raw);
    HeadStep(raw, rest);
    if Strip(raw) == "" {
      HeadSkips(lines, raw + rest);
    } else {
      OneMore(lines, raw);
      Assoc(Flatten(lines), raw, rest);
      assert "" + rest == rest;
    }
  }

  /** What a successful parse of a stream yields: the fields before the blank line, and the bytes taken. */
  function Parsed(s: string, canon: string -> string): (string, Header, nat)
    requires Acceptable(s)
  {
    var head := Head(s).value;
    var (status, hdr) := Meaning(if head == [] then [] else head[..|head| - 1], canon);
    (status, hdr, |Flatten(head)|)
  }

  /** splitHTTPHeader over a reading.  Success and what it yields depend on the stream alone, not on its cuts.  Of the errors
      one says that the stream ended too early, one that a line and one that the block is too long. */
  method SplitHTTPHeader(fs: seq<Fragment>, canon: string -> string)
    returns (status: string, hdr: Header, nr: nat, err: SplitError)
    requires Reading(fs)
    ensures err == NoError <==> Acceptable(Stream(fs))
    ensures err == NoError ==> (status, hdr, nr) == Parsed(Stream(fs), canon)
    ensures err == Communication ==> nr == |Stream(fs)| <= 10485760 && Head(Stream(fs)) == None
    ensures err == LineTooLong ==> nr <= 10485760 && LongLine(Stream(fs), nr)
    ensures err == HeadersTooLong ==> nr > 10485760
  {
    hide LongLine, Acceptable, Head, Meaning, Flatten, IndexOf, TrimSpaces, Midway, Strip, Add, Parsed, IsLine, FragmentOk;
    status, hdr, nr, err := "", map[], 0, NoError;
    var line := "";
    var i := 0;
    ghost var lines: seq<string> := [];
    ghost var s := Stream(fs);
    Begin(s);
    assert fs[i..] == fs;
    MeaningOfNone(canon);
    while true
      invariant 0 <= i < |fs|
      invariant Midway(s, lines, line, Stream(fs[i..]), nr)
      invariant (status, hdr) == Meaning(lines, canon)
      decreases |fs| - i
    {
      var f := fs[i];
      ghost var was, rest := line, Stream(fs[i + 1..]);
      FragmentSays(f, line);
      assert Stream(fs[i..]) == f.data + rest by { assert fs[i..][1..] == fs[i + 1..]; }
      nr, err := CheckFragment(f, line, nr, s, lines, rest);
      if err != NoError {
        break;
      }
      var m := |line| + |f.data|;
      line := line + f.data;
      i := i + 1;
      if f.result.BufferFull? || m < 1 || line[m - 1] != '\n' {
        GoesOn(s, lines, was, f.data, rest, nr - |f.data|);
        continue;
      }
      LineEnds(s, lines, was, f.data, rest, nr - |f.data|);
      ghost var raw := line;
      line := CutEnd(line);
      if line == "" {
        ParsedIs(s, lines, raw, canon);
        break;
      }
      status, hdr := AddLine(status, hdr, canon, line, lines, raw);
      lines := lines + [raw];
      line := "";
    }
  }

  /** The line without its terminator. */
  method CutEnd(raw: string) returns (line: string)
    requires raw != ""
    ensures line == Strip(raw)
    ensures line == raw[..|raw| - if |raw| >= 2 && raw[|raw| - 2] == '\r' then 2 else 1]
  {
    var m := |raw|;
    var n := if m >= 2 && raw[m - 2] == '\r' then 2 else 1;
    line := raw[..m - n];
  }

  /** The start of the loop body: the fragment is counted, and the limits are looked at. */
  method CheckFragment(f: Fragment, line: string, nr: nat, ghost s: string, ghost lines: seq<string>, ghost rest: string)
    returns (n: nat, err: SplitError)
    requires Midway(s, lines, line, f.data + rest, nr) && FragmentOk(f) && (f.result.ReadError? ==> rest == "")
    ensures n == nr + |f.data|
    ensures err == NoError ==> !f.result.ReadError? && |line + f.data| <= MAX_LINE_LEN && n <= MAX_HEADERS_LEN
    ensures err != NoError ==> !Acceptable(s)
    ensures err == Communication ==> n == |s| <= 10485760 && Head(s) == None
    ensures err == LineTooLong ==> n <= 10485760 && LongLine(s, n)
    ensures err == HeadersTooLong ==> n > 10485760
  {
    hide LongLine, Acceptable, Head, Midway, IsLine;
    FragmentSays(f, line);
    n, err := nr + |f.data|, NoError;
    if n > MAX_HEADERS_LEN {
      NoWayBack(s, lines, line, f.data, rest, nr);
      return n, HeadersTooLong;
    }
    if f.result.ReadError? {
      assert f.data + rest == f.data;
      CutOff(s, lines, line, f.data, nr);
      return n, Communication;
    }
    if |line| + |f.data| > MAX_LINE_LEN {
      NoWayBack(s, lines, line, f.data, rest, nr);
      TooLong(s, lines, line, f.data, rest, nr);
      return n, LineTooLong;
    }
  }

  /** The end of the loop body: the first line is the status line, any other a field. */
  method AddLine(status: string, hdr: Header, canon: string -> string, line: string, ghost lines: seq<string>, ghost raw: string)
    returns (st: string, h: Header)
    requires (status, hdr) == Meaning(lines, canon) && line == Strip(raw)
    ensures (st, h) == Meaning(lines + [raw], canon)
  {
    MeaningOfMore(lines, raw, canon);
    hide Meaning, Strip, IndexOf, TrimSpaces, Add;
    st, h := status, hdr;
    if status != "" {
      var idx := IndexOf(line, ':');
      var name, value := "", "";
      if idx == |line| {
        name := line;
      } else {
        name := line[..idx];
        value := TrimSpaces(line[idx + 1..]);
      }
      h := Add(hdr, canon, name, value);
    } else {
      st := line;
    }
  }

  /** Two readings of one stream, however they are cut, succeed alike and give the same result. */
  method ReadTwoWays(fs: seq<Fragment>, gs: seq<Fragment>, canon: string -> string)
    returns (a: (string, Header, nat), b: (string, Header, nat), errA: SplitError, errB: SplitError)
    requires Reading(fs) && Reading(gs) && Stream(fs) == Stream(gs)
    ensures errA == NoError <==> errB == NoError
    ensures errA == NoError ==> a == b
  {
    var s, h, n, e := SplitHTTPHeader(fs, canon);
    a, errA := (s, h, n), e;
    s, h, n, e := SplitHTTPHeader(gs, canon);
    b, errB := (s, h, n), e;
  }

  lemma MeaningOfNone(canon: string -> string)
    ensures Meaning([], canon) == ("", map[])
  {
  }

  lemma MeaningOfMore(lines: seq<string>, raw: string, canon: string -> string)
    ensures var (status, hdr) := Meaning(lines, canon);
            var line := Strip(raw);
            var idx := IndexOf(line, ':');
            Meaning(lines + [raw], canon) ==
              if status == "" then (line, hdr)
              else if idx == |line| then (status, Add(hdr, canon, line, ""))
              else (status, Add(hdr, canon, line[..idx], TrimSpaces(line[idx + 1..])))
  {
    assert (lines + [raw])[..|lines|] == lines;
  }

  lemma ParsedIs(s: string, lines: seq<string>, raw: string, canon: string -> string)
    requires Acceptable(s) && Head(s).value == lines + [raw]
    ensures var (status, hdr) := Meaning(lines, canon); Parsed(s, canon) == (status, hdr, |Flatten(lines + [raw])|)
  {
    assert (lines + [raw])[..|lines|] == lines;
  }

  lemma FragmentSays(f: Fragment, line: string)
    requires FragmentOk(f)
    ensures f.data != "" ==> '\n' !in f.data[..|f.data| - 1]
    ensures f.result.Delimiter? ==> |line + f.data| > 0 && (line + f.data)[|line| + |f.data| - 1] == '\n' && IsLine(f.data)
    ensures !f.result.Delimiter? ==> '\n' !in f.data
  {
  }
}
