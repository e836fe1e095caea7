/** What splitHTTPHeader makes of a header block, in terms of its lines as their sender spelled them
    (pkg/lb/httpcommon.go). */
module HeaderLines {
  import opened Options
  import opened Text
  import opened HttpHeader

  /** A header line: a name and, after a colon and spaces, a value; or a name alone. */
  datatype Line = Line(name: string, colon: bool, spaces: nat, value: string, crlf: bool)

  /** A header block: the status line, the header lines and a blank line; or a blank line only. */
  datatype Block = Blank(crlf: bool) | Block(status: string, statusCrlf: bool, lines: seq<Line>, crlf: bool)

  function End(crlf: bool): string {
    if crlf then "\r\n" else "\n"
  }

  function Spaces(n: nat): string {
    seq(n, _ => ' ')
  }

  function Content(l: Line): string {
    if l.colon then l.name + (":" + (Spaces(l.spaces) + l.value)) else l.name
  }

  function Spell(l: Line): string {
    Content(l) + End(l.crlf)
  }

  function Spelled(lines: seq<Line>): seq<string> {
    seq(|lines|, i requires 0 <= i < |lines| => Spell(lines[i]))
  }

  /** The lines before the blank one. */
  function BlockLines(status: string, crlf: bool, lines: seq<Line>): seq<string> {
    [status + End(crlf)] + Spelled(lines)
  }

  function Written(b: Block): string {
    match b
    case Blank(crlf) => End(crlf)
    case Block(status, statusCrlf, lines, crlf) => Flatten(BlockLines(status, statusCrlf, lines) + [End(crlf)])
  }

  // ---- each text is spelled in one way only ------------------------------------------------------------------------

  /** A text that a line end of this kind can end: it is of one line, not empty, and a carriage return at its end belongs to
      the line end. */
  predicate Ends(text: string, crlf: bool) {
    text != "" && '\n' !in text && (!crlf ==> text[|text| - 1] != '\r')
  }

  /** The first colon ends the name, and the spaces after it are not part of the value. */
  predicate Proper(l: Line) {
    && Ends(Content(l), l.crlf) && ':' !in l.name && (l.value != "" ==> l.value[0] != ' ')
    && (!l.colon ==> l.spaces == 0 && l.value == "")
  }

  predicate ProperBlock(b: Block) {
    b.Block? ==> Ends(b.status, b.statusCrlf) && forall i :: 0 <= i < |b.lines| ==> Proper(b.lines[i])
  }

  // ---- one line ----------------------------------------------------------------------------------------------------

  lemma StripEnd(text: string, crlf: bool)
    requires text == "" || Ends(text, crlf)
    ensures IsLine(text + End(crlf)) && Strip(text + End(crlf)) == text
  {
    var raw := text + End(crlf);
    if crlf {
      assert raw[..|raw| - 1] == text + "\r";
      assert raw[|raw| - 2] == '\r' && raw[..|raw| - 2] == text;
    } else {
      assert raw[..|raw| - 1] == text;
    }
  }

  lemma {:induction false} TrimmedSpaces(n: nat, value: string)
    requires value != "" ==> value[0] != ' '
    ensures TrimSpaces(Spaces(n) + value) == value
  {
    var s := Spaces(n) + value;
    if n == 0 {
      assert s == value;
    } else {
      assert s[1..] == Spaces(n - 1) + value;
      TrimmedSpaces(n - 1, value);
    }
  }

  /** How the reader cuts a line. */
  lemma LineIsCut(l: Line)
    requires Proper(l)
    ensures var line, idx := Content(l), IndexOf(Content(l), ':');
            if l.colon then idx == |l.name| < |line| && line[..idx] == l.name && TrimSpaces(line[idx + 1..]) == l.value
            else idx == |line| && line == l.name && l.value == ""
  {
    hide IndexOf;
    var line := Content(l);
    if l.colon {
      assert line[..|l.name|] == l.name && line[|l.name| + 1..] == Spaces(l.spaces) + l.value;
      FoundAt(line, ':', |l.name|);
      TrimmedSpaces(l.spaces, l.value);
    } else {
      FoundAt(line, ':', |line|);
    }
  }

  // ---- the lines together ------------------------------------------------------------------------------------------

  /** The values of the lines whose name has the canonical form `key`, in their order. */
  function Collect(lines: seq<Line>, key: string, canon: string -> string): seq<string> {
    if lines == [] then []
    else
      var l := lines[|lines| - 1];
      Collect(lines[..|lines| - 1], key, canon) + if canon(l.name) == key then [l.value] else []
  }

  lemma CollectLast(lines: seq<Line>, l: Line, key: string, canon: string -> string)
    ensures Collect(lines + [l], key, canon) == Collect(lines, key, canon) + if canon(l.name) == key then [l.value] else []
  {
    assert (lines + [l])[..|lines|] == lines;
  }

  /** Collecting from two lists in a row, from one line, and from none. */
  lemma {:induction false} CollectLaws(a: seq<Line>, b: seq<Line>, l: Line, key: string, canon: string -> string)
    ensures Collect(a + b, key, canon) == Collect(a, key, canon) + Collect(b, key, canon)
    ensures Collect([l], key, canon) == if canon(l.name) == key then [l.value] else []
    ensures Collect([], key, canon) == []
  {
    CollectLast([], l, key, canon);
    assert [] + [l] == [l];
    if b == [] {
      assert a + b == a;
    } else {
      var c, f := b[..|b| - 1], b[|b| - 1];
      assert b == c + [f];
      CollectLaws(a, c, l, key, canon);
      hide Collect;
      CollectLast(c, f, key, canon);
      CollectLast(a + c, f, key, canon);
      Assoc(a, c, [f]);
    }
  }

  lemma BlockLast(status: string, crlf: bool, lines: seq<Line>, l: Line)
    ensures BlockLines(status, crlf, lines + [l]) == BlockLines(status, crlf, lines) + [Spell(l)]
  {
    assert Spelled(lines + [l]) == Spelled(lines) + [Spell(l)];
    Assoc([status + End(crlf)], Spelled(lines), [Spell(l)]);
  }

  lemma BlockOfNone(status: string, crlf: bool)
    ensures BlockLines(status, crlf, []) == [] + [status + End(crlf)]
  {
  }

  /** What the lines of a block mean, whatever the case of their names: the status line, and for every key the values of
      exactly the lines whose name has that canonical form, in order. */
  lemma {:induction false} MeaningOfLines(status: string, crlf: bool, lines: seq<Line>, canon: string -> string)
    requires Ends(status, crlf) && forall i :: 0 <= i < |lines| ==> Proper(lines[i])
    ensures var (st, hdr) := Meaning(BlockLines(status, crlf, lines), canon);
            && st == status
            && forall key :: Values(hdr, key) == Collect(lines, key, canon)
  {
    hide IndexOf, Strip, IsLine, Meaning, BlockLines, TrimSpaces, Content, Proper, Ends;
    if lines == [] {
      BlockOfNone(status, crlf);
      MeaningOfNone(canon);
      MeaningOfMore([], status + End(crlf), canon);
      StripEnd(status, crlf);
      NotEmpty(status, crlf);
    } else {
      hide Collect;
      var before, l := lines[..|lines| - 1], lines[|lines| - 1];
      assert lines == before + [l];
      MeaningOfLines(status, crlf, before, canon);
      NotEmpty(status, crlf);
      BlockLast(status, crlf, before, l);
      MeaningOfMore(BlockLines(status, crlf, before), Spell(l), canon);
      LineIsCut(l);
      ProperEnds(l);
      StripEnd(Content(l), l.crlf);
      forall key
        ensures Collect(lines, key, canon) == Collect(before, key, canon) + if canon(l.name) == key then [l.value] else []
      {
        CollectLast(before, l, key, canon);
      }
    }
  }

  lemma NotEmpty(text: string, crlf: bool)
    requires Ends(text, crlf)
    ensures text != ""
  {
  }

  lemma ProperEnds(l: Line)
    requires Proper(l)
    ensures Ends(Content(l), l.crlf)
  {
  }

  lemma BlockIsComplete(status: string, crlf: bool, lines: seq<Line>)
    requires Ends(status, crlf) && forall i :: 0 <= i < |lines| ==> Proper(lines[i])
    ensures Complete(BlockLines(status, crlf, lines))
  {
    hide Strip, IsLine, Content, Proper, Ends;
    var block := BlockLines(status, crlf, lines);
    forall i | 0 <= i < |block| ensures IsLine(block[i]) && Strip(block[i]) != "" {
      if i == 0 {
        StripEnd(status, crlf);
        NotEmpty(status, crlf);
      } else {
        var l := lines[i - 1];
        ProperEnds(l);
        StripEnd(Content(l), l.crlf);
        NotEmpty(Content(l), l.crlf);
      }
    }
  }

  // ---- the block in a stream ---------------------------------------------------------------------------------------

  /** Complete lines and a blank one are the header block, whatever follows. */
  lemma BlockIsHead(lines: seq<string>, crlf: bool, rest: string)
    requires Complete(lines)
    ensures Head(Flatten(lines + [End(crlf)]) + rest) == Some(lines + [End(crlf)])
  {
    hide Strip, IsLine, IndexOf, Flatten, Complete, Head, End;
    var blank := End(crlf);
    StripEnd("", crlf);
    assert "" + blank == blank;
    HeadStep(blank, rest);
    HeadSkips(lines, blank + rest);
    FlattenAppend(lines, blank);
    Assoc(Flatten(lines), blank, rest);
  }

  lemma AcceptedIf(lines: seq<string>, crlf: bool, s: string)
    requires Head(s) == Some(lines + [End(crlf)])
    ensures Acceptable(s) <==>
            |Flatten(lines + [End(crlf)])| <= 10485760 && forall i :: 0 <= i < |lines| ==> |lines[i]| <= 1048576
  {
    hide Head, Flatten;
    var all := lines + [End(crlf)];
    assert forall i :: 0 <= i < |lines| ==> all[i] == lines[i];
    assert all[|lines|] == End(crlf);
  }

  predicate WithinLimits(b: Block) {
    && |Written(b)| <= 10485760
    && (b.Block? ==> |b.status + End(b.statusCrlf)| <= 1048576)
    && (b.Block? ==> forall i :: 0 <= i < |b.lines| ==> |Spell(b.lines[i])| <= 1048576)
  }

  lemma LinesOfBlock(status: string, crlf: bool, lines: seq<Line>)
    ensures (forall i :: 0 <= i < |BlockLines(status, crlf, lines)| ==> |BlockLines(status, crlf, lines)[i]| <= 1048576) <==>
            |status + End(crlf)| <= 1048576 && forall i :: 0 <= i < |lines| ==> |Spell(lines[i])| <= 1048576
  {
    hide Spell;
    var block := BlockLines(status, crlf, lines);
    assert forall i :: 0 <= i < |lines| ==> block[i + 1] == Spell(lines[i]);
    assert block[0] == status + End(crlf);
  }

  /** A block at the head of a stream is accepted exactly within the limits, and then it means what its lines mean. */
  lemma BlockIsParsed(b: Block, rest: string, canon: string -> string)
    requires ProperBlock(b)
    ensures Acceptable(Written(b) + rest) <==> WithinLimits(b)
    ensures Acceptable(Written(b) + rest) ==>
              var (st, hdr, nr) := Parsed(Written(b) + rest, canon);
              && st == (if b.Block? then b.status else "") && nr == |Written(b)|
              && forall key :: Values(hdr, key) == Collect(if b.Block? then b.lines else [], key, canon)
  {
    hide Acceptable, Head, Parsed, Flatten, Meaning, Complete, BlockLines, Proper, Ends, Collect, Spell, End;
    var s := Written(b) + rest;
    var lines := if b.Block? then BlockLines(b.status, b.statusCrlf, b.lines) else [];
    if b.Block? {
      BlockIsComplete(b.status, b.statusCrlf, b.lines);
      LinesOfBlock(b.status, b.statusCrlf, b.lines);
    } else {
      NoLines(End(b.crlf));
    }
    BlockIsHead(lines, b.crlf, rest);
    AcceptedIf(lines, b.crlf, s);
    if Acceptable(s) {
      ParsedIs(s, lines, End(b.crlf), canon);
      if b.Block? {
        MeaningOfLines(b.status, b.statusCrlf, b.lines, canon);
      } else {
        MeaningOfNone(canon);
        NothingCollected(canon);
      }
    }
  }

  lemma NothingCollected(canon: string -> string)
    ensures forall key :: Collect([], key, canon) == []
  {
  }

  lemma NoLines(blank: string)
    ensures Complete([]) && Flatten([] + [blank]) == blank
  {
    assert [blank][1..] == [];
  }

  /** splitHTTPHeader on a stream that begins with a block, over any way of reading it: it succeeds exactly if no line has
      more than 1 MiB and the block no more than 10 MiB; it takes the block and nothing else; and the header has, for every
      key, the values of exactly the lines whose name has that canonical form, in order. */
  method ReadBlock(b: Block, rest: string, fs: seq<Fragment>, canon: string -> string)
    returns (status: string, hdr: Header, nr: nat, err: SplitError)
    requires ProperBlock(b) && Reading(fs) && Stream(fs) == Written(b) + rest
    ensures err == NoError <==>
              && |Written(b)| <= 10485760
              && (b.Block? ==> |b.status + End(b.statusCrlf)| <= 1048576)
              && (b.Block? ==> forall i :: 0 <= i < |b.lines| ==> |Spell(b.lines[i])| <= 1048576)
    ensures err == NoError ==>
              && status == (if b.Block? then b.status else "") && nr == |Written(b)|
              && forall key :: Values(hdr, key) == Collect(if b.Block? then b.lines else [], key, canon)
  {
    hide Acceptable, Parsed, Written, Collect, ProperBlock, Spell, End;
    status, hdr, nr, err := SplitHTTPHeader(fs, canon);
    BlockIsParsed(b, rest, canon);
  }

  // ---- every accepted stream begins with such a block ---------------------------------------------------------------

  lemma {:induction false} SpacesThenValue(s: string) returns (n: nat)
    ensures s == Spaces(n) + TrimSpaces(s) && (TrimSpaces(s) != "" ==> TrimSpaces(s)[0] != ' ')
  {
    n := 0;
    if s != "" && s[0] == ' ' {
      n := SpacesThenValue(s[1..]);
      n := n + 1;
      assert s == [' '] + s[1..];
    }
  }

  lemma EveryText(raw: string) returns (crlf: bool)
    requires IsLine(raw)
    ensures raw == Strip(raw) + End(crlf) && (Strip(raw) != "" ==> Ends(Strip(raw), crlf))
  {
    var m := |raw|;
    crlf := m >= 2 && raw[m - 2] == '\r';
    if crlf {
      assert raw == raw[..m - 2] + [raw[m - 2], raw[m - 1]];
      assert raw[..m - 2] == raw[..m - 1][..m - 2];
    } else {
      assert raw == raw[..m - 1] + [raw[m - 1]];
    }
  }

  lemma CutText(text: string, idx: nat, n: nat, value: string, crlf: bool)
    requires Ends(text, crlf) && idx < |text| && text[idx] == ':' && ':' !in text[..idx]
    requires text[idx + 1..] == Spaces(n) + value && (value != "" ==> value[0] != ' ')
    ensures Content(Line(text[..idx], true, n, value, crlf)) == text && Proper(Line(text[..idx], true, n, value, crlf))
  {
    hide Spaces, Ends;
    assert text == text[..idx] + ([text[idx]] + text[idx + 1..]);
  }

  lemma EveryLine(raw: string) returns (l: Line)
    requires IsLine(raw) && Strip(raw) != ""
    ensures Proper(l) && Spell(l) == raw
  {
    hide Strip, IsLine, Content, End;
    var crlf := EveryText(raw);
    var text := Strip(raw);
    var idx := IndexOf(text, ':');
    if idx == |text| {
      hide Ends;
      assert text[..idx] == text;
      l := Line(text, false, 0, "", crlf);
      NameAlone(l);
    } else {
      hide Proper, Ends, Spaces, TrimSpaces, IndexOf;
      var n := SpacesThenValue(text[idx + 1..]);
      l := Line(text[..idx], true, n, TrimSpaces(text[idx + 1..]), crlf);
      CutText(text, idx, n, TrimSpaces(text[idx + 1..]), crlf);
    }
  }

  lemma NameAlone(l: Line)
    requires !l.colon
    ensures Content(l) == l.name
  {
  }

  lemma {:induction false} EveryLineOf(lines: seq<string>) returns (ls: seq<Line>)
    requires Complete(lines)
    ensures Spelled(ls) == lines && forall i :: 0 <= i < |ls| ==> Proper(ls[i])
  {
    hide Strip, IsLine, Spell, Proper;
    ls := [];
    if lines != [] {
      var before, raw := lines[..|lines| - 1], lines[|lines| - 1];
      var some := EveryLineOf(before);
      var l := EveryLine(raw);
      ls := some + [l];
      assert Spelled(ls) == Spelled(some) + [Spell(l)];
      assert lines == before + [raw];
    }
  }

  lemma {:induction false} HeadShape(s: string) returns (lines: seq<string>, crlf: bool, rest: string)
    requires Head(s).Some?
    ensures Complete(lines) && s == Flatten(lines + [End(crlf)]) + rest
    decreases |s|
  {
    hide Strip, End, Flatten, IsLine, IndexOf;
    var p := IndexOf(s, '\n');
    var raw, tail := s[..p + 1], s[p + 1..];
    FirstLine(s, p);
    if Strip(raw) == "" {
      crlf := EveryText(raw);
      assert "" + End(crlf) == End(crlf);
      NoLines(raw);
      lines, rest := [], tail;
    } else {
      var some;
      some, crlf, rest := HeadShape(tail);
      lines := [raw] + some;
      OneLineMore(raw, some, End(crlf), rest);
    }
  }

  lemma FirstLine(s: string, p: nat)
    requires p < |s| && s[p] == '\n' && '\n' !in s[..p]
    ensures s == s[..p + 1] + s[p + 1..] && IsLine(s[..p + 1])
  {
    assert s[..p + 1][..p] == s[..p];
  }

  lemma OneLineMore(raw: string, some: seq<string>, blank: string, rest: string)
    ensures Flatten([raw] + some + [blank]) + rest == raw + (Flatten(some + [blank]) + rest)
  {
    hide Flatten;
    Assoc([raw], some, [blank]);
    FlattenFirst(raw, some + [blank]);
    Assoc(raw, Flatten(some + [blank]), rest);
  }

  /** Whatever splitHTTPHeader accepts begins with a block. */
  lemma EveryStream(s: string) returns (b: Block, rest: string)
    requires Acceptable(s)
    ensures ProperBlock(b) && s == Written(b) + rest
  {
    hide Head, Strip, IsLine, Spell, Proper, Ends, End, Flatten;
    var lines, crlf, tail := HeadShape(s);
    rest := tail;
    if lines == [] {
      b := Blank(crlf);
      NoLines(End(crlf));
    } else {
      var statusCrlf := EveryText(lines[0]);
      assert Complete(lines[1..]);
      var ls := EveryLineOf(lines[1..]);
      b := Block(Strip(lines[0]), statusCrlf, ls, crlf);
      assert lines == [lines[0]] + lines[1..] == BlockLines(Strip(lines[0]), statusCrlf, ls);
    }
  }
}
