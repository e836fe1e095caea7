/** writeHTTPHeader (pkg/lb/httpcommon.go) and what splitHTTPHeader makes of its output. */
module HeaderRoundTrip {
  import opened Options
  import opened Text
  import opened HttpHeader
  import opened HeaderLines

  const CRLF := "\r\n"

  // ---- the printer -------------------------------------------------------------------------------------------------

  /** Values go out with line breaks turned into spaces and without white space at either end, as net/http writes them. */
  function Spaced(v: string): (r: string)
    ensures |r| == |v| && '\r' !in r && '\n' !in r
    ensures '\r' !in v && '\n' !in v ==> r == v
  {
    seq(|v|, i requires 0 <= i < |v| => if v[i] == '\r' || v[i] == '\n' then ' ' else v[i])
  }

  predicate Blank(c: char) {
    c == ' ' || c == '\t' || c == '\n' || c == '\r'
  }

  predicate Trimmed(v: string) {
    v != "" ==> !Blank(v[0]) && !Blank(v[|v| - 1])
  }

  function Trim(v: string): (r: string)
    ensures Trimmed(r)
    ensures forall c :: c in r ==> c in v
    ensures Trimmed(v) ==> r == v
    decreases |v|
  {
    if v == "" then v
    else if Blank(v[0]) then Trim(v[1..])
    else if Blank(v[|v| - 1]) then Trim(v[..|v| - 1])
    else v
  }

  function Clean(v: string): (r: string)
    ensures Trimmed(r) && '\r' !in r && '\n' !in r
    ensures Trimmed(v) && '\r' !in v && '\n' !in v ==> r == v
  {
    Trim(Spaced(v))
  }

  lemma {:induction false} TrimAround(a: string, v: string, b: string)
    requires (forall i :: 0 <= i < |a| ==> Blank(a[i])) && (forall i :: 0 <= i < |b| ==> Blank(b[i]))
    requires v != "" && !Blank(v[0]) && !Blank(v[|v| - 1])
    ensures Trim(a + v + b) == v
    decreases |a| + |b|
  {
    hide Blank;
    var s := a + v + b;
    if a != "" {
      assert s[0] == a[0] && s[1..] == a[1..] + v + b;
      TrimAround(a[1..], v, b);
    } else if b != "" {
      assert s[0] == v[0] && s[|s| - 1] == b[|b| - 1] && s[..|s| - 1] == a + v + b[..|b| - 1];
      TrimAround(a, v, b[..|b| - 1]);
    } else {
      assert s == v;
    }
  }

  /** What cleaning does to any value: the blanks around it go, and what is left keeps all its characters but line breaks,
      each of which becomes a space. */
  lemma CleanIs(a: string, v: string, b: string)
    requires forall i :: 0 <= i < |a| ==> a[i] in " \t\r\n"
    requires forall i :: 0 <= i < |b| ==> b[i] in " \t\r\n"
    requires v != "" && v[0] !in " \t\r\n" && v[|v| - 1] !in " \t\r\n"
    ensures |Clean(a + v + b)| == |v|
    ensures forall i :: 0 <= i < |v| ==> Clean(a + v + b)[i] == if v[i] == '\r' || v[i] == '\n' then ' ' else v[i]
  {
    assert Spaced(a + v + b) == Spaced(a) + Spaced(v) + Spaced(b);
    TrimAround(Spaced(a), Spaced(v), Spaced(b));
  }

  function CleanAll(vs: seq<string>): (r: seq<string>)
    ensures |r| == |vs|
    ensures (forall i :: 0 <= i < |vs| ==> Trimmed(vs[i]) && '\r' !in vs[i] && '\n' !in vs[i]) ==> r == vs
  {
    seq(|vs|, i requires 0 <= i < |vs| => Clean(vs[i]))
  }

  /** The lines of one name, in the order of its values. */
  function FieldsOf(name: string, vs: seq<string>): seq<Line> {
    seq(|vs|, i requires 0 <= i < |vs| => FieldFor(name, vs[i]))
  }

  /** The lines of a header with its names taken in the given order. */
  function Fields(names: seq<string>, hdr: Header): seq<Line> {
    if names == [] then []
    else Fields(names[..|names| - 1], hdr) + FieldsOf(names[|names| - 1], Values(hdr, names[|names| - 1]))
  }

  /** The bytes writeHTTPHeader sends. */
  function Printed(status: string, names: seq<string>, hdr: Header): string {
    Written(Block(status, true, Fields(names, hdr), true))
  }

  function FieldFor(name: string, v: string): Line {
    Line(name, true, 1, Clean(v), true)
  }

  /** The lines are those of the values of the names, and no others. */
  lemma {:induction false} FieldsAre(names: seq<string>, hdr: Header)
    ensures forall l :: l in Fields(names, hdr) <==>
              exists name, i :: name in names && 0 <= i < |Values(hdr, name)| && l == FieldFor(name, Values(hdr, name)[i])
  {
    hide Clean, Values;
    if names != [] {
      var before, last := names[..|names| - 1], names[|names| - 1];
      assert names == before + [last];
      FieldsAre(before, hdr);
      assert forall i :: 0 <= i < |Values(hdr, last)| ==>
               FieldsOf(last, Values(hdr, last))[i] == FieldFor(last, Values(hdr, last)[i]);
    }
  }

  lemma FieldForIs(name: string, v: string)
    ensures Spell(FieldFor(name, v)) == name + ": " + Clean(v) + CRLF
  {
    assert Spaces(1) == " ";
  }

  lemma PrintedLine(names: seq<string>, hdr: Header, i: nat)
    requires i < |Fields(names, hdr)|
    ensures var l := Fields(names, hdr)[i]; Spell(l) == l.name + ": " + l.value + CRLF
  {
    FieldsAre(names, hdr);
    hide Fields, Spell;
    var l := Fields(names, hdr)[i];
    assert l in Fields(names, hdr);
    var name, j :| name in names && 0 <= j < |Values(hdr, name)| && l == FieldFor(name, Values(hdr, name)[j]);
    FieldForIs(name, Values(hdr, name)[j]);
  }

  lemma PrintedBlock(status: string, lines: seq<Line>)
    ensures Written(Block(status, true, lines, true)) == Flatten(BlockLines(status, true, lines)) + CRLF
  {
    hide Flatten, BlockLines;
    FlattenAppend(BlockLines(status, true, lines), CRLF);
  }

  lemma MoreSpelled(status: string, lines: seq<Line>, more: seq<Line>)
    ensures Flatten(BlockLines(status, true, lines + more)) == Flatten(BlockLines(status, true, lines)) + Flatten(Spelled(more))
  {
    hide Flatten, Spell;
    assert Spelled(lines + more) == Spelled(lines) + Spelled(more);
    assert BlockLines(status, true, lines + more) == BlockLines(status, true, lines) + Spelled(more);
    FlattenConcat(BlockLines(status, true, lines), Spelled(more));
  }

  lemma SpelledFields(name: string, vs: seq<string>)
    ensures Spelled(FieldsOf(name, vs)) == seq(|vs|, i requires 0 <= i < |vs| => name + ": " + Clean(vs[i]) + "\r\n")
  {
    hide Clean, Spell;
    forall i | 0 <= i < |vs| ensures Spelled(FieldsOf(name, vs))[i] == name + ": " + Clean(vs[i]) + "\r\n" {
      FieldForIs(name, vs[i]);
    }
  }

  /** Without names the status line and the blank line are printed. */
  lemma PrintedNone(status: string, hdr: Header)
    ensures Printed(status, [], hdr) == status + "\r\n\r\n"
  {
    PrintedBlock(status, []);
    BlockOfNone(status, true);
    FlattenAppend([], status + CRLF);
    assert Flatten([]) == "" && "" + (status + CRLF) == status + CRLF;
  }

  /** With one name more its values are printed too, one on a line, before the blank line. */
  lemma PrintedMore(status: string, names: seq<string>, name: string, hdr: Header)
    ensures var before, vs := Printed(status, names, hdr), Values(hdr, name);
            && |before| >= 2 && before[|before| - 2..] == "\r\n"
            && Printed(status, names + [name], hdr) ==
               before[..|before| - 2]
                 + Flatten(seq(|vs|, i requires 0 <= i < |vs| => name + ": " + Clean(vs[i]) + "\r\n")) + "\r\n"
  {
    hide Clean, Values, Flatten, Written, BlockLines, Spelled, FieldsOf;
    var vs := Values(hdr, name);
    var fields, more := Fields(names, hdr), FieldsOf(name, vs);
    assert (names + [name])[..|names|] == names;
    PrintedBlock(status, fields);
    PrintedBlock(status, fields + more);
    MoreSpelled(status, fields, more);
    SpelledFields(name, vs);
    var text := Flatten(BlockLines(status, true, fields));
    assert (text + CRLF)[..|text|] == text && (text + CRLF)[|text|..] == CRLF;
  }

  /** The destination: it takes `room` bytes more and then fails. */
  class Writer {
    var out: string
    var room: nat

    constructor (room: nat)
      ensures out == "" && this.room == room
    {
      this.out, this.room := "", room;
    }

    method Write(s: string) returns (ok: bool)
      modifies this
      ensures ok == (|s| <= old(room))
      ensures out == old(out) + (if ok then s else s[..old(room)]) && |out| + room == |old(out)| + old(room)
    {
      ok := |s| <= room;
      var n := if ok then |s| else room;
      out := out + s[..n];
      room := room - n;
      assert s[..|s|] == s;
    }
  }

  lemma Cut(lines: seq<string>, j: nat)
    requires j < |lines|
    ensures Flatten(lines[..j + 1]) == Flatten(lines[..j]) + lines[j]
    ensures Flatten(lines) == Flatten(lines[..j]) + (lines[j] + Flatten(lines[j + 1..]))
  {
    hide Flatten;
    CutAt(lines, j);
    FlattenAppend(lines[..j], lines[j]);
    FlattenAround(lines[..j], lines[j], lines[j + 1..]);
  }

  lemma CutAt<T>(xs: seq<T>, j: nat)
    requires j < |xs|
    ensures xs[..j + 1] == xs[..j] + [xs[j]] && xs == xs[..j] + [xs[j]] + xs[j + 1..]
  {
  }

  lemma FlattenAround(a: seq<string>, b: string, c: seq<string>)
    ensures Flatten(a + [b] + c) == Flatten(a) + (b + Flatten(c))
  {
    hide Flatten;
    FlattenAppend(a, b);
    FlattenConcat(a + [b], c);
    Assoc(Flatten(a), b, Flatten(c));
  }

  /** The first j lines have arrived at a destination that had `before` and room for so much. */
  ghost predicate Sent(dst: Writer, lines: seq<string>, j: nat, before: string, room: nat)
    requires j <= |lines|
    reads dst
  {
    dst.out == before + Flatten(lines[..j]) && dst.room + |Flatten(lines[..j])| == room
  }

  lemma PartOf(done: string, line: string, rest: string, left: nat)
    requires left < |line|
    ensures (done + (line + rest))[..|done| + left] == done + line[..left]
  {
  }

  /** One write of the block: all of it arrives, or the block as far as there was room. */
  method SendLine(dst: Writer, line: string, ghost lines: seq<string>, ghost j: nat, ghost before: string, ghost room: nat)
    returns (ok: bool)
    requires j < |lines| && line == lines[j] && Sent(dst, lines, j, before, room)
    modifies dst
    ensures ok ==> Sent(dst, lines, j + 1, before, room)
    ensures !ok ==> room < |Flatten(lines)| && dst.out == before + Flatten(lines)[..room]
  {
    hide Flatten;
    ghost var left := dst.room;
    Cut(lines, j);
    ok := dst.Write(line);
    if ok {
      Assoc(before, Flatten(lines[..j]), line);
    } else {
      PartOf(Flatten(lines[..j]), line, Flatten(lines[j + 1..]), left);
      Assoc(before, Flatten(lines[..j]), line[..left]);
    }
  }

  datatype WriteError = Sound | Wrapped | Plain

  /** writeHTTPHeader, where net/http writes the fields one by one.  What arrives is the printed block or, on an error, the
      part of it that there was room for; the byte count is exact either way. */
  method WriteHTTPHeader(dst: Writer, status: string, names: seq<string>, hdr: Header) returns (nw: nat, err: WriteError)
    modifies dst
    ensures err == Sound <==> |Printed(status, names, hdr)| <= old(dst.room)
    ensures nw == (if err == Sound then |Printed(status, names, hdr)| else old(dst.room)) <= |Printed(status, names, hdr)|
    ensures dst.out == old(dst.out) + Printed(status, names, hdr)[..nw]
  {
    var fields := Fields(names, hdr);
    ghost var lines := BlockLines(status, true, fields) + [CRLF];
    ghost var before, room := dst.out, dst.room;
    var was := |dst.out|;
    assert Sent(dst, lines, 0, before, room) by { FlattenNone(); }
    hide Flatten, Fields, Spell, End;
    var ok := SendLine(dst, status + CRLF, lines, 0, before, room);
    if !ok {
      return |dst.out| - was, Wrapped;
    }
    for i := 0 to |fields|
      invariant Sent(dst, lines, i + 1, before, room)
    {
      PrintedLine(names, hdr, i);
      ok := SendLine(dst, fields[i].name + ": " + fields[i].value + CRLF, lines, i + 1, before, room);
      if !ok {
        return |dst.out| - was, Wrapped;
      }
    }
    ok := SendLine(dst, CRLF, lines, |fields| + 1, before, room);
    if !ok {
      return |dst.out| - was, Plain;
    }
    assert lines[..|lines|] == lines;
    nw, err := |dst.out| - was, Sound;
    assert Printed(status, names, hdr)[..nw] == Printed(status, names, hdr);
  }

  // ---- what may be printed -----------------------------------------------------------------------------------------

  /** Token characters, section 3.2.6 of RFC 7230. */
  predicate TokenChar(c: char) {
    '0' <= c <= '9' || 'a' <= c <= 'z' || 'A' <= c <= 'Z' || c in "!#$%&'*+-.^_`|~"
  }

  predicate Canonical(name: string, canon: string -> string) {
    name != "" && (forall c :: c in name ==> TokenChar(c)) && canon(name) == name
  }

  predicate StatusOk(status: string) {
    status != "" && '\n' !in status
  }

  predicate Different(names: seq<string>) {
    forall i, j :: 0 <= i < j < |names| ==> names[i] != names[j]
  }

  /** Every name of the header, once, in any order. */
  ghost predicate Ordering(names: seq<string>, hdr: Header) {
    Different(names) && (forall name :: name in names <==> name in hdr)
  }

  predicate FieldOk(l: Line, canon: string -> string) {
    Canonical(l.name, canon) && l.colon && l.spaces == 1 && l.crlf && Trimmed(l.value) && '\r' !in l.value && '\n' !in l.value
  }

  // ---- every printed line is read back -----------------------------------------------------------------------------

  lemma FieldIsProper(l: Line, canon: string -> string)
    requires FieldOk(l, canon)
    ensures Proper(l)
  {
    assert !TokenChar(':') && !TokenChar('\n');
    hide TokenChar;
  }

  lemma FieldsAreProper(fields: seq<Line>, canon: string -> string)
    requires forall i :: 0 <= i < |fields| ==> FieldOk(fields[i], canon)
    ensures forall i :: 0 <= i < |fields| ==> Proper(fields[i])
  {
    hide FieldOk, Proper;
    forall i | 0 <= i < |fields| ensures Proper(fields[i]) {
      FieldIsProper(fields[i], canon);
    }
  }

  lemma FieldsOfLast(name: string, vs: seq<string>, v: string)
    ensures FieldsOf(name, vs + [v]) == FieldsOf(name, vs) + [FieldFor(name, v)]
    ensures CleanAll(vs + [v]) == CleanAll(vs) + [Clean(v)]
  {
    hide Clean;
  }

  lemma {:induction false} CollectOfOne(name: string, vs: seq<string>, other: string, canon: string -> string)
    requires canon(name) == name
    ensures Collect(FieldsOf(name, vs), other, canon) == if name == other then CleanAll(vs) else []
  {
    if vs != [] {
      hide Clean, CleanAll, FieldsOf, Collect;
      var before, v := vs[..|vs| - 1], vs[|vs| - 1];
      assert vs == before + [v];
      CollectOfOne(name, before, other, canon);
      FieldsOfLast(name, before, v);
      CollectLast(FieldsOf(name, before), FieldFor(name, v), other, canon);
    }
  }

  lemma DifferentLast(names: seq<string>, name: string)
    requires Different(names) && names != []
    ensures var before, last := names[..|names| - 1], names[|names| - 1];
            Different(before) && last !in before && (name in names <==> name in before || name == last)
  {
    assert names == names[..|names| - 1] + [names[|names| - 1]];
  }

  lemma CollectNone(hdr: Header, name: string, canon: string -> string)
    ensures Collect(Fields([], hdr), name, canon) == []
  {
  }

  lemma {:induction false} CollectFields(names: seq<string>, hdr: Header, name: string, canon: string -> string)
    requires Different(names) && forall i :: 0 <= i < |names| ==> canon(names[i]) == names[i]
    ensures Collect(Fields(names, hdr), name, canon) == if name in names then CleanAll(Values(hdr, name)) else []
  {
    hide Different, Collect, CleanAll, FieldsOf, Values;
    if names == [] {
      CollectNone(hdr, name, canon);
    } else {
      var before, last := names[..|names| - 1], names[|names| - 1];
      DifferentLast(names, name);
      CollectFields(before, hdr, name, canon);
      CollectLaws(Fields(before, hdr), FieldsOf(last, Values(hdr, last)), Line("", false, 0, "", false), name, canon);
      CollectOfOne(last, Values(hdr, last), name, canon);
    }
  }

  lemma {:induction false} FieldsAreOk(names: seq<string>, hdr: Header, canon: string -> string)
    requires forall i :: 0 <= i < |names| ==> Canonical(names[i], canon)
    ensures forall i :: 0 <= i < |Fields(names, hdr)| ==> FieldOk(Fields(names, hdr)[i], canon)
  {
    if names != [] {
      FieldsAreOk(names[..|names| - 1], hdr, canon);
    }
  }

  lemma FieldsReady(names: seq<string>, hdr: Header, canon: string -> string)
    requires Ordering(names, hdr) && forall name :: name in hdr ==> Canonical(name, canon)
    ensures forall i :: 0 <= i < |Fields(names, hdr)| ==> Proper(Fields(names, hdr)[i])
    ensures forall name :: Collect(Fields(names, hdr), name, canon) == CleanAll(Values(hdr, name))
  {
    hide FieldOk, Collect, Fields, CleanAll, TokenChar, Proper;
    assert forall i :: 0 <= i < |names| ==> names[i] in names;
    FieldsAreOk(names, hdr, canon);
    FieldsAreProper(Fields(names, hdr), canon);
    forall name ensures Collect(Fields(names, hdr), name, canon) == CleanAll(Values(hdr, name)) {
      CollectFields(names, hdr, name, canon);
      NoValues();
    }
  }

  lemma NoValues()
    ensures CleanAll([]) == []
  {
  }

  lemma ReadyBlock(status: string, names: seq<string>, hdr: Header, canon: string -> string)
    requires StatusOk(status) && Ordering(names, hdr) && forall name :: name in hdr ==> Canonical(name, canon)
    ensures ProperBlock(Block(status, true, Fields(names, hdr), true))
    ensures forall name :: Collect(Fields(names, hdr), name, canon) == CleanAll(Values(hdr, name))
  {
    hide Canonical, Proper, Fields, Collect, Ordering;
    FieldsReady(names, hdr, canon);
  }

  /** The round trip.  A printed header followed by anything is read back exactly when the printed block keeps within the
      limits; the status line, the number of bytes and, for every name, the cleaned values in order are then those that
      were printed, whatever the order of the names. */
  lemma RoundTrip(status: string, names: seq<string>, hdr: Header, rest: string, canon: string -> string)
    requires StatusOk(status) && Ordering(names, hdr)
    requires forall name :: name in hdr ==> Canonical(name, canon)
    ensures var block := Printed(status, names, hdr);
            && (Acceptable(block + rest) <==> WithinLimits(Block(status, true, Fields(names, hdr), true)))
            && (Acceptable(block + rest) ==>
                var (st, read, nr) := Parsed(block + rest, canon);
                && st == status && nr == |block|
                && forall name :: Values(read, name) == CleanAll(Values(hdr, name)))
  {
    hide Acceptable, Parsed, Written, Collect, CleanAll, ProperBlock, WithinLimits, Fields, Canonical, Ordering, StatusOk;
    ReadyBlock(status, names, hdr, canon);
    BlockIsParsed(Block(status, true, Fields(names, hdr), true), rest, canon);
  }

  lemma LinesWithin(status: string, names: seq<string>, hdr: Header)
    requires Ordering(names, hdr)
    ensures WithinLimits(Block(status, true, Fields(names, hdr), true)) <==>
              && |Printed(status, names, hdr)| <= 10485760 && |status| + 2 <= 1048576
              && forall name, i :: name in hdr && 0 <= i < |hdr[name]| ==> |name| + |Clean(hdr[name][i])| + 4 <= 1048576
  {
    FieldsAre(names, hdr);
    hide Fields, Spell, Written, Clean;
    var fields := Fields(names, hdr);
    forall name, i | name in hdr && 0 <= i < |hdr[name]|
      ensures FieldFor(name, hdr[name][i]) in fields && |Spell(FieldFor(name, hdr[name][i]))| == |name| + |Clean(hdr[name][i])| + 4
    {
      assert name in names && Values(hdr, name) == hdr[name];
      FieldForIs(name, hdr[name][i]);
    }
    forall i | 0 <= i < |fields|
      ensures exists name, j :: name in hdr && 0 <= j < |hdr[name]| && fields[i] == FieldFor(name, hdr[name][j])
    {
      assert fields[i] in fields;
    }
  }

  /** The round trip through splitHTTPHeader, over any way of reading the bytes. */
  method ReadBack(status: string, names: seq<string>, hdr: Header, rest: string, fs: seq<Fragment>,
                  canon: string -> string)
    returns (st: string, read: Header, nr: nat, err: SplitError)
    requires StatusOk(status) && Ordering(names, hdr)
    requires forall name :: name in hdr ==> Canonical(name, canon)
    requires Reading(fs) && Stream(fs) == Printed(status, names, hdr) + rest
    ensures err == NoError <==>
              && |Printed(status, names, hdr)| <= 10485760 && |status| + 2 <= 1048576
              && forall name, i :: name in hdr && 0 <= i < |hdr[name]| ==> |name| + |Clean(hdr[name][i])| + 4 <= 1048576
    ensures err == NoError ==> st == status && nr == |Printed(status, names, hdr)|
    ensures err == NoError ==> forall name :: Values(read, name) == CleanAll(Values(hdr, name))
  {
    st, read, nr, err := SplitHTTPHeader(fs, canon);
    RoundTrip(status, names, hdr, rest, canon);
    LinesWithin(status, names, hdr);
  }
}
