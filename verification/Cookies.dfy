/** The cookie parser (pkg/lb/httpcookie.go).  A string is a sequence of runes. */
module Cookies {
  import opened Text

  datatype Cookie = Cookie(name: string, value: string)

  // ---- names and values --------------------------------------------------------------------------------------------

  predicate IsTokenRune(c: char) {
    '0' <= c <= '9' || 'a' <= c <= 'z' || 'A' <= c <= 'Z' || c in "!#$%&'*+-.^_`|~"
  }

  /** A token character is visible ASCII and none of the delimiters. */
  lemma TokenRuneIs(c: char)
    ensures IsTokenRune(c) <==> '!' <= c <= '~' && c !in "\"(),/:;<=>?@[\\]{}"
  {
  }

  predicate NameValid(raw: string) {
    raw != "" && forall i :: 0 <= i < |raw| ==> IsTokenRune(raw[i])
  }

  predicate ValueRune(c: char) {
    ' ' <= c < '\U{7F}' && c != '"' && c != ';' && c != '\\'
  }

  predicate ValueValid(raw: string) {
    forall i :: 0 <= i < |raw| ==> ValueRune(raw[i])
  }

  lemma ValueValidIs(v: string)
    ensures ValueValid(v) <==> forall i :: 0 <= i < |v| ==> ' ' <= v[i] <= '~' && v[i] !in "\";\\"
  {
  }

  function Unquote(raw: string): string {
    if |raw| > 1 && raw[0] == '"' && raw[|raw| - 1] == '"' then raw[1..|raw| - 1] else raw
  }

  /** parseCookieValue: without a pair of quotes around it, if these are allowed, the value must be of printable ASCII other
      than quotes, semicolons and backslashes. */
  method ParseCookieValue(raw: string, allowDoubleQuote: bool) returns (val: string, ok: bool)
    ensures var quoted := allowDoubleQuote && |raw| > 1 && raw[0] == '"' && raw[|raw| - 1] == '"';
            var v := if quoted then raw[1..|raw| - 1] else raw;
            && (ok <==> forall i :: 0 <= i < |v| ==> ' ' <= v[i] <= '~' && v[i] !in "\";\\")
            && val == if ok then v else ""
  {
    val := raw;
    if allowDoubleQuote && |val| > 1 && val[0] == '"' && val[|val| - 1] == '"' {
      val := val[1..|val| - 1];
    }
    for i := 0 to |val|
      invariant forall k :: 0 <= k < i ==> ValueRune(val[k])
    {
      if !ValueRune(val[i]) {
        return "", false;
      }
    }
    ok := true;
  }

  // ---- what a header means -----------------------------------------------------------------------------------------

  /** The cookie in one piece, if there is a valid one that passes the filter. */
  function CookieIn(piece: string, filter: string): seq<Cookie> {
    var part := TrimSpace(piece);
    var j := IndexOf(part, '=');
    var name, val := part[..j], if j < |part| then Unquote(part[j + 1..]) else "";
    if NameValid(name) && (filter == "" || filter == name) && ValueValid(val) then [Cookie(name, val)] else []
  }

  function CookiesIn(pieces: seq<string>, filter: string): seq<Cookie> {
    if pieces == [] then [] else CookieIn(pieces[0], filter) + CookiesIn(pieces[1..], filter)
  }

  /** The pieces before the first empty one. */
  function Live(pieces: seq<string>): (r: seq<string>)
    ensures r <= pieces && (|r| < |pieces| ==> pieces[|r|] == "")
  {
    if pieces == [] || pieces[0] == "" then [] else [pieces[0]] + Live(pieces[1..])
  }

  /** The pieces of a line that count: those of a plain split at semicolons, up to the first empty piece. */
  function Pieces(line: string): seq<string> {
    Live(Split(TrimSpace(line), ';'))
  }

  function All(lines: seq<string>, filter: string): seq<Cookie> {
    if lines == [] then [] else All(lines[..|lines| - 1], filter) + CookiesIn(Pieces(lines[|lines| - 1]), filter)
  }

  lemma TrimLeftOf(s: string)
    requires s != "" && !IsSpace(s[0])
    ensures TrimLeft(s) == s && TrimSpace(s) != "" && TrimSpace(s)[0] == s[0]
  {
    assert s == s[..1] + s[1..];
    TrimRightConcat(s[..1], s[1..]);
  }

  /** A part that starts with a semicolon, which is how the rest of a line is taken after an empty piece, holds none. */
  lemma NothingAfterEmpty(part: string, filter: string)
    requires part != "" && part[0] == ';'
    ensures CookieIn(part, filter) == []
  {
    TrimLeftOf(part);
    var t := TrimSpace(part);
    var j := IndexOf(t, '=');
    assert j > 0 ==> t[..j][0] == ';';
  }

  /** readCookies, on the values of the Cookie header. */
  method ReadCookies(lines: seq<string>, filter: string) returns (cookies: seq<Cookie>)
    ensures cookies == All(lines, filter)
  {
    cookies := [];
    for k := 0 to |lines|
      invariant cookies == All(lines[..k], filter)
    {
      assert lines[..k + 1][..k] == lines[..k];
      var line := TrimSpace(lines[k]);
      cookies := ReadLine(line, filter, cookies);
    }
    assert lines[..|lines|] == lines;
  }

  /** The inner loop of readCookies, which adds the cookies of one trimmed line. */
  method ReadLine(trimmed: string, filter: string, before: seq<Cookie>) returns (cookies: seq<Cookie>)
    ensures cookies == before + CookiesIn(Live(Split(trimmed, ';')), filter)
  {
    hide CookiesIn, Live, Split, CookieIn;
    cookies := before;
    var line := trimmed;
    while |line| > 0
      invariant cookies + CookiesIn(Live(Split(line, ';')), filter) == before + CookiesIn(Live(Split(trimmed, ';')), filter)
      decreases |line|
    {
      ghost var was := line;
      var part: string;
      var splitIndex := IndexOf(line, ';');
      if splitIndex < |line| && splitIndex > 0 {
        part, line := line[..splitIndex], line[splitIndex + 1..];
      } else {
        part, line := line, "";
      }
      OnePart(was, part, line, filter);
      var more := ReadPart(part, filter);
      Assoc(cookies, more, CookiesIn(Live(Split(line, ';')), filter));
      cookies := cookies + more;
    }
    NothingLeft(filter);
  }

  /** What is in a piece, for every piece of a name and a value, with or without quotes, and white space around: a cookie if
      name and value are valid and the name passes the filter. */
  lemma PieceIs(a: string, name: string, val: string, quoted: bool, b: string, filter: string)
    requires AllSpace(a) && AllSpace(b) && name != "" && '=' !in name && !IsSpace(name[0])
    requires !quoted ==> Unquote(val) == val && (val != "" ==> !IsSpace(val[|val| - 1]))
    ensures CookieIn(a + (name + ("=" + if quoted then "\"" + val + "\"" else val)) + b, filter) ==
            if NameValid(name) && ValueValid(val) && (filter == "" || filter == name) then [Cookie(name, val)] else []
  {
    hide AllSpace, NameValid, ValueValid, TrimSpace, IndexOf;
    assert !IsSpace('=') && !IsSpace('"');
    hide IsSpace;
    var given := if quoted then "\"" + val + "\"" else val;
    var part := name + ("=" + given);
    Unquoted(val, quoted);
    TrimSpaceIs(a, part, b);
    assert part[..|name|] == name && part[|name| + 1..] == given;
    FoundAt(part, '=', |name|);
  }

  lemma Unquoted(val: string, quoted: bool)
    requires !quoted ==> Unquote(val) == val
    ensures Unquote(if quoted then "\"" + val + "\"" else val) == val
  {
    if quoted {
      assert ("\"" + val + "\"")[1..|val| + 1] == val;
    }
  }

  /** And for every piece of a name alone. */
  lemma BarePieceIs(a: string, name: string, b: string, filter: string)
    requires AllSpace(a) && AllSpace(b) && name != "" && '=' !in name && !IsSpace(name[0]) && !IsSpace(name[|name| - 1])
    ensures CookieIn(a + name + b, filter) ==
            if NameValid(name) && (filter == "" || filter == name) then [Cookie(name, "")] else []
  {
    hide AllSpace, NameValid, ValueValid, TrimSpace, IndexOf, IsSpace;
    TrimSpaceIs(a, name, b);
    FoundAt(name, '=', |name|);
    assert name[..|name|] == name;
    NoValue();
  }

  lemma NoValue()
    ensures ValueValid("")
  {
  }

  /** The cookies of that name, in their order. */
  function Named(cs: seq<Cookie>, name: string): seq<Cookie> {
    if cs == [] then [] else (if cs[0].name == name then [cs[0]] else []) + Named(cs[1..], name)
  }

  lemma {:induction false} NamedConcat(a: seq<Cookie>, b: seq<Cookie>, name: string)
    ensures Named(a + b, name) == Named(a, name) + Named(b, name)
  {
    if a == [] {
      assert a + b == b;
    } else {
      NamedConcat(a[1..], b, name);
      assert (a + b)[1..] == a[1..] + b;
    }
  }

  lemma {:induction false} FilterOfPieces(pieces: seq<string>, filter: string)
    requires filter != ""
    ensures CookiesIn(pieces, filter) == Named(CookiesIn(pieces, ""), filter)
  {
    hide CookieIn;
    if pieces != [] {
      FilterOfPieces(pieces[1..], filter);
      FilterOfPiece(pieces[0], filter);
      NamedConcat(CookieIn(pieces[0], ""), CookiesIn(pieces[1..], ""), filter);
    }
  }

  lemma FilterOfPiece(piece: string, filter: string)
    requires filter != ""
    ensures CookieIn(piece, filter) == Named(CookieIn(piece, ""), filter)
  {
    hide TrimSpace, NameValid, ValueValid, Unquote;
  }

  /** The lines are read one after the other. */
  lemma {:induction false} LinesInTurn(a: seq<string>, b: seq<string>, line: string, filter: string)
    ensures All(a + b, filter) == All(a, filter) + All(b, filter)
    ensures All([line], filter) == CookiesIn(Live(Split(TrimSpace(line), ';')), filter)
    ensures All([], filter) == []
  {
    hide CookiesIn;
    assert [line][..0] == [];
    if b == [] {
      assert a + b == a;
    } else {
      var before, last := b[..|b| - 1], b[|b| - 1];
      assert (a + b)[..|a + b| - 1] == a + before;
      LinesInTurn(a, before, line, filter);
      Assoc(All(a, filter), All(before, filter), CookiesIn(Pieces(last), filter));
    }
  }

  /** A filter selects the cookies of its name from those that there are without it. */
  lemma {:induction false} FilterSelects(lines: seq<string>, filter: string)
    requires filter != ""
    ensures All(lines, filter) == Named(All(lines, ""), filter)
  {
    hide CookiesIn, Pieces;
    if lines != [] {
      var before, last := lines[..|lines| - 1], lines[|lines| - 1];
      FilterSelects(before, filter);
      FilterOfPieces(Pieces(last), filter);
      NamedConcat(All(before, ""), CookiesIn(Pieces(last), ""), filter);
    }
  }

  lemma NothingLeft(filter: string)
    ensures CookiesIn(Live(Split("", ';')), filter) == []
  {
  }

  /** The body of the loop, with its continue statements as returns. */
  method ReadPart(piece: string, filter: string) returns (found: seq<Cookie>)
    ensures found == CookieIn(piece, filter)
  {
    hide NameValid, ValueValid, TrimSpace;
    var part := TrimSpace(piece);
    if |part| == 0 {
      NoName();
      return [];
    }
    var name, val := part, "";
    assert part[..|part|] == part;
    var j := IndexOf(part, '=');
    if j < |part| {
      name, val := name[..j], name[j + 1..];
    }
    if !NameValid(name) {
      return [];
    }
    if filter != "" && filter != name {
      return [];
    }
    var ok;
    ValueValidIs(Unquote(val));
    val, ok := ParseCookieValue(val, true);
    if !ok {
      return [];
    }
    found := [Cookie(name, val)];
  }

  lemma NoName()
    ensures !NameValid("")
  {
  }

  lemma OnePart(was: string, part: string, line: string, filter: string)
    requires was != ""
    requires var i := IndexOf(was, ';');
             if i < |was| && i > 0 then part == was[..i] && line == was[i + 1..] else part == was && line == ""
    ensures CookiesIn(Live(Split(was, ';')), filter) == CookieIn(part, filter) + CookiesIn(Live(Split(line, ';')), filter)
  {
    var i := IndexOf(was, ';');
    if i == 0 {
      NothingAfterEmpty(part, filter);
    } else if i < |was| {
      var rest := Live(Split(line, ';'));
      assert ([part] + rest)[1..] == rest;
    }
  }

  // ---- what follows ------------------------------------------------------------------------------------------------

  lemma {:induction false} CookiesInValid(pieces: seq<string>, filter: string)
    ensures forall c :: c in CookiesIn(pieces, filter) ==>
              NameValid(c.name) && ValueValid(c.value) && (filter == "" || filter == c.name)
  {
    if pieces != [] {
      CookiesInValid(pieces[1..], filter);
    }
  }

  /** Whatever the input, every cookie returned is valid and passes the filter. */
  lemma {:induction false} AllValid(lines: seq<string>, filter: string)
    ensures forall c :: c in All(lines, filter) ==>
              NameValid(c.name) && ValueValid(c.value) && (filter == "" || filter == c.name)
  {
    if lines != [] {
      AllValid(lines[..|lines| - 1], filter);
      CookiesInValid(Pieces(lines[|lines| - 1]), filter);
    }
  }

  lemma {:induction false} CookiesInConcat(a: seq<string>, b: seq<string>, filter: string)
    ensures CookiesIn(a + b, filter) == CookiesIn(a, filter) + CookiesIn(b, filter)
  {
    hide CookieIn;
    if a == [] {
      assert a + b == b;
    } else {
      CookiesInConcat(a[1..], b, filter);
      assert (a + b)[1..] == a[1..] + b;
      Assoc(CookieIn(a[0], filter), CookiesIn(a[1..], filter), CookiesIn(b, filter));
    }
  }

  /** An empty piece (two semicolons in a row, or one at the start) hides the rest of its line: a line gives the cookies
      of all its pieces exactly when none comes after the first empty piece. */
  lemma EmptyPieceHides(line: string, filter: string)
    ensures var pieces := Split(TrimSpace(line), ';');
            CookiesIn(Pieces(line), filter) == CookiesIn(pieces, filter) <==>
            CookiesIn(pieces[|Live(pieces)|..], filter) == []
  {
    var pieces := Split(TrimSpace(line), ';');
    var live := Live(pieces);
    assert pieces == live + pieces[|live|..];
    CookiesInConcat(live, pieces[|live|..], filter);
  }

  const LOSSY_LINE := "a=1;;b=2"

  /** A line of which the second cookie is lost. */
  lemma SecondCookieLost()
    ensures All([LOSSY_LINE], "") == [Cookie("a", "1")]
    ensures CookiesIn(Split(TrimSpace(LOSSY_LINE), ';'), "") == [Cookie("a", "1"), Cookie("b", "2")]
  {
    hide Split, CookieIn, TrimSpace, All;
    LossyPieces();
    LossyCookies();
    OneLine(LOSSY_LINE);
    var p, q, r := ["a=1", "", "b=2"], ["", "b=2"], ["b=2"];
    assert p[1..] == q && q[1..] == r && r[1..] == [];
    assert CookiesIn(r, "") == CookieIn("b=2", "") + CookiesIn([], "");
    assert CookiesIn(q, "") == CookieIn("", "") + CookiesIn(r, "");
    assert CookiesIn(p, "") == CookieIn("a=1", "") + CookiesIn(q, "");
    assert Live(q) == [] && Live(p) == ["a=1"] + Live(q) == ["a=1"];
    assert ["a=1"][1..] == [];
    assert CookiesIn(["a=1"], "") == CookieIn("a=1", "") + CookiesIn([], "");
  }

  lemma LossyPieces()
    ensures TrimSpace(LOSSY_LINE) == LOSSY_LINE && Split(LOSSY_LINE, ';') == ["a=1", "", "b=2"]
  {
    hide Split;
    LineIsTrimmed(LOSSY_LINE);
    assert LOSSY_LINE == "a=1" + (";" + ";b=2") && ";b=2" == "" + (";" + "b=2");
    PieceSplits("a=1", ";b=2");
    PieceSplits("", "b=2");
    LastSplits("b=2");
  }

  lemma LossyCookies()
    ensures CookieIn("a=1", "") == [Cookie("a", "1")] && CookieIn("b=2", "") == [Cookie("b", "2")] && CookieIn("", "") == []
  {
    hide CookieIn;
    assert Pair(Cookie("a", "1")) == "a=1" && Pair(Cookie("b", "2")) == "b=2";
    PairIsRead(Cookie("a", "1"));
    PairIsRead(Cookie("b", "2"));
    TrimOne("1");
    TrimOne("2");
    EmptyHoldsNothing();
  }

  lemma TrimOne(v: string)
    requires |v| == 1 && !IsSpace(v[0])
    ensures TrimRight(v) == v
  {
  }

  lemma LineIsTrimmed(line: string)
    requires line != "" && !IsSpace(line[0]) && !IsSpace(line[|line| - 1])
    ensures TrimSpace(line) == line
  {
    TrimLeftOf(line);
  }

  lemma EmptyHoldsNothing()
    ensures CookieIn("", "") == []
  {
    assert TrimSpace("") == "" && ""[..0] == "";
  }

  lemma PieceSplits(piece: string, rest: string)
    requires ';' !in piece
    ensures Split(piece + (";" + rest), ';') == [piece] + Split(rest, ';')
  {
    var s := piece + (";" + rest);
    assert s[..|piece|] == piece && s[|piece| + 1..] == rest;
    FoundAt(s, ';', |piece|);
  }

  lemma LastSplits(piece: string)
    requires ';' !in piece
    ensures Split(piece, ';') == [piece]
  {
    FoundAt(piece, ';', |piece|);
  }

  // ---- the round trip ----------------------------------------------------------------------------------------------

  function Pair(c: Cookie): string {
    c.name + "=" + c.value
  }

  /** A list of cookies as section 4.2.1 of RFC 6265 writes it. */
  function Printed(cs: seq<Cookie>): string {
    if cs == [] then ""
    else if |cs| == 1 then Pair(cs[0])
    else Pair(cs[0]) + "; " + Printed(cs[1..])
  }

  ghost predicate CookieOk(c: Cookie) {
    NameValid(c.name) && ValueValid(c.value)
  }

  function Trimmed(c: Cookie): Cookie {
    c.(value := TrimRight(c.value))
  }

  function TrimmedAll(cs: seq<Cookie>): seq<Cookie> {
    seq(|cs|, i requires 0 <= i < |cs| => Trimmed(cs[i]))
  }

  lemma PairRunes(c: Cookie)
    requires CookieOk(c)
    ensures Pair(c) != "" && ';' !in Pair(c) && !IsSpace(Pair(c)[0])
    ensures TrimRight(Pair(c)) == Pair(Trimmed(c)) && CookieOk(Trimmed(c))
    ensures IndexOf(Pair(c), '=') == |c.name|
  {
    hide IsSpace, IsTokenRune, ValueRune, TrimRight, IndexOf;
    var n := c.name + "=";
    assert Pair(c)[0] == c.name[0];
    TokenRunes(c.name);
    ValueRunes(c.value);
    NoSpace();
    TrimRightConcat(n, c.value);
    assert n + TrimRight(c.value) == Pair(Trimmed(c));
    assert Pair(c)[..|c.name|] == c.name;
    FoundAt(Pair(c), '=', |c.name|);
  }

  lemma TokenRunes(name: string)
    requires NameValid(name)
    ensures '=' !in name && ';' !in name && !IsSpace(name[0])
  {
    assert IsTokenRune(name[0]);
  }

  lemma ValueRunes(v: string)
    requires ValueValid(v)
    ensures ';' !in v && ValueValid(TrimRight(v)) && Unquote(v) == v
  {
  }

  lemma NoSpace()
    ensures !IsSpace('=') && !IsSpace(';') && IsSpace(' ')
  {
  }

  lemma PairIsRead(c: Cookie)
    requires CookieOk(c)
    ensures CookieIn(Pair(c), "") == [Trimmed(c)] && CookieIn(" " + Pair(c), "") == [Trimmed(c)]
  {
    hide IsSpace, IsTokenRune, ValueRune, IndexOf;
    PairRunes(c);
    PairRunes(Trimmed(c));
    NoSpace();
    TrimLeftOf(Pair(c));
    assert (" " + Pair(c))[1..] == Pair(c);
    var part := Pair(Trimmed(c));
    assert TrimSpace(Pair(c)) == part && TrimSpace(" " + Pair(c)) == part;
    assert part[..|c.name|] == c.name && part[|c.name| + 1..] == TrimRight(c.value);
    ValueRunes(TrimRight(c.value));
  }

  /** The pieces of a printed list after any text without a semicolon, such as the space of a separator. */
  lemma {:induction false} PrintedPieces(pre: string, cs: seq<Cookie>)
    requires cs != [] && (pre == "" || pre == " ") && forall i :: 0 <= i < |cs| ==> CookieOk(cs[i])
    ensures CookiesIn(Live(Split(pre + Printed(cs), ';')), "") == TrimmedAll(cs)
    decreases |cs|
  {
    hide Printed, TrimmedAll, Trimmed, CookiesIn, Live, Split, CookieIn, IsTokenRune, ValueRune;
    hide IsSpace, TrimRight, IndexOf, NameValid, ValueValid, Pair;
    var first := pre + Pair(cs[0]);
    PairRunes(cs[0]);
    PairIsRead(cs[0]);
    assert "" + Pair(cs[0]) == Pair(cs[0]);
    PrintedStep(pre, cs);
    TrimmedStep(cs);
    if |cs| == 1 {
      LastPiece(first);
      NoCookies();
      assert cs[1..] == [];
      assert [Trimmed(cs[0])] + [] == [Trimmed(cs[0])];
    } else {
      NextPiece(first, " " + Printed(cs[1..]));
      PrintedPieces(" ", cs[1..]);
    }
  }

  lemma PrintedStep(pre: string, cs: seq<Cookie>)
    requires cs != []
    ensures |cs| == 1 ==> Printed(cs) == Pair(cs[0])
    ensures |cs| > 1 ==> pre + Printed(cs) == (pre + Pair(cs[0])) + (";" + (" " + Printed(cs[1..])))
  {
    hide Pair;
    if |cs| > 1 {
      var pair, rest := Pair(cs[0]), Printed(cs[1..]);
      assert Printed(cs) == pair + "; " + rest;
      hide Printed;
      Regroup(pre, pair, rest);
    }
  }

  lemma TrimmedStep(cs: seq<Cookie>)
    requires cs != []
    ensures TrimmedAll(cs) == [Trimmed(cs[0])] + TrimmedAll(cs[1..])
  {
    hide Trimmed;
  }

  lemma Regroup(pre: string, pair: string, rest: string)
    ensures pre + (pair + "; " + rest) == (pre + pair) + (";" + (" " + rest))
  {
    assert "; " == ";" + " ";
    Assoc(pair, "; ", rest);
    Assoc(";", " ", rest);
    Assoc(pre, pair, "; " + rest);
  }

  lemma LastPiece(piece: string)
    requires piece != "" && ';' !in piece
    ensures CookiesIn(Live(Split(piece, ';')), "") == CookieIn(piece, "")
  {
    hide CookieIn;
    FoundAt(piece, ';', |piece|);
  }

  lemma NextPiece(piece: string, rest: string)
    requires piece != "" && ';' !in piece
    ensures CookiesIn(Live(Split(piece + (";" + rest), ';')), "") == CookieIn(piece, "") + CookiesIn(Live(Split(rest, ';')), "")
  {
    hide CookieIn;
    var s := piece + (";" + rest);
    assert s[..|piece|] == piece && s[|piece| + 1..] == rest;
    FoundAt(s, ';', |piece|);
    var live := Live(Split(rest, ';'));
    assert Live(Split(s, ';')) == [piece] + live;
    assert ([piece] + live)[1..] == live;
  }

  /** The last value of a line loses its trailing spaces when the whole line is trimmed. */
  lemma {:induction false} TrimPrinted(cs: seq<Cookie>)
    requires cs != [] && forall i :: 0 <= i < |cs| ==> CookieOk(cs[i])
    ensures TrimRight(Printed(cs)) == Printed(LastTrimmed(cs))
    ensures Printed(cs) != "" && !IsSpace(Printed(cs)[0])
  {
    hide IsTokenRune, ValueRune, IsSpace, TrimRight, IndexOf, CookieOk, Pair;
    var last := |cs| - 1;
    var out := LastTrimmed(cs);
    PairRunes(cs[0]);
    if |cs| == 1 {
      assert out == [Trimmed(cs[0])];
    } else {
      TrimPrinted(cs[1..]);
      assert out[1..] == LastTrimmed(cs[1..]);
      var pre := Pair(cs[0]) + "; ";
      var tail := Printed(cs[1..]);
      assert Printed(cs) == pre + tail;
      TrimTail(pre, tail);
    }
  }

  lemma TrimTail(pre: string, tail: string)
    requires tail != "" && !IsSpace(tail[0])
    ensures TrimRight(pre + tail) == pre + TrimRight(tail)
  {
    hide IsSpace, TrimRight;
    assert tail == tail[..1] + tail[1..];
    Assoc(pre, tail[..1], tail[1..]);
    TrimRightConcat(pre + tail[..1], tail[1..]);
    TrimRightConcat(tail[..1], tail[1..]);
    Assoc(pre, tail[..1], TrimRight(tail[1..]));
  }

  /** The cookies with the last value trimmed. */
  function LastTrimmed(cs: seq<Cookie>): seq<Cookie>
    requires cs != []
  {
    cs[..|cs| - 1] + [Trimmed(cs[|cs| - 1])]
  }

  lemma LastTrimmedOk(cs: seq<Cookie>)
    requires cs != [] && forall i :: 0 <= i < |cs| ==> CookieOk(cs[i])
    ensures forall i :: 0 <= i < |cs| ==> CookieOk(LastTrimmed(cs)[i])
    ensures TrimmedAll(LastTrimmed(cs)) == TrimmedAll(cs)
  {
    hide NameValid, ValueValid, IsSpace, TrimRight;
    PairRunes(cs[|cs| - 1]);
    TrimTwice(cs[|cs| - 1].value);
  }

  lemma ReadTrimmed(cs: seq<Cookie>)
    requires forall i :: 0 <= i < |cs| ==> CookieOk(cs[i])
    ensures All([Printed(cs)], "") == TrimmedAll(cs)
  {
    hide CookieOk, IsSpace, TrimRight, TrimLeft, Printed, TrimmedAll, All, Split, Live, CookiesIn;
    OneLine(Printed(cs));
    if cs == [] {
      NoLine();
      NoCookies();
    } else {
      TrimPrinted(cs);
      TrimLeftOf(Printed(cs));
      LastTrimmedOk(cs);
      PrintedPieces("", LastTrimmed(cs));
      assert "" + Printed(LastTrimmed(cs)) == Printed(LastTrimmed(cs));
    }
  }

  lemma NoCookies()
    ensures Printed([]) == "" && TrimmedAll([]) == [] && CookiesIn([], "") == []
  {
  }

  /** The round trip: a printed list of valid cookies is read back in order, each value without its trailing spaces; so it
      is read back unchanged exactly when no value ends with a space. */
  lemma RoundTrip(cs: seq<Cookie>)
    requires forall i :: 0 <= i < |cs| ==> CookieOk(cs[i])
    ensures All([Printed(cs)], "") == TrimmedAll(cs)
    ensures All([Printed(cs)], "") == cs <==>
            forall i :: 0 <= i < |cs| && cs[i].value != "" ==> cs[i].value[|cs[i].value| - 1] != ' '
  {
    hide NameValid, ValueValid, TrimRight, All;
    ReadTrimmed(cs);
    forall i | 0 <= i < |cs|
      ensures Trimmed(cs[i]) == cs[i] <==> (cs[i].value == "" || cs[i].value[|cs[i].value| - 1] != ' ')
    {
      OnlySpacesGo(cs[i].value);
    }
    assert TrimmedAll(cs) == cs <==> forall i :: 0 <= i < |cs| ==> Trimmed(cs[i]) == cs[i];
  }

  lemma NoLine()
    ensures Pieces("") == []
  {
  }

  lemma OneLine(line: string)
    ensures All([line], "") == CookiesIn(Pieces(line), "")
  {
    assert [line][..0] == [];
  }

  lemma TrimTwice(v: string)
    ensures TrimRight(TrimRight(v)) == TrimRight(v)
  {
  }

  lemma OnlySpacesGo(v: string)
    requires ValueValid(v)
    ensures TrimRight(v) == v <==> (v == "" || v[|v| - 1] != ' ')
  {
    if v != "" {
      assert ValueRune(v[|v| - 1]);
    }
  }
}
