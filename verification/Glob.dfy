/** The compilation of route patterns to regular expressions (patternToRgx, pkg/lb/httpfrontend.go). */
module Glob {
  import opened Options

  // ---- the compiler ----------------------------------------------------------------------------------------------

  predicate IsMeta(c: char) {
    c in {'\\', '.', '+', '*', '?', '(', ')', '|', '[', ']', '{', '}', '^', '$'}
  }

  /** regexp.QuoteMeta. */
  function QuoteMeta(s: string): string {
    if s == "" then ""
    else (if IsMeta(s[0]) then ['\\', s[0]] else [s[0]]) + QuoteMeta(s[1..])
  }

  /** strings.Replace of all occurrences of a two-character string, from the left, without overlap. */
  function ReplaceAll(s: string, a: char, b: char, sub: string): string {
    if |s| < 2 then s
    else if s[0] == a && s[1] == b then sub + ReplaceAll(s[2..], a, b, sub)
    else [s[0]] + ReplaceAll(s[1..], a, b, sub)
  }

  /** The regular expression for a pattern that has been lower-cased. */
  function PatternToRgx(pattern: string): string {
    var reg := QuoteMeta(pattern);
    var reg := ReplaceAll(reg, '\\', '*', ".*");
    var reg := ReplaceAll(reg, '\\', '?', ".");
    "^" + reg + "$"
  }

  // ---- the part of the regular expression language that is needed -------------------------------------------------

  datatype Item = Begin | End | Lit(c: char) | Dot | Star(item: Item)

  predicate IsAlnum(c: char) {
    'a' <= c <= 'z' || 'A' <= c <= 'Z' || '0' <= c <= '9'
  }

  /** One atom at the head of `s` and what follows it.  An escaped ASCII punctuation character stands for itself; a
      repetition operator without an operand, and every construct that patternToRgx has no use for, is None. */
  function ParseAtom(s: string): Option<(Item, string)>
    requires s != ""
  {
    if s[0] == '\\' then
      if |s| >= 2 && s[1] < '\U{80}' && !IsAlnum(s[1]) then Some((Lit(s[1]), s[2..])) else None
    else if s[0] == '.' then Some((Dot, s[1..]))
    else if s[0] == '^' then Some((Begin, s[1..]))
    else if s[0] == '$' then Some((End, s[1..]))
    else if IsMeta(s[0]) then None
    else Some((Lit(s[0]), s[1..]))
  }

  /** A concatenation of atoms, each possibly followed by a star. */
  function Parse(s: string): Option<seq<Item>>
    decreases |s|
  {
    if s == "" then Some([])
    else match ParseAtom(s)
      case None => None
      case Some((atom, rest)) =>
        var (item, rest) := if rest != "" && rest[0] == '*' then (Star(atom), rest[1..]) else (atom, rest);
        match Parse(rest)
        case None => None
        case Some(items) => Some([item] + items)
  }

  /** The atom matches one character, which for a dot is any but a line feed. */
  predicate Accepts(atom: Item, c: char) {
    match atom
    case Lit(d) => c == d
    case Dot => c != '\n'
    case _ => false
  }

  /** The items match exactly the characters of `t` from `i` to `j`. */
  predicate Matches(items: seq<Item>, t: string, i: nat, j: nat)
    requires i <= j <= |t|
    decreases |items|, j - i
  {
    if items == [] then i == j
    else match items[0]
      case Begin => i == 0 && Matches(items[1..], t, i, j)
      case End => i == |t| && Matches(items[1..], t, i, j)
      case Star(atom) =>
        Matches(items[1..], t, i, j) || (i < j && Accepts(atom, t[i]) && Matches(items, t, i + 1, j))
      case atom => i < j && Accepts(atom, t[i]) && Matches(items[1..], t, i + 1, j)
  }

  /** Regexp.MatchString: some substring matches.  A string that does not parse matches nothing. */
  predicate MatchString(rgx: string, t: string) {
    Parse(rgx).Some? && exists i: nat, j: nat :: i <= j <= |t| && Matches(Parse(rgx).value, t, i, j)
  }

  // ---- what a pattern is documented to mean -----------------------------------------------------------------------

  predicate OneLine(t: string) {
    '\n' !in t
  }

  /** A star stands for any string, a question mark for any character, anything else for itself; the wildcards do not
      reach over a line feed. */
  ghost predicate GlobMatch(g: string, t: string) {
    if g == "" then t == ""
    else if g[0] == '*' then exists k :: 0 <= k <= |t| && OneLine(t[..k]) && GlobMatch(g[1..], t[k..])
    else if g[0] == '?' then t != "" && t[0] != '\n' && GlobMatch(g[1..], t[1..])
    else t != "" && t[0] == g[0] && GlobMatch(g[1..], t[1..])
  }

  /** The same without the exception for line feeds. */
  ghost predicate PlainGlobMatch(g: string, t: string) {
    if g == "" then t == ""
    else if g[0] == '*' then exists k :: 0 <= k <= |t| && PlainGlobMatch(g[1..], t[k..])
    else if g[0] == '?' then t != "" && PlainGlobMatch(g[1..], t[1..])
    else t != "" && t[0] == g[0] && PlainGlobMatch(g[1..], t[1..])
  }

  // ---- the two replacements only ever hit what QuoteMeta escaped --------------------------------------------------

  /** The pattern translated character by character: stars, and question marks if `both`. */
  ghost function Translate(g: string, both: bool): string {
    if g == "" then ""
    else (if g[0] == '*' then ".*"
          else if both && g[0] == '?' then "."
          else if IsMeta(g[0]) then ['\\', g[0]]
          else [g[0]]) + Translate(g[1..], both)
  }

  /** The first replacement acts character by character, whatever backslashes the pattern itself contains. */
  lemma {:induction false} StarsAligned(g: string)
    ensures ReplaceAll(QuoteMeta(g), '\\', '*', ".*") == Translate(g, false)
  {
    if g != "" {
      var rest := QuoteMeta(g[1..]);
      var q := QuoteMeta(g);
      StarsAligned(g[1..]);
      if g[0] == '*' {
        assert q[2..] == rest;
      } else if IsMeta(g[0]) {
        assert q[1..] == [g[0]] + rest;
        assert rest != "" ==> rest[0] != '*';
        assert q[1..][1..] == rest;
      } else {
        assert q[1..] == rest;
      }
    }
  }

  /** And so does the second one on the result of the first. */
  lemma {:induction false} MarksAligned(g: string)
    ensures ReplaceAll(Translate(g, false), '\\', '?', ".") == Translate(g, true)
  {
    if g != "" {
      var rest := Translate(g[1..], false);
      var q := Translate(g, false);
      MarksAligned(g[1..]);
      assert rest != "" ==> rest[0] != '?';
      if g[0] == '?' {
        assert q[2..] == rest;
      } else if g[0] == '*' || IsMeta(g[0]) {
        assert q[1..][1..] == rest;
      } else {
        assert q[1..] == rest;
      }
    }
  }

  // ---- parsing the result -----------------------------------------------------------------------------------------

  /** The expression that a pattern stands for. */
  ghost function Items(g: string): seq<Item> {
    if g == "" then [] else [ItemFor(g[0])] + Items(g[1..])
  }

  ghost function ItemFor(c: char): Item {
    if c == '*' then Star(Dot) else if c == '?' then Dot else Lit(c)
  }

  /** One item at the head of a string, starred if a star follows its atom. */
  lemma ParseOne(s: string, atom: Item, rest: string)
    requires s != "" && ParseAtom(s) == Some((atom, rest)) && rest != ""
    ensures rest[0] != '*' && Parse(rest).Some? ==> Parse(s) == Some([atom] + Parse(rest).value)
    ensures rest[0] == '*' && Parse(rest[1..]).Some? ==> Parse(s) == Some([Star(atom)] + Parse(rest[1..]).value)
  {
    hide ParseAtom;
  }

  /** The translation of one character. */
  ghost function Code(c: char): string {
    if c == '*' then ".*" else if c == '?' then "." else if IsMeta(c) then ['\\', c] else [c]
  }

  lemma ParseCode(c: char, rest: string)
    requires rest != "" && rest[0] != '*' && Parse(rest).Some?
    ensures Parse(Code(c) + rest) == Some([ItemFor(c)] + Parse(rest).value)
  {
    hide Parse;
    var s := Code(c) + rest;
    if c == '*' {
      assert s[1..] == "*" + rest && ("*" + rest)[1..] == rest;
      ParseOne(s, Dot, "*" + rest);
    } else if c == '?' {
      assert s[1..] == rest;
      ParseOne(s, Dot, rest);
    } else if IsMeta(c) {
      assert s[2..] == rest;
      ParseOne(s, Lit(c), rest);
    } else {
      assert s[1..] == rest;
      ParseOne(s, Lit(c), rest);
    }
  }

  lemma TranslateStep(g: string)
    requires g != ""
    ensures Translate(g, true) == Code(g[0]) + Translate(g[1..], true)
  {
  }

  lemma NeverStar(g: string)
    ensures (Translate(g, true) + "$")[0] != '*'
  {
  }

  lemma ParsesEnd()
    ensures Parse("$") == Some([End])
  {
    assert "$"[1..] == "";
    assert Parse("") == Some([]);
    assert [End] + [] == [End];
  }

  lemma {:induction false} ParsesTranslation(g: string)
    ensures Parse(Translate(g, true) + "$") == Some(Items(g) + [End])
  {
    if g == "" {
      ParsesEnd();
      assert Translate(g, true) + "$" == "$" && Items(g) + [End] == [End];
    } else {
      var rest := Translate(g[1..], true) + "$";
      TranslateStep(g);
      NeverStar(g[1..]);
      ParsesTranslation(g[1..]);
      ParseCode(g[0], rest);
      hide Parse, Translate, Code;
      assert Code(g[0]) + rest == Translate(g, true) + "$";
      assert [ItemFor(g[0])] + (Items(g[1..]) + [End]) == Items(g) + [End];
    }
  }

  /** Every pattern compiles, to the anchored expression it stands for. */
  lemma CompiledForm(g: string)
    ensures Parse(PatternToRgx(g)) == Some([Begin] + Items(g) + [End])
  {
    StarsAligned(g);
    MarksAligned(g);
    ParsesTranslation(g);
    var s := Translate(g, true) + "$";
    assert PatternToRgx(g) == "^" + s;
    assert PatternToRgx(g)[1..] == s;
    assert s[0] != '*';
    assert [Begin] + (Items(g) + [End]) == [Begin] + Items(g) + [End];
  }

  // ---- matching ---------------------------------------------------------------------------------------------------

  /** A starred dot followed by more matches exactly if some one-line prefix can be skipped. */
  lemma {:induction false} StarSkips(items: seq<Item>, t: string, i: nat, j: nat)
    requires i <= j <= |t| && items != [] && items[0] == Star(Dot)
    ensures Matches(items, t, i, j) <==> exists k :: i <= k <= j && OneLine(t[i..k]) && Matches(items[1..], t, k, j)
    decreases j - i
  {
    if Matches(items[1..], t, i, j) {
      assert OneLine(t[i..i]);
    }
    if i < j {
      StarSkips(items, t, i + 1, j);
      forall k | i < k <= j
        ensures OneLine(t[i..k]) <==> t[i] != '\n' && OneLine(t[i + 1..k])
      {
        assert t[i..k] == [t[i]] + t[i + 1..k];
      }
    }
  }

  lemma {:induction false} MatchesMeans(g: string, t: string, i: nat, j: nat)
    requires i <= j <= |t|
    ensures Matches(Items(g) + [End], t, i, j) <==> j == |t| && GlobMatch(g, t[i..])
    decreases |g|
  {
    var items := Items(g) + [End];
    if g == "" {
      assert items[1..] == [];
    } else {
      assert items[1..] == Items(g[1..]) + [End];
      if g[0] == '*' {
        StarSkips(items, t, i, j);
        forall k | i <= k <= j
          ensures Matches(items[1..], t, k, j) <==> j == |t| && GlobMatch(g[1..], t[k..])
        {
          MatchesMeans(g[1..], t, k, j);
        }
        Reindex(g, t, i);
      } else if i < j {
        MatchesMeans(g[1..], t, i + 1, j);
        assert t[i..][1..] == t[i + 1..];
      }
    }
  }

  lemma Reindex(g: string, t: string, i: nat)
    requires g != "" && g[0] == '*' && i <= |t|
    ensures GlobMatch(g, t[i..]) <==> exists k :: i <= k <= |t| && OneLine(t[i..k]) && GlobMatch(g[1..], t[k..])
  {
    var u := t[i..];
    forall k | 0 <= k <= |u|
      ensures u[..k] == t[i..i + k] && u[k..] == t[i + k..]
    {
    }
    if GlobMatch(g, u) {
      var k :| 0 <= k <= |u| && OneLine(u[..k]) && GlobMatch(g[1..], u[k..]);
      assert i <= i + k <= |t| && OneLine(t[i..i + k]) && GlobMatch(g[1..], t[i + k..]);
    }
    if k :| i <= k <= |t| && OneLine(t[i..k]) && GlobMatch(g[1..], t[k..]) {
      assert u[..k - i] == t[i..k] && u[k - i..] == t[k..];
    }
  }

  /** The compiler preserves meaning: for every pattern and every text, the expression made by quoting, replacing and
      anchoring matches exactly the texts that the pattern matches. */
  lemma CompilerPreservesMeaning(g: string, t: string)
    ensures MatchString(PatternToRgx(g), t) <==> GlobMatch(g, t)
  {
    CompiledForm(g);
    var items := [Begin] + Items(g) + [End];
    assert items[1..] == Items(g) + [End];
    assert t[0..] == t;
    forall i: nat, j: nat | i <= j <= |t|
      ensures Matches(items, t, i, j) <==> i == 0 && j == |t| && GlobMatch(g, t)
    {
      if i == 0 {
        MatchesMeans(g, t, 0, j);
      }
    }
    if GlobMatch(g, t) {
      assert Matches(items, t, 0, |t|);
    }
  }

  /** In terms of the compiled expressions alone: the empty pattern matches the empty text only, a question mark takes one
      character that is not a line feed, a star any number of such characters, and any other character itself. */
  lemma CompiledStepByStep(c: char, g: string, t: string)
    ensures MatchString(PatternToRgx(""), t) <==> t == ""
    ensures c == '?' ==>
              (MatchString(PatternToRgx([c] + g), t) <==> t != "" && t[0] != '\n' && MatchString(PatternToRgx(g), t[1..]))
    ensures c == '*' ==>
              (MatchString(PatternToRgx([c] + g), t) <==>
               exists k :: 0 <= k <= |t| && '\n' !in t[..k] && MatchString(PatternToRgx(g), t[k..]))
    ensures c != '?' && c != '*' ==>
              (MatchString(PatternToRgx([c] + g), t) <==> t != "" && t[0] == c && MatchString(PatternToRgx(g), t[1..]))
  {
    hide MatchString, PatternToRgx;
    CompilerPreservesMeaning("", t);
    CompilerPreservesMeaning([c] + g, t);
    assert ([c] + g)[1..] == g;
    forall k | 0 <= k <= |t| ensures MatchString(PatternToRgx(g), t[k..]) <==> GlobMatch(g, t[k..]) {
      CompilerPreservesMeaning(g, t[k..]);
    }
  }

  lemma {:induction false} OneLineIsPlain(g: string, t: string)
    requires OneLine(t)
    ensures GlobMatch(g, t) <==> PlainGlobMatch(g, t)
  {
    if g != "" {
      if g[0] == '*' {
        forall k | 0 <= k <= |t|
          ensures OneLine(t[..k]) && (GlobMatch(g[1..], t[k..]) <==> PlainGlobMatch(g[1..], t[k..]))
        {
          OneLineIsPlain(g[1..], t[k..]);
        }
      } else if t != "" {
        OneLineIsPlain(g[1..], t[1..]);
      }
    }
  }

  /** The compiled patterns agree with the plain wildcard match on a text exactly if the text has no line feed. */
  lemma PlainExactlyOnOneLine(t: string)
    ensures OneLine(t) <==> forall g :: MatchString(PatternToRgx(g), t) <==> PlainGlobMatch(g, t)
  {
    if OneLine(t) {
      forall g
        ensures MatchString(PatternToRgx(g), t) <==> PlainGlobMatch(g, t)
      {
        CompilerPreservesMeaning(g, t);
        OneLineIsPlain(g, t);
      }
    } else {
      var g := "*";
      CompilerPreservesMeaning(g, t);
      assert PlainGlobMatch(g[1..], t[|t|..]);
      forall k | 0 <= k <= |t| && GlobMatch(g[1..], t[k..])
        ensures t[..k] == t
      {
      }
    }
  }
}
