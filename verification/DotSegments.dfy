/** normalizePath beside the removal of dot segments, section 5.2.4 of RFC 3986: two rewritings of absolute paths, and
    exactly when they agree (pkg/lb/httpcommon.go, pkg/lb/lb.go). */
module DotSegments {
  import opened Text
  import opened NormalizePath

  // ---- the standard's algorithm ------------------------------------------------------------------------------------

  /** The output buffer without its last segment and the slash before it. */
  function DropLast(output: string): (r: string)
    ensures |r| <= |output|
  {
    if output == "" then ""
    else if output[|output| - 1] == '/' then output[..|output| - 1]
    else DropLast(output[..|output| - 1])
  }

  /** The length of the first segment with the slash before it, if any. */
  function FirstSegment(input: string): (n: nat)
    requires input != ""
    ensures 0 < n <= |input|
  {
    if input[0] == '/' then 1 + IndexOf(input[1..], '/') else IndexOf(input, '/')
  }

  /** Steps A to E of section 5.2.4 of RFC 3986. */
  function RemoveDotSegments(input: string, output: string): string
    decreases |input|
  {
    if input == "" then output
    else if "../" <= input then RemoveDotSegments(input[3..], output)
    else if "./" <= input then RemoveDotSegments(input[2..], output)
    else if "/./" <= input then RemoveDotSegments(input[2..], output)
    else if input == "/." then RemoveDotSegments("/", output)
    else if "/../" <= input then RemoveDotSegments(input[3..], DropLast(output))
    else if input == "/.." then RemoveDotSegments("/", DropLast(output))
    else if input == "." || input == ".." then output
    else
      var n := FirstSegment(input);
      RemoveDotSegments(input[n..], output + input[..n])
  }

  // ---- absolute paths as segments ----------------------------------------------------------------------------------

  predicate NoSlash(segs: seq<string>) {
    forall i :: 0 <= i < |segs| ==> '/' !in segs[i]
  }

  /** Each segment after a slash. */
  function Join(segs: seq<string>): string {
    if segs == [] then "" else "/" + segs[0] + Join(segs[1..])
  }

  function Segments(path: string): seq<string>
    requires path != ""
  {
    Split(path[1..], '/')
  }

  lemma JoinStep(s: string, rest: seq<string>)
    ensures Join([s] + rest) == "/" + s + Join(rest)
  {
    assert ([s] + rest)[1..] == rest;
  }

  lemma JoinOne(s: string)
    ensures Join([s]) == "/" + s
  {
    JoinStep(s, []);
    assert [s] + [] == [s];
  }

  lemma {:induction false} JoinSplit(p: string)
    ensures Join(Split(p, '/')) == "/" + p && NoSlash(Split(p, '/'))
    decreases |p|
  {
    hide Join;
    var i := IndexOf(p, '/');
    if i == |p| {
      assert p[..i] == p;
      JoinOne(p);
    } else {
      JoinSplit(p[i + 1..]);
      JoinStep(p[..i], Split(p[i + 1..], '/'));
      assert p == p[..i] + ("/" + p[i + 1..]);
      Assoc("/", p[..i], "/" + p[i + 1..]);
    }
  }

  lemma {:induction false} SplitJoin(segs: seq<string>)
    requires segs != [] && NoSlash(segs)
    ensures Join(segs) != "" && Segments(Join(segs)) == segs
  {
    var s, j := segs[0], Join(segs[1..]);
    var p := s + j;
    Assoc("/", s, j);
    assert Join(segs)[1..] == p;
    assert segs == [s] + segs[1..];
    if |segs| == 1 {
      assert p == s;
      FoundAt(p, '/', |p|);
    } else {
      SplitJoin(segs[1..]);
      assert j[0] == '/' && p[..|s|] == s && p[|s| + 1..] == j[1..];
      FoundAt(p, '/', |s|);
    }
  }

  /** A path can be read as segments in one way only. */
  lemma JoinInjective(a: seq<string>, b: seq<string>)
    requires a != [] && b != [] && NoSlash(a) && NoSlash(b)
    ensures Join(a) == Join(b) <==> a == b
  {
    SplitJoin(a);
    SplitJoin(b);
  }

  // ---- the standard's algorithm on segments ------------------------------------------------------------------------

  function Pop(stack: seq<string>): seq<string> {
    if stack == [] then [] else stack[..|stack| - 1]
  }

  /** What is left of the segments, after those already on the stack. */
  function Standard(segs: seq<string>, stack: seq<string>): (r: seq<string>)
    requires segs != []
    ensures r != []
  {
    var s, rest := segs[0], segs[1..];
    if rest == [] then
      if s == "." then stack + [""] else if s == ".." then Pop(stack) + [""] else stack + [s]
    else
      if s == "." then Standard(rest, stack)
      else if s == ".." then Standard(rest, Pop(stack))
      else Standard(rest, stack + [s])
  }

  lemma {:induction false} JoinConcat(a: seq<string>, b: seq<string>)
    ensures Join(a + b) == Join(a) + Join(b)
  {
    if a == [] {
      assert a + b == b;
    } else {
      hide Join;
      assert a == [a[0]] + a[1..];
      Assoc([a[0]], a[1..], b);
      JoinStep(a[0], a[1..]);
      JoinStep(a[0], a[1..] + b);
      JoinConcat(a[1..], b);
      Assoc("/" + a[0], Join(a[1..]), Join(b));
    }
  }

  lemma {:induction false} DropsSegment(before: string, s: string)
    requires '/' !in s
    ensures DropLast(before + ("/" + s)) == before
  {
    var t := before + ("/" + s);
    if s == "" {
      assert t[..|t| - 1] == before;
    } else {
      assert t[..|t| - 1] == before + ("/" + s[..|s| - 1]);
      assert t[|t| - 1] == s[|s| - 1];
      DropsSegment(before, s[..|s| - 1]);
    }
  }

  lemma DropIsPop(stack: seq<string>)
    requires NoSlash(stack)
    ensures DropLast(Join(stack)) == Join(Pop(stack)) && NoSlash(Pop(stack))
  {
    if stack != [] {
      var init, s := stack[..|stack| - 1], stack[|stack| - 1];
      assert stack == init + [s];
      JoinConcat(init, [s]);
      JoinOne(s);
      DropsSegment(Join(init), s);
    }
  }

  /** One segment of an absolute input, by what it is and whether more follows. */
  lemma OneSegment(s: string, more: string, output: string)
    requires '/' !in s && (more == "" || more[0] == '/')
    ensures RemoveDotSegments("/" + s + more, output) ==
              if more == "" then
                if s == "." then output + "/" else if s == ".." then DropLast(output) + "/" else output + ("/" + s)
              else
                if s == "." then RemoveDotSegments(more, output)
                else if s == ".." then RemoveDotSegments(more, DropLast(output))
                else RemoveDotSegments(more, output + ("/" + s))
  {
    hide RemoveDotSegments;
    if s == "." {
      OneDot(more, output);
    } else if s == ".." {
      TwoDots(more, output);
    } else {
      OtherSegment(s, more, output);
    }
  }

  lemma OneDot(more: string, output: string)
    requires more == "" || more[0] == '/'
    ensures RemoveDotSegments("/" + "." + more, output) == if more == "" then output + "/" else RemoveDotSegments(more, output)
  {
    var input := "/" + "." + more;
    assert input[0] == '/' && "../"[0] == "./"[0] == '.';
    if more != "" {
      assert input[..3] == "/./" && input[2..] == more;
    } else {
      assert input == "/.";
      OnlySlash(output);
    }
  }

  lemma TwoDots(more: string, output: string)
    requires more == "" || more[0] == '/'
    ensures RemoveDotSegments("/" + ".." + more, output) ==
            if more == "" then DropLast(output) + "/" else RemoveDotSegments(more, DropLast(output))
  {
    hide DropLast;
    var input := "/" + ".." + more;
    assert input[0] == '/' && input[1] == input[2] == '.' && "../"[0] == "./"[0] == '.' && "/./"[2] == '/';
    if more != "" {
      assert input[..4] == "/../" && input[3..] == more;
    } else {
      assert input == "/..";
      OnlySlash(DropLast(output));
    }
  }

  lemma OtherSegment(s: string, more: string, output: string)
    requires '/' !in s && s != "." && s != ".." && (more == "" || more[0] == '/')
    ensures RemoveDotSegments("/" + s + more, output) ==
            if more == "" then output + ("/" + s) else RemoveDotSegments(more, output + ("/" + s))
  {
    hide DropLast;
    var input := "/" + s + more;
    assert input[0] == '/' && "../"[0] == "./"[0] == "."[0] == ".."[0] == '.';
    NotDots(s, more);
    SegmentLength(s, more);
    assert RemoveDotSegments("", output + ("/" + s)) == output + ("/" + s);
  }

  lemma SegmentLength(s: string, more: string)
    requires '/' !in s && (more == "" || more[0] == '/')
    ensures var input := "/" + s + more;
            FirstSegment(input) == 1 + |s| && input[..1 + |s|] == "/" + s && input[1 + |s|..] == more
  {
    var input := "/" + s + more;
    assert input[1..] == s + more;
    FoundAt(input[1..], '/', |s|);
  }

  lemma OnlySlash(output: string)
    ensures RemoveDotSegments("/", output) == output + "/"
  {
    assert "/"[1..] == "";
    assert "/"[..1] == "/" && RemoveDotSegments("", output + "/") == output + "/";
  }

  lemma NotDots(s: string, more: string)
    requires '/' !in s && s != "." && s != ".." && (more == "" || more[0] == '/')
    ensures var input := "/" + s + more;
            !("/./" <= input) && input != "/." && !("/../" <= input) && input != "/.."
  {
    var input := "/" + s + more;
    assert forall i :: 0 <= i < |s| ==> input[i + 1] == s[i];
    assert more != "" ==> input[|s| + 1] == '/';
    assert "/./"[1] == '.' && "/./"[2] == '/' && "/../"[1] == '.' && "/../"[2] == '.' && "/../"[3] == '/';
    assert "/."[1] == '.' && "/.."[1] == '.' && "/.."[2] == '.';
    if |s| == 1 {
      assert s == [s[0]] && (s[0] == '.' ==> s == ".");
    } else if |s| == 2 {
      assert s == [s[0], s[1]] && (s[0] == '.' && s[1] == '.' ==> s == "..");
    }
  }

  /** On absolute paths the standard's algorithm works segment by segment. */
  lemma {:induction false} StandardIs(segs: seq<string>, stack: seq<string>)
    requires segs != [] && NoSlash(segs) && NoSlash(stack)
    ensures RemoveDotSegments(Join(segs), Join(stack)) == Join(Standard(segs, stack))
    ensures NoSlash(Standard(segs, stack))
    decreases |segs|
  {
    hide RemoveDotSegments, DropLast, Join;
    var s, rest := segs[0], segs[1..];
    assert segs == [s] + rest;
    JoinStep(s, rest);
    JoinEnds(rest);
    OneSegment(s, Join(rest), Join(stack));
    DropIsPop(stack);
    JoinConcat(stack, [s]);
    JoinConcat(stack, [""]);
    JoinConcat(Pop(stack), [""]);
    JoinOne(s);
    JoinOne("");
    if rest != [] {
      if s == "." {
        StandardIs(rest, stack);
      } else if s == ".." {
        StandardIs(rest, Pop(stack));
      } else {
        StandardIs(rest, stack + [s]);
      }
    }
  }

  lemma JoinEnds(segs: seq<string>)
    ensures segs == [] <==> Join(segs) == ""
    ensures segs != [] ==> Join(segs)[0] == '/'
  {
  }

  // ---- normalizePath on segments -----------------------------------------------------------------------------------

  /** A segment without the dots at its head. */
  function Strip(s: string): (r: string)
    ensures r == "" || r[0] != '.'
    ensures |r| <= |s| && (r == s <==> s == "" || s[0] != '.')
  {
    if s != "" && s[0] == '.' then Strip(s[1..]) else s
  }

  /** What is left of the segments: the stripped ones that are not empty, and the last in any case. */
  function Kept(segs: seq<string>): (r: seq<string>)
    requires segs != []
    ensures r != []
  {
    var s := Strip(segs[0]);
    if |segs| == 1 then [s] else (if s == "" then [] else [s]) + Kept(segs[1..])
  }

  lemma {:induction false} PlainStays(s: string, more: string)
    requires '/' !in s
    ensures Collapse(s + more) == s + Collapse(more)
  {
    if s == "" {
      assert s + more == more;
    } else {
      assert s + more == [s[0]] + (s[1..] + more);
      HeadStays(s[0], s[1..] + more);
      PlainStays(s[1..], more);
    }
  }

  lemma SlashAlone()
    ensures Collapse("/") == "/"
  {
    assert "/"[1..] == "";
  }

  /** A slash, a segment, and what follows. */
  lemma {:induction false} OneCollapse(s: string, more: string)
    requires '/' !in s && (more == "" || more[0] == '/')
    ensures Collapse("/" + s + more) ==
              if Strip(s) != "" then "/" + Strip(s) + Collapse(more) else if more == "" then "/" else Collapse(more)
    decreases |s|
  {
    hide Collapse;
    assert "/" + s + more == "/" + (s + more);
    if s + more == "" {
      assert s == "" && more == "" && "/" + s + more == "/";
      SlashAlone();
    } else {
      AfterSlash(s + more);
      if s == "" {
        assert s + more == more;
      } else if s[0] == '.' {
        assert "/" + (s + more)[1..] == "/" + s[1..] + more;
        OneCollapse(s[1..], more);
      } else {
        PlainStays(s, more);
      }
    }
  }

  /** On absolute paths normalizePath works segment by segment. */
  lemma {:induction false} KeptIs(segs: seq<string>)
    requires segs != [] && NoSlash(segs)
    ensures Collapse(Join(segs)) == Join(Kept(segs)) && NoSlash(Kept(segs))
  {
    hide Collapse, Join;
    var s, rest := segs[0], segs[1..];
    assert segs == [s] + rest;
    JoinStep(s, rest);
    JoinEnds(rest);
    OneCollapse(s, Join(rest));
    StripNoSlash(s);
    JoinOne(Strip(s));
    if rest == [] {
      NothingCollapses();
      assert "/" + Strip(s) + "" == "/" + Strip(s);
      JoinOne("");
    } else {
      KeptIs(rest);
      JoinStep(Strip(s), Kept(rest));
      assert [] + Kept(rest) == Kept(rest);
    }
  }

  lemma NothingCollapses()
    ensures Collapse("") == "" && Join([]) == ""
  {
  }

  lemma {:induction false} StripNoSlash(s: string)
    requires '/' !in s
    ensures '/' !in Strip(s)
  {
    if s != "" {
      StripNoSlash(s[1..]);
    }
  }

  // ---- when the two agree ------------------------------------------------------------------------------------------

  /** A segment that is not empty and does not start with a dot. */
  predicate Clean(s: string) {
    s != "" && s[0] != '.'
  }

  predicate AllClean(segs: seq<string>) {
    forall i :: 0 <= i < |segs| ==> Clean(segs[i])
  }

  predicate AllBlank(segs: seq<string>) {
    forall i :: 0 <= i < |segs| ==> Strip(segs[i]) == ""
  }

  /** A scan of the segments from the left.  `blanks` counts the segments with nothing but dots in them (none, or three and
      more) that no `..` has taken back yet, `solid` says that a segment with something else has been seen.  Each blank
      must be taken back before the next solid segment and before the end, nothing solid may be taken back, and no solid
      segment may start with a dot. */
  predicate Agrees(segs: seq<string>, blanks: nat, solid: bool)
    requires segs != []
  {
    var s, rest := segs[0], segs[1..];
    if rest == [] then
      if s == "." then blanks == 0
      else if s == ".." then blanks == 1 || (blanks == 0 && !solid)
      else blanks == 0 && (s == "" || s[0] != '.')
    else
      if s == "." then Agrees(rest, blanks, solid)
      else if s == ".." then if blanks > 0 then Agrees(rest, blanks - 1, solid) else !solid && Agrees(rest, 0, solid)
      else if Strip(s) == "" then Agrees(rest, blanks + 1, solid)
      else blanks == 0 && s[0] != '.' && Agrees(rest, 0, true)
  }

  function CleanCount(segs: seq<string>): nat {
    if segs == [] then 0 else CleanCount(segs[..|segs| - 1]) + if Clean(segs[|segs| - 1]) then 1 else 0
  }

  lemma {:induction false} CountConcat(a: seq<string>, b: seq<string>)
    ensures CleanCount(a + b) == CleanCount(a) + CleanCount(b)
  {
    if b == [] {
      assert a + b == a;
    } else {
      assert (a + b)[..|a + b| - 1] == a + b[..|b| - 1];
      CountConcat(a, b[..|b| - 1]);
    }
  }

  lemma CountOne(s: string)
    ensures CleanCount([s]) == if Clean(s) then 1 else 0
  {
    assert [s][..0] == [];
  }

  lemma {:induction false} CountAll(segs: seq<string>)
    ensures AllClean(segs) ==> CleanCount(segs) == |segs|
    ensures AllBlank(segs) ==> CleanCount(segs) == 0
  {
    if segs != [] {
      CountAll(segs[..|segs| - 1]);
    }
  }

  /** The segments but the last. */
  function Front(segs: seq<string>): seq<string>
    requires segs != []
  {
    segs[..|segs| - 1]
  }

  lemma CountFront(s: string, rest: seq<string>)
    requires rest != []
    ensures CleanCount(Front([s] + rest)) == (if Clean(s) then 1 else 0) + CleanCount(Front(rest))
  {
    assert Front([s] + rest) == [s] + Front(rest);
    CountConcat([s], Front(rest));
    CountOne(s);
  }

  /** The standard never makes clean segments. */
  lemma {:induction false} StandardCount(segs: seq<string>, stack: seq<string>)
    requires segs != []
    ensures CleanCount(Front(Standard(segs, stack))) <= CleanCount(stack) + CleanCount(Front(segs))
    decreases |segs|
  {
    hide CleanCount;
    var s, rest := segs[0], segs[1..];
    PopCount(stack);
    if rest == [] {
      assert forall x: string, t: seq<string> :: Front(t + [x]) == t;
    } else {
      assert segs == [s] + rest;
      CountFront(s, rest);
      if s == "." {
        StandardCount(rest, stack);
      } else if s == ".." {
        StandardCount(rest, Pop(stack));
      } else {
        StandardCount(rest, stack + [s]);
        CountConcat(stack, [s]);
        CountOne(s);
      }
    }
  }

  lemma PopCount(stack: seq<string>)
    ensures CleanCount(Pop(stack)) <= CleanCount(stack)
  {
  }

  lemma NoneClean()
    ensures CleanCount([]) == 0
  {
  }

  /** normalizePath keeps them all, and those it keeps are clean but perhaps for the last. */
  lemma {:induction false} KeptCount(segs: seq<string>)
    requires segs != []
    ensures AllClean(Front(Kept(segs))) && CleanCount(Front(segs)) <= |Kept(segs)| - 1
  {
    hide CleanCount;
    var s, rest := segs[0], segs[1..];
    assert segs == [s] + rest;
    if rest == [] {
      NoneClean();
      assert Front(segs) == [] && Front(Kept(segs)) == [];
    } else {
      CountFront(s, rest);
      KeptCount(rest);
      if Strip(s) != "" {
        assert Front(Kept(segs)) == [Strip(s)] + Front(Kept(rest));
      } else {
        assert Kept(segs) == Kept(rest);
      }
    }
  }

  /** Clean segments missing from the stack stay missing. */
  lemma Deficit(segs: seq<string>, stack: seq<string>, base: seq<string>)
    requires segs != [] && AllClean(base) && CleanCount(stack) < |base|
    ensures Standard(segs, stack) != base + Kept(segs)
  {
    hide CleanCount;
    StandardCount(segs, stack);
    KeptFront(segs, base);
  }

  lemma KeptFront(segs: seq<string>, base: seq<string>)
    requires segs != [] && AllClean(base)
    ensures CleanCount(Front(base + Kept(segs))) >= |base| + CleanCount(Front(segs))
    ensures Front(base + Kept(segs)) == base + Front(Kept(segs))
  {
    hide CleanCount;
    KeptCount(segs);
    assert Front(base + Kept(segs)) == base + Front(Kept(segs));
    CountConcat(base, Front(Kept(segs)));
    CountAll(base);
    CountAll(Front(Kept(segs)));
  }

  /** Either the bottom of the stack stays, or it was uncovered and its last segment taken back. */
  lemma {:induction false} Buried(segs: seq<string>, bottom: seq<string>, top: seq<string>)
    requires segs != [] && bottom != []
    ensures var r := Front(Standard(segs, bottom + top));
            bottom <= r || CleanCount(r) <= CleanCount(Front(bottom)) + CleanCount(Front(segs))
    decreases |segs|
  {
    hide CleanCount;
    var s, rest := segs[0], segs[1..];
    var stack := bottom + top;
    if top == [] {
      assert stack == bottom && Pop(stack) == Front(bottom);
    } else {
      assert Pop(stack) == bottom + top[..|top| - 1];
    }
    if rest == [] {
      assert forall x: string, t: seq<string> :: Front(t + [x]) == t;
    } else {
      assert segs == [s] + rest;
      CountFront(s, rest);
      if s == "." {
        Buried(rest, bottom, top);
      } else if s == ".." {
        if top == [] {
          StandardCount(rest, Front(bottom));
        } else {
          Buried(rest, bottom, top[..|top| - 1]);
        }
      } else {
        assert stack + [s] == bottom + (top + [s]);
        Buried(rest, bottom, top + [s]);
      }
    }
  }

  /** A blank under a solid segment can no longer be taken back without the solid one. */
  lemma BlankBelow(rest: seq<string>, base: seq<string>, blanks: seq<string>, s: string)
    requires rest != [] && AllClean(base) && AllBlank(blanks) && blanks != [] && Clean(s)
    ensures Standard(rest, base + blanks + [s]) != (base + [s]) + Kept(rest)
  {
    hide CleanCount;
    var bottom := base + blanks + [s];
    assert bottom + [] == bottom;
    assert Front(bottom) == base + blanks;
    Buried(rest, bottom, []);
    CountConcat(base, blanks);
    CountAll(base);
    CountAll(blanks);
    KeptFront(rest, base + [s]);
    assert bottom[|base|] == blanks[0];
    assert ((base + [s]) + Front(Kept(rest)))[|base|] == s;
  }

  /** The end of the scan. */
  lemma LastSegment(s: string, base: seq<string>, blanks: seq<string>)
    requires AllClean(base) && AllBlank(blanks)
    ensures Standard([s], base + blanks) == base + Kept([s]) <==> Agrees([s], |blanks|, base != [])
  {
    var stack := base + blanks;
    assert [s][1..] == [];
    assert Kept([s]) == [Strip(s)];
    var r := Standard([s], stack);
    if |r| == |base| + 1 {
      assert (base + [Strip(s)])[|base|] == Strip(s);
      if s == "." || (s != ".." && s != ".") {
        assert stack == base;
      } else if blanks != [] {
        assert Pop(stack) == base;
      } else {
        assert stack == base;
      }
    }
  }

  /** A solid segment that starts with a dot is kept without its dots here and with them there. */
  lemma DotSolid(rest: seq<string>, base: seq<string>, blanks: seq<string>, s: string)
    requires rest != [] && AllClean(base) && AllBlank(blanks) && Strip(s) != "" && s[0] == '.'
    ensures Standard(rest, base + blanks + [s]) != (base + [Strip(s)]) + Kept(rest)
  {
    hide CleanCount;
    CountConcat(base + blanks, [s]);
    CountConcat(base, blanks);
    CountAll(base);
    CountAll(blanks);
    CountOne(s);
    Deficit(rest, base + blanks + [s], base + [Strip(s)]);
  }

  /** A solid segment that was taken back there is still here. */
  lemma SolidPopped(rest: seq<string>, base: seq<string>)
    requires rest != [] && AllClean(base) && base != []
    ensures Standard(rest, Pop(base)) != base + Kept(rest)
  {
    hide CleanCount;
    CountAll(Pop(base));
    Deficit(rest, Pop(base), base);
  }

  /** One step of the three recursions. */
  lemma OneStep(segs: seq<string>, stack: seq<string>, blanks: nat, solid: bool)
    requires |segs| > 1
    ensures var s, rest := segs[0], segs[1..];
            && Standard(segs, stack) == Standard(rest, if s == "." then stack else if s == ".." then Pop(stack) else stack + [s])
            && Kept(segs) == (if Strip(s) == "" then Kept(rest) else [Strip(s)] + Kept(rest))
            && (Agrees(segs, blanks, solid) <==>
                if s == "." then Agrees(rest, blanks, solid)
                else if s == ".." then if blanks > 0 then Agrees(rest, blanks - 1, solid) else !solid && Agrees(rest, 0, solid)
                else if Strip(s) == "" then Agrees(rest, blanks + 1, solid)
                else blanks == 0 && s[0] != '.' && Agrees(rest, 0, true))
    ensures Strip(".") == "" && Strip("..") == ""
  {
    hide Clean;
    assert [] + Kept(segs[1..]) == Kept(segs[1..]);
    assert "."[1..] == "" && ".."[1..] == ".";
  }

  /** The scan decides whether the two rewritings leave the same segments. */
  lemma {:induction false} AgreesIs(segs: seq<string>, base: seq<string>, blanks: seq<string>)
    requires segs != [] && AllClean(base) && AllBlank(blanks)
    ensures Standard(segs, base + blanks) == base + Kept(segs) <==> Agrees(segs, |blanks|, base != [])
    decreases |segs|
  {
    hide CleanCount, Standard, Kept, Agrees;
    var s, rest := segs[0], segs[1..];
    if rest == [] {
      assert segs == [s];
      LastSegment(s, base, blanks);
    } else {
      OneStep(segs, base + blanks, |blanks|, base != []);
      if s == "." {
        AgreesIs(rest, base, blanks);
      } else if s == ".." {
        if blanks != [] {
          assert Pop(base + blanks) == base + blanks[..|blanks| - 1];
          AgreesIs(rest, base, blanks[..|blanks| - 1]);
        } else {
          assert base + blanks == base;
          if base == [] {
            AgreesIs(rest, base, blanks);
          } else {
            SolidPopped(rest, base);
          }
        }
      } else if Strip(s) == "" {
        Assoc(base, blanks, [s]);
        AgreesIs(rest, base, blanks + [s]);
      } else {
        Assoc(base, [Strip(s)], Kept(rest));
        if s[0] == '.' {
          DotSolid(rest, base, blanks, s);
        } else if blanks != [] {
          BlankBelow(rest, base, blanks, s);
        } else {
          assert base + blanks + [s] == (base + [s]) + [];
          AgreesIs(rest, base + [s], []);
        }
      }
    }
  }

  lemma AbsoluteAgreement(path: string)
    requires path != "" && path[0] == '/'
    ensures Collapse(path) == RemoveDotSegments(path, "") <==> Agrees(Segments(path), 0, false)
  {
    var segs := Segments(path);
    var none: seq<string> := [];
    assert path == "/" + path[1..];
    JoinSplit(path[1..]);
    KeptIs(segs);
    StandardIs(segs, none);
    JoinInjective(Kept(segs), Standard(segs, none));
    AgreesIs(segs, none, none);
    assert none + Kept(segs) == Kept(segs) && none + none == none;
    assert Join(none) == "";
  }

  // ---- paths with a first segment that no slash comes before -------------------------------------------------------

  /** No `..` finds the stack empty, when there are n segments on it to begin with. */
  predicate NoUnderflow(segs: seq<string>, n: nat)
    requires segs != []
  {
    var s, rest := segs[0], segs[1..];
    if rest == [] then s == ".." ==> n > 0
    else if s == "." then NoUnderflow(rest, n)
    else if s == ".." then n > 0 && NoUnderflow(rest, n - 1)
    else NoUnderflow(rest, n + 1)
  }

  /** Whatever the output starts with stays there as long as the stack does not run out; once it does, it is gone. */
  lemma {:induction false} WithPrefix(segs: seq<string>, pre: string, stack: seq<string>)
    requires segs != [] && NoSlash(segs) && NoSlash(stack) && pre != "" && '/' !in pre
    ensures RemoveDotSegments(Join(segs), pre + Join(stack)) ==
            if NoUnderflow(segs, |stack|) then pre + Join(Standard(segs, stack)) else Join(Standard(segs, stack))
    decreases |segs|
  {
    hide RemoveDotSegments, DropLast, Join;
    var s, rest := segs[0], segs[1..];
    assert segs == [s] + rest;
    JoinStep(s, rest);
    JoinEnds(rest);
    OneSegment(s, Join(rest), pre + Join(stack));
    DropIsPopAfter(pre, stack);
    PushAfter(pre, stack, s);
    PushAfter(pre, stack, "");
    PushAfter(pre, Pop(stack), "");
    NothingJoined();
    if rest == [] {
      JoinOne("");
      assert "" + "/" == "/" && [] + [""] == [""];
    } else if s == "." {
      WithPrefix(rest, pre, stack);
    } else if s == ".." {
      if stack == [] {
        StandardIs(rest, []);
      } else {
        WithPrefix(rest, pre, Pop(stack));
      }
    } else {
      WithPrefix(rest, pre, stack + [s]);
    }
  }

  lemma NothingJoined()
    ensures Join([]) == ""
  {
  }

  lemma PushAfter(pre: string, stack: seq<string>, s: string)
    ensures pre + Join(stack) + ("/" + s) == pre + Join(stack + [s])
  {
    JoinConcat(stack, [s]);
    JoinOne(s);
    Assoc(pre, Join(stack), "/" + s);
  }

  lemma DropIsPopAfter(pre: string, stack: seq<string>)
    requires NoSlash(stack) && '/' !in pre
    ensures DropLast(pre + Join(stack)) == if stack == [] then "" else pre + Join(Pop(stack))
    ensures NoSlash(Pop(stack))
  {
    if stack == [] {
      assert pre + Join(stack) == pre;
      DropsAll(pre);
    } else {
      var init, s := stack[..|stack| - 1], stack[|stack| - 1];
      assert stack == init + [s];
      PushAfter(pre, init, s);
      DropsSegment(pre + Join(init), s);
    }
  }

  lemma {:induction false} DropsAll(s: string)
    requires '/' !in s
    ensures DropLast(s) == ""
  {
    if s != "" {
      DropsAll(s[..|s| - 1]);
    }
  }

  /** A scan that starts as if something solid had been seen is one without underflow. */
  lemma {:induction false} SolidScan(segs: seq<string>, blanks: nat, n: nat, solid: bool)
    requires segs != [] && blanks <= n && (solid <==> blanks < n)
    ensures Agrees(segs, blanks, true) <==> Agrees(segs, blanks, solid) && NoUnderflow(segs, n)
  {
    var s, rest := segs[0], segs[1..];
    if rest != [] {
      if s == "." {
        SolidScan(rest, blanks, n, solid);
      } else if s == ".." {
        if blanks > 0 {
          SolidScan(rest, blanks - 1, n - 1, solid);
        } else if solid {
        }
      } else if Strip(s) == "" {
        SolidScan(rest, blanks + 1, n + 1, solid);
      } else if blanks == 0 {
        SolidScan(rest, 0, n + 1, true);
      }
    }
  }

  function First(path: string): string {
    path[..IndexOf(path, '/')]
  }

  function AfterFirst(path: string): string {
    path[IndexOf(path, '/')..]
  }

  /** The condition for any path: the segments of an absolute path pass the scan; the first segment of another is not a dot
      segment, and what follows it passes the scan as after something solid. */
  predicate AgreesOn(path: string) {
    if path == "" then true
    else if path[0] == '/' then Agrees(Segments(path), 0, false)
    else
      && First(path) != "." && First(path) != ".."
      && (AfterFirst(path) != "" ==> Agrees(Segments(AfterFirst(path)), 0, true))
  }

  /** The first segment of a path that does not start with a slash is left as it is by normalizePath. */
  lemma FirstStays(path: string)
    requires path != "" && path[0] != '/'
    ensures First(path) != "" && '/' !in First(path) && path == First(path) + AfterFirst(path)
    ensures AfterFirst(path) != "" ==> AfterFirst(path)[0] == '/'
    ensures Collapse(path) == First(path) + Collapse(AfterFirst(path))
  {
    PlainStays(First(path), AfterFirst(path));
  }

  /** And moved to the output by the standard's algorithm, unless it is a dot segment. */
  lemma FirstMoves(s: string, more: string)
    requires s != "" && '/' !in s && s != "." && s != ".." && (more == "" || more[0] == '/')
    ensures RemoveDotSegments(s + more, "") == RemoveDotSegments(more, s)
  {
    var input := s + more;
    assert input[0] == s[0] && s[0] != '/';
    assert "/./"[0] == '/' && "/."[0] == '/' && "/../"[0] == '/' && "/.."[0] == '/';
    assert input[..|s|] == s && input[|s|..] == more;
    FoundAt(input, '/', |s|);
    assert forall i :: 0 <= i < |s| ==> input[i] == s[i];
    assert more != "" ==> input[|s|] == '/';
    assert "../"[0] == '.' && "../"[1] == '.' && "../"[2] == '/' && "./"[0] == '.' && "./"[1] == '/';
    if |s| == 1 {
      assert s == [s[0]] && (s[0] == '.' ==> s == ".");
    } else if |s| == 2 {
      assert s == [s[0], s[1]] && (s[0] == '.' && s[1] == '.' ==> s == "..");
    }
    assert "" + s == s;
  }

  /** A text that does not start with a complete dot segment. */
  predicate NoDotFirst(s: string) {
    First(s) != "." && First(s) != ".."
  }

  lemma {:induction false} DropIsCut(output: string)
    ensures DropLast(output) <= output && (DropLast(output) != "" ==> output[|DropLast(output)|] == '/')
    ensures NoDotFirst(output) ==> NoDotFirst(DropLast(output))
  {
    if output != "" && output[|output| - 1] != '/' {
      DropIsCut(output[..|output| - 1]);
    }
    var d := DropLast(output);
    if d != "" {
      FirstOfCut(output, |d|);
      assert output[..|d|] == d;
    } else {
      assert First(d) == "";
    }
  }

  lemma FirstOfCut(s: string, n: nat)
    requires n < |s| && s[n] == '/'
    ensures First(s[..n]) == First(s)
  {
    var i := IndexOf(s, '/');
    assert forall j :: 0 <= j < i ==> s[j] == s[..i][j];
    assert s[..n][..i] == s[..i];
    FoundAt(s[..n], '/', i);
  }

  /** What the standard's algorithm puts out never starts with a complete dot segment. */
  lemma {:induction false} ResultNoDotFirst(input: string, output: string)
    requires NoDotFirst(output) && (output == "" || input == "" || input[0] == '/')
    ensures NoDotFirst(RemoveDotSegments(input, output))
    decreases |input|
  {
    hide First, DropLast, FirstSegment, IndexOf;
    if input == "" {
    } else if "../" <= input {
      NextIs(input);
      ResultNoDotFirst(input[3..], output);
    } else if "./" <= input {
      NextIs(input);
      ResultNoDotFirst(input[2..], output);
    } else if "/./" <= input {
      NextIs(input);
      ResultNoDotFirst(input[2..], output);
    } else if input == "/." {
      ResultNoDotFirst("/", output);
    } else if "/../" <= input {
      NextIs(input);
      DropIsCut(output);
      ResultNoDotFirst(input[3..], DropLast(output));
    } else if input == "/.." {
      DropIsCut(output);
      ResultNoDotFirst("/", DropLast(output));
    } else if input != "." && input != ".." {
      var n := FirstSegment(input);
      SegmentMoves(input, output);
      ResultNoDotFirst(input[n..], output + input[..n]);
    }
  }

  lemma NextIs(input: string)
    ensures "../" <= input || "./" <= input ==> input[0] == '.'
    ensures "/./" <= input ==> input[2..][0] == '/'
    ensures "/../" <= input ==> input[3..][0] == '/'
  {
    assert "../"[0] == '.' && "./"[0] == '.' && "/./"[2] == '/' && "/../"[3] == '/';
  }

  lemma SegmentMoves(input: string, output: string)
    requires input != "" && NoDotFirst(output) && (output == "" || input[0] == '/')
    requires !("../" <= input) && !("./" <= input) && input != "." && input != ".."
    ensures var n := FirstSegment(input);
            NoDotFirst(output + input[..n]) && (n < |input| ==> input[n] == '/')
  {
    var n := FirstSegment(input);
    var out := output + input[..n];
    if input[0] == '/' {
      if output == "" {
        assert out[0] == '/' && out[..0] == "";
        FoundAt(out, '/', 0);
      } else {
        assert out[|output|] == '/' && out[..|output|] == output;
        FirstOfCut(out, |output|);
      }
    } else {
      assert out == input[..n];
      FoundAt(out, '/', n);
      assert out[..n] == out;
      assert n < |input| ==> input == out + "/" + input[n + 1..];
      assert n == |input| ==> input == out;
      assert "." + "/" == "./" && ".." + "/" == "../";
    }
  }

  lemma FirstOfJoined(s: string, more: string)
    requires '/' !in s && (more == "" || more[0] == '/')
    ensures First(s + more) == s
  {
    assert (s + more)[..|s|] == s;
    FoundAt(s + more, '/', |s|);
  }

  lemma CollapseStarts(more: string)
    requires more == "" || more[0] == '/'
    ensures Collapse(more) == "" || Collapse(more)[0] == '/'
  {
  }

  /** A dot segment that no slash comes before stays here and goes there. */
  lemma FirstDotsGo(path: string)
    requires path != "" && path[0] != '/' && (First(path) == "." || First(path) == "..")
    ensures Collapse(path) != RemoveDotSegments(path, "")
  {
    hide First, AfterFirst, Collapse, RemoveDotSegments;
    FirstStays(path);
    CollapseStarts(AfterFirst(path));
    FirstOfJoined(First(path), Collapse(AfterFirst(path)));
    EmptyNoDot();
    ResultNoDotFirst(path, "");
  }

  lemma EmptyNoDot()
    ensures NoDotFirst("") && RemoveDotSegments("", "") == "" && Collapse("") == ""
  {
    assert First("") == "";
  }

  /** After a first segment that stays: what follows it, which starts with a slash. */
  lemma AgreementAfter(s: string, more: string)
    requires s != "" && '/' !in s && more != "" && more[0] == '/'
    ensures s + Collapse(more) == RemoveDotSegments(more, s) <==> Agrees(Segments(more), 0, true)
  {
    hide Collapse, RemoveDotSegments, Join, Agrees, NoUnderflow, Split;
    var segs := Segments(more);
    var none: seq<string> := [];
    assert more == "/" + more[1..];
    JoinSplit(more[1..]);
    NothingJoined();
    assert s + "" == s && none + none == none && none + Kept(segs) == Kept(segs);
    WithPrefix(segs, s, none);
    KeptIs(segs);
    StandardIs(segs, none);
    JoinInjective(Kept(segs), Standard(segs, none));
    AgreesIs(segs, none, none);
    SolidScan(segs, 0, 0, false);
    JoinEnds(Standard(segs, none));
    if NoUnderflow(segs, 0) {
      SamePrefix(s, Join(Kept(segs)), Join(Standard(segs, none)));
    } else {
      assert (s + Join(Kept(segs)))[0] == s[0];
    }
  }

  lemma SamePrefix(a: string, b: string, c: string)
    ensures a + b == a + c <==> b == c
  {
    assert (a + b)[|a|..] == b && (a + c)[|a|..] == c;
  }

  /** On every path, normalizePath and section 5.2.4 of RFC 3986 give the same result exactly if the condition holds. */
  lemma AgreementExactly(path: string)
    ensures Collapse(path) == RemoveDotSegments(path, "") <==> AgreesOn(path)
  {
    hide Collapse, RemoveDotSegments, Agrees, First, AfterFirst, Segments;
    if path == "" {
      EmptyNoDot();
    } else if path[0] == '/' {
      AbsoluteAgreement(path);
    } else if First(path) == "." || First(path) == ".." {
      FirstDotsGo(path);
    } else {
      var s, more := First(path), AfterFirst(path);
      FirstStays(path);
      FirstMoves(s, more);
      if more == "" {
        OutputIs(s);
      } else {
        AgreementAfter(s, more);
      }
    }
  }

  lemma OutputIs(s: string)
    ensures RemoveDotSegments("", s) == s == s + Collapse("")
  {
    assert Collapse("") == "";
  }

  // ---- the usual paths ---------------------------------------------------------------------------------------------

  predicate DotSegment(s: string) {
    s == "." || s == ".."
  }

  /** No segment is empty, but perhaps the last, and only the dot segments start with a dot. */
  predicate Usual(segs: seq<string>) {
    forall i :: 0 <= i < |segs| ==>
      (segs[i] == "" ==> i == |segs| - 1) && (segs[i] != "" && segs[i][0] == '.' ==> DotSegment(segs[i]))
  }

  /** A `..` comes after a segment that is not a dot segment. */
  predicate GoesBack(segs: seq<string>) {
    exists i, j :: 0 <= i < j < |segs| && !DotSegment(segs[i]) && segs[j] == ".."
  }

  lemma {:induction false} UsualScan(segs: seq<string>, solid: bool)
    requires segs != [] && Usual(segs)
    ensures Agrees(segs, 0, solid) <==> !GoesBack(segs) && !(solid && ".." in segs)
  {
    var s, rest := segs[0], segs[1..];
    if rest == [] {
      assert segs == [s];
    } else {
      assert Usual(rest) by {
        assert forall i :: 0 <= i < |rest| ==> rest[i] == segs[i + 1];
      }
      UsualScan(rest, solid || !DotSegment(s));
      assert segs == [s] + rest;
      BackLater(s, rest);
      if !DotSegment(s) {
        assert Strip(s) == s;
      }
    }
  }

  lemma BackLater(s: string, rest: seq<string>)
    ensures GoesBack([s] + rest) <==> GoesBack(rest) || (!DotSegment(s) && ".." in rest)
  {
    hide DotSegment;
    var segs := [s] + rest;
    if GoesBack(rest) {
      var i, j :| 0 <= i < j < |rest| && !DotSegment(rest[i]) && rest[j] == "..";
      assert segs[i + 1] == rest[i] && segs[j + 1] == rest[j];
    }
    if !DotSegment(s) && ".." in rest {
      var j :| 0 <= j < |rest| && rest[j] == "..";
      assert segs[0] == s && segs[j + 1] == rest[j];
    }
    if GoesBack(segs) {
      var i, j :| 0 <= i < j < |segs| && !DotSegment(segs[i]) && segs[j] == "..";
      assert segs[j] == rest[j - 1];
      if i > 0 {
        assert segs[i] == rest[i - 1];
      }
    }
  }

  /** A path with usual segments, where the first of a path that does not start with a slash may be any. */
  predicate UsualOn(path: string) {
    if path == "" then true
    else if path[0] == '/' then Usual(Segments(path))
    else AfterFirst(path) != "" ==> Usual(Segments(AfterFirst(path)))
  }

  /** On the usual paths they agree exactly if no `..` comes after a segment that is not a dot segment and no dot segment
      comes without a slash before it. */
  lemma UsualPathsAgree(path: string)
    requires UsualOn(path)
    ensures Collapse(path) == RemoveDotSegments(path, "") <==>
            if path == "" then true
            else if path[0] == '/' then !GoesBack(Segments(path))
            else !DotSegment(First(path)) && (AfterFirst(path) != "" ==> ".." !in Segments(AfterFirst(path)))
  {
    hide Collapse, RemoveDotSegments, Agrees, First, AfterFirst, Split, Usual;
    AgreementExactly(path);
    if path != "" && path[0] == '/' {
      UsualScan(Segments(path), false);
    } else if path != "" && AfterFirst(path) != "" {
      UsualScan(Segments(AfterFirst(path)), true);
      hide GoesBack;
      BackHasDots(Segments(AfterFirst(path)));
    }
  }

  lemma BackHasDots(segs: seq<string>)
    ensures GoesBack(segs) ==> ".." in segs
  {
  }

  /** A path on which they differ. */
  lemma DotSegmentsAreNotResolved()
    ensures Collapse("/a/../b") == "/a/b" && RemoveDotSegments("/a/../b", "") == "/b"
  {
    var segs := ["a", "..", "b"];
    ExampleJoins();
    assert segs[1..] == ["..", "b"] && segs[1..][1..] == ["b"] && ["b"][1..] == [];
    StandardIs(segs, []);
    KeptIs(segs);
    assert Join([]) == "";
    assert Standard(["b"], []) == ["b"] by { assert [] + ["b"] == ["b"]; }
    assert Standard(["..", "b"], ["a"]) == ["b"] by { assert Pop(["a"]) == []; }
    assert Standard(segs, []) == ["b"] by { assert [] + ["a"] == ["a"]; }
    assert Kept(["b"]) == ["b"];
    assert Strip(".") == "" && Strip("..") == "";
    assert Kept(["..", "b"]) == ["b"] by { assert [] + ["b"] == ["b"]; }
    assert Kept(segs) == ["a", "b"];
  }

  lemma ExampleJoins()
    ensures Join(["a", "..", "b"]) == "/a/../b" && Join(["a", "b"]) == "/a/b" && Join(["b"]) == "/b"
  {
    JoinOne("b");
    JoinStep("..", ["b"]);
    JoinStep("a", ["..", "b"]);
    JoinStep("a", ["b"]);
    assert ["a"] + ["..", "b"] == ["a", "..", "b"] && [".."] + ["b"] == ["..", "b"] && ["a"] + ["b"] == ["a", "b"];
  }
}
