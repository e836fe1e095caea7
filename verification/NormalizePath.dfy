/** The rewriting of request paths to a fixed point (normalizePath, pkg/lb/httpcommon.go). */
module NormalizePath {

  /** Regexp.ReplaceAllLiteralString for a literal `/` followed by `c`: each occurrence, from the left and without
      overlap, becomes one slash. */
  function Pass(s: string, c: char): (r: string)
    ensures |r| <= |s| && (r == s <==> |r| == |s|)
  {
    if |s| < 2 then s
    else if s[0] == '/' && s[1] == c then "/" + Pass(s[2..], c)
    else [s[0]] + Pass(s[1..], c)
  }

  /** The run of slashes and dots at the head of `s`. */
  function Run(s: string): (n: nat)
    ensures n <= |s|
  {
    if s != "" && (s[0] == '/' || s[0] == '.') then 1 + Run(s[1..]) else 0
  }

  /** One pass: a slash and the run of slashes and dots after it become one slash. */
  function Collapse(s: string): string {
    if s == "" then ""
    else if s[0] == '/' then "/" + Collapse(s[1 + Run(s[1..])..])
    else [s[0]] + Collapse(s[1..])
  }

  /** No slash is followed by a slash or a dot. */
  predicate Normal(s: string) {
    forall i :: 0 < i < |s| && s[i - 1] == '/' ==> s[i] != '/' && s[i] != '.'
  }

  /** What follows a slash may be taken after any part of its run. */
  lemma {:induction false} SkipRun(s: string)
    ensures Collapse("/" + s) == "/" + Collapse(s[Run(s)..])
    ensures s != "" && (s[0] == '/' || s[0] == '.') ==> Collapse("/" + s) == Collapse("/" + s[1..])
  {
    assert ("/" + s)[1..] == s;
    if s != "" && (s[0] == '/' || s[0] == '.') {
      assert ("/" + s[1..])[1..] == s[1..];
      assert s[1..][Run(s[1..])..] == s[Run(s)..];
    }
  }

  /** No replacement pass, of either kind, changes what the one-pass collapse makes of the string. */
  lemma {:induction false} CollapseAfterPass(s: string, c: char)
    requires c == '/' || c == '.'
    ensures Collapse(Pass(s, c)) == Collapse(s)
    ensures Collapse("/" + Pass(s, c)) == Collapse("/" + s)
    decreases |s|
  {
    if |s| >= 2 {
      if s[0] == '/' && s[1] == c {
        var rest := s[2..];
        CollapseAfterPass(rest, c);
        assert s == "/" + ([c] + rest);
        SkipRun([c] + rest);
        assert ([c] + rest)[1..] == rest;
        SkipRun("/" + Pass(rest, c));
        assert ("/" + Pass(rest, c))[1..] == Pass(rest, c);
        SkipRun(s);
        assert s[1..] == [c] + rest;
        assert "/" + s[1..] == s;
      } else {
        CollapseAfterPass(s[1..], c);
        var t := Pass(s[1..], c);
        assert ([s[0]] + t)[1..] == t;
        assert s == [s[0]] + s[1..];
        SkipRun(s);
        SkipRun([s[0]] + t);
      }
    }
  }

  /** A pass changes nothing exactly if there is nothing to replace. */
  lemma {:induction false} PassStable(s: string, c: char)
    ensures Pass(s, c) == s <==> forall i :: 0 < i < |s| && s[i - 1] == '/' ==> s[i] != c
  {
    if |s| >= 2 {
      if s[0] == '/' && s[1] == c {
        assert |Pass(s, c)| < |s|;
      } else {
        PassStable(s[1..], c);
        assert s == [s[0]] + s[1..];
        assert Pass(s, c)[1..] == Pass(s[1..], c);
        assert forall i :: 0 < i < |s[1..]| ==> s[1..][i - 1] == s[i] && s[1..][i] == s[i + 1];
        forall i | 0 < i < |s| && s[i - 1] == '/' && Pass(s, c) == s
          ensures s[i] != c
        {
          assert i > 1 ==> s[1..][i - 2] == '/';
        }
      }
    }
  }

  lemma NormalTail(s: string)
    requires Normal(s) && s != ""
    ensures Normal(s[1..]) && (s[0] == '/' ==> Run(s[1..]) == 0)
  {
    assert forall i :: 0 < i < |s[1..]| ==> s[1..][i - 1] == s[i] && s[1..][i] == s[i + 1];
  }

  lemma {:induction false} CollapseOfNormal(s: string)
    requires Normal(s)
    ensures Collapse(s) == s
  {
    if s != "" {
      NormalTail(s);
      hide Normal, Run;
      CollapseOfNormal(s[1..]);
      assert s[1 + 0..] == s[1..];
    }
  }

  lemma {:induction false} CollapseIsNormal(s: string)
    ensures Normal(Collapse(s))
    ensures Collapse(s) != "" ==> s != "" && Collapse(s)[0] == s[0]
    decreases |s|
  {
    if s != "" {
      var rest := if s[0] == '/' then s[1 + Run(s[1..])..] else s[1..];
      CollapseIsNormal(rest);
      if s[0] == '/' {
        RunEnds(s[1..]);
      }
    }
  }

  lemma {:induction false} RunEnds(s: string)
    ensures Run(s) < |s| ==> s[Run(s)] != '/' && s[Run(s)] != '.'
  {
    if s != "" && (s[0] == '/' || s[0] == '.') {
      RunEnds(s[1..]);
    }
  }

  /** The loop of normalizePath: both passes, until neither changes anything.  It ends because every effective pass
      shortens the path, and it computes the one-pass collapse. */
  method Normalize(path: string) returns (r: string)
    ensures r == Collapse(path)
    ensures forall i :: 0 < i < |r| && r[i - 1] == '/' ==> r[i] != '/' && r[i] != '.'
  {
    r := path;
    while true
      invariant Collapse(r) == Collapse(path)
      decreases |r|
    {
      var first := r;
      r := Pass(r, '/');
      CollapseAfterPass(first, '/');
      CollapseAfterPass(r, '.');
      ghost var second := r;
      r := Pass(r, '.');
      if r == first {
        PassStable(r, '/');
        PassStable(r, '.');
        break;
      }
    }
    CollapseOfNormal(r);
  }

  /** Normalizing twice is normalizing once, and exactly the paths without `//` and `/.` are left alone. */
  lemma CollapseIdempotent(s: string)
    ensures Collapse(Collapse(s)) == Collapse(s)
    ensures Collapse(s) == s <==> Normal(s)
  {
    CollapseIsNormal(s);
    CollapseOfNormal(Collapse(s));
    if Normal(s) {
      CollapseOfNormal(s);
    }
  }

  /** Two endings that start with a slash and collapse alike do so after any beginning. */
  lemma {:induction false} SameEnding(a: string, u: string, v: string)
    requires u != "" && v != "" && u[0] == '/' && v[0] == '/' && Collapse(u) == Collapse(v)
    ensures Collapse(a + u) == Collapse(a + v)
    decreases |a|
  {
    hide Run, Collapse;
    if a == "" {
      assert a + u == u && a + v == v;
    } else {
      var s, t := a[1..] + u, a[1..] + v;
      assert a + u == [a[0]] + s && a + v == [a[0]] + t;
      SameEnding(a[1..], u, v);
      if a[0] != '/' {
        HeadStays(a[0], s);
        HeadStays(a[0], t);
      } else {
        AfterSlash(s);
        AfterSlash(t);
        if |a| > 1 && a[1] == '.' {
          SameEnding("/" + a[2..], u, v);
          assert "/" + s[1..] == ("/" + a[2..]) + u && "/" + t[1..] == ("/" + a[2..]) + v;
        }
      }
    }
  }

  lemma HeadStays(c: char, s: string)
    requires c != '/'
    ensures Collapse([c] + s) == [c] + Collapse(s)
  {
    assert ([c] + s)[1..] == s;
  }

  lemma AfterSlash(s: string)
    requires s != ""
    ensures Collapse("/" + s) ==
            if s[0] == '/' then Collapse(s) else if s[0] == '.' then Collapse("/" + s[1..]) else "/" + Collapse(s)
  {
    SkipRun(s);
    if s[0] == '/' {
      assert "/" + s[1..] == s;
    }
  }

  /** A slash or a dot more after a slash, anywhere in a path, makes no difference. */
  lemma PaddingVanishes(a: string, x: char, b: string)
    requires x == '/' || x == '.'
    ensures Collapse(a + ("/" + ([x] + b))) == Collapse(a + ("/" + b))
  {
    SkipRun([x] + b);
    assert ([x] + b)[1..] == b;
    SameEnding(a, "/" + ([x] + b), "/" + b);
  }

  /** The characters other than slashes and dots. */
  function Rest(s: string): string {
    if s == "" then ""
    else (if s[0] == '/' || s[0] == '.' then "" else [s[0]]) + Rest(s[1..])
  }

  /** Nothing but slashes and dots is ever removed. */
  lemma {:induction false} RestIsKept(s: string)
    ensures Rest(Collapse(s)) == Rest(s)
    decreases |s|
  {
    if s != "" {
      if s[0] == '/' {
        RunHasNoRest(s[1..]);
        RestIsKept(s[1 + Run(s[1..])..]);
        assert s[1..][Run(s[1..])..] == s[1 + Run(s[1..])..];
      } else {
        RestIsKept(s[1..]);
      }
    }
  }

  lemma {:induction false} RunHasNoRest(s: string)
    ensures Rest(s[Run(s)..]) == Rest(s)
  {
    if s != "" && (s[0] == '/' || s[0] == '.') {
      RunHasNoRest(s[1..]);
      var n := Run(s[1..]);
      assert Run(s) == 1 + n && s[1..][n..] == s[1 + n..];
      assert Rest(s) == "" + Rest(s[1..]);
    } else {
      assert s[0..] == s;
    }
  }
}
