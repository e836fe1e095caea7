/** Searching and cutting strings, as the strings and bytes packages do. */
module Text {

  /** The first position of c, or the length if there is none. */
  function IndexOf(s: string, c: char): (i: nat)
    ensures i <= |s| && c !in s[..i] && (i < |s| ==> s[i] == c)
  {
    if s == "" || s[0] == c then 0 else 1 + IndexOf(s[1..], c)
  }

  lemma {:induction false} FoundAt(s: string, c: char, i: nat)
    requires i <= |s| && (i < |s| ==> s[i] == c) && c !in s[..i]
    ensures IndexOf(s, c) == i
  {
    if i > 0 {
      assert s[..i][0] == s[0] && s[1..][..i - 1] == s[..i][1..];
      FoundAt(s[1..], c, i - 1);
    }
  }

  /** The pieces between the occurrences of c. */
  function Split(s: string, c: char): (r: seq<string>)
    ensures r != []
    decreases |s|
  {
    var i := IndexOf(s, c);
    if i == |s| then [s] else [s[..i]] + Split(s[i + 1..], c)
  }

  lemma Assoc<T>(a: seq<T>, b: seq<T>, c: seq<T>)
    ensures a + b + c == a + (b + c)
  {
  }

  /** White space in the sense of Unicode. */
  predicate IsSpace(c: char) {
    c in "\t\n\U{0B}\U{0C}\r \U{85}\U{A0}\U{1680}\U{2028}\U{2029}\U{202F}\U{205F}\U{3000}" || '\U{2000}' <= c <= '\U{200A}'
  }

  function TrimLeft(s: string): string {
    if s != "" && IsSpace(s[0]) then TrimLeft(s[1..]) else s
  }

  function TrimRight(s: string): (r: string)
    ensures r <= s && (r != "" ==> !IsSpace(r[|r| - 1]))
    ensures s != "" && !IsSpace(s[|s| - 1]) ==> r == s
  {
    if s != "" && IsSpace(s[|s| - 1]) then TrimRight(s[..|s| - 1]) else s
  }

  function TrimSpace(s: string): string {
    TrimRight(TrimLeft(s))
  }

  lemma {:induction false} TrimRightConcat(a: string, b: string)
    requires a != "" && !IsSpace(a[|a| - 1])
    ensures TrimRight(a + b) == a + TrimRight(b)
  {
    if b == "" {
      assert a + b == a;
    } else {
      assert (a + b)[..|a + b| - 1] == a + b[..|b| - 1];
      TrimRightConcat(a, b[..|b| - 1]);
    }
  }

  predicate AllSpace(s: string) {
    forall i :: 0 <= i < |s| ==> IsSpace(s[i])
  }

  lemma {:induction false} TrimRightSpace(s: string)
    requires AllSpace(s)
    ensures TrimRight(s) == ""
  {
    hide IsSpace;
    if s != "" {
      TrimRightSpace(s[..|s| - 1]);
    }
  }

  lemma {:induction false} TrimLeftSpace(a: string, v: string)
    requires AllSpace(a) && (v != "" ==> !IsSpace(v[0]))
    ensures TrimLeft(a + v) == v
  {
    hide IsSpace;
    if a == "" {
      assert a + v == v;
    } else {
      assert (a + v)[1..] == a[1..] + v;
      TrimLeftSpace(a[1..], v);
    }
  }

  /** Trimming takes exactly the white space at either end. */
  lemma TrimSpaceIs(a: string, v: string, b: string)
    requires AllSpace(a) && AllSpace(b) && (v != "" ==> !IsSpace(v[0]) && !IsSpace(v[|v| - 1]))
    ensures TrimSpace(a + v + b) == v
  {
    hide IsSpace;
    if v == "" {
      assert a + v + b == (a + b) + "";
      TrimLeftSpace(a + b, "");
    } else {
      Assoc(a, v, b);
      TrimLeftSpace(a, v + b);
      TrimRightConcat(v, b);
      TrimRightSpace(b);
    }
  }
}
