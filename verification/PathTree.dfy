/** Paths as the admission check compares them: one separator, no trailing separators, ASCII case folded. */
module PathTree {
  function LowerChar(c: char): char {
    if 'A' <= c <= 'Z' then ((c as int) + 32) as char else c
  }

  function Unified(s: string): (r: string)
    ensures |r| == |s| && forall i :: 0 <= i < |s| ==> r[i] == if s[i] == '/' then '\\' else s[i]
  {
    if s == "" then "" else [if s[0] == '/' then '\\' else s[0]] + Unified(s[1..])
  }

  function Trimmed(s: string): (r: string)
    ensures r <= s && (r == "" || r[|r| - 1] != '\\')
    ensures forall i :: |r| <= i < |s| ==> s[i] == '\\'
  {
    if s != "" && s[|s| - 1] == '\\' then Trimmed(s[..|s| - 1]) else s
  }

  function Lower(s: string): (r: string)
    ensures |r| == |s| && forall i :: 0 <= i < |s| ==> r[i] == LowerChar(s[i])
  {
    if s == "" then "" else [LowerChar(s[0])] + Lower(s[1..])
  }

  /** `normalized_path`. */
  function Normalized(path: string): string {
    Lower(Trimmed(Unified(path)))
  }

  /** The same character, up to the case of an ASCII letter. */
  predicate SameLetter(c: char, d: char) {
    || c == d
    || ('A' <= c <= 'Z' && d as int == c as int + 32)
    || ('A' <= d <= 'Z' && c as int == d as int + 32)
  }

  /** Two paths are the same exactly when, with one kind of separator and without trailing ones, they agree
      character by character up to ASCII case. */
  lemma NormalizedAgreesExactly(a: string, b: string)
    ensures Normalized(a) == Normalized(b)
      <==> SameLetters(Trimmed(Unified(a)), Trimmed(Unified(b)))
  {
    LowerAgreesExactly(Trimmed(Unified(a)), Trimmed(Unified(b)));
  }

  ghost predicate SameLetters(x: string, y: string) {
    |x| == |y| && forall i :: 0 <= i < |x| ==> SameLetter(x[i], y[i])
  }

  lemma LowerAgreesExactly(x: string, y: string)
    ensures Lower(x) == Lower(y) <==> SameLetters(x, y)
  {
    hide LowerChar, SameLetter, Lower;
    if |x| == |y| {
      forall i | 0 <= i < |x|
        ensures Lower(x)[i] == Lower(y)[i] <==> SameLetter(x[i], y[i])
      {
        LowerCharAgreesExactly(x[i], y[i]);
      }
      if SameLetters(x, y) {
        assert Lower(x) == Lower(y);
      }
    } else {
      assert |Lower(x)| != |Lower(y)|;
    }
  }

  lemma LowerCharAgreesExactly(c: char, d: char)
    ensures LowerChar(c) == LowerChar(d) <==> SameLetter(c, d)
  {
  }

  /** The test on normalized texts: equal, or a prefix that ends where a separator follows. */
  predicate TextContains(directory: string, candidate: string) {
    candidate == directory
    || (|directory| < |candidate| && candidate[..|directory|] == directory && candidate[|directory|] == '\\')
  }

  /** `path_contains`. */
  predicate PathContains(directory: string, candidate: string) {
    TextContains(Normalized(directory), Normalized(candidate))
  }

  // ----- The tree of path components -----

  /** One more character in front of a list of components: a separator opens a new, empty one. */
  function Prepended(c: char, parts: seq<string>): (longer: seq<string>)
    requires |parts| > 0
    ensures |longer| > 0
  {
    if c == '\\' then [""] + parts else [[c] + parts[0]] + parts[1..]
  }

  function Components(s: string): (parts: seq<string>)
    ensures |parts| > 0
  {
    if s == "" then [""] else Prepended(s[0], Components(s[1..]))
  }

  function Joined(parts: seq<string>): string
    requires |parts| > 0
  {
    if |parts| == 1 then parts[0] else parts[0] + "\\" + Joined(parts[1..])
  }

  lemma JoinedUnfolds(parts: seq<string>)
    requires |parts| > 0
    ensures Joined(parts) == if |parts| == 1 then parts[0] else parts[0] + "\\" + Joined(parts[1..])
  {
  }

  lemma EmptyFirst(rest: string)
    ensures "" + "\\" + rest == ['\\'] + rest
  {
  }

  lemma LongerFirst(c: char, first: string, rest: string)
    ensures ([c] + first) + "\\" + rest == [c] + (first + "\\" + rest)
  {
  }

  lemma JoinedPrepended(c: char, parts: seq<string>)
    requires |parts| > 0
    ensures Joined(Prepended(c, parts)) == [c] + Joined(parts)
  {
    hide Joined;
    var longer := Prepended(c, parts);
    JoinedUnfolds(parts);
    JoinedUnfolds(longer);
    if c == '\\' {
      assert longer[1..] == parts;
      EmptyFirst(Joined(parts));
    } else if |parts| == 1 {
      assert longer[0] == [c] + parts[0];
    } else {
      assert longer[1..] == parts[1..];
      LongerFirst(c, parts[0], Joined(parts[1..]));
    }
  }

  lemma {:induction false} JoinedComponents(s: string)
    ensures Joined(Components(s)) == s
  {
    if s != "" {
      JoinedComponents(s[1..]);
      JoinedPrepended(s[0], Components(s[1..]));
    }
  }

  lemma PrependedInTwo(c: char, a: seq<string>, b: seq<string>)
    requires |a| > 0
    ensures Prepended(c, a + b) == Prepended(c, a) + b
  {
    assert (a + b)[1..] == a[1..] + b;
  }

  lemma {:induction false} ComponentsOfChild(directory: string, rest: string)
    ensures Components(directory + "\\" + rest) == Components(directory) + Components(rest)
  {
    var whole := directory + "\\" + rest;
    if directory == "" {
      assert whole[1..] == rest;
    } else {
      hide Prepended;
      ComponentsOfChild(directory[1..], rest);
      assert whole[1..] == directory[1..] + "\\" + rest;
      PrependedInTwo(directory[0], Components(directory[1..]), Components(rest));
    }
  }

  lemma {:induction false} JoinedInTwo(a: seq<string>, b: seq<string>)
    requires |a| > 0 && |b| > 0
    ensures Joined(a + b) == Joined(a) + "\\" + Joined(b)
  {
    if |a| == 1 {
      assert (a + b)[1..] == b;
    } else {
      JoinedInTwo(a[1..], b);
      assert (a + b)[1..] == a[1..] + b;
      assert Joined(a + b) == a[0] + "\\" + (Joined(a[1..]) + "\\" + Joined(b));
    }
  }

  /** The textual test decides exactly whether one path lies in the subtree of the other. */
  lemma ContainsIsSubtree(directory: string, candidate: string)
    ensures TextContains(directory, candidate) <==> Components(directory) <= Components(candidate)
  {
    hide Components, Joined;
    JoinedComponents(directory);
    JoinedComponents(candidate);
    var d, c := Components(directory), Components(candidate);
    if TextContains(directory, candidate) && candidate != directory {
      var rest := candidate[|directory| + 1..];
      assert candidate == directory + "\\" + rest;
      ComponentsOfChild(directory, rest);
    }
    if d <= c && |d| < |c| {
      var rest := c[|d|..];
      assert c == d + rest;
      JoinedInTwo(d, rest);
      var tail := Joined(rest);
      assert candidate == directory + "\\" + tail;
      assert candidate[|directory|] == '\\';
    }
    if d <= c && |d| == |c| {
      assert d == c;
    }
  }

  lemma {:induction false} ComponentsHaveNoSeparator(s: string)
    ensures forall k :: 0 <= k < |Components(s)| ==> '\\' !in Components(s)[k]
  {
    if s != "" {
      ComponentsHaveNoSeparator(s[1..]);
    }
  }

  lemma {:induction false} OneComponent(s: string)
    requires '\\' !in s
    ensures Components(s) == [s]
  {
    if s != "" {
      OneComponent(s[1..]);
      assert s == [s[0]] + s[1..];
    }
  }

  /** What stands behind the last separator, in the case it was written. */
  function LastComponent(path: string): string {
    var parts := Components(Trimmed(Unified(path)));
    parts[|parts| - 1]
  }

  lemma LastComponentExactly(path: string, name: string)
    ensures LastComponent(path) == name
      <==> && '\\' !in name
           && (Trimmed(Unified(path)) == name || exists front :: Trimmed(Unified(path)) == front + "\\" + name)
  {
    hide Trimmed, Unified, Components;
    var text := Trimmed(Unified(path));
    var parts := Components(text);
    ComponentsHaveNoSeparator(text);
    JoinedComponents(text);
    if LastComponent(path) == name && |parts| > 1 {
      var front := parts[..|parts| - 1];
      assert parts == front + [name];
      JoinedInTwo(front, [name]);
      assert text == Joined(front) + "\\" + name;
    }
    if '\\' !in name {
      OneComponent(name);
      if front :| text == front + "\\" + name {
        ComponentsOfChild(front, name);
      }
    }
  }

  /** The tree law: two directories that contain one path are nested. */
  lemma TreeLaw(a: string, b: string, path: string)
    requires PathContains(a, path) && PathContains(b, path)
    ensures PathContains(a, b) || PathContains(b, a)
  {
    hide Components, Normalized, TextContains;
    ContainsIsSubtree(Normalized(a), Normalized(path));
    ContainsIsSubtree(Normalized(b), Normalized(path));
    ContainsIsSubtree(Normalized(a), Normalized(b));
    ContainsIsSubtree(Normalized(b), Normalized(a));
    var x, y, z := Components(Normalized(a)), Components(Normalized(b)), Components(Normalized(path));
    assert x == z[..|x|] && y == z[..|y|];
    if |x| <= |y| {
      assert x == y[..|x|];
    } else {
      assert y == x[..|y|];
    }
  }

  lemma ContainsIsTransitive(a: string, b: string, c: string)
    requires PathContains(a, b) && PathContains(b, c)
    ensures PathContains(a, c)
  {
    ContainsIsSubtree(Normalized(a), Normalized(b));
    ContainsIsSubtree(Normalized(b), Normalized(c));
    ContainsIsSubtree(Normalized(a), Normalized(c));
  }

  /** A trailing separator makes no difference. */
  lemma TrailingSeparatorAgrees(path: string)
    ensures Normalized(path + "\\") == Normalized(path) && Normalized(path + "/") == Normalized(path)
  {
    var unified := Unified(path);
    assert Unified(path + "\\") == unified + "\\" && Unified(path + "/") == unified + "\\";
    assert (unified + "\\")[..|path|] == unified;
  }

  /** Nor does the kind of separator. */
  lemma SeparatorKindAgrees(path: string, i: nat)
    requires i < |path| && path[i] == '/'
    ensures Normalized(path[i := '\\']) == Normalized(path)
  {
    assert Unified(path[i := '\\']) == Unified(path);
  }

  /** Nor ASCII case. */
  lemma CaseAgrees(path: string)
    ensures Normalized(Lower(path)) == Normalized(path)
  {
    hide Unified, Lower, Trimmed;
    UnifiedLower(path);
    TrimLower(Unified(path));
    LowerTwice(Trimmed(Unified(path)));
  }

  lemma UnifiedLower(s: string)
    ensures Unified(Lower(s)) == Lower(Unified(s))
  {
    hide Unified, Lower;
    forall i | 0 <= i < |s|
      ensures Unified(Lower(s))[i] == Lower(Unified(s))[i]
    {
      assert Lower(s)[i] == LowerChar(s[i]);
    }
  }

  lemma {:induction false} TrimLower(s: string)
    ensures Trimmed(Lower(s)) == Lower(Trimmed(s))
  {
    if s != "" && s[|s| - 1] == '\\' {
      assert Lower(s)[..|s| - 1] == Lower(s[..|s| - 1]);
      TrimLower(s[..|s| - 1]);
    }
  }

  lemma LowerTwice(s: string)
    ensures Lower(Lower(s)) == Lower(s)
  {
  }
}
