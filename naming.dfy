/**
 * The naming convention that partitions the shared parameter store by
 * product and environment: a secret `name` of the scope (product, env)
 * is stored under "/<product>/<env>/<name>", and the scope-relative name
 * is recovered with Python's `str.replace`, which removes EVERY
 * non-overlapping occurrence of the scope path, left to right.
 */
module Naming {
  import opened Sequences

  /** The (product, environment) pair every operation is scoped to. */
  datatype Scope = Scope(product: string, env: string)

  const Separator: char := '/'

  /** A scope whose product and environment contain no separator. */
  predicate WellFormed(s: Scope)
  {
    Separator !in s.product && Separator !in s.env
  }

  /** `__path`: the scope path "/<product>/<env>/". */
  function Path(s: Scope): (p: string)
    ensures |p| == |s.product| + |s.env| + 3
    ensures p[0] == Separator && p[|p| - 1] == Separator
  {
    "/" + s.product + "/" + s.env + "/"
  }

  /** The scope path is the product and the environment, each enclosed by separators. */
  lemma PathParts(s: Scope)
    ensures var p := Path(s);
      && p[|s.product| + 1] == Separator
      && p[1..|s.product| + 1] == s.product
      && p[|s.product| + 2..|p| - 1] == s.env
  {
  }

  /** `__path_with_name`: the scope path followed by the secret's name. */
  function FullName(s: Scope, name: string): (full: string)
    ensures |full| == |Path(s)| + |name|
    ensures full[..|Path(s)|] == Path(s) && full[|Path(s)|..] == name
  {
    Path(s) + name
  }

  /** `pat` starts at index `i` of `s`. */
  predicate OccursAt(s: string, pat: string, i: nat)
  {
    i + |pat| <= |s| && s[i..i + |pat|] == pat
  }

  /** `pat` occurs somewhere in `s`. */
  predicate Occurs(s: string, pat: string)
  {
    exists i: nat | i <= |s| :: OccursAt(s, pat, i)
  }

  /**
   * Python's `s.replace(pat, repl)` for a non-empty `pat`: scanning left to
   * right, every occurrence of `pat` that does not overlap an earlier
   * replaced one is replaced by `repl`.
   */
  function Replace(s: string, pat: string, repl: string): (r: string)
    requires pat != []
    ensures repl == pat ==> r == s
    ensures |repl| <= |pat| ==> |r| <= |s|
    decreases |s|
  {
    if |s| < |pat| then s
    else if s[..|pat|] == pat then
      assert s == s[..|pat|] + s[|pat|..];
      repl + Replace(s[|pat|..], pat, repl)
    else
      assert s == [s[0]] + s[1..];
      [s[0]] + Replace(s[1..], pat, repl)
  }

  /** `__path_without_name`: `full.replace(__path(), '')`. */
  function RelativeName(s: Scope, full: string): (r: string)
    ensures |r| <= |full|
    ensures r == full <==> !Occurs(full, Path(s))
  {
    ReplaceWithoutOccurrence(full, Path(s), []);
    RemovingShortens(full, Path(s));
    Replace(full, Path(s), [])
  }

  /** Replacing leaves a string in which the pattern never occurs unchanged. */
  lemma {:induction false} ReplaceWithoutOccurrence(s: string, pat: string, repl: string)
    requires pat != []
    ensures !Occurs(s, pat) ==> Replace(s, pat, repl) == s
    decreases |s|
  {
    if !Occurs(s, pat) && |s| >= |pat| {
      assert !OccursAt(s, pat, 0);
      forall i: nat | i <= |s[1..]| ensures !OccursAt(s[1..], pat, i) {
        if OccursAt(s[1..], pat, i) {
          assert s[1..][i..i + |pat|] == s[i + 1..i + 1 + |pat|];
          assert OccursAt(s, pat, i + 1);
        }
      }
      ReplaceWithoutOccurrence(s[1..], pat, repl);
      assert s == [s[0]] + s[1..];
    }
  }

  /** Removing a pattern that occurs makes the string strictly shorter. */
  lemma {:induction false} RemovingShortens(s: string, pat: string)
    requires pat != []
    ensures Occurs(s, pat) ==> |Replace(s, pat, [])| < |s|
    decreases |s|
  {
    if Occurs(s, pat) {
      var i: nat :| i <= |s| && OccursAt(s, pat, i);
      if s[..|pat|] != pat {
        assert i != 0;
        assert s[1..][i - 1..i - 1 + |pat|] == s[i..i + |pat|];
        assert OccursAt(s[1..], pat, i - 1);
        RemovingShortens(s[1..], pat);
      }
    }
  }

  /** A name without a separator cannot contain a scope path, which starts with one. */
  lemma SeparatorFreeLacksPath(s: Scope, name: string)
    requires Separator !in name
    ensures !Occurs(name, Path(s))
  {
    var p := Path(s);
    forall i: nat | i <= |name| ensures !OccursAt(name, p, i) {
      if i + |p| <= |name| {
        assert name[i..i + |p|][0] == name[i];
      }
    }
  }

  /**
   * The round trip of `__path_with_name` and `__path_without_name`: it
   * holds exactly when the path does not occur inside the name itself;
   * otherwise replacing removes that occurrence too.
   */
  lemma {:induction false} RelativeOfFullName(s: Scope, name: string)
    ensures RelativeName(s, FullName(s, name)) == name <==> !Occurs(name, Path(s))
  {
    var p, full := Path(s), FullName(s, name);
    assert full[..|p|] == p && full[|p|..] == name;
    assert Replace(full, p, []) == Replace(name, p, []);
    ReplaceWithoutOccurrence(name, p, []);
    RemovingShortens(name, p);
  }

  /** The round trip for every name without a separator. */
  lemma {:induction false} RoundTrip(s: Scope, name: string)
    requires Separator !in name
    ensures RelativeName(s, FullName(s, name)) == name
  {
    SeparatorFreeLacksPath(s, name);
    RelativeOfFullName(s, name);
  }

  /**
   * `RelativeName` is not "strip the leading path": an occurrence of the
   * path inside the name is removed as well.
   */
  lemma RelativeNameRemovesInnerPath()
    ensures FullName(Scope("a", "b"), "x/a/b/y") == "/a/b/x/a/b/y"
    ensures RelativeName(Scope("a", "b"), "/a/b/x/a/b/y") == "xy"
  {
    var p := "/a/b/";
    assert Path(Scope("a", "b")) == p;
    var s := "/a/b/x/a/b/y";
    assert s[..5] == p && s[5..] == "x/a/b/y";
    assert "x/a/b/y"[..5] != p && "x/a/b/y"[1..] == "/a/b/y";
    assert "/a/b/y"[..5] == p && "/a/b/y"[5..] == "y";
    assert Replace("y", p, []) == "y";
    assert Replace("/a/b/y", p, []) == "y";
    assert Replace("x/a/b/y", p, []) == "xy";
  }

  /** Python's `s.split(sep)` for a non-empty separator. */
  function Split(s: string, sep: string): (pieces: seq<string>)
    requires sep != []
    ensures |pieces| >= 1
    decreases |s|
  {
    if |s| < |sep| then [s]
    else if s[..|sep|] == sep then [[]] + Split(s[|sep|..], sep)
    else
      var rest := Split(s[1..], sep);
      [[s[0]] + rest[0]] + rest[1..]
  }

  /** Python's `sep.join(pieces)`. */
  function Join(pieces: seq<string>, sep: string): string
    requires |pieces| >= 1
    decreases |pieces|
  {
    if |pieces| == 1 then pieces[0] else pieces[0] + sep + Join(pieces[1..], sep)
  }

  /** Joining with an empty first piece starts with the separator. */
  lemma JoinEmptyFirst(rest: seq<string>, sep: string)
    requires |rest| >= 1
    ensures Join([[]] + rest, sep) == sep + Join(rest, sep)
  {
    var pieces := [[]] + rest;
    assert pieces[0] == [] && pieces[1..] == rest;
  }

  /** Growing the first piece by one character grows the joined string by it. */
  lemma JoinConsFirst(c: char, rest: seq<string>, sep: string)
    requires |rest| >= 1
    ensures Join([[c] + rest[0]] + rest[1..], sep) == [c] + Join(rest, sep)
  {
    var pieces := [[c] + rest[0]] + rest[1..];
    if |rest| > 1 {
      assert pieces[1..] == rest[1..];
      assert Join(rest, sep) == rest[0] + sep + Join(rest[1..], sep);
    }
  }

  /**
   * Python's documented identity `s.replace(a, b) == b.join(s.split(a))`:
   * replacing removes exactly the separators `split` cuts at.
   */
  lemma {:induction false} ReplaceIsJoinOfSplit(s: string, pat: string, repl: string)
    requires pat != []
    ensures Replace(s, pat, repl) == Join(Split(s, pat), repl)
    decreases |s|
  {
    if |s| < |pat| {
    } else if s[..|pat|] == pat {
      ReplaceIsJoinOfSplit(s[|pat|..], pat, repl);
      JoinEmptyFirst(Split(s[|pat|..], pat), repl);
    } else {
      ReplaceIsJoinOfSplit(s[1..], pat, repl);
      JoinConsFirst(s[0], Split(s[1..], pat), repl);
    }
  }

  /** Cutting `a + "/" + r` at its first separator gives back `a` and `r`. */
  lemma FirstSegment(a1: string, r1: string, a2: string, r2: string)
    requires Separator !in a1 && Separator !in a2
    requires a1 + "/" + r1 == a2 + "/" + r2
    ensures a1 == a2 && r1 == r2
  {
    var x := a1 + "/" + r1;
    assert x[|a1|] == Separator && forall j :: 0 <= j < |a1| ==> x[j] == a1[j];
    assert x[|a2|] == Separator && forall j :: 0 <= j < |a2| ==> x[j] == a2[j];
    assert |a1| == |a2|;
    assert a1 == x[..|a1|] == a2;
    assert r1 == x[|a1| + 1..] == r2;
  }

  /**
   * Well-formed scopes partition the store: a full name determines its
   * scope and its scope-relative name.
   */
  lemma FullNameDeterminesScope(s1: Scope, n1: string, s2: Scope, n2: string)
    requires WellFormed(s1) && WellFormed(s2)
    requires FullName(s1, n1) == FullName(s2, n2)
    ensures s1 == s2 && n1 == n2
  {
    FullNameTail(s1, n1);
    FullNameTail(s2, n2);
    FirstSegment(s1.product, s1.env + "/" + n1, s2.product, s2.env + "/" + n2);
    FirstSegment(s1.env, n1, s2.env, n2);
  }

  /** After its leading separator, a full name is "<product>/<env>/<name>". */
  lemma FullNameTail(s: Scope, name: string)
    ensures FullName(s, name)[1..] == s.product + "/" + (s.env + "/" + name)
  {
    var a, p, e, sep := "/", s.product, s.env, "/";
    Associative((((a + p) + sep) + e), sep, name);
    Associative((a + p) + sep, e, sep + name);
    Associative(a + p, sep, e + (sep + name));
    Associative(a, p, sep + (e + (sep + name)));
    Associative(p, sep, (e + sep) + name);
    Associative(e, sep, name);
    var tail := p + sep + (e + sep + name);
    assert FullName(s, name) == a + tail;
    assert (a + tail)[1..] == tail;
  }
}
