/** Python's `posixpath.join`, the `os.path.join` of a POSIX host. */
module PosixPath {

  /** A path that starts at the root. */
  predicate IsAbsolute(p: string)
  {
    |p| > 0 && p[0] == '/'
  }

  /** A path whose last character is the separator. */
  predicate EndsWithSep(p: string)
  {
    |p| > 0 && p[|p| - 1] == '/'
  }

  /** `os.path.join(a, b)`: an absolute `b` discards `a`; otherwise `b` is
      appended, with one `/` in between only when `a` is non-empty and does
      not already end in `/`. */
  function Join(a: string, b: string): string
  {
    if IsAbsolute(b) then b
    else if |a| == 0 || EndsWithSep(a) then a + b
    else a + "/" + b
  }

  /** The shape of `join(a, b)`: an absolute `b` is the whole result;
      otherwise `a` is a prefix and a separator is inserted exactly when `a`
      is non-empty and does not end in one. `b` is always a suffix. */
  lemma JoinShape(a: string, b: string)
    ensures IsAbsolute(b) ==> Join(a, b) == b
    ensures !IsAbsolute(b) ==> |a| <= |Join(a, b)| && Join(a, b)[..|a|] == a
    ensures |b| <= |Join(a, b)| && Join(a, b)[|Join(a, b)| - |b|..] == b
    ensures !IsAbsolute(b) ==> (|Join(a, b)| == |a| + |b| + 1 <==> a != "" && !EndsWithSep(a))
    ensures !IsAbsolute(b) ==> (|Join(a, b)| == |a| + |b| <==> a == "" || EndsWithSep(a))
  {
  }

  /** `os.path.join(a, p1, p2, ...)`: the components are joined left to right. */
  function JoinAll(a: string, ps: seq<string>): string
    decreases |ps|
  {
    if |ps| == 0 then a else JoinAll(Join(a, ps[0]), ps[1..])
  }

  /** Joining is associative, so `join(join(a, b), c)` and `join(a, join(b, c))`
      name the same path: grouping the components differently never changes
      where a multi-part join lands. */
  lemma JoinAssociative(a: string, b: string, c: string)
    ensures Join(Join(a, b), c) == Join(a, Join(b, c))
  {
    if IsAbsolute(c) {
      assert Join(Join(a, b), c) == c;
      assert Join(b, c) == c;
    } else if IsAbsolute(b) {
      assert Join(a, b) == b;
      var bc := Join(b, c);
      assert bc[0] == b[0];
      assert Join(a, bc) == bc;
    } else if b == "" {
      assert Join(b, c) == c;
      JoinEmptyRight(a, c);
    } else {
      JoinAssociativeRelative(a, b, c);
    }
  }

  lemma JoinEmptyRight(a: string, c: string)
    requires !IsAbsolute(c)
    ensures Join(Join(a, ""), c) == Join(a, c)
  {
    if a == "" || EndsWithSep(a) {
      assert Join(a, "") == a;
    } else {
      var a' := a + "/";
      assert Join(a, "") == a';
      assert EndsWithSep(a');
      assert Join(a', c) == a' + c;
    }
  }

  /** The separator `join` puts after `a` before a relative component. */
  function Sep(a: string): string
  {
    if |a| == 0 || EndsWithSep(a) then "" else "/"
  }

  lemma JoinRelative(a: string, b: string)
    requires !IsAbsolute(b)
    ensures Join(a, b) == a + Sep(a) + b
  {
  }

  lemma JoinAssociativeRelative(a: string, b: string, c: string)
    requires !IsAbsolute(b) && !IsAbsolute(c) && b != ""
    ensures Join(Join(a, b), c) == Join(a, Join(b, c))
  {
    var sa, sb := Sep(a), Sep(b);
    var ab := a + sa + b;
    var bc := b + sb + c;
    JoinRelative(a, b);
    JoinRelative(b, c);
    SepOfJoin(a, b);
    RelativeConcat(b, sb + c);
    assert bc == b + (sb + c);
    JoinRelative(ab, c);
    JoinRelative(a, bc);
    assert (a + sa + b) + sb + c == a + sa + (b + sb + c);
  }

  /** A relative non-empty right operand supplies the last character. */
  lemma SepOfJoin(a: string, b: string)
    requires b != ""
    ensures Sep(a + Sep(a) + b) == Sep(b)
  {
    var ab := a + Sep(a) + b;
    assert ab[|ab| - 1] == b[|b| - 1];
  }

  /** A relative non-empty left part keeps a concatenation relative. */
  lemma RelativeConcat(b: string, rest: string)
    requires b != "" && !IsAbsolute(b)
    ensures !IsAbsolute(b + rest)
  {
    assert (b + rest)[0] == b[0];
  }

  /** Whatever comes before it, an absolute last component is the whole result. */
  lemma {:induction false} JoinAllAbsoluteLast(a: string, ps: seq<string>)
    requires |ps| > 0 && IsAbsolute(ps[|ps| - 1])
    ensures JoinAll(a, ps) == ps[|ps| - 1]
    decreases |ps|
  {
    if |ps| == 1 {
      assert JoinAll(a, ps) == JoinAll(Join(a, ps[0]), []);
    } else {
      JoinAllAbsoluteLast(Join(a, ps[0]), ps[1..]);
    }
  }
}
