/** String helpers with the meaning JavaScript gives them: `toLowerCase`,
    `includes`, `startsWith` and `trim`. */
module Text {

  /** `toLowerCase` restricted to ASCII: `A`..`Z` become `a`..`z`. */
  function LowerChar(c: char): char
  {
    if 'A' <= c <= 'Z' then (c as int + 32) as char else c
  }

  function Lower(s: string): string
  {
    seq(|s|, i requires 0 <= i < |s| => LowerChar(s[i]))
  }

  predicate IsUpperChar(c: char)
  {
    'A' <= c <= 'Z'
  }

  /** No ASCII capital letter occurs in `s`. */
  predicate IsLowerCase(s: string)
  {
    forall i :: 0 <= i < |s| ==> !IsUpperChar(s[i])
  }

  lemma LowerIsLowerCase(s: string)
    ensures |Lower(s)| == |s|
    ensures IsLowerCase(Lower(s))
  {
  }

  lemma LowerIdempotent(s: string)
    ensures Lower(Lower(s)) == Lower(s)
  {
  }

  /** Lower-casing leaves lower-case text alone. */
  lemma LowerOfLowerCase(s: string)
    requires IsLowerCase(s)
    ensures Lower(s) == s
  {
  }

  lemma LowerAppend(a: string, b: string)
    ensures Lower(a + b) == Lower(a) + Lower(b)
  {
  }

  /** `p` occurs in `s` starting at index `i`. */
  predicate OccursAt(s: string, p: string, i: int)
  {
    0 <= i && i + |p| <= |s| && s[i..i + |p|] == p
  }

  /** `s.includes(p)`. */
  predicate Contains(s: string, p: string)
  {
    exists i :: 0 <= i <= |s| - |p| && OccursAt(s, p, i)
  }

  /** `s.startsWith(p)`. */
  predicate StartsWith(s: string, p: string)
  {
    |p| <= |s| && s[..|p|] == p
  }

  lemma ContainsWitness(s: string, p: string, i: int)
    requires OccursAt(s, p, i)
    ensures Contains(s, p)
  {
  }

  /** Every character of an occurring pattern occurs in the text; the
      contrapositive refutes an occurrence by one missing character. */
  lemma NotContainsByChar(s: string, p: string, k: nat)
    requires k < |p| && p[k] !in s
    ensures !Contains(s, p)
  {
  }

  /** An occurrence of `p` is also an occurrence of each of its prefixes. */
  lemma ContainsPrefix(s: string, p: string, n: nat)
    requires n <= |p| && Contains(s, p)
    ensures Contains(s, p[..n])
  {
    var i :| 0 <= i <= |s| - |p| && OccursAt(s, p, i);
    assert s[i..i + n] == s[i..i + |p|][..n];
    assert OccursAt(s, p[..n], i);
  }

  /** A pattern that does not contain the first character of `b` cannot
      straddle the seam of `a + b`. */
  lemma NotContainsAppend(a: string, b: string, p: string)
    requires p != [] && b != [] && b[0] !in p
    requires !Contains(a, p) && !Contains(b, p)
    ensures !Contains(a + b, p)
  {
    forall i | 0 <= i <= |a + b| - |p|
      ensures !OccursAt(a + b, p, i)
    {
      if i + |p| <= |a| {
        assert (a + b)[i..i + |p|] == a[i..i + |p|];
        assert !OccursAt(a, p, i);
      } else if i >= |a| {
        assert (a + b)[i..i + |p|] == b[i - |a|..i - |a| + |p|];
        assert !OccursAt(b, p, i - |a|);
      } else {
        assert (a + b)[i..i + |p|][|a| - i] == b[0];
      }
    }
  }

  lemma SliceOfSlice(s: string, i: nat, j: nat, a: nat, b: nat)
    requires i <= j <= |s| && a <= b <= j - i
    ensures s[i..j][a..b] == s[i + a..i + b]
  {
    var l := s[i..j][a..b];
    var r := s[i + a..i + b];
    forall k | 0 <= k < b - a
      ensures l[k] == r[k]
    {
    }
  }

  /** A text that lacks a part of `p` lacks `p`. */
  lemma NotContainsByPart(s: string, pre: string, part: string, post: string)
    requires !Contains(s, part)
    ensures !Contains(s, pre + part + post)
  {
    var p := pre + part + post;
    forall i | 0 <= i <= |s| - |p|
      ensures !OccursAt(s, p, i)
    {
      assert !OccursAt(s, part, i + |pre|);
      SliceOfSlice(s, i, i + |p|, |pre|, |pre| + |part|);
      assert p[|pre|..|pre| + |part|] == part;
    }
  }

  /** The pieces laid end to end. */
  function Concat(cs: seq<string>): string
  {
    if cs == [] then [] else cs[0] + Concat(cs[1..])
  }

  lemma ConcatSplitFirst(a: string, b: string, rest: seq<string>)
    ensures Concat([a, b] + rest) == Concat([a + b] + rest)
  {
    assert ([a, b] + rest)[1..] == [b] + rest;
    assert ([b] + rest)[1..] == rest;
    assert ([a + b] + rest)[1..] == rest;
  }

  lemma {:induction false} LowerConcat(cs: seq<string>, ls: seq<string>)
    requires |cs| == |ls| && forall i :: 0 <= i < |cs| ==> Lower(cs[i]) == ls[i]
    ensures Lower(Concat(cs)) == Concat(ls)
  {
    if cs != [] {
      LowerConcat(cs[1..], ls[1..]);
      LowerAppend(cs[0], Concat(cs[1..]));
    }
  }

  /** `p` is absent from a text cut into pieces when each piece lacks one of
      its characters (`p[ks[i]]` for piece `i`) and every piece after the
      first begins with a character that `p` does not use. */
  lemma {:induction false} NotContainsPieces(cs: seq<string>, p: string, ks: seq<nat>)
    requires p != [] && |ks| == |cs|
    requires forall i :: 0 <= i < |cs| ==> ks[i] < |p| && p[ks[i]] !in cs[i]
    requires forall i :: 0 < i < |cs| ==> cs[i] != [] && cs[i][0] !in p
    ensures !Contains(Concat(cs), p)
  {
    if cs != [] {
      NotContainsByChar(cs[0], p, ks[0]);
      if |cs| > 1 {
        NotContainsPieces(cs[1..], p, ks[1..]);
        NotContainsAppend(cs[0], Concat(cs[1..]), p);
      }
    }
  }

  lemma ContainsAppendLeft(a: string, b: string, p: string)
    requires Contains(a, p)
    ensures Contains(a + b, p)
  {
    var i :| 0 <= i <= |a| - |p| && OccursAt(a, p, i);
    assert (a + b)[i..i + |p|] == a[i..i + |p|];
    assert OccursAt(a + b, p, i);
  }

  lemma ContainsAppendRight(a: string, b: string, p: string)
    requires Contains(b, p)
    ensures Contains(a + b, p)
  {
    var i :| 0 <= i <= |b| - |p| && OccursAt(b, p, i);
    assert (a + b)[|a| + i..|a| + i + |p|] == b[i..i + |p|];
    assert OccursAt(a + b, p, |a| + i);
  }

  lemma ContainsSelf(p: string)
    ensures Contains(p, p)
  {
    assert OccursAt(p, p, 0);
  }

  /** `xs.join(sep)`. */
  function Join(xs: seq<string>, sep: string): (r: string)
  {
    if xs == [] then []
    else if |xs| == 1 then xs[0]
    else xs[0] + sep + Join(xs[1..], sep)
  }

  /** Each joined piece occurs in the result, and one piece is the whole
      result. */
  lemma {:induction false} JoinContains(xs: seq<string>, sep: string)
    ensures |xs| == 1 ==> Join(xs, sep) == xs[0]
    ensures forall i :: 0 <= i < |xs| ==> Contains(Join(xs, sep), xs[i])
  {
    if |xs| == 1 {
      ContainsSelf(xs[0]);
    } else if |xs| > 1 {
      JoinContains(xs[1..], sep);
      var rest := Join(xs[1..], sep);
      ContainsSelf(xs[0]);
      ContainsAppendLeft(xs[0], sep + rest, xs[0]);
      assert xs[0] + sep + rest == xs[0] + (sep + rest);
      forall i | 1 <= i < |xs|
        ensures Contains(Join(xs, sep), xs[i])
      {
        assert xs[1..][i - 1] == xs[i];
        ContainsAppendRight(xs[0] + sep, rest, xs[i]);
      }
    }
  }

  /** The characters `String.prototype.trim` removes: WhiteSpace (tab,
      vertical tab, form feed, space, no-break space, byte-order mark and the
      space separators of Unicode category Zs) and LineTerminator (line feed,
      carriage return, line and paragraph separators). */
  predicate IsJsSpace(c: char)
  {
    var n := c as int;
    || 0x09 <= n <= 0x0D
    || n == 0x20 || n == 0xA0 || n == 0x1680
    || 0x2000 <= n <= 0x200A
    || n == 0x2028 || n == 0x2029 || n == 0x202F || n == 0x205F
    || n == 0x3000 || n == 0xFEFF
  }

  predicate AllSpace(s: string)
  {
    forall i :: 0 <= i < |s| ==> IsJsSpace(s[i])
  }

  /** Neither end of `s` is a trimmable character. */
  predicate IsTrimmed(s: string)
  {
    s == [] || (!IsJsSpace(s[0]) && !IsJsSpace(s[|s| - 1]))
  }

  function TrimStart(s: string): (r: string)
    ensures |r| <= |s| && r == s[|s| - |r|..]
    ensures AllSpace(s[..|s| - |r|])
    ensures r == [] || !IsJsSpace(r[0])
  {
    if s != [] && IsJsSpace(s[0]) then TrimStart(s[1..]) else s
  }

  function TrimEnd(s: string): (r: string)
    ensures |r| <= |s| && r == s[..|r|]
    ensures AllSpace(s[|r|..])
    ensures r == [] || !IsJsSpace(r[|r| - 1])
  {
    if s != [] && IsJsSpace(s[|s| - 1]) then TrimEnd(s[..|s| - 1]) else s
  }

  /** `s.trim()`: the slice of `s` left once the trimmable characters at
      both ends are gone. */
  function Trim(s: string): (r: string)
    ensures IsTrimmed(r)
    ensures exists i :: 0 <= i <= |s| - |r| && r == s[i..i + |r|]
              && AllSpace(s[..i]) && AllSpace(s[i + |r|..])
  {
    var t := TrimStart(s);
    var r := TrimEnd(t);
    var i := |s| - |t|;
    assert r == s[i..i + |r|];
    assert s[i + |r|..] == t[|r|..];
    r
  }

  /** Trimming is the identity exactly on trimmed strings. */
  lemma TrimFixesTrimmed(s: string)
    ensures Trim(s) == s <==> IsTrimmed(s)
  {
  }

  lemma TrimIdempotent(s: string)
    ensures Trim(Trim(s)) == Trim(s)
  {
    TrimFixesTrimmed(Trim(s));
  }

  /** A string is blank after trimming exactly when it is all trimmable. */
  lemma TrimEmptyIffAllSpace(s: string)
    ensures Trim(s) == [] <==> AllSpace(s)
  {
  }
}
