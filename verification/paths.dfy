/** Path normalisation for matching a page against a mention's target:
    `stripOuterSlashes` and the lower-casing that precedes it. */
module Paths {

  /** Every character of `s` is a slash (vacuously so for ""). */
  predicate AllSlashes(s: string) {
    forall i :: 0 <= i < |s| ==> s[i] == '/'
  }

  /** `s` neither starts nor ends with a slash. */
  predicate NoOuterSlash(s: string) {
    s == [] || (s[0] != '/' && s[|s| - 1] != '/')
  }

  function DropLeadingSlashes(s: string): string {
    if s != [] && s[0] == '/' then DropLeadingSlashes(s[1..]) else s
  }

  function DropTrailingSlashes(s: string): string {
    if s != [] && s[|s| - 1] == '/' then DropTrailingSlashes(s[..|s| - 1]) else s
  }

  /** What `stripOuterSlashes` returns: `s` without its leading and trailing runs of '/'. */
  function Stripped(s: string): string {
    DropTrailingSlashes(DropLeadingSlashes(s))
  }

  /** The source's two scanning loops. `start` here is the source's `start - 1`
      (its post-increment leaves `start` one past the first non-slash) and
      `end` is the source's `end + 1`; when `s` is all slashes the loops cross
      and the slice is empty. */
  method StripOuterSlashes(s: string) returns (r: string)
    ensures r == Stripped(s)
  {
    var start := 0;
    while start < |s| && s[start] == '/'
      invariant start <= |s| && AllSlashes(s[..start])
    {
      start := start + 1;
    }
    var end: nat := |s|;
    while end > 0 && s[end - 1] == '/'
      invariant end <= |s| && AllSlashes(s[end..])
    {
      end := end - 1;
    }
    DropLeadingAt(s, start);
    if start <= end {
      r := s[start..end];
      assert s[start..][end - start..] == s[end..];
      assert s[start..][..end - start] == r;
      DropTrailingAt(s[start..], end - start);
    } else {
      assert start == |s|;
      r := "";
    }
  }

  lemma {:induction false} DropLeadingAt(s: string, i: nat)
    requires i <= |s| && AllSlashes(s[..i]) && (i == |s| || s[i] != '/')
    ensures DropLeadingSlashes(s) == s[i..]
  {
    if i > 0 {
      assert s[..i][0] == s[0];
      assert s[1..][..i - 1] == s[..i][1..];
      assert s[1..][i - 1..] == s[i..];
      DropLeadingAt(s[1..], i - 1);
    }
  }

  lemma {:induction false} DropTrailingAt(s: string, j: nat)
    requires j <= |s| && AllSlashes(s[j..]) && (j == 0 || s[j - 1] != '/')
    ensures DropTrailingSlashes(s) == s[..j]
  {
    if j < |s| {
      assert s[j..][|s| - 1 - j] == s[|s| - 1];
      var t := s[..|s| - 1];
      assert t[j..] == s[j..][..|s| - 1 - j];
      assert t[..j] == s[..j];
      DropTrailingAt(t, j);
    }
  }

  lemma {:induction false} DropLeadingShape(s: string)
    ensures var t := DropLeadingSlashes(s);
      |t| <= |s| && t == s[|s| - |t|..] && AllSlashes(s[..|s| - |t|]) && (t == [] || t[0] != '/')
  {
    if s != [] && s[0] == '/' {
      DropLeadingShape(s[1..]);
      var t := DropLeadingSlashes(s);
      var k := |s| - |t|;
      assert s[1..][|s[1..]| - |t|..] == s[k..];
      forall i | 0 <= i < k ensures s[..k][i] == '/' {
        if i > 0 {
          assert s[1..][..k - 1][i - 1] == s[i];
        }
      }
    }
  }

  lemma {:induction false} DropTrailingShape(s: string)
    ensures var t := DropTrailingSlashes(s);
      |t| <= |s| && t == s[..|t|] && AllSlashes(s[|t|..]) && (t == [] || t[|t| - 1] != '/')
  {
    if s != [] && s[|s| - 1] == '/' {
      var u := s[..|s| - 1];
      DropTrailingShape(u);
      var t := DropTrailingSlashes(s);
      assert u[..|t|] == s[..|t|];
      forall i | |t| <= i < |s| ensures s[i] == '/' {
        if i < |s| - 1 {
          assert u[|t|..][i - |t|] == s[i];
        }
      }
    }
  }

  /** `Stripped(s)` is an infix of `s` bordered only by slashes, and it has no
      outer slash itself: the leading and trailing runs removed are maximal,
      and every interior slash is kept. */
  lemma {:induction false} StrippedShape(s: string)
    ensures NoOuterSlash(Stripped(s))
    ensures exists i :: (0 <= i <= |s| - |Stripped(s)|
      && s[i..i + |Stripped(s)|] == Stripped(s)
      && AllSlashes(s[..i]) && AllSlashes(s[i + |Stripped(s)|..]))
  {
    var a, b := SplitAroundStripped(s);
    var r := Stripped(s);
    var i := |a|;
    assert s[..i] == a;
    assert s[i..i + |r|] == r;
    assert s[i + |r|..] == b;
  }

  /** Any split of `s` into slashes, a part without outer slashes, and slashes
      determines `Stripped(s)`. */
  lemma StrippedUnique(a: string, r: string, b: string)
    requires AllSlashes(a) && AllSlashes(b) && NoOuterSlash(r)
    ensures Stripped(a + r + b) == r
  {
    var s := a + r + b;
    if r == [] {
      assert s == a + b;
      assert AllSlashes(s[..|s|]) by {
        forall i | 0 <= i < |s| ensures s[i] == '/' {
          if i >= |a| { assert s[i] == b[i - |a|]; }
        }
      }
      DropLeadingAt(s, |s|);
    } else {
      assert s[..|a|] == a;
      assert s[|a|] == r[0];
      DropLeadingAt(s, |a|);
      var t := s[|a|..];
      assert t == r + b;
      assert t[|r|..] == b && t[..|r|] == r;
      DropTrailingAt(t, |r|);
    }
  }

  /** Stripping is idempotent. */
  lemma StrippedIdempotent(s: string)
    ensures Stripped(Stripped(s)) == Stripped(s)
  {
    StrippedShape(s);
    var r := Stripped(s);
    assert "" + r + "" == r;
    StrippedUnique("", r, "");
  }

  /** The empty string and the all-slash strings, and only they, strip to "". */
  lemma StrippedEmpty(s: string)
    ensures Stripped(s) == "" <==> AllSlashes(s)
  {
    if AllSlashes(s) {
      assert s + "" + "" == s;
      StrippedUnique(s, "", "");
    } else {
      StrippedShape(s);
      if Stripped(s) == "" {
        var i :| 0 <= i <= |s| && AllSlashes(s[..i]) && AllSlashes(s[i..]);
        forall k | 0 <= k < |s| ensures s[k] == '/' {
          if k < i { assert s[..i][k] == s[k]; } else { assert s[i..][k - i] == s[k]; }
        }
        assert false;
      }
    }
  }

  /** `toLowerCase`, restricted to the ASCII letters. */
  function LowerChar(c: char): char {
    if 'A' <= c <= 'Z' then (c as int - 'A' as int + 'a' as int) as char else c
  }

  function Lower(s: string): string {
    seq(|s|, i requires 0 <= i < |s| => LowerChar(s[i]))
  }

  /** The normalised form both sides of a path comparison are reduced to:
      lower-cased first, then stripped of outer slashes. */
  function Normalise(path: string): (r: string)
    ensures NoOuterSlash(r)
    ensures |r| <= |path|
  {
    StrippedShape(Lower(path));
    Stripped(Lower(path))
  }

  /** `t` split around `Stripped(t)` into its two slash runs. */
  lemma SplitAroundStripped(t: string) returns (a: string, b: string)
    ensures AllSlashes(a) && AllSlashes(b) && NoOuterSlash(Stripped(t))
    ensures t == a + Stripped(t) + b
  {
    DropLeadingShape(t);
    var rest := DropLeadingSlashes(t);
    DropTrailingShape(rest);
    var r := DropTrailingSlashes(rest);
    assert r == Stripped(t);
    var k := |t| - |rest|;
    a, b := t[..k], rest[|r|..];
    assert t == t[..k] + t[k..];
    assert rest == rest[..|r|] + rest[|r|..];
    assert r != [] ==> r[0] == rest[0];
  }

  /** Normalisation ignores ASCII case. */
  lemma NormaliseIgnoresCase(s: string)
    ensures Normalise(Lower(s)) == Normalise(s)
  {
    assert Lower(Lower(s)) == Lower(s);
  }

  /** Normalisation ignores one more slash in front. */
  lemma NormaliseIgnoresLeadingSlash(s: string)
    ensures Normalise("/" + s) == Normalise(s)
  {
    var t := Lower(s);
    var a, b := SplitAroundStripped(t);
    assert Lower("/" + s) == "/" + t;
    assert "/" + t == ("/" + a) + Stripped(t) + b;
    StrippedUnique("/" + a, Stripped(t), b);
  }

  /** Normalisation ignores one more slash at the end. */
  lemma NormaliseIgnoresTrailingSlash(s: string)
    ensures Normalise(s + "/") == Normalise(s)
  {
    var t := Lower(s);
    var a, b := SplitAroundStripped(t);
    assert Lower(s + "/") == t + "/";
    assert t + "/" == a + Stripped(t) + (b + "/");
    StrippedUnique(a, Stripped(t), b + "/");
  }

  /** `/foo/`, `foo` and `FOO` normalise alike. */
  lemma SlashAndCaseExample()
    ensures Normalise("/foo/") == Normalise("foo") == Normalise("FOO")
  {
    assert "/foo/" == "/" + "foo/";
    NormaliseIgnoresLeadingSlash("foo/");
    assert "foo/" == "foo" + "/";
    NormaliseIgnoresTrailingSlash("foo");
    assert Lower("FOO") == "foo";
    NormaliseIgnoresCase("FOO");
    assert Lower("foo") == "foo";
  }
}
