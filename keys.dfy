/**
 * Lookup keys: a make or model name is compared after `strip()` and `lower()`,
 * both on the dataset side and on the request side.
 */
module Keys {

  /** Python's `str.isspace()`: the characters `strip()` removes when given no argument. */
  predicate IsSpace(c: char)
  {
    || ('\t' <= c <= '\r')
    || ('\U{1C}' <= c <= '\U{1F}')
    || c == ' ' || c == '\U{85}' || c == '\U{A0}' || c == '\U{1680}'
    || ('\U{2000}' <= c <= '\U{200A}')
    || c == '\U{2028}' || c == '\U{2029}' || c == '\U{202F}' || c == '\U{205F}' || c == '\U{3000}'
  }

  predicate IsUpper(c: char)
  {
    'A' <= c <= 'Z'
  }

  /** True of a string made only of whitespace (the empty string included). */
  predicate IsBlank(s: string)
  {
    forall i :: 0 <= i < |s| ==> IsSpace(s[i])
  }

  function LowerChar(c: char): (d: char)
    ensures !IsUpper(d)
    ensures IsSpace(d) == IsSpace(c)
    ensures !IsUpper(c) ==> d == c
  {
    if IsUpper(c) then (c as int + 32) as char else c
  }

  /** `str.lower()`, letter by letter. */
  function Lower(s: string): (r: string)
    ensures |r| == |s|
    ensures forall i :: 0 <= i < |s| ==> r[i] == LowerChar(s[i])
  {
    if s == [] then [] else [LowerChar(s[0])] + Lower(s[1..])
  }

  /** `str.lstrip()`: drops the leading whitespace and nothing else. */
  function TrimStart(s: string): (r: string)
    ensures |r| <= |s| && r == s[|s| - |r|..]
    ensures IsBlank(s[..|s| - |r|])
    ensures r == [] || !IsSpace(r[0])
  {
    if |s| > 0 && IsSpace(s[0]) then
      var r := TrimStart(s[1..]);
      var k := |s| - |r|;
      assert s[|s| - |r|..] == s[1..][k - 1..];
      assert IsBlank(s[..k]) by {
        forall i | 0 <= i < k ensures IsSpace(s[..k][i]) {
          if i > 0 {
            assert s[..k][i] == s[1..][..k - 1][i - 1];
          }
        }
      }
      r
    else s
  }

  /** `str.rstrip()`: drops the trailing whitespace and nothing else. */
  function TrimEnd(s: string): (r: string)
    ensures |r| <= |s| && r == s[..|r|]
    ensures IsBlank(s[|r|..])
    ensures r == [] || !IsSpace(r[|r| - 1])
  {
    if |s| > 0 && IsSpace(s[|s| - 1]) then
      var p := s[..|s| - 1];
      var r := TrimEnd(p);
      assert s[|r|..] == p[|r|..] + [s[|s| - 1]];
      assert s[..|r|] == p[..|r|];
      r
    else s
  }

  /** `s` is `r` with the blank `s[..i]` before it and a blank remainder after it. */
  predicate PaddedAt(s: string, r: string, i: int)
  {
    0 <= i <= |s| - |r| && r == s[i..i + |r|] && IsBlank(s[..i]) && IsBlank(s[i + |r|..])
  }

  /** `str.strip()`. */
  function Strip(s: string): (r: string)
    ensures r == [] || (!IsSpace(r[0]) && !IsSpace(r[|r| - 1]))
    ensures exists i :: PaddedAt(s, r, i)
  {
    var t := TrimStart(s);
    var r := TrimEnd(t);
    assert r == [] || r[0] == t[0];
    StripIsInfix(s, t, r);
    assert PaddedAt(s, r, |s| - |t|);
    r
  }

  lemma StripIsInfix(s: string, t: string, r: string)
    requires |t| <= |s| && t == s[|s| - |t|..] && IsBlank(s[..|s| - |t|])
    requires |r| <= |t| && r == t[..|r|] && IsBlank(t[|r|..])
    ensures r == s[|s| - |t|..|s| - |t| + |r|]
    ensures IsBlank(s[..|s| - |t|]) && IsBlank(s[|s| - |t| + |r|..])
  {
    assert s[|s| - |t| + |r|..] == t[|r|..];
  }

  /** A key as stored and as looked up: no surrounding whitespace and no capital letter. */
  predicate IsNormalized(s: string)
  {
    && (s == [] || (!IsSpace(s[0]) && !IsSpace(s[|s| - 1])))
    && forall i :: 0 <= i < |s| ==> !IsUpper(s[i])
  }

  /** `s.strip().lower()`, the normalization applied to makes, models and column names. */
  function Normalize(s: string): (r: string)
    ensures IsNormalized(r)
  {
    var t := Strip(s);
    LowerOfStripped(t);
    Lower(t)
  }

  lemma LowerOfStripped(t: string)
    requires t == [] || (!IsSpace(t[0]) && !IsSpace(t[|t| - 1]))
    ensures IsNormalized(Lower(t))
  {
    var r := Lower(t);
    assert r == [] || (r[0] == LowerChar(t[0]) && r[|r| - 1] == LowerChar(t[|t| - 1]));
  }

  /** Two strings that differ at most in the case of their letters. */
  predicate SameUpToCase(s: string, t: string)
  {
    |s| == |t| && forall i :: 0 <= i < |s| ==> LowerChar(s[i]) == LowerChar(t[i])
  }

  lemma {:induction false} LowerFixesLowerCase(s: string)
    requires forall i :: 0 <= i < |s| ==> !IsUpper(s[i])
    ensures Lower(s) == s
  {
    if s != [] {
      LowerFixesLowerCase(s[1..]);
    }
  }

  /** A key that is already normalized is left as it is. */
  lemma {:induction false} NormalizeFixesNormalized(s: string)
    requires IsNormalized(s)
    ensures Normalize(s) == s
  {
    assert TrimStart(s) == s;
    assert TrimEnd(s) == s;
    LowerFixesLowerCase(s);
  }

  /** Normalizing twice changes nothing. */
  lemma NormalizeIdempotent(s: string)
    ensures Normalize(Normalize(s)) == Normalize(s)
  {
    NormalizeFixesNormalized(Normalize(s));
  }

  lemma {:induction false} TrimStartSkipsBlank(p: string, t: string)
    requires IsBlank(p)
    ensures TrimStart(p + t) == TrimStart(t)
  {
    if p != [] {
      assert (p + t)[0] == p[0] && IsSpace(p[0]);
      assert (p + t)[1..] == p[1..] + t;
      assert IsBlank(p[1..]) by {
        forall i | 0 <= i < |p[1..]| ensures IsSpace(p[1..][i]) {
          assert p[1..][i] == p[i + 1];
        }
      }
      TrimStartSkipsBlank(p[1..], t);
    } else {
      assert p + t == t;
    }
  }

  lemma {:induction false} TrimStartAppend(s: string, t: string)
    ensures TrimStart(s) != [] ==> TrimStart(s + t) == TrimStart(s) + t
    ensures TrimStart(s) == [] ==> TrimStart(s + t) == TrimStart(t)
  {
    if s == [] {
      assert s + t == t;
    } else if IsSpace(s[0]) {
      assert (s + t)[1..] == s[1..] + t;
      TrimStartAppend(s[1..], t);
    }
  }

  lemma {:induction false} TrimEndSkipsBlank(t: string, q: string)
    requires IsBlank(q)
    ensures TrimEnd(t + q) == TrimEnd(t)
  {
    if q == [] {
      assert t + q == t;
    } else {
      assert (t + q)[..|t + q| - 1] == t + q[..|q| - 1];
      TrimEndSkipsBlank(t, q[..|q| - 1]);
    }
  }

  /** Whitespace around a make or model never changes its key. */
  lemma NormalizeIgnoresPadding(pre: string, s: string, post: string)
    requires IsBlank(pre) && IsBlank(post)
    ensures Normalize(pre + s + post) == Normalize(s)
  {
    assert pre + s + post == pre + (s + post);
    TrimStartSkipsBlank(pre, s + post);
    TrimStartAppend(s, post);
    if TrimStart(s) != [] {
      TrimEndSkipsBlank(TrimStart(s), post);
    } else {
      assert TrimStart(post) == [];
    }
  }

  lemma {:induction false} TrimStartSameUpToCase(s: string, t: string)
    requires SameUpToCase(s, t)
    ensures SameUpToCase(TrimStart(s), TrimStart(t))
  {
    if |s| > 0 {
      assert IsSpace(s[0]) == IsSpace(LowerChar(s[0])) == IsSpace(t[0]);
      if IsSpace(s[0]) {
        TrimStartSameUpToCase(s[1..], t[1..]);
      }
    }
  }

  lemma {:induction false} TrimEndSameUpToCase(s: string, t: string)
    requires SameUpToCase(s, t)
    ensures SameUpToCase(TrimEnd(s), TrimEnd(t))
  {
    if |s| > 0 {
      assert IsSpace(s[|s| - 1]) == IsSpace(LowerChar(s[|s| - 1])) == IsSpace(t[|t| - 1]);
      if IsSpace(s[|s| - 1]) {
        TrimEndSameUpToCase(s[..|s| - 1], t[..|t| - 1]);
      }
    }
  }

  /** Letter case never changes a key. */
  lemma NormalizeIgnoresCase(s: string, t: string)
    requires SameUpToCase(s, t)
    ensures Normalize(s) == Normalize(t)
  {
    TrimStartSameUpToCase(s, t);
    TrimEndSameUpToCase(TrimStart(s), TrimStart(t));
  }
}
