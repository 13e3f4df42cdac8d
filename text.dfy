/**
 * `normalize_name` (src/processors.py:9-10): `name.strip().lower()`.
 * The model is over ASCII: `IsSpace` is Python's `str.isspace` restricted to
 * code points below 128 and `ToLower` folds only 'A'..'Z'.
 */
module Text {

  /** Python's `str.isspace` on ASCII: \t \n \v \f \r, the separators 0x1c-0x1f, and ' '. */
  predicate IsSpace(c: char) {
    c == ' ' || (9 <= c as int <= 13) || (28 <= c as int <= 31)
  }

  predicate IsUpper(c: char) {
    'A' <= c <= 'Z'
  }

  function ToLower(c: char): char {
    if IsUpper(c) then (c as int + 32) as char else c
  }

  /** `str.lower`, character by character. */
  function Lower(s: string): string {
    seq(|s|, i requires 0 <= i < |s| => ToLower(s[i]))
  }

  predicate AllSpace(s: string) {
    forall i :: 0 <= i < |s| ==> IsSpace(s[i])
  }

  /** Neither starts nor ends with whitespace. */
  predicate Bare(s: string) {
    s == [] || (!IsSpace(s[0]) && !IsSpace(s[|s| - 1]))
  }

  predicate NoUpper(s: string) {
    forall i :: 0 <= i < |s| ==> !IsUpper(s[i])
  }

  /** `str.lstrip()`: the suffix left after dropping the leading whitespace. */
  function StripLeading(s: string): (r: string)
    ensures |r| <= |s| && r == s[|s| - |r|..]
    ensures AllSpace(s[..|s| - |r|])
    ensures r == [] || !IsSpace(r[0])
  {
    if s != [] && IsSpace(s[0]) then
      var r := StripLeading(s[1..]);
      assert s[..|s| - |r|] == [s[0]] + s[1..][..|s| - 1 - |r|];
      r
    else s
  }

  /** `str.rstrip()`: the prefix left after dropping the trailing whitespace. */
  function StripTrailing(s: string): (r: string)
    ensures |r| <= |s| && r == s[..|r|]
    ensures AllSpace(s[|r|..])
    ensures r == [] || !IsSpace(r[|r| - 1])
  {
    if s != [] && IsSpace(s[|s| - 1]) then
      var r := StripTrailing(s[..|s| - 1]);
      assert s[|r|..] == s[..|s| - 1][|r|..] + [s[|s| - 1]];
      r
    else s
  }

  /** `str.strip()`. */
  function Strip(s: string): string {
    StripTrailing(StripLeading(s))
  }

  /** `normalize_name`: strip, then lower-case. */
  function NormalizeName(name: string): (key: string)
    ensures Bare(key) && NoUpper(key)
  {
    StripBare(name);
    LowerKeepsBare(Strip(name));
    Lower(Strip(name))
  }

  lemma LowerKeepsBare(s: string)
    requires Bare(s)
    ensures Bare(Lower(s)) && NoUpper(Lower(s))
  {
    var l := Lower(s);
    forall i | 0 <= i < |l| ensures !IsUpper(l[i]) && (IsSpace(l[i]) <==> IsSpace(s[i])) {
      assert l[i] == ToLower(s[i]);
    }
  }

  lemma LowerOfNoUpper(s: string)
    requires NoUpper(s)
    ensures Lower(s) == s
  {
    forall i | 0 <= i < |s| ensures Lower(s)[i] == s[i] {
      assert !IsUpper(s[i]);
    }
  }

  lemma StripBare(s: string)
    ensures Bare(Strip(s))
  {
    var l := StripLeading(s);
    var r := StripTrailing(l);
    if r != [] {
      assert r[0] == l[0];
    }
  }

  lemma StripOfBare(s: string)
    requires Bare(s)
    ensures Strip(s) == s
  {
  }

  lemma {:induction false} StripLeadingSpacePrefix(a: string, t: string)
    requires AllSpace(a)
    ensures StripLeading(a + t) == StripLeading(t)
    decreases |a|
  {
    if a == [] {
      assert a + t == t;
    } else {
      assert (a + t)[1..] == a[1..] + t;
      StripLeadingSpacePrefix(a[1..], t);
    }
  }

  lemma {:induction false} StripTrailingSpaceSuffix(t: string, b: string)
    requires AllSpace(b)
    ensures StripTrailing(t + b) == StripTrailing(t)
    decreases |b|
  {
    if b == [] {
      assert t + b == t;
    } else {
      assert (t + b)[..|t + b| - 1] == t + b[..|b| - 1];
      StripTrailingSpaceSuffix(t, b[..|b| - 1]);
    }
  }

  /** Once a non-space character has been reached, what follows is kept verbatim. */
  lemma {:induction false} StripLeadingAppend(s: string, b: string)
    requires !AllSpace(s)
    ensures StripLeading(s + b) == StripLeading(s) + b
    decreases |s|
  {
    if IsSpace(s[0]) {
      assert (s + b)[1..] == s[1..] + b;
      StripLeadingAppend(s[1..], b);
    }
  }

  /** Whitespace around a name never changes its stripped form. */
  lemma StripIgnoresMargins(a: string, s: string, b: string)
    requires AllSpace(a) && AllSpace(b)
    ensures Strip(a + s + b) == Strip(s)
  {
    assert a + s + b == a + (s + b);
    StripLeadingSpacePrefix(a, s + b);
    if AllSpace(s) {
      assert AllSpace(s + b);
    } else {
      StripLeadingAppend(s, b);
      StripTrailingSpaceSuffix(StripLeading(s), b);
    }
  }

  lemma {:induction false} LowerStripLeading(s: string)
    ensures Lower(StripLeading(s)) == StripLeading(Lower(s))
    decreases |s|
  {
    if s != [] {
      var l := Lower(s);
      assert l[0] == ToLower(s[0]);
      if IsSpace(s[0]) {
        assert l[1..] == Lower(s[1..]);
        LowerStripLeading(s[1..]);
      }
    }
  }

  lemma {:induction false} LowerStripTrailing(s: string)
    ensures Lower(StripTrailing(s)) == StripTrailing(Lower(s))
    decreases |s|
  {
    if s != [] {
      var l := Lower(s);
      assert l[|s| - 1] == ToLower(s[|s| - 1]);
      if IsSpace(s[|s| - 1]) {
        assert l[..|s| - 1] == Lower(s[..|s| - 1]);
        LowerStripTrailing(s[..|s| - 1]);
      }
    }
  }

  /** Lower-casing before or after stripping gives the same key. */
  lemma NormalizeLowersFirst(name: string)
    ensures NormalizeName(name) == Strip(Lower(name))
  {
    LowerStripLeading(name);
    LowerStripTrailing(StripLeading(name));
  }

  /** Normalising a key again leaves it unchanged. */
  lemma NormalizeIdempotent(name: string)
    ensures NormalizeName(NormalizeName(name)) == NormalizeName(name)
  {
    var key := NormalizeName(name);
    StripOfBare(key);
    LowerOfNoUpper(key);
  }

  /**
   * Two spellings of a club that differ only in letter case and in the
   * whitespace around them map to the same key.
   */
  lemma NormalizeInsensitive(a: string, pre: string, post: string, b: string)
    requires Lower(a) == Lower(b)
    requires AllSpace(pre) && AllSpace(post)
    ensures NormalizeName(pre + a + post) == NormalizeName(b)
  {
    StripIgnoresMargins(pre, a, post);
    NormalizeLowersFirst(a);
    NormalizeLowersFirst(b);
  }
}
