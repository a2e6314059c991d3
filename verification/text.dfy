/**
 * String helpers with Python's semantics, restricted to what the model needs:
 * `lstrip`/`rstrip`/`strip` of one character, `split` on one character,
 * `join`, `replace(old, '')`, and ASCII case mapping.
 */
module Text {

  /** ASCII upper-case letter (Python's `str.isupper` on one ASCII character). */
  predicate IsUpper(c: char) {
    'A' <= c <= 'Z'
  }

  /** ASCII lower-case letter. */
  predicate IsLower(c: char) {
    'a' <= c <= 'z'
  }

  /** Python's `str.lower` on one ASCII character. */
  function Lower(c: char): (r: char)
    ensures !IsUpper(r)
    ensures IsUpper(c) ==> IsLower(r) && r as int == c as int + 32
    ensures !IsUpper(c) ==> r == c
  {
    if IsUpper(c) then (c as int + 32) as char else c
  }

  /** Python's `str.upper` on one ASCII character. */
  function Upper(c: char): (r: char)
    ensures !IsLower(r)
    ensures IsLower(c) ==> IsUpper(r) && r as int == c as int - 32
    ensures !IsLower(c) ==> r == c
  {
    if IsLower(c) then (c as int - 32) as char else c
  }

  /** Upper-casing undoes lower-casing on every character that lower-casing changes. */
  lemma UpperLower(c: char)
    requires IsUpper(c)
    ensures Upper(Lower(c)) == c
  {
  }

  /** Number of occurrences of `c` in `s`. */
  function CountChar(s: string, c: char): (n: nat)
    ensures n <= |s|
  {
    if |s| == 0 then 0
    else (if s[0] == c then 1 else 0) + CountChar(s[1..], c)
  }

  /** A character occurs nowhere exactly when its count is zero. */
  lemma {:induction false} CountCharZero(s: string, c: char)
    ensures CountChar(s, c) == 0 <==> c !in s
  {
    if |s| > 0 {
      CountCharZero(s[1..], c);
      assert s == [s[0]] + s[1..];
    }
  }

  /** Counting distributes over concatenation. */
  lemma {:induction false} CountCharAppend(a: string, b: string, c: char)
    ensures CountChar(a + b, c) == CountChar(a, c) + CountChar(b, c)
  {
    if |a| > 0 {
      assert (a + b)[1..] == a[1..] + b;
      CountCharAppend(a[1..], b, c);
    } else {
      assert a + b == b;
    }
  }

  lemma MulSucc(m: nat, n: nat)
    ensures m * (n + 1) == m * n + m
  {
  }

  /** Joining parts that each hold `m` copies of `c` with a separator free of `c` gives `m` copies per part. */
  lemma {:induction false} CountJoinUniform(parts: seq<string>, sep: string, c: char, m: nat)
    requires forall i :: 0 <= i < |parts| ==> CountChar(parts[i], c) == m
    requires c !in sep
    ensures CountChar(Join(parts, sep), c) == m * |parts|
  {
    CountCharZero(sep, c);
    if |parts| > 1 {
      var rest := Join(parts[1..], sep);
      CountJoinUniform(parts[1..], sep, c, m);
      assert Join(parts, sep) == parts[0] + sep + rest;
      CountCharAppend(parts[0] + sep, rest, c);
      CountCharAppend(parts[0], sep, c);
      var n := |parts[1..]|;
      assert |parts| == n + 1;
      MulSucc(m, n);
    } else if |parts| == 1 {
      assert Join(parts, sep) == parts[0];
    }
  }

  /** `s` consists of `c` only. */
  predicate AllChar(s: string, c: char) {
    forall i :: 0 <= i < |s| ==> s[i] == c
  }

  /** Python's `s.lstrip(c)`: drops every leading `c`. */
  function LStrip(s: string, c: char): (r: string)
    ensures |r| <= |s| && r == s[|s| - |r|..]
    ensures AllChar(s[..|s| - |r|], c)
    ensures |r| > 0 ==> r[0] != c
  {
    if |s| > 0 && s[0] == c then
      var r := LStrip(s[1..], c);
      assert s[|s| - |r|..] == s[1..][|s| - 1 - |r|..];
      assert forall i :: 1 <= i < |s| - |r| ==> s[i] == s[1..][..|s| - 1 - |r|][i - 1];
      r
    else s
  }

  /** Python's `s.rstrip(c)`: drops every trailing `c`. */
  function RStrip(s: string, c: char): (r: string)
    ensures |r| <= |s| && r == s[..|r|]
    ensures AllChar(s[|r|..], c)
    ensures |r| > 0 ==> r[|r| - 1] != c
  {
    if |s| > 0 && s[|s| - 1] == c then RStrip(s[..|s| - 1], c) else s
  }

  /** Python's `s.strip(c)`: drops every leading and trailing `c`. */
  function Strip(s: string, c: char): (r: string)
    ensures |r| <= |s|
    ensures |r| > 0 ==> r[0] != c && r[|r| - 1] != c
    ensures c !in s ==> r == s
  {
    RStrip(LStrip(s, c), c)
  }

  /** Python's `sep.join(parts)`. */
  function Join(parts: seq<string>, sep: string): string
  {
    if |parts| == 0 then ""
    else if |parts| == 1 then parts[0]
    else parts[0] + sep + Join(parts[1..], sep)
  }

  /** Python's `s.split(c)` for a one-character separator: never empty, and `''` splits to `['']`. */
  function Split(s: string, c: char): (r: seq<string>)
    ensures |r| == CountChar(s, c) + 1
    ensures forall i :: 0 <= i < |r| ==> c !in r[i]
  {
    if |s| == 0 then [""]
    else
      var rest := Split(s[1..], c);
      if s[0] == c then [""] + rest
      else [[s[0]] + rest[0]] + rest[1..]
  }

  /** Extending the first part extends the joined text by the same prefix. */
  lemma {:induction false} JoinExtendHead(x: string, parts: seq<string>, sep: string)
    requires |parts| > 0
    ensures Join([x + parts[0]] + parts[1..], sep) == x + Join(parts, sep)
  {
    var ps := [x + parts[0]] + parts[1..];
    assert ps[1..] == parts[1..];
    if |parts| > 1 {
      assert Join(ps, sep) == ps[0] + sep + Join(ps[1..], sep);
    }
  }

  /** A join starts with its first part. */
  lemma JoinStartsWith(parts: seq<string>, sep: string)
    requires |parts| > 0
    ensures |Join(parts, sep)| >= |parts[0]| && Join(parts, sep)[..|parts[0]|] == parts[0]
  {
  }

  /** A join ends with its last part. */
  lemma {:induction false} JoinEndsWith(parts: seq<string>, sep: string)
    requires |parts| > 0
    ensures var j, last := Join(parts, sep), parts[|parts| - 1];
      |j| >= |last| && j[|j| - |last|..] == last
  {
    if |parts| > 1 {
      JoinEndsWith(parts[1..], sep);
      assert parts[1..][|parts| - 2] == parts[|parts| - 1];
    }
  }

  /** Stripping a text that neither starts nor ends with `c`, behind one leading `c`, gives the text back. */
  lemma StripFramed(x: string, c: char)
    requires |x| > 0 && x[0] != c && x[|x| - 1] != c
    ensures Strip([c] + x, c) == x
  {
    assert ([c] + x)[1..] == x;
    assert LStrip([c] + x, c) == LStrip(x, c);
  }

  /** Joining the pieces of a split with the same separator gives the text back. */
  lemma {:induction false} JoinSplit(s: string, c: char)
    ensures Join(Split(s, c), [c]) == s
  {
    if |s| > 0 {
      var rest := Split(s[1..], c);
      JoinSplit(s[1..], c);
      if s[0] == c {
        assert ([""] + rest)[1..] == rest;
        assert s == [c] + s[1..];
      } else {
        JoinExtendHead([s[0]], rest, [c]);
        assert s == [s[0]] + s[1..];
      }
    }
  }

  /** Splitting the join of separator-free pieces gives the pieces back. */
  lemma {:induction false} SplitJoin(parts: seq<string>, c: char)
    requires |parts| > 0
    requires forall i :: 0 <= i < |parts| ==> c !in parts[i]
    ensures Split(Join(parts, [c]), c) == parts
  {
    if |parts| == 1 {
      SplitFree(parts[0], c);
    } else {
      var tail := Join(parts[1..], [c]);
      SplitJoin(parts[1..], c);
      SplitPrefixed(parts[0], tail, c);
      assert [parts[0]] + parts[1..] == parts;
    }
  }

  /** A separator-free text splits into itself. */
  lemma {:induction false} SplitFree(s: string, c: char)
    requires c !in s
    ensures Split(s, c) == [s]
  {
    if |s| > 0 {
      SplitFree(s[1..], c);
      assert [s[0]] + s[1..] == s;
    }
  }

  /** A separator-free head before one separator becomes its own first piece. */
  lemma {:induction false} SplitPrefixed(x: string, t: string, c: char)
    requires c !in x
    ensures Split(x + [c] + t, c) == [x] + Split(t, c)
  {
    if |x| == 0 {
      assert x + [c] + t == [c] + t;
      assert ([c] + t)[1..] == t;
    } else {
      var s := x + [c] + t;
      assert s[0] == x[0];
      assert s[1..] == x[1..] + [c] + t;
      SplitPrefixed(x[1..], t, c);
      assert [x[0]] + x[1..] == x;
    }
  }

  /** Six words free of `c`, each followed by one `c` except the last, split back into the six words. */
  lemma SplitSixWords(a: string, b: string, d: string, e: string, f: string, g: string, c: char)
    requires c !in a && c !in b && c !in d && c !in e && c !in f && c !in g
    ensures Split(a + [c] + (b + [c] + (d + [c] + (e + [c] + (f + [c] + g)))), c) == [a, b, d, e, f, g]
  {
    var t5 := f + [c] + g;
    var t4 := e + [c] + t5;
    var t3 := d + [c] + t4;
    var t2 := b + [c] + t3;
    SplitFree(g, c);
    SplitPrefixed(f, g, c);
    assert Split(t5, c) == [f, g];
    SplitPrefixed(e, t5, c);
    assert Split(t4, c) == [e, f, g];
    SplitPrefixed(d, t4, c);
    assert Split(t3, c) == [d, e, f, g];
    SplitPrefixed(b, t3, c);
    assert Split(t2, c) == [b, d, e, f, g];
    SplitPrefixed(a, t2, c);
  }

  /** Every part behind the same prefix. */
  function PrefixEach(parts: seq<string>, p: string): (r: seq<string>)
    ensures |r| == |parts| && forall i :: 0 <= i < |parts| ==> r[i] == p + parts[i]
  {
    seq(|parts|, i requires 0 <= i < |parts| => p + parts[i])
  }

  /** Prefixing every part and joining is prefixing once and joining with the prefix after the separator. */
  lemma {:induction false} JoinPrefixEach(parts: seq<string>, p: string, sep: string)
    requires |parts| > 0
    ensures Join(PrefixEach(parts, p), sep) == p + Join(parts, sep + p)
  {
    if |parts| > 1 {
      var pe := PrefixEach(parts, p);
      assert pe[1..] == PrefixEach(parts[1..], p);
      JoinPrefixEach(parts[1..], p, sep);
      assert Join(pe, sep) == (p + parts[0]) + sep + (p + Join(parts[1..], sep + p));
      assert Join(parts, sep + p) == parts[0] + (sep + p) + Join(parts[1..], sep + p);
    }
  }

  /** A character in no part and not in the separator is not in the join. */
  lemma {:induction false} JoinLacks(parts: seq<string>, sep: string, c: char)
    requires c !in sep
    requires forall i :: 0 <= i < |parts| ==> c !in parts[i]
    ensures c !in Join(parts, sep)
  {
    if |parts| > 1 {
      JoinLacks(parts[1..], sep, c);
      assert Join(parts, sep) == parts[0] + sep + Join(parts[1..], sep);
    }
  }

  /**
   * Splitting at `c` a join whose separator is `c` followed by `sp` gives the first part and
   * then every other part behind one `sp`, when no part holds a `c` (as for `", "` and `,`).
   */
  lemma SplitSeparatorPair(parts: seq<string>, c: char, sp: char)
    requires |parts| > 0 && c != sp
    requires forall i :: 0 <= i < |parts| ==> c !in parts[i]
    ensures Split(Join(parts, [c, sp]), c) == [parts[0]] + PrefixEach(parts[1..], [sp])
  {
    if |parts| == 1 {
      SplitFree(parts[0], c);
    } else {
      var rest := PrefixEach(parts[1..], [sp]);
      JoinPrefixEach(parts[1..], [sp], [c]);
      assert [c] + [sp] == [c, sp];
      assert Join(parts, [c, sp]) == parts[0] + [c] + Join(rest, [c]);
      SplitPrefixed(parts[0], Join(rest, [c]), c);
      SplitJoin(rest, c);
    }
  }

  /** Stripping a leading `c` from a text behind one `c`, when the text does not itself start with `c`. */
  lemma LStripOne(x: string, c: char)
    requires |x| > 0 && x[0] != c
    ensures LStrip([c] + x, c) == x && LStrip(x, c) == x
  {
    assert ([c] + x)[1..] == x;
  }

  /** Python's `s.replace(pat, '')`: removes the non-overlapping occurrences of `pat`, scanning left to right. */
  function RemoveAll(s: string, pat: string): (r: string)
    requires |pat| > 0
    ensures |r| <= |s|
    ensures forall c :: c in r ==> c in s
  {
    if |s| == 0 then ""
    else if pat <= s then RemoveAll(s[|pat|..], pat)
    else [s[0]] + RemoveAll(s[1..], pat)
  }

  /** A prefix that lacks the pattern's first character passes through the removal untouched. */
  lemma {:induction false} RemoveAllKeepsHead(s: string, t: string, pat: string)
    requires |pat| > 0 && pat[0] !in s
    ensures RemoveAll(s + t, pat) == s + RemoveAll(t, pat)
  {
    if |s| > 0 {
      assert (s + t)[0] == s[0];
      assert !(pat <= s + t);
      assert (s + t)[1..] == s[1..] + t;
      RemoveAllKeepsHead(s[1..], t, pat);
      assert s == [s[0]] + s[1..];
    } else {
      assert s + t == t;
    }
  }

  /**
   * Appending a pattern whose first character does not recur in it changes nothing after the
   * removal: no occurrence can straddle the seam, so the appended copy is removed whole.
   */
  lemma {:induction false} RemoveAllAppendPattern(s: string, pat: string)
    requires |pat| > 0 && pat[0] !in pat[1..]
    ensures RemoveAll(s + pat, pat) == RemoveAll(s, pat)
  {
    if |s| == 0 {
      assert s + pat == pat;
      RemoveAllSelf(pat);
    } else if pat <= s {
      assert pat <= s + pat;
      assert (s + pat)[|pat|..] == s[|pat|..] + pat;
      RemoveAllAppendPattern(s[|pat|..], pat);
    } else {
      if |s| < |pat| {
        NoStraddle(s, pat);
      }
      assert !(pat <= s + pat);
      assert (s + pat)[0] == s[0];
      assert (s + pat)[1..] == s[1..] + pat;
      RemoveAllAppendPattern(s[1..], pat);
    }
  }

  /** A nonempty text shorter than such a pattern cannot begin an occurrence across the seam. */
  lemma NoStraddle(s: string, pat: string)
    requires 0 < |s| < |pat| && pat[0] !in pat[1..]
    ensures !(pat <= s + pat)
  {
    assert (s + pat)[|s|] == pat[0];
    assert pat[|s|] == pat[1..][|s| - 1];
  }

  /** A text that starts with the pattern loses that occurrence first. */
  lemma RemoveAllLeading(pat: string, t: string)
    requires |pat| > 0
    ensures RemoveAll(pat + t, pat) == RemoveAll(t, pat)
  {
    assert pat <= pat + t;
    assert (pat + t)[|pat|..] == t;
  }

  /** A text without the pattern's first character holds no occurrence of the pattern. */
  lemma FreeWithoutHead(s: string, pat: string)
    requires |pat| > 0 && pat[0] !in s
    ensures Free(s, pat)
  {
    forall i | 0 <= i <= |s| ensures !(pat <= s[i..]) {
      if i < |s| {
        assert s[i..][0] == s[i];
      }
    }
  }

  /** The pattern on its own is removed entirely. */
  lemma RemoveAllSelf(pat: string)
    requires |pat| > 0
    ensures RemoveAll(pat, pat) == ""
  {
    assert pat[|pat|..] == "";
  }

  /** `pat` starts at no position of `s`. */
  predicate Free(s: string, pat: string) {
    forall i :: 0 <= i <= |s| ==> !(pat <= s[i..])
  }

  /** Removing a pattern that does not occur leaves the text unchanged. */
  lemma {:induction false} RemoveAllFree(s: string, pat: string)
    requires |pat| > 0
    requires Free(s, pat)
    ensures RemoveAll(s, pat) == s
  {
    if |s| > 0 {
      assert s[0..] == s;
      assert Free(s[1..], pat) by {
        forall i | 0 <= i <= |s[1..]|
          ensures !(pat <= s[1..][i..])
        {
          assert s[1..][i..] == s[i + 1..];
        }
      }
      RemoveAllFree(s[1..], pat);
      assert [s[0]] + s[1..] == s;
    }
  }
}
