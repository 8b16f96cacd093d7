/** The handful of Python string operations the library is built from, with
    Python's exact semantics: `sep.join(parts)`, `s.split(c)` for a one-character
    separator, `s.replace(pat, rep)` (leftmost, non-overlapping), `str(n)` for a
    natural number, and stripping a known prefix and suffix. */
module Text {

  import opened Wrappers

  /** `sep.join(parts)`. */
  function Join(parts: seq<string>, sep: string): string
  {
    if |parts| == 0 then ""
    else if |parts| == 1 then parts[0]
    else parts[0] + sep + Join(parts[1..], sep)
  }

  /** Number of occurrences of the character `c` in `s`. */
  function Count(s: string, c: char): nat
  {
    if |s| == 0 then 0 else (if s[0] == c then 1 else 0) + Count(s[1..], c)
  }

  /** Sum of `Count(p, c)` over all parts. */
  function CountAll(parts: seq<string>, c: char): nat
  {
    if |parts| == 0 then 0 else Count(parts[0], c) + CountAll(parts[1..], c)
  }

  /** `s.split(c)`: always one more part than there are separators, no part holds
      the separator, and joining the parts back with `c` gives `s`. */
  function Split(s: string, c: char): (parts: seq<string>)
    ensures |parts| == Count(s, c) + 1
    ensures forall i :: 0 <= i < |parts| ==> c !in parts[i]
    ensures Join(parts, [c]) == s
    decreases |s|
  {
    if |s| == 0 then [""]
    else
      var rest := Split(s[1..], c);
      if s[0] == c then
        JoinCons("", rest, [c]);
        [""] + rest
      else
        JoinExtendHead(s[0], rest, [c]);
        [[s[0]] + rest[0]] + rest[1..]
  }

  lemma JoinCons(p: string, rest: seq<string>, sep: string)
    requires |rest| > 0
    ensures Join([p] + rest, sep) == p + sep + Join(rest, sep)
  {
    assert ([p] + rest)[1..] == rest;
  }

  lemma JoinExtendHead(ch: char, parts: seq<string>, sep: string)
    requires |parts| > 0
    ensures Join([[ch] + parts[0]] + parts[1..], sep) == [ch] + Join(parts, sep)
  {
    var q := [[ch] + parts[0]] + parts[1..];
    if |parts| == 1 {
      assert q == [[ch] + parts[0]];
    } else {
      assert q[1..] == parts[1..];
    }
  }

  /** Joining with a separator of one character `c` adds exactly `|parts| - 1`
      occurrences of `c` to those already inside the parts. */
  lemma {:induction false} JoinCount(parts: seq<string>, c: char)
    requires |parts| > 0
    ensures Count(Join(parts, [c]), c) == |parts| - 1 + CountAll(parts, c)
    decreases |parts|
  {
    if |parts| > 1 {
      JoinCount(parts[1..], c);
      CountConcat(parts[0] + [c], Join(parts[1..], [c]), c);
      CountConcat(parts[0], [c], c);
      assert Count([c], c) == 1;
    }
  }

  lemma {:induction false} CountConcat(a: string, b: string, c: char)
    ensures Count(a + b, c) == Count(a, c) + Count(b, c)
    decreases |a|
  {
    if |a| > 0 {
      assert (a + b)[1..] == a[1..] + b;
      assert (a + b)[0] == a[0];
      CountConcat(a[1..], b, c);
    } else {
      assert a + b == b;
    }
  }

  /** A character in no part and not in the separator is not in the join. */
  lemma {:induction false} JoinFree(parts: seq<string>, sep: string, c: char)
    requires c !in sep
    requires forall i :: 0 <= i < |parts| ==> c !in parts[i]
    ensures c !in Join(parts, sep)
    decreases |parts|
  {
    if |parts| > 1 {
      JoinFree(parts[1..], sep, c);
    }
  }

  /** A character missing from the join is missing from every part. */
  lemma {:induction false} JoinHolds(parts: seq<string>, sep: string, c: char)
    requires c !in Join(parts, sep)
    ensures forall i :: 0 <= i < |parts| ==> c !in parts[i]
    decreases |parts|
  {
    if |parts| > 1 {
      assert Join(parts, sep) == parts[0] + sep + Join(parts[1..], sep);
      JoinHolds(parts[1..], sep, c);
      assert forall i :: 1 <= i < |parts| ==> parts[i] == parts[1..][i - 1];
    }
  }

  lemma {:induction false} CountAbsent(s: string, c: char)
    requires c !in s
    ensures Count(s, c) == 0
    decreases |s|
  {
    if |s| > 0 {
      CountAbsent(s[1..], c);
    }
  }

  lemma {:induction false} SplitNoSeparator(s: string, c: char)
    requires c !in s
    ensures Split(s, c) == [s]
  {
    CountAbsent(s, c);
    var parts := Split(s, c);
    assert |parts| == 1;
    assert Join(parts, [c]) == parts[0];
  }

  lemma {:induction false} SplitAfterPart(p: string, t: string, c: char)
    requires c !in p
    ensures Split(p + [c] + t, c) == [p] + Split(t, c)
    decreases |p|
  {
    var s := p + [c] + t;
    if |p| == 0 {
      assert s == [c] + t;
      assert s[1..] == t;
    } else {
      assert s[1..] == p[1..] + [c] + t;
      SplitAfterPart(p[1..], t, c);
      assert [p[0]] + p[1..] == p;
    }
  }

  /** `s.split(c)` undoes `c.join(parts)` when no part holds `c`. */
  lemma {:induction false} SplitJoin(parts: seq<string>, c: char)
    requires |parts| > 0
    requires forall i :: 0 <= i < |parts| ==> c !in parts[i]
    ensures Split(Join(parts, [c]), c) == parts
    decreases |parts|
  {
    if |parts| == 1 {
      SplitNoSeparator(parts[0], c);
    } else {
      SplitJoin(parts[1..], c);
      SplitAfterPart(parts[0], Join(parts[1..], [c]), c);
      assert [parts[0]] + parts[1..] == parts;
    }
  }

  // ---------------------------------------------------------------------------
  // str.replace

  /** `pat` occurs in `s` starting at index `i`. */
  predicate OccursAt(s: string, pat: string, i: int)
  {
    0 <= i && i + |pat| <= |s| && s[i..i + |pat|] == pat
  }

  /** `pat` occurs nowhere in `s`. */
  predicate NoOcc(s: string, pat: string)
  {
    forall i :: 0 <= i <= |s| - |pat| ==> !OccursAt(s, pat, i)
  }

  /** `s.replace(pat, rep)`: scans left to right, replacing each occurrence
      that does not overlap an earlier replaced one. */
  function ReplaceAll(s: string, pat: string, rep: string): string
    requires |pat| > 0
    decreases |s|
  {
    if |pat| <= |s| && s[..|pat|] == pat then rep + ReplaceAll(s[|pat|..], pat, rep)
    else if |s| == 0 then ""
    else [s[0]] + ReplaceAll(s[1..], pat, rep)
  }

  /** A prefix in which no occurrence of `pat` starts is copied unchanged. */
  lemma {:induction false} ReplaceAllSkip(a: string, b: string, pat: string, rep: string)
    requires |pat| > 0
    requires forall i :: 0 <= i < |a| ==> !OccursAt(a + b, pat, i)
    ensures ReplaceAll(a + b, pat, rep) == a + ReplaceAll(b, pat, rep)
    decreases |a|
  {
    if |a| > 0 {
      var s := a + b;
      assert !OccursAt(s, pat, 0);
      assert |pat| <= |s| ==> s[..|pat|] == s[0..|pat|];
      assert s[0] == a[0];
      assert s[1..] == a[1..] + b;
      forall i | 0 <= i < |a[1..]|
        ensures !OccursAt(a[1..] + b, pat, i)
      {
        assert !OccursAt(s, pat, i + 1);
        if i + |pat| <= |a[1..] + b| {
          assert (a[1..] + b)[i..i + |pat|] == s[i + 1..i + 1 + |pat|];
        }
      }
      ReplaceAllSkip(a[1..], b, pat, rep);
    } else {
      assert a + b == b;
    }
  }

  /** A string without any occurrence of `pat` is left unchanged. */
  lemma ReplaceAllNoMatch(s: string, pat: string, rep: string)
    requires |pat| > 0
    requires NoOcc(s, pat)
    ensures ReplaceAll(s, pat, rep) == s
  {
    forall i | 0 <= i < |s|
      ensures !OccursAt(s + "", pat, i)
    {
      assert s + "" == s;
    }
    ReplaceAllSkip(s, "", pat, rep);
    assert s + "" == s;
  }

  /** A replacement no longer than the pattern never lengthens the text. */
  lemma {:induction false} ReplaceAllNoLonger(s: string, pat: string, rep: string)
    requires 0 < |pat| && |rep| <= |pat|
    ensures |ReplaceAll(s, pat, rep)| <= |s|
    decreases |s|
  {
    if |pat| <= |s| && s[..|pat|] == pat {
      ReplaceAllNoLonger(s[|pat|..], pat, rep);
    } else if |s| > 0 {
      ReplaceAllNoLonger(s[1..], pat, rep);
    }
  }

  /** A shorter replacement shortens any text holding the pattern. */
  lemma {:induction false} ReplaceAllShorter(s: string, pat: string, rep: string, i: int)
    requires 0 < |pat| && |rep| < |pat| && OccursAt(s, pat, i)
    ensures |ReplaceAll(s, pat, rep)| < |s|
    decreases |s|
  {
    if |pat| <= |s| && s[..|pat|] == pat {
      ReplaceAllNoLonger(s[|pat|..], pat, rep);
    } else {
      assert i != 0 by {
        if i == 0 { assert s[..|pat|] == s[0..|pat|]; }
      }
      assert s[1..][i - 1..i - 1 + |pat|] == s[i..i + |pat|];
      ReplaceAllShorter(s[1..], pat, rep, i - 1);
    }
  }

  /** An occurrence at the front is replaced. */
  lemma ReplaceAllAtFront(b: string, pat: string, rep: string)
    requires |pat| > 0
    ensures ReplaceAll(pat + b, pat, rep) == rep + ReplaceAll(b, pat, rep)
  {
    assert (pat + b)[..|pat|] == pat;
    assert (pat + b)[|pat|..] == b;
  }

  /** Removing every `c` (`s.replace(c, "")`) distributes over concatenation,
      because a one-character pattern cannot straddle the seam. */
  lemma {:induction false} RemoveCharConcat(a: string, b: string, c: char)
    ensures ReplaceAll(a + b, [c], "") == ReplaceAll(a, [c], "") + ReplaceAll(b, [c], "")
    decreases |a|
  {
    if |a| > 0 {
      assert (a + b)[1..] == a[1..] + b;
      assert (a + b)[..1] == a[..1];
      RemoveCharConcat(a[1..], b, c);
    } else {
      assert a + b == b;
    }
  }

  /** Removing `c` from a string without `c` changes nothing. */
  lemma {:induction false} RemoveCharAbsent(s: string, c: char)
    requires c !in s
    ensures ReplaceAll(s, [c], "") == s
    decreases |s|
  {
    if |s| > 0 {
      assert s[..1] == [s[0]];
      RemoveCharAbsent(s[1..], c);
    }
  }

  /** After `s.replace(c, "")` no `c` is left. */
  lemma {:induction false} RemoveCharGone(s: string, c: char)
    ensures c !in ReplaceAll(s, [c], "")
    decreases |s|
  {
    if |s| > 0 {
      assert s[..1] == [s[0]];
      RemoveCharGone(s[1..], c);
    }
  }

  // ---------------------------------------------------------------------------
  // Fixed prefix and suffix

  predicate StartsWith(s: string, p: string)
  {
    |p| <= |s| && s[..|p|] == p
  }

  predicate EndsWith(s: string, p: string)
  {
    |p| <= |s| && s[|s| - |p|..] == p
  }

  lemma EndsWithConcat(a: string, p: string)
    ensures EndsWith(a + p, p)
  {
    assert (a + p)[|a + p| - |p|..] == p;
  }

  lemma StartsWithConcat(p: string, b: string)
    ensures StartsWith(p + b, p)
  {
    assert (p + b)[..|p|] == p;
  }

  /** A prefix followed by the head of the middle part is a prefix. */
  lemma StartsWithHead(p: string, h: string, x: string, q: string)
    ensures StartsWith(p + (h + x) + q, p + h)
  {
    assert p + (h + x) + q == (p + h) + (x + q);
    StartsWithConcat(p + h, x + q);
  }

  /** Moving literal pieces across a value that sits between them. */
  lemma Regroup3(p: string, q: string, x: string, r: string, s: string)
    ensures p + (q + x + r) + s == (p + q) + x + (r + s)
  {
  }

  /** A middle part ending in a space, then `>`, ends the whole in `" >"`. */
  lemma EndsWithSpaceGt(p: string, t: string)
    ensures EndsWith(p + (t + " ") + ">", " >")
  {
    assert p + (t + " ") + ">" == (p + t) + " >";
    EndsWithConcat(p + t, " >");
  }

  /** The middle of `s` when it starts with `pre` and ends with `post`. */
  function Unwrap(s: string, pre: string, post: string): (r: Option<string>)
    ensures r.Some? ==> pre + r.value + post == s
  {
    if |pre| + |post| <= |s| && s[..|pre|] == pre && s[|s| - |post|..] == post then
      var mid := s[|pre|..|s| - |post|];
      assert s == s[..|pre|] + mid + s[|s| - |post|..];
      Some(mid)
    else None
  }

  /** Wrapping in a prefix and suffix can always be undone. */
  lemma UnwrapWrap(pre: string, mid: string, post: string)
    ensures Unwrap(pre + mid + post, pre, post) == Some(mid)
  {
    var s := pre + mid + post;
    assert s[..|pre|] == pre;
    assert s[|s| - |post|..] == post;
    assert s[|pre|..|s| - |post|] == mid;
  }

  // ---------------------------------------------------------------------------
  // str(n) for a natural number

  function DigitChar(d: nat): char
    requires d < 10
  {
    "0123456789"[d]
  }

  function DigitValue(ch: char): nat
  {
    if '0' <= ch <= '9' then (ch as int - '0' as int) as nat else 0
  }

  /** `str(n)`: the decimal digits of `n`, most significant first. */
  function DecimalString(n: nat): (r: string)
    ensures |r| > 0
    ensures forall i :: 0 <= i < |r| ==> '0' <= r[i] <= '9'
  {
    if n < 10 then [DigitChar(n)] else DecimalString(n / 10) + [DigitChar(n % 10)]
  }

  /** `int(s)` for a string of decimal digits. */
  function ParseDecimal(s: string): nat
  {
    if |s| == 0 then 0 else ParseDecimal(s[..|s| - 1]) * 10 + DigitValue(s[|s| - 1])
  }

  lemma DigitRoundTrip(d: nat)
    requires d < 10
    ensures DigitValue(DigitChar(d)) == d
  {
  }

  /** Reading back the decimal text of `n` gives `n`. */
  lemma {:induction false} DecimalRoundTrip(n: nat)
    ensures ParseDecimal(DecimalString(n)) == n
  {
    DigitRoundTrip(n % 10);
    if n >= 10 {
      DecimalRoundTrip(n / 10);
      var s := DecimalString(n);
      assert s[..|s| - 1] == DecimalString(n / 10);
    }
  }

  /** Distinct numbers have distinct decimal texts. */
  lemma DecimalInjective(m: nat, n: nat)
    requires DecimalString(m) == DecimalString(n)
    ensures m == n
  {
    DecimalRoundTrip(m);
    DecimalRoundTrip(n);
  }
}
