/** Attribute fragments of a start tag. Every formatter in the library builds a
    tag as an opening such as `<meta `, then one fragment per present attribute
    (`key="value" ` or a bare word followed by a space), then a closing. Link and
    Script additionally rewrite every `" >"` to `">"`.

    This module gives that shape a name (`Spaced`), defines a reader for it
    (`ParseTokens`) and proves that the reader recovers the attributes, which is
    the inverse every formatter's round-trip lemma is built on. */
module Markup {

  import opened Wrappers
  import opened Text

  /** One attribute: `key="value"`, or a bare word such as `defer`. */
  datatype Token = Pair(key: string, value: string) | Bare(word: string)

  function TokenText(t: Token): string
  {
    match t
    case Pair(k, v) => k + "=\"" + v + "\""
    case Bare(w) => w
  }

  /** The fragments as the source writes them: each followed by one space. */
  function Spaced(ts: seq<Token>): string
  {
    if |ts| == 0 then "" else TokenText(ts[0]) + " " + Spaced(ts[1..])
  }

  /** The fragments separated by single spaces, without a trailing space. */
  function Tight(ts: seq<Token>): string
  {
    if |ts| == 0 then ""
    else if |ts| == 1 then TokenText(ts[0])
    else TokenText(ts[0]) + " " + Tight(ts[1..])
  }

  /** An optional attribute as a token list: one pair when a value is given. */
  function Opt(key: string, v: Option<string>): seq<Token>
  {
    match v
    case Some(x) => [Pair(key, x)]
    case None => []
  }

  /** A bare-word attribute as a token list: the word when set. */
  function Flag(word: string, on: bool): seq<Token>
  {
    if on then [Bare(word)] else []
  }

  /** The rewrite of every `" >"` to `">"` that Link and Script apply to the
      whole tag. */
  function Collapse(s: string): string
  {
    ReplaceAll(s, " >", ">")
  }

  // ---------------------------------------------------------------------------
  // Well-formed attributes

  /** Characters that may appear in an attribute name or bare word. */
  predicate IsWordChar(ch: char)
  {
    ch != ' ' && ch != '=' && ch != '"' && ch != '>' && ch != '\n'
  }

  /** Every character is a word character, stated by membership so that it
      can be decided on literal attribute names. */
  predicate WordChars(w: string)
  {
    ' ' !in w && '=' !in w && '"' !in w && '>' !in w && '\n' !in w
  }

  predicate IsWord(w: string)
  {
    |w| > 0 && WordChars(w)
  }

  /** A value the reader can find the end of: no double quote inside. */
  predicate IsValue(v: string)
  {
    '"' !in v
  }

  predicate WellFormed(t: Token)
  {
    match t
    case Pair(k, v) => IsWord(k) && IsValue(v)
    case Bare(w) => IsWord(w)
  }

  predicate AllWellFormed(ts: seq<Token>)
  {
    forall i :: 0 <= i < |ts| ==> WellFormed(ts[i])
  }

  /** No value contains the two characters `" >"`. */
  predicate NoSpaceGtValues(ts: seq<Token>)
  {
    forall i :: 0 <= i < |ts| ==> ts[i].Pair? ==> NoOcc(ts[i].value, " >")
  }

  // ---------------------------------------------------------------------------
  // The reader

  /** Length of the longest prefix of word characters. */
  function WordEnd(s: string): (n: nat)
    ensures n <= |s|
  {
    if |s| == 0 || !IsWordChar(s[0]) then 0 else 1 + WordEnd(s[1..])
  }

  /** Index of the first double quote, or `|s|`. */
  function QuoteEnd(s: string): (n: nat)
    ensures n <= |s|
  {
    if |s| == 0 || s[0] == '"' then 0 else 1 + QuoteEnd(s[1..])
  }

  /** Reads one attribute at the front of `s`; returns it and its length. */
  function ParseToken(s: string): (r: Option<(Token, nat)>)
    ensures r.Some? ==> 0 < r.value.1 <= |s|
  {
    var n := WordEnd(s);
    if n == 0 then None
    else if n < |s| && s[n] == '=' then
      if n + 1 < |s| && s[n + 1] == '"' then
        var m := QuoteEnd(s[n + 2..]);
        if n + 2 + m < |s| then Some((Pair(s[..n], s[n + 2..n + 2 + m]), n + 3 + m)) else None
      else None
    else Some((Bare(s[..n]), n))
  }

  /** Reads attributes separated by single spaces, allowing one trailing space. */
  function ParseTokens(s: string): Option<seq<Token>>
    decreases |s|
  {
    if |s| == 0 then Some([])
    else
      match ParseToken(s)
      case None => None
      case Some((t, len)) =>
        if len == |s| then Some([t])
        else if s[len] == ' ' then
          match ParseTokens(s[len + 1..])
          case None => None
          case Some(rest) => Some([t] + rest)
        else None
  }

  /** The value of the first attribute named `key`. */
  function Lookup(ts: seq<Token>, key: string): Option<string>
  {
    if |ts| == 0 then None
    else if ts[0].Pair? && ts[0].key == key then Some(ts[0].value)
    else Lookup(ts[1..], key)
  }

  /** Whether the bare word `w` is present. */
  function HasWord(ts: seq<Token>, w: string): bool
  {
    if |ts| == 0 then false
    else (ts[0].Bare? && ts[0].word == w) || HasWord(ts[1..], w)
  }

  // ---------------------------------------------------------------------------
  // The reader inverts the writers

  lemma {:induction false} WordEndOf(w: string, rest: string)
    requires WordChars(w)
    requires |rest| == 0 || !IsWordChar(rest[0])
    ensures WordEnd(w + rest) == |w|
    decreases |w|
  {
    if |w| > 0 {
      assert (w + rest)[1..] == w[1..] + rest;
      WordEndOf(w[1..], rest);
    } else {
      assert w + rest == rest;
    }
  }

  lemma {:induction false} QuoteEndOf(v: string, rest: string)
    requires IsValue(v)
    ensures QuoteEnd(v + "\"" + rest) == |v|
    decreases |v|
  {
    if |v| > 0 {
      assert (v + "\"" + rest)[1..] == v[1..] + "\"" + rest;
      assert v[0] in v;
      QuoteEndOf(v[1..], rest);
    } else {
      assert v + "\"" + rest == "\"" + rest;
    }
  }

  lemma ParseTokenOf(t: Token, rest: string)
    requires WellFormed(t)
    requires |rest| == 0 || rest[0] == ' '
    ensures ParseToken(TokenText(t) + rest) == Some((t, |TokenText(t)|))
  {
    match t
    case Pair(k, v) =>
      PairText(k, v, rest);
      ParsePairOf(k, v, rest);
    case Bare(w) =>
      WordEndOf(w, rest);
      assert (w + rest)[..|w|] == w;
  }

  lemma PairText(k: string, v: string, rest: string)
    ensures TokenText(Pair(k, v)) + rest == k + ("=\"" + (v + ("\"" + rest)))
    ensures |TokenText(Pair(k, v))| == |k| + 3 + |v|
  {
  }

  /** A pair fragment is read back whole, up to its closing quote. */
  lemma ParsePairOf(k: string, v: string, rest: string)
    requires IsWord(k) && IsValue(v)
    requires |rest| == 0 || rest[0] == ' '
    ensures ParseToken(k + ("=\"" + (v + ("\"" + rest)))) == Some((Pair(k, v), |k| + 3 + |v|))
  {
    var u := v + ("\"" + rest);
    var tail := "=\"" + u;
    var s := k + tail;
    WordEndOf(k, tail);
    var n := |k|;
    assert s[..n] == k;
    assert s[n] == '=' && s[n + 1] == '"';
    assert s[n + 2..] == u;
    assert v + "\"" + rest == u;
    QuoteEndOf(v, rest);
    assert u[..|v|] == v;
    assert s[n + 2..n + 2 + |v|] == v;
  }

  /** Reading back the source's `key="value" ` fragments gives the attributes. */
  lemma {:induction false} ParseSpaced(ts: seq<Token>)
    requires AllWellFormed(ts)
    ensures ParseTokens(Spaced(ts)) == Some(ts)
    decreases |ts|
  {
    if |ts| > 0 {
      var s := Spaced(ts);
      var tt := TokenText(ts[0]);
      assert s == tt + (" " + Spaced(ts[1..]));
      ParseTokenOf(ts[0], " " + Spaced(ts[1..]));
      assert s[|tt| + 1..] == Spaced(ts[1..]);
      assert AllWellFormed(ts[1..]) by {
        forall i | 0 <= i < |ts[1..]| ensures WellFormed(ts[1..][i]) {
          assert ts[1..][i] == ts[i + 1];
        }
      }
      ParseSpaced(ts[1..]);
      assert [ts[0]] + ts[1..] == ts;
    }
  }

  /** Reading back space-separated fragments (no trailing space) gives the attributes. */
  lemma {:induction false} ParseTight(ts: seq<Token>)
    requires AllWellFormed(ts)
    ensures ParseTokens(Tight(ts)) == Some(ts)
    decreases |ts|
  {
    if |ts| == 1 {
      ParseTokenOf(ts[0], "");
      assert TokenText(ts[0]) + "" == TokenText(ts[0]);
      assert ts == [ts[0]];
    } else if |ts| > 1 {
      var s := Tight(ts);
      var tt := TokenText(ts[0]);
      assert s == tt + (" " + Tight(ts[1..]));
      ParseTokenOf(ts[0], " " + Tight(ts[1..]));
      assert s[|tt| + 1..] == Tight(ts[1..]);
      assert AllWellFormed(ts[1..]) by {
        forall i | 0 <= i < |ts[1..]| ensures WellFormed(ts[1..][i]) {
          assert ts[1..][i] == ts[i + 1];
        }
      }
      ParseTight(ts[1..]);
      assert [ts[0]] + ts[1..] == ts;
    }
  }

  // ---------------------------------------------------------------------------
  // The reader accepts nothing else

  lemma {:induction false} WordEndSound(s: string)
    ensures WordChars(s[..WordEnd(s)])
    ensures WordEnd(s) < |s| ==> !IsWordChar(s[WordEnd(s)])
    decreases |s|
  {
    if |s| > 0 && IsWordChar(s[0]) {
      WordEndSound(s[1..]);
      var n := WordEnd(s);
      assert s[..n][1..] == s[1..][..n - 1];
      assert s[..n][0] == s[0];
      if n < |s| {
        assert s[n] == s[1..][n - 1];
      }
    }
  }

  lemma {:induction false} QuoteEndSound(s: string)
    ensures IsValue(s[..QuoteEnd(s)])
    ensures QuoteEnd(s) < |s| ==> s[QuoteEnd(s)] == '"'
    decreases |s|
  {
    if |s| > 0 && s[0] != '"' {
      QuoteEndSound(s[1..]);
      var n := QuoteEnd(s);
      assert s[..n] == [s[0]] + s[1..][..n - 1];
      if n < |s| {
        assert s[n] == s[1..][n - 1];
      }
    }
  }

  /** What `ParseToken` reads is a well-formed attribute written at the front. */
  lemma ParseTokenSound(s: string)
    requires ParseToken(s).Some?
    ensures WellFormed(ParseToken(s).value.0)
    ensures s[..ParseToken(s).value.1] == TokenText(ParseToken(s).value.0)
  {
    var n := WordEnd(s);
    WordEndSound(s);
    if n < |s| && s[n] == '=' {
      var u := s[n + 2..];
      var m := QuoteEnd(u);
      assert ParseToken(s) == Some((Pair(s[..n], s[n + 2..n + 2 + m]), n + 3 + m));
      QuoteEndSound(u);
      assert u[..m] == s[n + 2..n + 2 + m];
      assert s[n + 2 + m] == u[m];
      PairSlices(s, n, m);
    } else {
      assert ParseToken(s) == Some((Bare(s[..n]), n));
    }
  }

  /** The slices of a pair fragment read at the front of `s`. */
  lemma PairSlices(s: string, n: nat, m: nat)
    requires n + 2 + m < |s|
    requires s[n] == '=' && s[n + 1] == '"' && s[n + 2 + m] == '"'
    ensures s[..n + 3 + m] == s[..n] + "=\"" + s[n + 2..n + 2 + m] + "\""
  {
    var l := s[..n + 3 + m];
    var r := s[..n] + "=\"" + s[n + 2..n + 2 + m] + "\"";
    assert |l| == |r|;
    forall i | 0 <= i < |l| ensures l[i] == r[i] {
      if i < n {
      } else if i < n + 2 {
      } else if i < n + 2 + m {
      }
    }
  }

  /** `ParseTokens` accepts exactly the two spellings of a well-formed
      attribute list: space-separated, with or without one trailing space. */
  lemma {:induction false} ParseTokensSound(s: string)
    requires ParseTokens(s).Some?
    ensures AllWellFormed(ParseTokens(s).value)
    ensures s == Tight(ParseTokens(s).value) || s == Spaced(ParseTokens(s).value)
    decreases |s|
  {
    if |s| > 0 {
      ParseTokensStep(s);
      ParseTokenSound(s);
      var len := ParseToken(s).value.1;
      if len == |s| {
        assert s == s[..|s|];
      } else {
        ParseTokensSound(s[len + 1..]);
        ParseTokensCons(s);
      }
    }
  }

  /** The step of `ParseTokensSound` after a token and a space. */
  lemma ParseTokensCons(s: string)
    requires ParseTokens(s).Some?
    requires |s| > 0 && ParseToken(s).Some? && ParseToken(s).value.1 < |s|
    requires var rest := s[ParseToken(s).value.1 + 1..];
             ParseTokens(rest).Some? && AllWellFormed(ParseTokens(rest).value) &&
             (rest == Tight(ParseTokens(rest).value) || rest == Spaced(ParseTokens(rest).value))
    ensures AllWellFormed(ParseTokens(s).value)
    ensures s == Tight(ParseTokens(s).value) || s == Spaced(ParseTokens(s).value)
  {
    ParseTokensStep(s);
    var t := ParseToken(s).value.0;
    var len := ParseToken(s).value.1;
    ParseTokenSound(s);
    var rest := s[len + 1..];
    var rs := ParseTokens(rest).value;
    assert ParseTokens(s).value == [t] + rs;
    SpaceSplit(s, len, TokenText(t));
    ConsSpelling(t, rs, rest);
  }

  lemma SpaceSplit(s: string, len: nat, a: string)
    requires len < |s| && s[len] == ' ' && s[..len] == a
    ensures s == a + " " + s[len + 1..]
  {
    assert s == s[..len] + [s[len]] + s[len + 1..];
  }

  /** One step of `ParseTokens`: a token, then either the end or a space and
      the rest. */
  lemma ParseTokensStep(s: string)
    requires ParseTokens(s).Some? && |s| > 0
    ensures ParseToken(s).Some?
    ensures ParseToken(s).value.1 == |s| ==> ParseTokens(s).value == [ParseToken(s).value.0]
    ensures ParseToken(s).value.1 < |s| ==>
              s[ParseToken(s).value.1] == ' ' &&
              ParseTokens(s[ParseToken(s).value.1 + 1..]).Some? &&
              ParseTokens(s).value == [ParseToken(s).value.0] + ParseTokens(s[ParseToken(s).value.1 + 1..]).value
  {
  }

  lemma ConsSpelling(t: Token, rs: seq<Token>, rest: string)
    requires WellFormed(t) && AllWellFormed(rs)
    requires rest == Tight(rs) || rest == Spaced(rs)
    ensures AllWellFormed([t] + rs)
    ensures TokenText(t) + " " + rest == Tight([t] + rs) || TokenText(t) + " " + rest == Spaced([t] + rs)
  {
    var ts := [t] + rs;
    assert ts[0] == t && ts[1..] == rs;
    forall i | 0 <= i < |ts| ensures WellFormed(ts[i]) {
      if i > 0 {
        assert ts[i] == rs[i - 1];
      }
    }
  }

  lemma {:induction false} LookupConcat(a: seq<Token>, b: seq<Token>, key: string)
    ensures Lookup(a + b, key) == if Lookup(a, key).Some? then Lookup(a, key) else Lookup(b, key)
    decreases |a|
  {
    if |a| > 0 {
      assert (a + b)[0] == a[0];
      assert (a + b)[1..] == a[1..] + b;
      LookupConcat(a[1..], b, key);
    } else {
      assert a + b == b;
    }
  }

  lemma {:induction false} HasWordConcat(a: seq<Token>, b: seq<Token>, w: string)
    ensures HasWord(a + b, w) == (HasWord(a, w) || HasWord(b, w))
    decreases |a|
  {
    if |a| > 0 {
      assert (a + b)[0] == a[0];
      assert (a + b)[1..] == a[1..] + b;
      HasWordConcat(a[1..], b, w);
    } else {
      assert a + b == b;
    }
  }

  // ---------------------------------------------------------------------------
  // Where `" >"` can occur

  /** Both halves free of a two-character pattern and no straddling occurrence. */
  lemma NoOccConcat2(a: string, b: string, pat: string)
    requires |pat| == 2
    requires NoOcc(a, pat) && NoOcc(b, pat)
    requires |a| > 0 && |b| > 0 ==> !(a[|a| - 1] == pat[0] && b[0] == pat[1])
    ensures NoOcc(a + b, pat)
  {
    var s := a + b;
    forall i | 0 <= i <= |s| - 2
      ensures !OccursAt(s, pat, i)
    {
      if i + 2 <= |a| {
        assert s[i..i + 2] == a[i..i + 2];
        assert !OccursAt(a, pat, i);
      } else if i >= |a| {
        assert s[i..i + 2] == b[i - |a|..i - |a| + 2];
        assert !OccursAt(b, pat, i - |a|);
      } else {
        assert s[i..i + 2] == [a[|a| - 1], b[0]];
      }
    }
  }

  lemma NoSpaceNoOcc(s: string)
    requires ' ' !in s
    ensures NoOcc(s, " >")
  {
    forall i | 0 <= i <= |s| - 2
      ensures !OccursAt(s, " >", i)
    {
      assert s[i] != ' ' by { assert s[i] in s; }
      assert s[i..i + 2][0] == s[i];
    }
  }

  /** The rewrite never empties a non-empty text. */
  lemma CollapseNonEmpty(s: string)
    requires |s| > 0
    ensures |Collapse(s)| > 0
  {
  }

  lemma NoGtNoOcc(s: string)
    requires '>' !in s
    ensures NoOcc(s, " >")
  {
    forall i | 0 <= i <= |s| - 2
      ensures !OccursAt(s, " >", i)
    {
      assert s[i + 1] != '>' by { assert s[i + 1] in s; }
      assert s[i..i + 2][1] == s[i + 1];
    }
  }

  lemma WordCharsAt(w: string, i: int)
    requires WordChars(w) && 0 <= i < |w|
    ensures IsWordChar(w[i])
  {
    assert w[i] in w;
  }

  lemma WordNoOcc(w: string)
    requires WordChars(w)
    ensures NoOcc(w, " >")
  {
    forall j | 0 <= j < |w| ensures w[j] != ' ' {
      WordCharsAt(w, j);
    }
    NoSpaceNoOcc(w);
  }

  lemma TokenTextShape(t: Token)
    requires WellFormed(t)
    requires t.Pair? ==> NoOcc(t.value, " >")
    ensures NoOcc(TokenText(t), " >")
    ensures |TokenText(t)| > 0
    ensures IsWordChar(TokenText(t)[0])
    ensures TokenText(t)[|TokenText(t)| - 1] != ' '
  {
    match t
    case Pair(k, v) =>
      WordNoOcc(k);
      NoSpaceNoOcc("=\"");
      NoSpaceNoOcc("\"");
      NoOccConcat2(k, "=\"", " >");
      NoOccConcat2(k + "=\"", v, " >");
      NoOccConcat2(k + "=\"" + v, "\"", " >");
      assert TokenText(t)[0] == k[0];
    case Bare(w) =>
      WordNoOcc(w);
      WordCharsAt(w, |w| - 1);
  }

  lemma {:induction false} TightShape(ts: seq<Token>)
    requires |ts| > 0
    requires AllWellFormed(ts) && NoSpaceGtValues(ts)
    ensures NoOcc(Tight(ts), " >")
    ensures |Tight(ts)| > 0
    ensures IsWordChar(Tight(ts)[0])
    ensures Tight(ts)[|Tight(ts)| - 1] != ' '
    decreases |ts|
  {
    TokenTextShape(ts[0]);
    if |ts| > 1 {
      var tt := TokenText(ts[0]);
      var rest := ts[1..];
      assert AllWellFormed(rest) && NoSpaceGtValues(rest) by {
        forall i | 0 <= i < |rest| ensures WellFormed(rest[i]) && (rest[i].Pair? ==> NoOcc(rest[i].value, " >")) {
          assert rest[i] == ts[i + 1];
        }
      }
      TightShape(rest);
      NoSpaceGtSpace();
      NoOccConcat2(tt, " ", " >");
      NoOccConcat2(tt + " ", Tight(rest), " >");
      assert Tight(ts) == tt + " " + Tight(rest);
      assert Tight(ts)[0] == tt[0];
    }
  }

  lemma NoSpaceGtSpace()
    ensures NoOcc(" ", " >")
  {
  }

  /** The first fragment of a spaced rendering. */
  lemma SpacedCons(t: Token, ts: seq<Token>)
    ensures Spaced([t] + ts) == TokenText(t) + " " + Spaced(ts)
  {
    assert ([t] + ts)[0] == t && ([t] + ts)[1..] == ts;
  }

  /** A pair fragment and its trailing space, as one literal spelling. */
  lemma PairSpaced(k: string, v: string)
    ensures TokenText(Pair(k, v)) + " " == k + "=\"" + v + "\" "
  {
  }

  /** A tag whose attributes start with a pair starts with that pair's
      fragment, and, written spaced, ends in `" >"`. */
  lemma SpacedHead(open: string, a: string, d: string, rest: seq<Token>, close: string)
    ensures StartsWith(open + Spaced([Pair(a, d)] + rest) + close, open + a + "=\"" + d + "\" ")
    ensures close == ">" ==> EndsWith(open + Spaced([Pair(a, d)] + rest) + close, " >")
  {
    var ts := [Pair(a, d)] + rest;
    SpacedCons(Pair(a, d), rest);
    PairSpaced(a, d);
    StartsWithHead(open, a + "=\"" + d + "\" ", Spaced(rest), close);
    SpacedIsTight(ts);
    EndsWithSpaceGt(open, Tight(ts));
  }

  /** A tag whose last attribute is `id` ends with that attribute's fragment
      and the closing text. */
  lemma SpacedEndsWithId(open: string, front: seq<Token>, v: string, close: string)
    ensures EndsWith(open + Spaced(front + [Pair("id", v)]) + close, "id=\"" + v + "\" " + close)
  {
    var p := "id=\"" + v + "\" ";
    SpacedConcat(front, [Pair("id", v)]);
    SpacedCons(Pair("id", v), []);
    assert [Pair("id", v)] + [] == [Pair("id", v)];
    IdFragment(v);
    assert open + Spaced(front + [Pair("id", v)]) + close == (open + Spaced(front)) + (p + close);
    EndsWithConcat(open + Spaced(front), p + close);
  }

  lemma IdFragment(v: string)
    ensures TokenText(Pair("id", v)) + " " + Spaced([]) == "id=\"" + v + "\" "
  {
  }

  /** One pair, written spaced: its fragment and a trailing space. */
  lemma SpacedOne(k: string, v: string)
    ensures Spaced([Pair(k, v)]) == k + "=\"" + v + "\"" + " "
  {
    assert [Pair(k, v)][1..] == [];
  }

  /** Two pairs separated by one space. */
  lemma TightPairs(a: string, x: string, b: string, y: string)
    ensures Tight([Pair(a, x), Pair(b, y)]) == a + "=\"" + x + "\" " + b + "=\"" + y + "\""
  {
    var ts := [Pair(a, x), Pair(b, y)];
    assert ts[1..] == [Pair(b, y)];
    assert Tight(ts) == TokenText(Pair(a, x)) + " " + TokenText(Pair(b, y));
  }

  /** The fragments of two attribute lists are written one after the other. */
  lemma {:induction false} SpacedConcat(a: seq<Token>, b: seq<Token>)
    ensures Spaced(a + b) == Spaced(a) + Spaced(b)
    decreases |a|
  {
    if |a| > 0 {
      assert (a + b)[0] == a[0];
      assert (a + b)[1..] == a[1..] + b;
      SpacedConcat(a[1..], b);
    } else {
      assert a + b == b;
    }
  }

  lemma {:induction false} SpacedIsTight(ts: seq<Token>)
    requires |ts| > 0
    ensures Spaced(ts) == Tight(ts) + " "
    decreases |ts|
  {
    if |ts| > 1 {
      SpacedIsTight(ts[1..]);
    }
  }

  /** No occurrence of `" >"` starts inside `a` when `a` is free of it and
      does not end in a space, whatever follows. */
  lemma SeamFree(a: string, b: string)
    requires |a| > 0 && NoOcc(a, " >") && a[|a| - 1] != ' '
    ensures forall i :: 0 <= i < |a| ==> !OccursAt(a + b, " >", i)
  {
    forall i | 0 <= i < |a|
      ensures !OccursAt(a + b, " >", i)
    {
      var s := a + b;
      if i + 2 <= |a| {
        assert s[i..i + 2] == a[i..i + 2];
        assert !OccursAt(a, " >", i);
      } else if i + 2 <= |s| {
        assert s[i..i + 2][0] == a[|a| - 1];
      }
    }
  }

  lemma TagSeam(open: string, ts: seq<Token>, b: string)
    requires |ts| > 0
    requires AllWellFormed(ts) && NoSpaceGtValues(ts)
    requires NoOcc(open, " >")
    ensures forall i :: 0 <= i < |open + Tight(ts)| ==> !OccursAt(open + Tight(ts) + b, " >", i)
  {
    var t := Tight(ts);
    TightShape(ts);
    NoOccConcat2(open, t, " >");
    assert (open + t)[|open + t| - 1] == t[|t| - 1];
    SeamFree(open + t, b);
  }

  /** Collapsing `a + " >" + c1` when the only `" >"` is the one after `a`. */
  lemma CollapseAfter(a: string, c1: string)
    requires forall i :: 0 <= i < |a| ==> !OccursAt(a + (" >" + c1), " >", i)
    requires NoOcc(c1, " >")
    ensures Collapse(a + (" >" + c1)) == a + (">" + c1)
  {
    ReplaceAllSkip(a, " >" + c1, " >", ">");
    ReplaceAllAtFront(c1, " >", ">");
    ReplaceAllNoMatch(c1, " >", ">");
  }

  /** A stretch without spaces passes through the rewrite unchanged. */
  lemma CollapseSkip(a: string, b: string)
    requires ' ' !in a
    ensures Collapse(a + b) == a + Collapse(b)
  {
    forall i | 0 <= i < |a|
      ensures !OccursAt(a + b, " >", i)
    {
      assert (a + b)[i] == a[i];
      assert a[i] in a;
      if i + 2 <= |a + b| {
        assert (a + b)[i..i + 2][0] == a[i];
      }
    }
    ReplaceAllSkip(a, b, " >", ">");
  }

  lemma CollapseSpaceGt(b: string)
    ensures Collapse(" >" + b) == ">" + Collapse(b)
  {
    ReplaceAllAtFront(b, " >", ">");
  }

  /** A space not followed by `>` is kept. */
  lemma CollapseLoneSpace(b: string)
    requires |b| > 0 && b[0] != '>'
    ensures Collapse(" " + b) == " " + Collapse(b)
  {
    var s := " " + b;
    assert s[..2] != " >" by {
      assert s[..2][1] == b[0];
    }
    assert s[1..] == b;
  }

  /** An opening such as `<link ` (no space before its end) holds no `" >"`. */
  lemma OpeningNoOcc(name: string)
    requires ' ' !in name
    ensures NoOcc(name + " ", " >")
  {
    NoSpaceNoOcc(name);
    NoSpaceGtSpace();
    if |name| > 0 {
      NoOccConcat2(name, " ", " >");
    } else {
      assert name + " " == " ";
    }
  }

  /** The effect of Link's and Script's `replace(" >", ">")` on a tag whose values
      hold no `" >"`: only the space before the closing `>` disappears. */
  lemma CollapseTag(open: string, ts: seq<Token>, close: string)
    requires |ts| > 0
    requires AllWellFormed(ts) && NoSpaceGtValues(ts)
    requires NoOcc(open, " >")
    requires |close| > 0 && close[0] == '>' && NoOcc(close[1..], " >")
    ensures Collapse(open + Spaced(ts) + close) == open + Tight(ts) + close
  {
    var a := open + Tight(ts);
    var c1 := close[1..];
    TagSeam(open, ts, " >" + c1);
    CollapseAfter(a, c1);
    TagText(open, ts, close);
  }

  lemma TagText(open: string, ts: seq<Token>, close: string)
    requires |ts| > 0 && |close| > 0 && close[0] == '>'
    ensures open + Spaced(ts) + close == open + Tight(ts) + (" >" + close[1..])
    ensures open + Tight(ts) + close == open + Tight(ts) + (">" + close[1..])
  {
    SpacedIsTight(ts);
    SpaceGtSeam(open, Tight(ts), close);
  }

  lemma SpaceGtSeam(a: string, t: string, close: string)
    requires |close| > 0 && close[0] == '>'
    ensures a + (t + " ") + close == a + t + (" >" + close[1..])
    ensures a + t + close == a + t + (">" + close[1..])
  {
    assert close == ">" + close[1..];
  }

  // ---------------------------------------------------------------------------
  // Characters a rendering avoids

  /** A character other than the space that no fragment holds is absent from
      the spaced rendering. */
  lemma {:induction false} SpacedFree(ts: seq<Token>, ch: char)
    requires ch != ' '
    requires forall i :: 0 <= i < |ts| ==> ch !in TokenText(ts[i])
    ensures ch !in Spaced(ts)
  {
    if |ts| > 0 {
      SpacedFree(ts[1..], ch);
      assert ch !in TokenText(ts[0]);
    }
  }

  /** The same for the tight rendering. */
  lemma {:induction false} TightFree(ts: seq<Token>, ch: char)
    requires ch != ' '
    requires forall i :: 0 <= i < |ts| ==> ch !in TokenText(ts[i])
    ensures ch !in Tight(ts)
  {
    if |ts| > 1 {
      TightFree(ts[1..], ch);
      assert ch !in TokenText(ts[0]);
    }
  }

  /** A fragment of a word attribute name and a newline-free value has no
      newline. */
  lemma PairOneLine(k: string, v: string)
    requires IsWord(k) && '\n' !in v
    ensures '\n' !in TokenText(Pair(k, v))
  {
  }

  // ---------------------------------------------------------------------------
  // Fragments as the tag classes spell them

  /** One attribute as the tag classes store it: `key="value"` and a trailing
      space when a value is given, nothing otherwise. */
  function Fragment(key: string, v: Option<string>): string
  {
    if v.Some? then key + "=\"" + v.value + "\" " else ""
  }

  /** A bare word and a trailing space when set, nothing otherwise. */
  function WordFragment(word: string, on: bool): string
  {
    if on then word + " " else ""
  }

  /** A stored fragment is the spaced writing of the attribute's token. */
  lemma FragmentSpaced(key: string, v: Option<string>)
    ensures Fragment(key, v) == Spaced(Opt(key, v))
  {
    if v.Some? {
      assert Opt(key, v)[1..] == [];
    }
  }

  lemma WordFragmentSpaced(word: string, on: bool)
    ensures WordFragment(word, on) == Spaced(Flag(word, on))
  {
    if on {
      assert Flag(word, on)[1..] == [];
    }
  }
}
