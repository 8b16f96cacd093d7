/** The live `FormatDetection` element: five flags, all on by default. Each
    flag turned off contributes a `<kind>=no` token; the tokens, joined by a
    comma, become the content of one `format-detection` meta tag, and with no
    token there is no tag at all. */
module FormatDetectionElement {

  import opened Wrappers
  import opened Text
  import MetaElement

  datatype FormatDetection = FormatDetection(telephone: bool, date: bool, address: bool, email: bool, url: bool)

  /** The constructor's defaults. */
  const Default := FormatDetection(true, true, true, true, true)

  function Off(flag: bool): nat
  {
    if flag then 0 else 1
  }

  /** The tokens, in the order the flags are checked. */
  function Tokens(f: FormatDetection): (ts: seq<string>)
    ensures |ts| == Off(f.telephone) + Off(f.date) + Off(f.address) + Off(f.email) + Off(f.url)
  {
    Piece(f.telephone, "telephone=no") + Piece(f.date, "date=no") + Piece(f.address, "address=no")
    + Piece(f.email, "email=no") + Piece(f.url, "url=no")
  }

  /** Each token is present exactly when its flag is off. */
  lemma TokensNamed(f: FormatDetection)
    ensures "telephone=no" in Tokens(f) <==> !f.telephone
    ensures "date=no" in Tokens(f) <==> !f.date
    ensures "address=no" in Tokens(f) <==> !f.address
    ensures "email=no" in Tokens(f) <==> !f.email
    ensures "url=no" in Tokens(f) <==> !f.url
  {
    var ts := Tokens(f);
    var names := ["telephone=no", "date=no", "address=no", "email=no", "url=no"];
    var flags := [f.telephone, f.date, f.address, f.email, f.url];
    assert |names[0]| == 12 && |names[1]| == 7 && |names[2]| == 10 && |names[3]| == 8 && |names[4]| == 6;
    assert ts == Piece(flags[0], names[0]) + Piece(flags[1], names[1]) + Piece(flags[2], names[2])
                 + Piece(flags[3], names[3]) + Piece(flags[4], names[4]);
    forall i | 0 <= i < 5 ensures names[i] in ts <==> !flags[i] {
      forall j | 0 <= j < 5 ensures names[i] in Piece(flags[j], names[j]) <==> i == j && !flags[j] {
        assert i != j ==> |names[i]| != |names[j]|;
      }
    }
  }

  function Piece(flag: bool, token: string): seq<string>
  {
    if flag then [] else [token]
  }

  /** No token holds a comma or a double quote. */
  lemma TokensPlain(f: FormatDetection)
    ensures forall i :: 0 <= i < |Tokens(f)| ==> ',' !in Tokens(f)[i] && '"' !in Tokens(f)[i]
  {
    var a, b, c := Piece(f.telephone, "telephone=no"), Piece(f.date, "date=no"), Piece(f.address, "address=no");
    var d, e := Piece(f.email, "email=no"), Piece(f.url, "url=no");
    assert Plain(a) && Plain(b) && Plain(c) && Plain(d) && Plain(e);
    PlainConcat(a, b);
    PlainConcat(a + b, c);
    PlainConcat(a + b + c, d);
    PlainConcat(a + b + c + d, e);
  }

  predicate Plain(ts: seq<string>)
  {
    forall i :: 0 <= i < |ts| ==> ',' !in ts[i] && '"' !in ts[i]
  }

  lemma PlainConcat(a: seq<string>, b: seq<string>)
    requires Plain(a) && Plain(b)
    ensures Plain(a + b)
  {
    forall i | 0 <= i < |a + b| ensures ',' !in (a + b)[i] && '"' !in (a + b)[i] {
      if i < |a| { assert (a + b)[i] == a[i]; } else { assert (a + b)[i] == b[i - |a|]; }
    }
  }

  /** The tag written when some flag is off. */
  function AsMeta(f: FormatDetection): MetaElement.Meta
  {
    MetaElement.WithContent(MetaElement.Name, "format-detection", Join(Tokens(f), ",")).value
  }

  /** `_compile`. */
  function Compile(f: FormatDetection): string
  {
    if |Tokens(f)| == 0 then "" else MetaElement.Render(AsMeta(f))
  }

  /** The flags a list of tokens turns off. */
  function FromTokens(ts: seq<string>): FormatDetection
  {
    FormatDetection("telephone=no" !in ts, "date=no" !in ts, "address=no" !in ts, "email=no" !in ts, "url=no" !in ts)
  }

  /** Reads an output back: nothing means every flag on, otherwise the tag's
      content names the flags that are off. */
  function Read(s: string): Option<FormatDetection>
  {
    if s == "" then Some(Default)
    else
      match MetaElement.Decode(s)
      case None => None
      case Some(m) =>
        if m.kind == MetaElement.Name && m.disc == "format-detection" && m.content.Some? && m.id.None?
        then Some(FromTokens(Split(m.content.value, ',')))
        else None
  }

  /** The output is empty exactly for the all-on default. */
  lemma EmptyIff(f: FormatDetection)
    ensures Compile(f) == "" <==> f == Default
  {
    if |Tokens(f)| > 0 {
      assert |MetaElement.Render(AsMeta(f))| >= 2;
    }
  }

  lemma ContentClean(f: FormatDetection)
    ensures '"' !in Join(Tokens(f), ",")
  {
    TokensPlain(f);
    JoinFree(Tokens(f), ",", '"');
  }

  /** Whatever the flags, the output reads back as the same flags. */
  lemma ReadCompile(f: FormatDetection)
    ensures Read(Compile(f)) == Some(f)
  {
    EmptyIff(f);
    var ts := Tokens(f);
    if |ts| > 0 {
      var m := AsMeta(f);
      assert Compile(f) == MetaElement.Render(m);
      AsMetaDecodes(f);
      ContentSplits(f);
      FromTokensOf(f);
      ReadMeta(MetaElement.Render(m), m);
    }
  }

  lemma AsMetaDecodes(f: FormatDetection)
    ensures MetaElement.Decode(MetaElement.Render(AsMeta(f))) == Some(AsMeta(f))
  {
    var c := Join(Tokens(f), ",");
    ContentClean(f);
    assert AsMeta(f) == MetaElement.Meta(MetaElement.Name, "format-detection", Some(c), None);
    DecodeContent(c);
  }

  lemma DecodeContent(c: string)
    requires '"' !in c
    ensures var m := MetaElement.Meta(MetaElement.Name, "format-detection", Some(c), None);
            MetaElement.Decode(MetaElement.Render(m)) == Some(m)
  {
    assert '"' !in "format-detection";
    MetaElement.DecodeRender(MetaElement.Meta(MetaElement.Name, "format-detection", Some(c), None));
  }

  lemma ContentSplits(f: FormatDetection)
    requires |Tokens(f)| > 0
    ensures Split(AsMeta(f).content.value, ',') == Tokens(f)
  {
    TokensPlain(f);
    SplitJoin(Tokens(f), ',');
    assert [','] == ",";
  }

  lemma FromTokensOf(f: FormatDetection)
    ensures FromTokens(Tokens(f)) == f
  {
    TokensNamed(f);
  }

  lemma ReadMeta(s: string, m: MetaElement.Meta)
    requires s != "" && MetaElement.Decode(s) == Some(m)
    requires m.kind == MetaElement.Name && m.disc == "format-detection" && m.content.Some? && m.id.None?
    ensures Read(s) == Some(FromTokens(Split(m.content.value, ',')))
  {
  }
}
