/** The live `Verification` element: one `name=` meta tag per site given, with
    the site's fixed verification name, always in the order google, yandex,
    bing, alexa, pinterest, norton. */
module VerificationElement {

  import opened Wrappers
  import MetaElement
  import MetaLines

  /** The constructor's arguments; each that is not None, the empty string
      included, fills its slot. */
  datatype Verification = Verification(google: Option<string>, yandex: Option<string>, bing: Option<string>,
                                       alexa: Option<string>, pinterest: Option<string>, norton: Option<string>)

  /** The `name` of each site's tag, in `_order`. */
  const Names: seq<string> := ["google-site-verification", "yandex-verification", "msvalidate.01",
                               "alexaVerifyID", "p:domain_verify", "norton-safeweb-site-verification"]

  function Values(v: Verification): seq<Option<string>>
  {
    [v.google, v.yandex, v.bing, v.alexa, v.pinterest, v.norton]
  }

  /** The six slots. */
  function Order(v: Verification): (slots: seq<Option<MetaElement.Meta>>)
    ensures |slots| == 6
  {
    MetaLines.Slots(MetaElement.Name, Names, Values(v))
  }

  /** `compile`. */
  function Compile(v: Verification): string
  {
    MetaLines.Output(MetaLines.Spaced, Order(v))
  }

  lemma NamesGood()
    ensures forall i :: 0 <= i < |Names| ==> MetaLines.Value(Names[i])
  {
    FirstNamesGood();
    LastNamesGood();
  }

  lemma FirstNamesGood()
    ensures MetaLines.Value(Names[0]) && MetaLines.Value(Names[1]) && MetaLines.Value(Names[2])
  {
    assert MetaLines.Value(Names[0]);
    assert MetaLines.Value(Names[1]);
  }

  lemma LastNamesGood()
    ensures MetaLines.Value(Names[3]) && MetaLines.Value(Names[4]) && MetaLines.Value(Names[5])
  {
    assert MetaLines.Value(Names[3]);
    assert MetaLines.Value(Names[4]);
  }

  /** The output reads back as one tag per given site, named by the site's
      verification name, in the fixed order. */
  lemma CompileReads(v: Verification)
    requires forall i :: 0 <= i < 6 ==> MetaLines.OptValue(Values(v)[i])
    ensures MetaLines.Read(Compile(v)) == Some(MetaLines.Picked(MetaElement.Name, Names, Values(v)))
  {
    NamesGood();
    MetaLines.ReadSlots(MetaLines.Spaced, MetaElement.Name, Names, Values(v));
  }

  /** Bing's tag is named `msvalidate.01` and comes third. */
  lemma BingOnly(code: string)
    ensures MetaLines.Picked(MetaElement.Name, Names, Values(Verification(None, None, Some(code), None, None, None)))
            == [MetaElement.Meta(MetaElement.Name, "msvalidate.01", Some(code), None)]
  {
    var vs := Values(Verification(None, None, Some(code), None, None, None));
    var k := MetaElement.Name;
    assert MetaLines.Picked(k, Names[3..], vs[3..]) == [];
    assert Names[2..][1..] == Names[3..] && vs[2..][1..] == vs[3..];
    assert MetaLines.Picked(k, Names[2..], vs[2..]) == [MetaElement.Meta(k, Names[2], Some(code), None)];
    assert Names[1..][1..] == Names[2..] && vs[1..][1..] == vs[2..];
    assert MetaLines.Picked(k, Names[1..], vs[1..]) == MetaLines.Picked(k, Names[2..], vs[2..]);
  }

  /** No arguments, and only then, gives `""`; an empty string is a given
      argument. */
  lemma EmptyIff(v: Verification)
    ensures Compile(v) == "" <==> v == Verification(None, None, None, None, None, None)
  {
    OutputEmpty(MetaLines.Spaced, v);
  }

  /** The same for either spelling of the tags. */
  lemma OutputEmpty(style: MetaLines.Style, v: Verification)
    ensures MetaLines.Output(style, Order(v)) == "" <==> v == Verification(None, None, None, None, None, None)
  {
    MetaLines.SlotsEmptySix(style, MetaElement.Name, Names, v.google, v.yandex, v.bing, v.alexa, v.pinterest, v.norton);
  }
}
