/** `Keywords` of the first package's single-module `tags`: a list that starts
    as None, is set from a string or a list, and is written joined by `", "`.
    `str_append` and `list_append` add their whole argument to the list as ONE
    element, a nested list, so the next write fails: joining a list that holds
    a list raises `TypeError`. `StrExtend` and `ListExtend` are the evidently
    intended extensions, which add the new keywords one by one. */
module FlatKeywords {

  import opened Wrappers
  import opened Text
  import KeywordsPreset

  /** An element of the stored list: a keyword, or a list added whole. */
  datatype Item = Word(w: string) | Nested(ws: seq<string>)

  datatype Keywords = Keywords(items: Option<seq<Item>>)

  /** Appending to a list that was never set: None has no `append`. */
  datatype AppendError = AttributeError

  function Words(ws: seq<string>): (items: seq<Item>)
    ensures |items| == |ws|
    ensures forall i :: 0 <= i < |ws| ==> items[i] == Word(ws[i])
  {
    if |ws| == 0 then [] else [Word(ws[0])] + Words(ws[1..])
  }

  predicate AllWords(items: seq<Item>)
  {
    forall i :: 0 <= i < |items| ==> items[i].Word?
  }

  /** The keywords of a list that holds no nested list. */
  function Strings(items: seq<Item>): (ws: seq<string>)
    requires AllWords(items)
    ensures |ws| == |items|
    ensures forall i :: 0 <= i < |items| ==> ws[i] == items[i].w
  {
    if |items| == 0 then [] else [items[0].w] + Strings(items[1..])
  }

  lemma StringsWords(ws: seq<string>)
    ensures AllWords(Words(ws)) && Strings(Words(ws)) == ws
  {
  }

  /** The constructor sets nothing. */
  function New(): (k: Keywords)
    ensures Render(k) == Failure(KeywordsPreset.TypeError)
  {
    Keywords(None)
  }

  /** `__str__`: `TypeError` unless a list is set and holds only keywords;
      otherwise what the keywords preset writes for those keywords. */
  function Render(k: Keywords): (r: Result<string, KeywordsPreset.KeywordsError>)
    ensures r.Success? <==> k.items.Some? && AllWords(k.items.value)
    ensures r.Success? ==> r == KeywordsPreset.Render(KeywordsPreset.Keywords(Some(Strings(k.items.value))))
    ensures r.Success? ==> Unwrap(r.value, KeywordsPreset.Prefix, "\">") == Some(Join(Strings(k.items.value), ", "))
  {
    match k.items
    case None => Failure(KeywordsPreset.TypeError)
    case Some(items) =>
      if AllWords(items) then KeywordsPreset.Render(KeywordsPreset.Keywords(Some(Strings(items))))
      else Failure(KeywordsPreset.TypeError)
  }

  /** The keywords `set_from_string` and `str_append` take from a string. */
  function Parsed(s: string): (ws: seq<string>)
    ensures |ws| > 0
    ensures Join(ws, ",") == ReplaceAll(s, " ", "")
  {
    KeywordsPreset.SetFromString(KeywordsPreset.NewUnset(), s).items.value
  }

  /** `set_from_string`: writes what the preset set from the same string writes. */
  function SetFromString(k: Keywords, s: string): (u: Keywords)
    ensures Render(u) == KeywordsPreset.Render(KeywordsPreset.SetFromString(KeywordsPreset.NewUnset(), s))
  {
    StringsWords(Parsed(s));
    Keywords(Some(Words(Parsed(s))))
  }

  /** `set_from_list`: writes what the preset set from the same list writes. */
  function SetFromList(k: Keywords, ks: seq<string>): (u: Keywords)
    ensures Render(u) == KeywordsPreset.Render(KeywordsPreset.SetFromList(KeywordsPreset.NewUnset(), ks))
  {
    StringsWords(ks);
    Keywords(Some(Words(ks)))
  }

  /** `str_append` as written: the parsed list goes in as one element. */
  function StrAppend(k: Keywords, s: string): (r: Result<Keywords, AppendError>)
    ensures r.Success? <==> k.items.Some?
    ensures r.Success? ==> r.value.items.Some? && |r.value.items.value| == |k.items.value| + 1
  {
    match k.items
    case None => Failure(AttributeError)
    case Some(items) => Success(Keywords(Some(items + [Nested(Parsed(s))])))
  }

  /** `list_append` as written: the list goes in as one element. */
  function ListAppend(k: Keywords, ks: seq<string>): (r: Result<Keywords, AppendError>)
    ensures r.Success? <==> k.items.Some?
    ensures r.Success? ==> r.value.items.Some? && |r.value.items.value| == |k.items.value| + 1
  {
    match k.items
    case None => Failure(AttributeError)
    case Some(items) => Success(Keywords(Some(items + [Nested(ks)])))
  }

  /** After either append the keywords can no longer be written, whatever was
      set and whatever was appended. */
  lemma AppendBreaksRender(k: Keywords, s: string, ks: seq<string>)
    requires k.items.Some?
    ensures Render(StrAppend(k, s).value) == Failure(KeywordsPreset.TypeError)
    ensures Render(ListAppend(k, ks).value) == Failure(KeywordsPreset.TypeError)
  {
    var n := |k.items.value|;
    assert !StrAppend(k, s).value.items.value[n].Word?;
    assert !ListAppend(k, ks).value.items.value[n].Word?;
  }

  /** The smallest case: `set_from_string("a")` then `str_append("b")`. */
  lemma AppendExample()
    ensures Render(SetFromString(New(), "a")).Success?
    ensures Render(StrAppend(SetFromString(New(), "a"), "b").value).Failure?
  {
    var k := SetFromString(New(), "a");
    assert Render(k).Success?;
    AppendBreaksRender(k, "b", []);
  }

  /** `str_append` as evidently intended: the parsed keywords are added one by
      one. */
  function StrExtend(k: Keywords, s: string): (r: Result<Keywords, AppendError>)
    ensures r.Success? <==> k.items.Some?
    ensures r.Success? && AllWords(k.items.value) ==>
              Render(r.value) == Success(KeywordsPreset.Prefix + Join(Strings(k.items.value) + Parsed(s), ", ") + "\">")
  {
    ListExtend(k, Parsed(s))
  }

  /** `list_append` as evidently intended: the keywords are added one by one. */
  function ListExtend(k: Keywords, ks: seq<string>): (r: Result<Keywords, AppendError>)
    ensures r.Success? <==> k.items.Some?
    ensures r.Success? && AllWords(k.items.value) ==>
              Render(r.value) == Success(KeywordsPreset.Prefix + Join(Strings(k.items.value) + ks, ", ") + "\">")
  {
    match k.items
    case None => Failure(AttributeError)
    case Some(items) =>
      var u := Keywords(Some(items + Words(ks)));
      if AllWords(items) then
        ExtendWords(items, ks);
        var c := Join(Strings(items) + ks, ", ");
        assert Unwrap(Render(u).value, KeywordsPreset.Prefix, "\">") == Some(c);
        Success(u)
      else Success(u)
  }

  lemma ExtendWords(items: seq<Item>, ks: seq<string>)
    requires AllWords(items)
    ensures AllWords(items + Words(ks)) && Strings(items + Words(ks)) == Strings(items) + ks
  {
    var x := items + Words(ks);
    ExtendAllWords(items, ks);
    var l := Strings(x);
    var si := Strings(items);
    var r := si + ks;
    assert |l| == |r|;
    forall i | 0 <= i < |l| ensures l[i] == r[i] {
      ExtendAt(items, ks, i);
      assert l[i] == x[i].w;
      if i < |items| {
        assert r[i] == si[i] == items[i].w;
      } else {
        assert r[i] == ks[i - |items|];
      }
    }
  }

  lemma ExtendAllWords(items: seq<Item>, ks: seq<string>)
    requires AllWords(items)
    ensures AllWords(items + Words(ks))
  {
    forall i | 0 <= i < |items + Words(ks)| ensures (items + Words(ks))[i].Word? {
      ExtendAt(items, ks, i);
    }
  }

  lemma ExtendAt(items: seq<Item>, ks: seq<string>, i: int)
    requires AllWords(items) && 0 <= i < |items| + |ks|
    ensures (items + Words(ks))[i] == if i < |items| then items[i] else Word(ks[i - |items|])
  {
  }

  /** Extending a written list writes the old content, `", "`, then the new
      keywords: the content grows at its end only. */
  lemma ExtendContent(k: Keywords, ks: seq<string>)
    requires k.items.Some? && AllWords(k.items.value)
    requires |k.items.value| > 0 && |ks| > 0
    ensures Render(ListExtend(k, ks).value)
            == Success(KeywordsPreset.Prefix + Join(Strings(k.items.value), ", ") + ", " + Join(ks, ", ") + "\">")
  {
    var a := Join(Strings(k.items.value), ", ");
    var b := Join(ks, ", ");
    JoinAppend(Strings(k.items.value), ks, ", ");
    Regroup(KeywordsPreset.Prefix, a, ", ", b, "\">");
  }

  lemma {:induction false} JoinAppend(a: seq<string>, b: seq<string>, sep: string)
    requires |a| > 0 && |b| > 0
    ensures Join(a + b, sep) == Join(a, sep) + sep + Join(b, sep)
    decreases |a|
  {
    if |a| == 1 {
      assert (a + b)[0] == a[0] && (a + b)[1..] == b;
    } else {
      assert (a + b)[0] == a[0] && (a + b)[1..] == a[1..] + b;
      JoinAppend(a[1..], b, sep);
    }
  }

  lemma Regroup(p: string, a: string, m: string, b: string, q: string)
    ensures p + (a + m + b) + q == p + a + m + b + q
  {
  }
}
