/** The `Keywords` preset: a list of keywords set either from a string, with
    every space removed before splitting on `,`, or from a list as given, and
    written as the content of the keywords meta tag, joined by `", "`. In the
    newer package the list starts empty; in the older one it starts as None,
    and writing it before anything is set raises `TypeError`. */
module KeywordsPreset {

  import opened Wrappers
  import opened Text
  import KeywordsElement

  /** Joining None raises this error. */
  datatype KeywordsError = TypeError

  datatype Keywords = Keywords(items: Option<seq<string>>)

  const Prefix := "<meta name=\"keywords\" content=\""

  /** The newer constructor: an empty list, written as an empty content. */
  function New(): (k: Keywords)
    ensures Render(k) == Success(Prefix + "\">")
  {
    Keywords(Some([]))
  }

  /** The older constructor sets nothing, so writing fails. */
  function NewUnset(): (k: Keywords)
    ensures Render(k) == Failure(TypeError)
  {
    Keywords(None)
  }

  /** `_compile`: the keywords joined by `", "` as the content of the keywords
      meta tag, exactly as the live element writes them; `TypeError` when no
      list was ever set. */
  function Render(k: Keywords): (r: Result<string, KeywordsError>)
    ensures r.Success? <==> k.items.Some?
    ensures r.Success? ==> Unwrap(r.value, Prefix, "\">") == Some(Join(k.items.value, ", "))
    ensures r.Success? ==> r.value == KeywordsElement.Render(KeywordsElement.Keywords(k.items.value))
  {
    match k.items
    case None => Failure(TypeError)
    case Some(items) => Success(KeywordsElement.Render(KeywordsElement.Keywords(items)))
  }

  /** `set_from_string`: every space is removed, then the rest is split on
      `,`. No keyword keeps a space or a comma, and joining them back with `,`
      gives the string without its spaces. */
  function SetFromString(k: Keywords, s: string): (u: Keywords)
    ensures u.items.Some?
    ensures Join(u.items.value, ",") == ReplaceAll(s, " ", "")
    ensures forall i :: 0 <= i < |u.items.value| ==> ' ' !in u.items.value[i] && ',' !in u.items.value[i]
  {
    var parts := Split(ReplaceAll(s, " ", ""), ',');
    RemoveCharGone(s, ' ');
    JoinHolds(parts, ",", ' ');
    Keywords(Some(parts))
  }

  /** `set_from_list`: the list replaces whatever was set, and the tag then
      writes what the live element built from that list writes. */
  function SetFromList(k: Keywords, ks: seq<string>): (u: Keywords)
    ensures Render(u) == Success(KeywordsElement.Render(KeywordsElement.New(None, Some(ks))))
  {
    assert KeywordsElement.New(None, Some(ks)).items == ks;
    Keywords(Some(ks))
  }

  /** Writing the keywords out and setting them from what was written gives
      them back, when no keyword holds a space or a comma. */
  lemma FromStringJoin(k: Keywords, ks: seq<string>)
    requires |ks| > 0
    requires forall i :: 0 <= i < |ks| ==> ' ' !in ks[i] && ',' !in ks[i]
    ensures SetFromString(k, Join(ks, ", ")).items == Some(ks)
  {
    SpacesDropped(ks);
    SplitJoin(ks, ',');
  }

  /** Removing the spaces from a `", "`-join of space-free keywords leaves
      their `,`-join. */
  lemma {:induction false} SpacesDropped(ks: seq<string>)
    requires |ks| > 0
    requires forall i :: 0 <= i < |ks| ==> ' ' !in ks[i]
    ensures ReplaceAll(Join(ks, ", "), " ", "") == Join(ks, ",")
    decreases |ks|
  {
    if |ks| == 1 {
      RemoveCharAbsent(ks[0], ' ');
    } else {
      var rest := Join(ks[1..], ", ");
      assert Join(ks, ", ") == ks[0] + ", " + rest;
      RemoveCharConcat(ks[0] + ", ", rest, ' ');
      RemoveCharConcat(ks[0], ", ", ' ');
      RemoveCharAbsent(ks[0], ' ');
      CommaSpace();
      SpacesDropped(ks[1..]);
    }
  }

  lemma CommaSpace()
    ensures ReplaceAll(", ", " ", "") == ","
  {
    var sp: string := [' '];
    var cs: string := [',', ' '];
    assert sp == " " && cs == ", ";
    assert sp[1..] == [];
    assert ReplaceAll([], sp, []) == [];
    assert sp[..|sp|] == sp;
    assert ReplaceAll(sp, sp, []) == [] + ReplaceAll(sp[1..], sp, []);
    assert cs[..|sp|] == [','] != sp;
    assert cs[1..] == sp;
    assert ReplaceAll(cs, sp, []) == [cs[0]] + ReplaceAll(cs[1..], sp, []);
  }
}
