/** The older `Verification` preset: the same six optional tags as the live
    element, each built as a `MetaTag`. */
module VerificationPreset {

  import opened Wrappers
  import MetaTag
  import VerificationElement

  function Tags(v: VerificationElement.Verification): (tags: seq<Option<MetaTag.MetaTag>>)
    ensures |tags| == 6
    ensures forall i :: 0 <= i < 6 ==> (tags[i].Some? <==> VerificationElement.Values(v)[i].Some?)
  {
    MetaTag.Wrap(VerificationElement.Order(v))
  }

  /** `_compile`: the preset writes what the live element writes, and nothing
      exactly when no site is given. */
  function Compile(v: VerificationElement.Verification): (r: string)
    ensures r == VerificationElement.Compile(v)
    ensures r == "" <==> v == VerificationElement.Verification(None, None, None, None, None, None)
  {
    MetaTag.OutputAsElement(VerificationElement.Order(v));
    VerificationElement.EmptyIff(v);
    MetaTag.Output(Tags(v))
  }
}
