/** The small helpers the elements and `Head` share: `has_key`,
    `replace_special_chars` and the lookup-id builders. The md5 digest is a
    parameter `hash`, since only its being a function of the squished text
    matters here. */
module Helpers {

  import opened Wrappers
  import opened Text

  /** `has_key`: the element's `key` when it is truthy, else None; `""` counts
      as no key. */
  function HasKey(key: Option<string>): (r: Option<string>)
    ensures r.Some? <==> key.Some? && key.value != ""
    ensures r.Some? ==> r == key
  {
    if key.Some? && key.value != "" then key else None
  }

  /** `string.punctuation`. */
  const Punctuation: string := "!\"#$%&'()*+,-./:;<=>?@[\\]^_`{|}~"

  /** `string.whitespace`: space, tab, line feed, carriage return, vertical
      tab, form feed. */
  const Whitespace: string := " \t\n\r\U{0B}\U{0C}"

  /** `replace_special_chars`: replaces the whole punctuation run, then the
      whole whitespace run, with `-`; single special characters are kept. */
  function ReplaceSpecialChars(value: string): string
  {
    ReplaceAll(ReplaceAll(value, Punctuation, "-"), Whitespace, "-")
  }

  lemma ShortNoOcc(s: string, pat: string)
    requires |s| < |pat|
    ensures NoOcc(s, pat)
  {
  }

  /** Only whole runs are replaced: a value comes back unchanged exactly when
      it holds neither the punctuation run nor the whitespace run, whatever
      single special characters it holds. */
  lemma NoRunsUnchanged(value: string)
    ensures ReplaceSpecialChars(value) == value <==> NoOcc(value, Punctuation) && NoOcc(value, Whitespace)
  {
    var p := ReplaceAll(value, Punctuation, "-");
    if NoOcc(value, Punctuation) {
      ReplaceAllNoMatch(value, Punctuation, "-");
      if NoOcc(value, Whitespace) {
        ReplaceAllNoMatch(value, Whitespace, "-");
      } else {
        var i :| 0 <= i <= |value| - |Whitespace| && OccursAt(value, Whitespace, i);
        ReplaceAllShorter(value, Whitespace, "-", i);
      }
    } else {
      var i :| 0 <= i <= |value| - |Punctuation| && OccursAt(value, Punctuation, i);
      ReplaceAllShorter(value, Punctuation, "-", i);
      ReplaceAllNoLonger(p, Whitespace, "-");
    }
  }

  /** A value shorter than the whitespace run contains neither run, so it comes
      back unchanged, whatever special characters it holds. */
  lemma ShortUnchanged(value: string)
    requires |value| < |Whitespace|
    ensures ReplaceSpecialChars(value) == value
  {
    ShortNoOcc(value, Punctuation);
    ShortNoOcc(value, Whitespace);
    NoRunsUnchanged(value);
  }

  /** The two runs side by side become two dashes. */
  lemma RunsReplaced()
    ensures ReplaceSpecialChars(Punctuation + Whitespace) == "--"
  {
    ReplaceAllAtFront(Whitespace, Punctuation, "-");
    ShortNoOcc(Whitespace, Punctuation);
    ReplaceAllNoMatch(Whitespace, Punctuation, "-");
    assert !OccursAt("-" + Whitespace, Whitespace, 0) by {
      assert ("-" + Whitespace)[0] == '-';
    }
    ReplaceAllSkip("-", Whitespace, Whitespace, "-");
    ReplaceAllAtFront("", Whitespace, "-");
    assert Whitespace + "" == Whitespace;
  }

  /** The non-empty fields, each with its special characters replaced,
      concatenated with nothing between them. */
  function Squish(fields: seq<Option<string>>): string
  {
    if fields == [] then ""
    else
      var head := if fields[0].Some? && fields[0].value != "" then ReplaceSpecialChars(fields[0].value) else "";
      head + Squish(fields[1..])
  }

  lemma {:induction false} SquishConcat(a: seq<Option<string>>, b: seq<Option<string>>)
    ensures Squish(a + b) == Squish(a) + Squish(b)
  {
    if a != [] {
      assert (a + b)[1..] == a[1..] + b;
      SquishConcat(a[1..], b);
    } else {
      assert a + b == b;
    }
  }

  /** An absent field and an empty one contribute nothing. */
  lemma {:induction false} SquishFalsy(a: seq<Option<string>>, b: seq<Option<string>>, x: Option<string>)
    requires x.None? || x == Some("")
    ensures Squish(a + [x] + b) == Squish(a + b)
  {
    SquishConcat(a + [x], b);
    SquishConcat(a, [x]);
    SquishConcat(a, b);
    assert Squish([x]) == "" by {
      assert [x][1..] == [];
    }
    assert Squish(a + [x]) == Squish(a) by {
      assert Squish(a) + "" == Squish(a);
    }
  }

  /** `generate_meta_tag_lookup_id`. */
  function MetaLookupId(hash: string -> string, name: Option<string>, httpEquiv: Option<string>,
                        property: Option<string>, content: Option<string>): string
  {
    hash(Squish([name, httpEquiv, property, content]))
  }

  /** `generate_link_tag_lookup_id`. */
  function LinkLookupId(hash: string -> string, rel: string, href: Option<string>, sizes: Option<string>,
                        typ: Option<string>, hreflang: Option<string>): string
  {
    hash(Squish([Some(rel), href, sizes, typ, hreflang]))
  }

  /** `generate_script_tag_lookup_id`. */
  function ScriptLookupId(hash: string -> string, src: string): string
  {
    hash(ReplaceSpecialChars(src))
  }

  /** `generate_stylesheet_tag_lookup_id`. */
  function StylesheetLookupId(hash: string -> string, href: string): string
  {
    hash(ReplaceSpecialChars(href))
  }

  /** Fields are concatenated without a separator, so a name and a content
      whose cleaned forms spell the same text when put together give the same
      meta id, for any hash. */
  lemma MetaIdCollision(hash: string -> string, a1: string, b1: string, a2: string, b2: string)
    requires a1 != "" && b1 != "" && a2 != "" && b2 != ""
    requires ReplaceSpecialChars(a1) + ReplaceSpecialChars(b1) == ReplaceSpecialChars(a2) + ReplaceSpecialChars(b2)
    ensures MetaLookupId(hash, Some(a1), None, None, Some(b1)) == MetaLookupId(hash, Some(a2), None, None, Some(b2))
  {
    SquishTwo(Some(a1), Some(b1));
    SquishTwo(Some(a2), Some(b2));
    SquishOne(a1);
    SquishOne(b1);
    SquishOne(a2);
    SquishOne(b2);
  }

  /** In particular, fields holding neither run collide whenever they spell
      the same text together. */
  lemma PlainFieldsCollide(hash: string -> string, a1: string, b1: string, a2: string, b2: string)
    requires a1 != "" && b1 != "" && a2 != "" && b2 != ""
    requires NoOcc(a1, Punctuation) && NoOcc(a1, Whitespace) && NoOcc(b1, Punctuation) && NoOcc(b1, Whitespace)
    requires NoOcc(a2, Punctuation) && NoOcc(a2, Whitespace) && NoOcc(b2, Punctuation) && NoOcc(b2, Whitespace)
    requires a1 + b1 == a2 + b2
    ensures MetaLookupId(hash, Some(a1), None, None, Some(b1)) == MetaLookupId(hash, Some(a2), None, None, Some(b2))
  {
    NoRunsUnchanged(a1);
    NoRunsUnchanged(b1);
    NoRunsUnchanged(a2);
    NoRunsUnchanged(b2);
    MetaIdCollision(hash, a1, b1, a2, b2);
  }

  lemma SquishOne(x: string)
    requires x != ""
    ensures Squish([Some(x)]) == ReplaceSpecialChars(x)
  {
    assert [Some(x)][1..] == [];
  }

  lemma SquishTwo(name: Option<string>, content: Option<string>)
    ensures Squish([name, None, None, content]) == Squish([name]) + Squish([content])
  {
    var none: Option<string> := None;
    calc {
      Squish([name, none, none, content]);
      { SquishFalsy([name], [none, content], none);
        assert [name] + [none] + [none, content] == [name, none, none, content]; }
      Squish([name] + [none, content]);
      { assert [name] + [none, content] == [name] + [none] + [content];
        SquishFalsy([name], [content], none); }
      Squish([name] + [content]);
      { SquishConcat([name], [content]); }
      Squish([name]) + Squish([content]);
    }
  }

  /** For example, name `ab` with content `c` and name `a` with content `bc`. */
  lemma MetaIdExample(hash: string -> string)
    ensures MetaLookupId(hash, Some("ab"), None, None, Some("c")) == MetaLookupId(hash, Some("a"), None, None, Some("bc"))
  {
    ShortUnchanged("ab");
    ShortUnchanged("c");
    ShortUnchanged("a");
    ShortUnchanged("bc");
    MetaIdCollision(hash, "ab", "c", "a", "bc");
  }

  /** An empty content or href adds nothing to the id, the same as leaving it
      out. */
  lemma EmptyFieldsIgnored(hash: string -> string, name: Option<string>, httpEquiv: Option<string>,
                           property: Option<string>, rel: string, sizes: Option<string>,
                           typ: Option<string>, hreflang: Option<string>)
    ensures MetaLookupId(hash, name, httpEquiv, property, Some("")) == MetaLookupId(hash, name, httpEquiv, property, None)
    ensures LinkLookupId(hash, rel, Some(""), sizes, typ, hreflang) == LinkLookupId(hash, rel, None, sizes, typ, hreflang)
  {
    EmptyContentIgnored(name, httpEquiv, property);
    EmptyHrefIgnored(rel, sizes, typ, hreflang);
  }

  lemma EmptyContentIgnored(name: Option<string>, httpEquiv: Option<string>, property: Option<string>)
    ensures Squish([name, httpEquiv, property, Some("")]) == Squish([name, httpEquiv, property, None])
  {
    SquishFalsy([name, httpEquiv, property], [], Some(""));
    SquishFalsy([name, httpEquiv, property], [], None);
    assert [name, httpEquiv, property] + [Some("")] + [] == [name, httpEquiv, property, Some("")];
    assert [name, httpEquiv, property] + [None] + [] == [name, httpEquiv, property, None];
  }

  lemma EmptyHrefIgnored(rel: string, sizes: Option<string>, typ: Option<string>, hreflang: Option<string>)
    ensures Squish([Some(rel), Some(""), sizes, typ, hreflang]) == Squish([Some(rel), None, sizes, typ, hreflang])
  {
    SquishFalsy([Some(rel)], [sizes, typ, hreflang], Some(""));
    SquishFalsy([Some(rel)], [sizes, typ, hreflang], None);
    assert [Some(rel)] + [Some("")] + [sizes, typ, hreflang] == [Some(rel), Some(""), sizes, typ, hreflang];
    assert [Some(rel)] + [None] + [sizes, typ, hreflang] == [Some(rel), None, sizes, typ, hreflang];
  }

  /** A script and a stylesheet with the same source get the same id. */
  lemma ScriptStylesheetAgree(hash: string -> string, s: string)
    ensures ScriptLookupId(hash, s) == StylesheetLookupId(hash, s)
  {
  }
}
