/** A start tag with a fixed opening and closing around its attributes, such as
    `<meta ` ... `>` or `<script ` ... `></script>`, read back into the fields of
    an attribute layout. The reader accepts both spellings the library has used:
    every fragment followed by a space (the current formatters), or fragments
    separated by single spaces (after the `" >"` rewrite, and in the older
    packages). */
module Tag {

  import opened Wrappers
  import opened Text
  import opened Markup
  import opened Attrs

  /** The attributes between `open` and `close`. */
  function Tokens(open: string, close: string, s: string): (r: Option<seq<Token>>)
    ensures r.Some? ==> AllWellFormed(r.value)
    ensures r.Some? ==> s == open + Spaced(r.value) + close || s == open + Tight(r.value) + close
  {
    match Unwrap(s, open, close)
    case None => None
    case Some(body) =>
      match ParseTokens(body)
      case None => None
      case Some(ts) =>
        ParseTokensSound(body);
        Some(ts)
  }

  lemma TokensOf(open: string, close: string, ts: seq<Token>)
    requires AllWellFormed(ts)
    ensures Tokens(open, close, open + Spaced(ts) + close) == Some(ts)
    ensures Tokens(open, close, open + Tight(ts) + close) == Some(ts)
  {
    UnwrapWrap(open, Spaced(ts), close);
    ParseSpaced(ts);
    UnwrapWrap(open, Tight(ts), close);
    ParseTight(ts);
  }

  /** `s` is the tag written from `fs`, in one of the two spellings. */
  predicate Written(layout: seq<Spec>, fs: seq<Field>, open: string, close: string, s: string)
  {
    |layout| == |fs| &&
    (s == open + Spaced(Encode(layout, fs)) + close || s == open + Tight(Encode(layout, fs)) + close)
  }

  /** Reads a tag back into one field per slot. */
  function Read(layout: seq<Spec>, open: string, close: string, s: string): (r: Option<seq<Field>>)
    ensures r.Some? ==> FitsAll(layout, r.value)
  {
    match Tokens(open, close, s)
    case None => None
    case Some(ts) => Decode(layout, ts)
  }

  /** `Read` succeeds exactly on the tags written from quote-free fields, and
      then returns those fields. */
  lemma ReadIff(layout: seq<Spec>, open: string, close: string, s: string, fs: seq<Field>)
    requires Distinct(layout) && GoodLayout(layout)
    ensures Read(layout, open, close, s) == Some(fs) <==>
              FitsAll(layout, fs) && QuoteFree(fs) && Written(layout, fs, open, close, s)
  {
    if Read(layout, open, close, s) == Some(fs) {
      var ts := Tokens(open, close, s).value;
      EncodeDecode(layout, ts);
      WellFormedQuoteFree(layout, fs);
    }
    if FitsAll(layout, fs) && QuoteFree(fs) && Written(layout, fs, open, close, s) {
      EncodeWellFormed(layout, fs);
      TokensOf(open, close, Encode(layout, fs));
      DecodeEncode(layout, fs);
    }
  }
}
