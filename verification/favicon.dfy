/** The live `Favicon` element: 21 icon slots, each holding an href; every
    truthy href becomes one `Link` with its slot's `rel`, `sizes` and `type`
    from the reference table, and the links are written in table order, one
    per line. */
module FaviconElement {

  import opened Wrappers
  import LinkElement
  import LinkLines

  function Png(rel: string, size: string): LinkLines.Icon
  {
    LinkLines.Icon(rel, Some(size), Some("image/png"))
  }

  /** An mstile entry: its `content` and `generated_filename` keys are dropped,
      leaving only `rel`. */
  function Tile(rel: string): LinkLines.Icon
  {
    LinkLines.Icon(rel, None, None)
  }

  /** `_icon_reference`, in order: ico, png icons 16 to 196, apple touch icons
      57 to 180, mstiles 70, 270, 310x150 and 310. */
  const Table: seq<LinkLines.Icon> := [
    LinkLines.Icon("icon", Some("16x16 32x32"), Some("image/x-icon")),
    Png("icon", "16x16"), Png("icon", "32x32"), Png("icon", "64x64"), Png("icon", "96x96"),
    Png("icon", "180x180"), Png("icon", "196x196"),
    Png("apple-touch-icon", "57x57"), Png("apple-touch-icon", "60x60"), Png("apple-touch-icon", "72x72"),
    Png("apple-touch-icon", "76x76"), Png("apple-touch-icon", "114x114"), Png("apple-touch-icon", "120x120"),
    Png("apple-touch-icon", "144x144"), Png("apple-touch-icon", "152x152"), Png("apple-touch-icon", "167x167"),
    Png("apple-touch-icon", "180x180"),
    Tile(TilePrefix + "square70x70logo"), Tile(TilePrefix + "square270x270logo"),
    Tile(TilePrefix + "wide310x150logo"), Tile(TilePrefix + "wide310x150logo")
  ]

  /** The prefix every mstile `rel` starts with. */
  const TilePrefix := "msapplication-"

  /** One href argument per slot of the table. */
  type Hrefs = s: seq<Option<string>> | |s| == 21 witness seq(21, i => None)

  /** The constructor's 21 hrefs, in the order of its parameters, which is the
      table order. */
  datatype Favicon = Favicon(hrefs: Hrefs)

  function Order(f: Favicon): (slots: seq<Option<LinkElement.Link>>)
    ensures |slots| == 21
  {
    LinkLines.Slots(Table, f.hrefs)
  }

  /** `compile`. */
  function Compile(f: Favicon): string
  {
    LinkLines.Output(Order(f))
  }

  lemma PngPlain(rel: string, size: string)
    requires LinkLines.Plain(rel) && LinkLines.Plain(size)
    ensures LinkLines.IconPlain(Png(rel, size))
  {
    assert LinkLines.Plain("image/png");
  }

  lemma TablePlain()
    ensures forall i :: 0 <= i < |Table| ==> LinkLines.IconPlain(Table[i])
  {
    assert LinkLines.IconPlain(Table[0]) by {
      assert LinkLines.Plain("16x16 32x32") && LinkLines.Plain("image/x-icon");
    }
    TableIcons();
    TableTouch();
    TableTiles();
  }

  lemma TableIcons()
    ensures forall i :: 1 <= i < 7 ==> LinkLines.IconPlain(Table[i])
  {
    assert LinkLines.Plain("icon");
    PngPlain("icon", "16x16");
    PngPlain("icon", "32x32");
    PngPlain("icon", "64x64");
    PngPlain("icon", "96x96");
    PngPlain("icon", "180x180");
    PngPlain("icon", "196x196");
  }

  lemma TableTouch()
    ensures forall i :: 7 <= i < 17 ==> LinkLines.IconPlain(Table[i])
  {
    var r := "apple-touch-icon";
    assert LinkLines.Plain(r);
    PngPlain(r, "57x57");
    PngPlain(r, "60x60");
    PngPlain(r, "72x72");
    PngPlain(r, "76x76");
    PngPlain(r, "114x114");
    PngPlain(r, "120x120");
    PngPlain(r, "144x144");
    PngPlain(r, "152x152");
    PngPlain(r, "167x167");
    PngPlain(r, "180x180");
  }

  lemma TableTiles()
    ensures forall i :: 17 <= i < 21 ==> LinkLines.IconPlain(Table[i])
  {
    assert LinkLines.Plain(TilePrefix);
    TilePlain(TilePrefix, "square70x70logo");
    TilePlain(TilePrefix, "square270x270logo");
    TilePlain(TilePrefix, "wide310x150logo");
  }

  lemma TilePlain(prefix: string, rest: string)
    requires LinkLines.Plain(prefix) && LinkLines.Plain(rest)
    ensures LinkLines.IconPlain(Tile(prefix + rest))
  {
  }

  /** The output reads back as one link per truthy href, with its slot's
      attributes, in table order. */
  lemma CompileReads(f: Favicon)
    requires forall i :: 0 <= i < |f.hrefs| ==> LinkLines.OptPlain(f.hrefs[i])
    ensures LinkLines.Read(Compile(f)) == Some(LinkLines.Picked(Table, f.hrefs))
  {
    TablePlain();
    LinkLines.ReadSlots(Table, f.hrefs);
  }

  /** With no truthy href — every slot None or `""` — the output is `""`, and
      only then. */
  lemma EmptyIff(f: Favicon)
    ensures Compile(f) == "" <==> forall i :: 0 <= i < |f.hrefs| ==> !LinkLines.Truthy(f.hrefs[i])
  {
    LinkLines.SlotsEmpty(Table, f.hrefs);
  }

  /** An mstile slot writes `rel` and `href` only, and the last two mstile
      slots share the wide `rel`. */
  lemma Tiles(f: Favicon, i: int)
    requires 17 <= i < 21 && LinkLines.Truthy(f.hrefs[i])
    ensures Order(f)[i] == Some(LinkElement.Link(Table[i].rel, f.hrefs[i], None, None, None, None))
    ensures Table[19].rel == Table[20].rel == TilePrefix + "wide310x150logo"
  {
  }
}
