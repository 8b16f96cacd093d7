# pyhead, modelled in Dafny

pyhead builds the contents of an HTML `<head>` from element objects and turns
them into markup text. This project models, as pure functions over immutable
datatypes, the three layers of the library:

- **The registry `Head`** (`HeadRegistry`, `Registry`, `Elements`, `Helpers`).
  Elements go into an insertion-ordered dict. It is modelled as an association
  list `seq<(string, Element)>` with a position-preserving `Upsert`. Keyed
  elements are stored under their key, unkeyed ones under their index in the
  current call. A `Page` is unpacked into its entries. `compile` joins every
  entry's rendering with newlines.
- **The element formatters of three generations.**
  - The live `elements` package: `MetaElement`, `LinkElement`, `ScriptElement`,
    `TitleElement`, `BaseElement`, `CharsetElement`, `DescriptionElement`,
    `KeywordsElement`, `StylesheetElement`, `FaviconElement`, `GoogleElement`,
    `VerificationElement`, `OpenGraphWebsiteElement`, `TwitterCardElement`,
    `GeoPositionElement`, `FormatDetectionElement`, `SingleMeta`,
    `PageElement`, `SocialMediaCard`.
  - The `tags`, `presets` and `class_presets` layer: `MetaTag`, `LinkTag`,
    `ScriptTag`, `TitleTag`, `BaseTag` and the `*Preset` modules.
  - The first package and the archived single module: `EarlyPackage`,
    `FlatTags`, `FlatKeywords`, `FlatGoogle`, `ArchiveTags`.

  The live `Meta`, `Link` and `Script` formatters, and the `tags` layer's
  `MetaTag`, `LinkTag` and `ScriptTag`, write `k="v" ` for each present
  attribute in a fixed order. Link and Script then rewrite every `" >"` to
  `">"`; Meta does not. The single-purpose template elements (such as
  `Description`), the first package's `MetaTag` and the archived meta tag
  instead write a single-spaced `<meta a="x" content="y">`, ending in `">`.
  Every multi-tag element joins its tags with a newline in a declared order,
  or writes `""` when none is set.
- **The small helpers**: `has_key`, `replace_special_chars` and the lookup-id
  builders, with the md5 digest passed in as a function parameter.

Shared machinery:
- `Text`: split, join, replace, decimal text.
- `Markup` and `Attrs`: attribute fragments, and a parser that reads them back.
- `Tag`: a layout-driven tag reader.
- `Lines`, `MetaLines` and `LinkLines`: the newline-joined multi-tag output,
  and reading it back.

The reader for each formatter is its partner. Most renderings are proved to
read back as exactly the element or tag list they were written from.

Near-identical classes across generations share one definition. Some classes
have no member of their own:
- `Charset` of the first package's `tags` (`pyhead/tags.py:6-20`) and of
  `pyhead/presets/charset.py` are the code of `CharsetPreset`.
- `Base` (`pyhead/tags.py:59-73`) is `BaseTag`.
- The first package's `LinkTag` and `ScriptTag` are `LinkTag` and `ScriptTag`.
- The `Title` and `Keywords` of `archive/tags.py` are those of `FlatTags` and
  `FlatKeywords`.

Behaviour of the code worth knowing:
- `Meta` raises `ValueError` unless exactly one of `name`, `http_equiv` and
  `property_` is given (src/pyhead/elements/meta.py:24-28).
- A `Page` overwrites the keys it carries, one by one, and evicts no other
  entry (src/pyhead/__init__.py:80-83).
- `compile` keeps every rendering, an empty one included: an entry rendering
  `""` still adds a line (src/pyhead/__init__.py:116-127).
- `Keywords(from_string=…)` splits on commas and keeps the whitespace around
  each keyword (src/pyhead/elements/keywords.py:18).
- Only a `Page` is unpacked: a `SocialMediaCard` is stored whole under its
  index and writes its `repr` (src/pyhead/__init__.py:79-87).
- A `Stylesheet` with `id_="title"` takes the `"title"` entry, and the title
  update that follows reads `_title` from it and raises `AttributeError`
  (src/pyhead/__init__.py:89-90).

## Model

| member | source | states |
|---|---|---|
| `HeadRegistry.StoreKey` | src/pyhead/__init__.py:85-87 | An element whose `key` is truthy is stored under that key; any other under the decimal text of its position in the call. |
| `HeadRegistry.LoopDistinct` | src/pyhead/__init__.py:79-87 | Storing a list of elements never creates a second entry for a key. |
| `HeadRegistry.OutcomeDistinct` | src/pyhead/__init__.py:92-114 | After `extend`, whether or not the title update raises, the head's keys are still distinct. |
| `HeadRegistry.LoopKeepsPositions` | src/pyhead/__init__.py:79-87 | Storing elements never moves or removes an existing key: updated keys stay in place, new ones go to the end. |
| `HeadRegistry.ExtendKeepsPositions` | src/pyhead/__init__.py:112-114 | `extend` keeps every earlier entry's key at its position. |
| `HeadRegistry.LastStored` | src/pyhead/__init__.py:79-87 | The last element of a call is found under its own truthy key, or under the decimal text of its index. |
| `HeadRegistry.IndexRestart` | src/pyhead/__init__.py:113 | Indices restart at 0 on every `extend`: an unkeyed first element replaces, in place, the unkeyed first element of an earlier call. |
| `HeadRegistry.ExtendEntries` | src/pyhead/__init__.py:92-114 | `extend` keeps the earlier entries and adds the new ones, whatever the title update does. |
| `HeadRegistry.LoopOne` | src/pyhead/__init__.py:79-87 | Example: a call with one unkeyed element stores it under `"0"`. |
| `HeadRegistry.PageUnpacked` | src/pyhead/__init__.py:80-83 | A `Page` is never stored itself. Each of its entries reads back under its own key, and every key it lacks reads as before. |
| `HeadRegistry.TitleFromLast` | src/pyhead/__init__.py:89-90 | A call ending with a `Title` sets `title` to that title's text. |
| `HeadRegistry.TitleKept` | src/pyhead/__init__.py:31 | Direct consequence of the definition: when no `"title"` entry exists, `title` keeps its prior value, None for a new head. |
| `HeadRegistry.StylesheetTitleRaises` | src/pyhead/__init__.py:89-90 | A `Stylesheet` with id `title` takes the `"title"` entry, and reading its `_title` then raises `AttributeError`. |
| `HeadRegistry.Renders` | src/pyhead/__init__.py:121-125 | `compile` collects at most one rendering per entry. |
| `HeadRegistry.RendersCount` | src/pyhead/__init__.py:121-125 | Every entry gives one segment, empty renderings included; only `"title"` is left out, and only when `skip_title` is set. |
| `HeadRegistry.CompileNewlines` | src/pyhead/__init__.py:125-127 | The output holds one newline between each two segments plus those inside the renderings, so an empty rendering leaves a blank line. |
| `HeadRegistry.CompileSplit` | src/pyhead/__init__.py:116-127 | When no rendering spans lines, splitting the output on newlines gives the renderings back in map order. |
| `HeadRegistry.CompileEmpty` | src/pyhead/__init__.py:54 | A head built from no elements is empty and compiles to `""`. |
| `Registry.Get` | src/pyhead/__init__.py:89 | `d.get(k)` finds a value exactly when the key is present, and the value is the one stored under it. |
| `Registry.Upsert` | src/pyhead/__init__.py:87 | `d[k] = v` keeps the length when the key is present and appends `(k, v)` otherwise; other entries are unchanged. |
| `Registry.UpsertInPlace` | src/pyhead/__init__.py:82 | Assigning to a present key replaces that entry's value in place; nothing else moves or changes. |
| `Registry.UpsertDistinct` | src/pyhead/__init__.py:87 | Assignment keeps the keys distinct. |
| `Registry.UpsertGet` | src/pyhead/__init__.py:82 | After `d[k] = v`, `d.get(k)` is `v` and every other key reads as before. |
| `Registry.UpsertKeys` | src/pyhead/__init__.py:87 | Assignment never moves or removes a key and adds at most one entry, at the end. |
| `Registry.UpsertAllKeeps` | src/pyhead/__init__.py:81-82 | Copying entries in keeps keys distinct and leaves every key the copied entries lack as it was: nothing is evicted. |
| `Registry.UpsertAllGet` | src/pyhead/__init__.py:81-82 | Each copied entry reads back under its key. |
| `Registry.UpsertAllDistinct` | src/pyhead/__init__.py:81-82 | Copying entries in keeps the keys distinct. |
| `Registry.UpsertAllKeys` | src/pyhead/__init__.py:81-82 | Copying entries in never moves or removes a key. |
| `Elements.Key` | src/pyhead/_helpers.py:7-12 | The `key` of each element class: the class key for unique classes; the formatted id for Meta, Link and Script; the raw id for Stylesheet; none for SocialMediaCard. |
| `Elements.UniqueKeys` | src/pyhead/elements/title.py:5-7 | Two unique elements share a key exactly when they are of the same class, so a second one replaces the first. |
| `Elements.KeysTruthy` | src/pyhead/elements/base.py:5-6 | No class key is `""`, so `has_key` keeps every key an element has. |
| `Helpers.HasKey` | src/pyhead/_helpers.py:7-12 | The element's key when it is truthy, otherwise None; `""` counts as no key. |
| `Helpers.NoRunsUnchanged` | src/pyhead/_helpers.py:103-113 | Only whole punctuation and whitespace runs are replaced: a value comes back unchanged exactly when it holds neither run, whatever single special characters it holds. |
| `Helpers.ShortUnchanged` | src/pyhead/_helpers.py:103-113 | A value shorter than the whitespace run, such as `"a b"`, comes back unchanged. |
| `Helpers.RunsReplaced` | src/pyhead/_helpers.py:110-113 | The punctuation run followed by the whitespace run becomes two dashes. |
| `Helpers.SquishFalsy` | src/pyhead/_helpers.py:73 | A None or empty field adds nothing to the concatenation. |
| `Helpers.MetaIdCollision` | src/pyhead/_helpers.py:72-75 | Fields are joined without separators, so a name and a content whose cleaned forms spell the same text together give the same meta id, for any hash. |
| `Helpers.PlainFieldsCollide` | src/pyhead/_helpers.py:72-75 | In particular, run-free fields collide whenever name and content spell the same text together. |
| `Helpers.MetaIdExample` | src/pyhead/_helpers.py:72-74 | For instance, name `ab` with content `c` and name `a` with content `bc` share an id. |
| `Helpers.EmptyFieldsIgnored` | src/pyhead/_helpers.py:97-100 | An empty content or href gives the same meta or link id as leaving it out. |
| `Helpers.ScriptStylesheetAgree` | src/pyhead/_helpers.py:38-52 | Direct consequence of the definition: a script and a stylesheet with the same source get the same id. |
| `MetaElement.New` | src/pyhead/elements/meta.py:24-36 | `ValueError` unless exactly one of name, http_equiv and property_ is given; otherwise the element keeps all five values. |
| `MetaElement.WithContent` | src/pyhead/elements/format_detection.py:63 | A meta built with one discriminator and a content never raises. |
| `MetaElement.Render` | src/pyhead/elements/meta.py:58-67 | The tag starts with `<meta `, its first attribute is the discriminator, and it always ends with `" >"`: there is no collapse. |
| `MetaElement.Key` | src/pyhead/elements/meta.py:38-39 | No key unless an id is given, and then the whole `id="X" ` fragment, which is what the tag ends with before `>`. |
| `MetaElement.DecodeIff` | src/pyhead/elements/meta.py:30-36 | The reader accepts exactly the tags written from quote-free elements, in either spacing, and returns the element written. |
| `MetaElement.ContentOnly` | src/pyhead/elements/description.py:22-23 | A discriminator-and-content tag without the trailing space reads back as that element. |
| `MetaElement.RenderOneLine` | src/pyhead/elements/meta.py:58-67 | A tag from newline-free values is written on one line. |
| `MetaElement.DecodeRender` | src/pyhead/elements/meta.py:58-67 | What an element writes reads back as the same element. |
| `LinkElement.Render` | src/pyhead/elements/link.py:56-66 | Every `" >"` is rewritten. When no value holds `" >"` or a quote, only the space before the final `>` goes, and `rel` is always first. |
| `LinkElement.RenderOneLine` | src/pyhead/elements/link.py:26-31 | A tag from clean values is on one line and never empty. |
| `LinkElement.Key` | src/pyhead/elements/link.py:33-34 | No key unless an id is given, and then the whole `id="X" ` fragment. |
| `LinkElement.DecodeIff` | src/pyhead/elements/link.py:26-31 | The reader accepts exactly the link tags of quote-free elements, before or after the rewrite, and returns the element. |
| `LinkElement.DecodeRender` | src/pyhead/elements/link.py:56-66 | What a link writes reads back as the same link when no value holds a quote or `" >"`. |
| `LinkElement.RewriteAltersValue` | src/pyhead/elements/link.py:66 | The rewrite is global: a `rel` holding `" >"` loses its space and reads back as a different link. |
| `LinkElement.DecodeRelOnly` | src/pyhead/elements/link.py:26 | `rel` is written even without an href; a rel-only link reads back as itself. |
| `ScriptElement.Render` | src/pyhead/elements/script.py:72-85 | Every `" >"` is rewritten. For clean values only the space before `></script>` goes. |
| `ScriptElement.Key` | src/pyhead/elements/script.py:46-47 | No key unless an id is given, and then the whole `id="X" ` fragment. |
| `ScriptElement.DecodeIff` | src/pyhead/elements/script.py:32-44 | The reader accepts exactly the script tags of quote-free elements, with `async="true"` and bare `defer`/`nomodule`, and returns the element. |
| `ScriptElement.DecodeRender` | src/pyhead/elements/script.py:72-85 | What a script writes reads back as the same script when no value holds a quote or `" >"`. |
| `ScriptElement.SrcOnly` | src/pyhead/elements/script.py:32-40 | `src` is always written; false booleans and None attributes write nothing. |
| `TitleElement.Render` | src/pyhead/elements/title.py:26-27 | The text unescaped between `<title>` and `</title>`; `disabled` plays no part. |
| `TitleElement.RenderInjective` | src/pyhead/elements/title.py:15 | Direct consequence of the definition: distinct titles write distinct tags. |
| `BaseElement.Render` | src/pyhead/elements/base.py:22-23 | The href verbatim inside `<base href="` … `">`. |
| `CharsetElement.New` | src/pyhead/elements/charset.py:12-13 | An omitted charset means `utf-8`. |
| `CharsetElement.Render` | src/pyhead/elements/charset.py:24-25 | The value verbatim inside `<meta charset="` … `">`, no space before `>`. |
| `DescriptionElement.Render` | src/pyhead/elements/description.py:10-23 | The description meta tag with single spaces and no trailing space; it reads back as the description meta when the text is quote-free. |
| `KeywordsElement.New` | src/pyhead/elements/keywords.py:15-21 | The string split at commas, unstripped, then the list items appended after them. |
| `KeywordsElement.Render` | src/pyhead/elements/keywords.py:32-34 | The keywords joined by `", "` as the content; reads back as that meta when quote-free. |
| `KeywordsElement.FromStringJoin` | src/pyhead/elements/keywords.py:18 | No stripping: a comma-join of comma-free keywords splits back item for item, spaces included. |
| `StylesheetElement.Key` | src/pyhead/elements/stylesheet.py:21-22 | The raw id when it is truthy, otherwise no key. |
| `StylesheetElement.Render` | src/pyhead/elements/stylesheet.py:33-35 | The rendering of `Link(rel="stylesheet", href, id_)`, which reads back as that link. |
| `StylesheetElement.EmptyId` | src/pyhead/elements/stylesheet.py:21-22 | `id_=""` gives no key, yet the link still writes `id=""`. |
| `StylesheetElement.KeyUnlikeLink` | src/pyhead/elements/stylesheet.py:34 | With an id the stylesheet's key is the id, while the link it writes would be keyed by the whole fragment. |
| `SingleMeta.NewPolicy` | src/pyhead/elements/content_security_policy.py:12-13 | The policy defaults to `default-src 'self'`. |
| `SingleMeta.Render` | src/pyhead/elements/application_name.py:24-26 | Each single-purpose element writes its meta tag with the trailing space; it reads back as that meta when quote-free. |
| `SingleMeta.PolicyText` | src/pyhead/elements/content_security_policy.py:24-26 | Example: the policy is an `http-equiv="Content-Security-Policy"` tag. |
| `SingleMeta.ApplicationNameText` | src/pyhead/elements/application_name.py:12-13 | Example: the tag is named `application_name`, with an underscore. |
| `SingleMeta.ReferrerPolicyText` | src/pyhead/elements/referrer_policy.py:24-26 | Example: the tag is named `referrer`. |
| `SingleMeta.ThemeColorText` | src/pyhead/elements/theme_color.py:24-26 | Example: the tag is named `theme-color`. |
| `SingleMeta.RobotsText` | src/pyhead/elements/robots.py:24-26 | Example: the tag is named `robots`. |
| `FormatDetectionElement.Tokens` | src/pyhead/elements/format_detection.py:47-58 | One `x=no` token per false flag, in the order telephone, date, address, email, url. |
| `FormatDetectionElement.TokensNamed` | src/pyhead/elements/format_detection.py:49-58 | Each token is present exactly when its flag is off. |
| `FormatDetectionElement.EmptyIff` | src/pyhead/elements/format_detection.py:60-61 | The output is `""` exactly for the all-true default. |
| `FormatDetectionElement.ReadCompile` | src/pyhead/elements/format_detection.py:46-64 | Whatever the flags, the `format-detection` tag reads back as the same flags. |
| `FaviconElement.CompileReads` | src/pyhead/elements/favicon.py:208-221 | One link per truthy href, with its slot's rel, sizes and type, in table order. |
| `FaviconElement.EmptyIff` | src/pyhead/elements/favicon.py:239-247 | The output is `""` exactly when no href is truthy; None and `""` both count as unset. |
| `FaviconElement.Tiles` | src/pyhead/elements/favicon.py:138-157 | An mstile slot writes rel and href only, and the last two mstile slots share the wide rel. |
| `FaviconElement.TablePlain` | src/pyhead/elements/favicon.py:35-158 | Every table entry's rel, sizes and type are free of quotes and newlines. |
| `GoogleElement.New` | src/pyhead/elements/google.py:22-35 | The googlebot slot is set exactly when a googlebot value is given, notranslate exactly when asked; the search-box slot never is. |
| `GoogleElement.CompileReads` | src/pyhead/elements/google.py:49-57 | The output reads back as the googlebot tag if given, then the notranslate tag if asked. |
| `GoogleElement.SitelinksIgnored` | src/pyhead/elements/google.py:31-32 | The search-box flag never changes the output. |
| `GoogleElement.EmptyIff` | src/pyhead/elements/google.py:49-57 | `""` exactly when neither googlebot nor notranslate is asked for. |
| `VerificationElement.CompileReads` | src/pyhead/elements/verification.py:68-76 | One `name=` tag per given site, under that site's verification name, in the fixed order. |
| `VerificationElement.BingOnly` | src/pyhead/elements/verification.py:19-26 | Example: Bing's code is written under `msvalidate.01`. |
| `VerificationElement.EmptyIff` | src/pyhead/elements/verification.py:28-53 | `""` exactly when no site is given; an empty string still counts as given. |
| `OpenGraphWebsiteElement.New` | src/pyhead/elements/open_graph_website.py:32-61 | The locale defaults to `en_US`; each field keeps its argument. |
| `OpenGraphWebsiteElement.CompileReads` | src/pyhead/elements/open_graph_website.py:77-85 | `property=` tags for type and locale, then one per given field in the fixed order. |
| `OpenGraphWebsiteElement.TypeAndLocaleFirst` | src/pyhead/elements/open_graph_website.py:21-30 | The tags always start with `og:type` = `website` and `og:locale`. |
| `OpenGraphWebsiteElement.NeverEmpty` | src/pyhead/elements/open_graph_website.py:42-43 | The type tag is always written, so the output is never empty. |
| `TwitterCardElement.New` | src/pyhead/elements/twitter_card.py:32-66 | Constructor arguments come in a different order from the tags; the card defaults to `summary`. |
| `TwitterCardElement.CompileReads` | src/pyhead/elements/twitter_card.py:82-90 | The card tag, then one `name=` tag per given field in tag order. |
| `TwitterCardElement.NeverEmpty` | src/pyhead/elements/twitter_card.py:21-30 | The card tag is always written, so the output is never empty. |
| `GeoPositionElement.CompileReads` | src/pyhead/elements/geo_position.py:55-63 | One tag per given argument, in the order ICBM, geo.position, geo.region, geo.placename. |
| `GeoPositionElement.EmptyIff` | src/pyhead/elements/geo_position.py:61-63 | `""` exactly when no argument is given. |
| `PageElement.New` | src/pyhead/elements/page.py:27-31 | The entries start with title, charset and viewport, with the defaults `utf-8` and the device-width viewport. |
| `PageElement.RankedDistinct` | src/pyhead/elements/page.py:27-46 | The page's keys come in a fixed order, so none appears twice. |
| `PageElement.DescriptionEntry` | src/pyhead/elements/page.py:33-34 | The description entry exists exactly when given, as a `name="description"` meta. |
| `PageElement.KeywordsEntryIff` | src/pyhead/elements/page.py:36-40 | The keywords entry exists exactly for a string (split) or a list; any other type adds none. |
| `PageElement.SubjectEntry` | src/pyhead/elements/page.py:42-43 | The subject entry exists exactly when given. |
| `PageElement.RatingEntry` | src/pyhead/elements/page.py:45-46 | The rating entry exists exactly when given. |
| `SocialMediaCard.New` | src/pyhead/elements/social_media_card.py:36-50 | title, description, url, image and image_alt reach both children; card and accounts only the Twitter card; site_name and locale only Open Graph. |
| `MetaTag.New` | src/pyhead/tags/meta_tag.py:20-32 | `ValueError` unless exactly one discriminator is given; otherwise the tag keeps all values. |
| `MetaTag.Render` | src/pyhead/tags/meta_tag.py:51-60 | Writes what the live meta writes, starting `<meta ` and ending `" >"`. |
| `MetaTag.RenderAsElement` | src/pyhead/tags/meta_tag.py:26-32 | The five stored fragments spell the live element's attributes, in the same order. |
| `MetaTag.ReplaceContent` | src/pyhead/tags/meta_tag.py:62-64 | `replace_content` sets an attribute the writer never reads, so the tag writes exactly as before. |
| `MetaTag.ReplaceContentIgnored` | src/pyhead/tags/meta_tag.py:45-64 | After any `replace_content` the tag still reads back with its original content. |
| `MetaTag.OutputAsElement` | src/pyhead/presets/geo_position.py:56-64 | A preset joining `MetaTag`s writes exactly what the live element with the same slots writes. |
| `LinkTag.New` | src/pyhead/tags/link_tag.py:15-29 | Writes what the live link with the same attributes writes, and reads back as it when clean. |
| `LinkTag.RawAsElement` | pyhead/tags/link_tag.py:24-61 | The first package's stored fragments concatenate to the live link's tag before the rewrite. |
| `LinkTag.RelOnly` | src/pyhead/tags/link_tag.py:51-61 | A rel-only tag is exactly `<link rel="R">`. |
| `LinkTag.OutputAsElement` | src/pyhead/presets/favicon.py:239-247 | A preset joining `LinkTag`s writes exactly what the live element with the same slots writes. |
| `ScriptTag.New` | src/pyhead/tags/script_tag.py:18-44 | Writes what the live script with the same attributes writes, and reads back as it when clean. |
| `ScriptTag.RawAsElement` | pyhead/tags/script_tag.py:30-82 | The first package's stored fragments concatenate to the live script's tag before the rewrite. |
| `ScriptTag.AsyncSpaced` | pyhead/tags/script_tag.py:32 | A set `async` is written `async="true" `. |
| `ScriptTag.SrcOnly` | src/pyhead/tags/script_tag.py:69-82 | A src-only tag is exactly `<script src="S"></script>`. |
| `TitleTag.New` | src/pyhead/tags/title_tag.py:13-22 | A fresh tag writes the bare title, or the live title tag for it. |
| `TitleTag.Render` | src/pyhead/tags/title_tag.py:51-65 | The prepended, titled and appended text, wrapped in the title tags unless excluded. |
| `TitleTag.SetAppends` | src/pyhead/tags/title_tag.py:33-40 | The appends list is replaced: the front is kept and the new appends follow in order. |
| `TitleTag.SetPrepends` | src/pyhead/tags/title_tag.py:42-49 | The prepends list is replaced: the rest is kept and the new prepends lead in order. |
| `TitleTag.AppendOne` | src/pyhead/tags/title_tag.py:56 | One more append adds its separator and text at the very end. |
| `TitleTag.PrependOne` | src/pyhead/tags/title_tag.py:54 | One more prepend adds its text and separator at the very start. |
| `TitleTag.ExcludeUnwraps` | src/pyhead/tags/title_tag.py:52-65 | The two forms differ only by the `<title>` … `</title>` wrapping. |
| `BaseTag.Render` | src/pyhead/tags/base_tag.py:19-20 | The href verbatim, as the live base writes it. |
| `BaseTag.Replace` | src/pyhead/tags/base_tag.py:22-24 | After `replace` the tag writes the new href. |
| `BaseTag.ReplaceTwice` | pyhead/tags/base_tag.py:22-24 | Direct consequence of the definition: only the last replacement counts. |
| `FaviconPreset.Tags` | src/pyhead/presets/favicon.py:206-219 | A tag for exactly each truthy href. |
| `FaviconPreset.Compile` | src/pyhead/presets/favicon.py:245-247 | Writes what the live favicon writes; `""` exactly when no href is truthy. |
| `FaviconPreset.CompileReads` | src/pyhead/presets/favicon.py:31-154 | One link per truthy href with its entry's rel, sizes and type, in table order. |
| `TwitterCardPreset.New` | src/pyhead/presets/twitter_card.py:29-67 | Arguments in tag order describe the same tags as the live element given them in its own order. |
| `TwitterCardPreset.DefaultAsElement` | src/pyhead/presets/twitter_card.py:31 | With the default card the preset matches the live default. |
| `TwitterCardPreset.Compile` | src/pyhead/presets/twitter_card.py:83-91 | Writes what the live element writes, never empty. |
| `GeoPositionPreset.Tags` | src/pyhead/presets/geo_position.py:30-40 | A tag for exactly each given argument. |
| `GeoPositionPreset.Compile` | src/pyhead/presets/geo_position.py:62-64 | Writes what the live element writes; `""` exactly with no argument. |
| `GooglePreset.Tags` | src/pyhead/presets/google.py:9-19 | The search-box slot is empty whenever the live one is. |
| `GooglePreset.CompileReads` | src/pyhead/presets/google.py:31-38 | The googlebot tag if given, then the notranslate tag if asked. |
| `GooglePreset.Compile` | src/pyhead/presets/google.py:54-62 | Writes what the live element writes. |
| `GooglePreset.SitelinksIgnored` | src/pyhead/class_presets/google.py:34-35 | In both copies the search-box flag changes nothing; `""` exactly when neither other tag is asked for. |
| `KeywordsPreset.New` | src/pyhead/presets/keywords.py:7-9 | A fresh instance writes an empty content. |
| `KeywordsPreset.NewUnset` | pyhead/presets/keywords.py:5-8 | In the first package nothing is set, so writing raises `TypeError`. |
| `KeywordsPreset.Render` | src/pyhead/presets/keywords.py:20-21 | The keywords joined by `", "`, as the live element writes them; `TypeError` when never set. |
| `KeywordsPreset.SetFromString` | src/pyhead/presets/keywords.py:23-25 | Spaces are removed, then the rest is split on commas; the comma-join gives the space-free string back. |
| `KeywordsPreset.SetFromList` | src/pyhead/presets/keywords.py:27-29 | The list replaces what was set and is written as the live element writes it. |
| `KeywordsPreset.FromStringJoin` | pyhead/presets/keywords.py:19-24 | Setting from the `", "`-join of space- and comma-free keywords restores them. |
| `KeywordsPreset.SpacesDropped` | src/pyhead/presets/keywords.py:24 | Removing spaces from a `", "`-join of space-free keywords leaves their comma-join. |
| `CharsetPreset.New` | src/pyhead/presets/charset.py:9-10 | Writes what the live charset writes, `utf-8` by default. |
| `CharsetPreset.Render` | src/pyhead/presets/charset.py:21-22 | The value verbatim inside `<meta charset="` … `">`, the same text the live charset element writes. |
| `CharsetPreset.Replace` | src/pyhead/presets/charset.py:24-26 | After `replace` the tag writes the new value. |
| `CharsetPreset.ReplaceLast` | pyhead/presets/charset.py:19-24 | Direct consequence of the definition: only the last replacement counts, even over the default. |
| `StylesheetPreset.Render` | src/pyhead/presets/stylesheet.py:21-23 | The stylesheet link without an id; it reads back as that link. |
| `StylesheetPreset.RenderClass` | src/pyhead/class_presets/stylesheet.py:25-27 | The stylesheet link with the given id; it reads back as that link. |
| `StylesheetPreset.CalledLink` | pyhead/presets/stylesheet.py:21-22 | The called link writes the same as the class preset without an id. |
| `OpenGraphWebsitePreset.New` | pyhead/presets/open_graph_website.py:29-62 | The preset's argument order gives the same element; the first two values are `website` and the locale. |
| `OpenGraphWebsitePreset.Tags` | pyhead/presets/open_graph_website.py:41-42 | The type and locale tags are always set. |
| `OpenGraphWebsitePreset.Compile` | pyhead/presets/open_graph_website.py:78-86 | Writes what the live element writes, never empty. |
| `VerificationPreset.Tags` | pyhead/presets/verification.py:36-54 | A tag for exactly each given site. |
| `VerificationPreset.Compile` | pyhead/presets/verification.py:71-79 | Writes what the live element writes; `""` exactly with no site. |
| `EarlyPackage.RenderTitle` | pyhead/__init__.py:19-20 | The title between the title tags, as the live title writes it. |
| `EarlyPackage.ReplaceTitle` | pyhead/__init__.py:22-24 | After `replace` only the new title is written. |
| `EarlyPackage.Append` | pyhead/__init__.py:26-28 | The old title, then the separator, then the new piece. |
| `EarlyPackage.Prepend` | pyhead/__init__.py:30-32 | The new piece, then the separator, then the old title. |
| `EarlyPackage.AppendsAsTitleTag` | pyhead/__init__.py:26-28 | A run of `append` calls builds what `TitleTag` builds from the same appends list. |
| `EarlyPackage.PrependsAsTitleTag` | pyhead/__init__.py:30-32 | A run of `prepend` calls builds what `TitleTag` builds from the reversed list. |
| `EarlyPackage.RenderDescription` | pyhead/__init__.py:44-45 | The description meta tag, as the live element writes it. |
| `EarlyPackage.New` | pyhead/__init__.py:78-82 | A new head writes only the title tag. |
| `EarlyPackage.SetPageTitle` | pyhead/__init__.py:84-86 | The title is replaced in place; the rest is untouched. |
| `EarlyPackage.SetPageDescription` | pyhead/__init__.py:88-90 | A new description replaces any earlier one. |
| `EarlyPackage.SetPageKeywords` | pyhead/__init__.py:92-101 | Fresh keywords from a string or a list; any other argument leaves them unset, so writing the head raises `TypeError`. |
| `EarlyPackage.Lines` | pyhead/__init__.py:113-118 | The title line, then the description and keywords lines when set; `TypeError` when keywords hold nothing. |
| `EarlyPackage.RenderSplit` | pyhead/__init__.py:119 | Newline-free parts come back from the output line by line. |
| `FlatTags.Render` | pyhead/tags.py:34-35 | The single-spaced meta tag; it reads back as the name meta when quote-free. |
| `FlatTags.RenderText` | pyhead/tags.py:34-35 | The tag is spelled `<meta name="N" content="C">`, with single spaces and no space before `>`. |
| `FlatTags.ReplaceContent` | pyhead/tags.py:37-39 | The tag then reads back with the new content and the same name. |
| `FlatTags.NewPolicy` | pyhead/tags.py:45-46 | The policy defaults to `default-src 'self'`. |
| `FlatTags.PolicyAsWritten` | pyhead/tags.py:51-52 | As written, the policy goes under `http-equiv="viewport"`. |
| `FlatTags.PolicyAsWrittenMisnamed` | pyhead/tags.py:51-52 | What the class writes reads as a viewport directive, never as the live content security policy. |
| `FlatTags.RenderPolicy` | pyhead/tags.py:42-56 | With the intended name the tag reads back as the live content security policy. |
| `FlatTags.ReplacePolicy` | pyhead/tags.py:54-56 | After `replace` the tag carries the new policy. |
| `FlatTags.BaseReplaced` | pyhead/tags.py:71-73 | Two replacements write the same tag exactly when their hrefs are equal. |
| `FlatTags.RenderTitle` | pyhead/tags.py:87-91 | The title wrapped in the title tags, or bare when excluded, as `TitleTag` writes it. |
| `FlatTags.Append` | pyhead/tags.py:97-99 | One `append` writes what `TitleTag` with that single append writes. |
| `FlatTags.Prepend` | pyhead/tags.py:101-103 | One `prepend` writes what `TitleTag` with that single prepend writes. |
| `FlatTags.ReferrerContent` | pyhead/tags.py:255-259 | The fallback and `", "` lead when a fallback is given; the policy always ends the content. |
| `FlatTags.RenderReferrer` | pyhead/tags.py:254-261 | A `name="referrer"` tag that reads back with that content when quote-free. |
| `FlatTags.ReplaceReferrer` | pyhead/tags.py:263-266 | Both values are replaced, so omitting the fallback drops any earlier one. |
| `FlatKeywords.New` | pyhead/tags.py:107-110 | Nothing is set, so writing raises `TypeError`. |
| `FlatKeywords.Render` | pyhead/tags.py:115-116 | Writes only when the list holds plain keywords, and then as the keywords preset does. |
| `FlatKeywords.SetFromString` | pyhead/tags.py:118-120 | Writes what the preset set from the same string writes. |
| `FlatKeywords.SetFromList` | pyhead/tags.py:122-124 | Writes what the preset set from the same list writes. |
| `FlatKeywords.StrAppend` | pyhead/tags.py:126-128 | As written, the parsed list goes in as one more element; `AttributeError` when nothing was set. |
| `FlatKeywords.ListAppend` | pyhead/tags.py:130-132 | As written, the list goes in as one more element; `AttributeError` when nothing was set. |
| `FlatKeywords.AppendBreaksRender` | pyhead/tags.py:126-132 | After either append the keywords can no longer be written. |
| `FlatKeywords.AppendExample` | pyhead/tags.py:118-128 | Setting `"a"` then appending `"b"` breaks a list that could be written before. |
| `FlatKeywords.StrExtend` | pyhead/tags.py:127 | Corrected: the parsed keywords are added one by one and written after the old ones. |
| `FlatKeywords.ListExtend` | pyhead/tags.py:131 | Corrected: the keywords are added one by one and written after the old ones. |
| `FlatKeywords.ExtendContent` | pyhead/tags.py:115-116 | Extending grows the written content at its end only. |
| `FlatGoogle.Directives` | pyhead/tags.py:158-168 | `index`/`noindex` when given, then `follow`/`nofollow` when given. |
| `FlatGoogle.NewGoogle` | pyhead/tags.py:149-177 | A googlebot tag exactly when a directive is given, its content the directives joined by `", "`; a tag for each flag set. |
| `FlatGoogle.BothDirectives` | pyhead/tags.py:170-171 | Both directives are written `index`/`noindex, follow`/`nofollow`. |
| `FlatGoogle.Attr` | pyhead/tags.py:136-139 | An attribute lookup of an order-list name succeeds exactly for the four tag attributes the class declares (`_googlebot` and `_order` are never named in the order list). |
| `FlatGoogle.Collect` | pyhead/tags.py:183 | The comprehension succeeds exactly when every name in the order is declared. |
| `FlatGoogle.GoogleAlwaysRaises` | pyhead/tags.py:143-147 | As written, writing any `Google` raises `AttributeError`. |
| `FlatGoogle.GoogleCompile` | pyhead/tags.py:182-186 | Corrected: with the declared names the set tags are written, one per line. |
| `FlatGoogle.GoogleEmpty` | pyhead/tags.py:184-186 | The corrected output is `""` exactly when nothing is asked for. |
| `FlatGoogle.GoogleReads` | pyhead/tags.py:158-177 | The corrected output reads back as the googlebot, search-box and notranslate tags asked for, in that order. |
| `FlatGoogle.VerificationCompile` | pyhead/tags.py:236-240 | One single-spaced tag per given site in the fixed order; `""` exactly when none. |
| `ArchiveTags.Link` | archive/tags.py:19-59 | Writes what the live link without an id writes; reads back as it when clean. |
| `ArchiveTags.Script` | archive/tags.py:81-138 | Writes what the live script without an id writes; reads back as it when clean. |
| `ArchiveTags.Kind` | archive/tags.py:400-404 | `http-equiv` when flagged, even with the property flag; else `property` when flagged; else `name`. |
| `ArchiveTags.Render` | archive/tags.py:400-404 | The single-spaced meta tag of that kind; it reads back as that meta when quote-free. |
| `ArchiveTags.ReplaceContent` | archive/tags.py:406-408 | Same kind and name; the tag reads back with the new content. |
| `ArchiveTags.NameTagAsFlat` | archive/tags.py:376-386 | With neither flag the tag writes as the first package's `MetaTag`. |
| `ArchiveTags.FavIconCompile` | archive/tags.py:359-367 | As written: `""` exactly with no truthy href; otherwise one link per truthy href in table order, each without a type. |
| `ArchiveTags.PickedUntyped` | archive/tags.py:164-287 | The links of a table whose types are swallowed are the table's links with the types dropped. |
| `ArchiveTags.FavIconDropsType` | archive/tags.py:337-339 | The `.ico` link loses its `image/x-icon` type, so the output differs from the intended one. |
| `ArchiveTags.FavIconTyped` | archive/tags.py:289-339 | Corrected: writes what the live favicon writes, the types included. |
| `ArchiveTags.GoogleCompile` | archive/tags.py:578-586 | As written: `""` exactly when neither googlebot nor notranslate is asked; reads back as those tags. |
| `ArchiveTags.GoogleSitelinksIgnored` | archive/tags.py:558-559 | As written, the search-box flag changes nothing. |
| `ArchiveTags.GoogleIntended` | archive/tags.py:539-564 | Corrected: the googlebot, search-box and notranslate tags asked for, in `_order`. |
| `ArchiveTags.GoogleIntendedAgrees` | archive/tags.py:532-586 | Without the flag the corrected output reads as the written one; with it there is one more tag. |
| `ArchiveTags.VerificationSameTags` | archive/tags.py:589-658 | Reads back as the same tags as the live element, and is empty in the same cases. |
| `ArchiveTags.OpenGraphCompile` | archive/tags.py:682-739 | Never empty; reads back as the `og:type` and `og:locale` tags followed by the given fields. |
| `ArchiveTags.TwitterCompile` | archive/tags.py:763-823 | Never empty; reads back as the card tag followed by the given fields. |
| `ArchiveTags.GeoCompile` | archive/tags.py:839-882 | `""` exactly with no argument; otherwise one tag per given argument in order. |
| `ArchiveTags.TitleAffixes` | archive/tags.py:478-494 | `append` and `prepend` put the piece and separator at either end; excluded tags leave the bare text. |
| `ArchiveTags.KeywordsAppendBreaks` | archive/tags.py:515-529 | Keywords set from a string can be written; after either append they cannot. |
| `Lines.Compile` | src/pyhead/elements/google.py:49-57 | A newline join of `n` lines holds `n - 1` newlines plus those inside the lines; `""` for none. |
| `Lines.CompileSplit` | src/pyhead/elements/verification.py:68-76 | Newline-free lines come back from the join one for one. |
| `MetaLines.ReadOutput` | src/pyhead/elements/geo_position.py:55-63 | A multi-tag output reads back as exactly the set slots, in slot order. |
| `MetaLines.OutputEmpty` | src/pyhead/elements/open_graph_website.py:83-85 | The output is `""` exactly when no slot is set. |
| `MetaLines.ReadSlots` | src/pyhead/elements/twitter_card.py:82-90 | A table-filled element's output reads back as its picked tags. |
| `LinkLines.ReadSlots` | src/pyhead/elements/favicon.py:239-244 | A link-table output reads back as one link per truthy href. |
| `LinkLines.SlotsEmpty` | src/pyhead/elements/favicon.py:245-247 | A link-table output is `""` exactly when no href is truthy. |
| `Text.SplitJoin` | src/pyhead/elements/keywords.py:18 | Splitting a separator-join of separator-free parts gives the parts back. |
| `Text.DecimalRoundTrip` | src/pyhead/__init__.py:87 | The decimal text of an index reads back as that index. |
| `Text.DecimalInjective` | src/pyhead/__init__.py:79 | Distinct indices have distinct decimal texts. |
| `Attrs.EncodeDecode` | src/pyhead/elements/meta.py:30-36 | Every token list the layout reader accepts is exactly the encoding of the fields it returns. |
| `Attrs.DecodeIff` | src/pyhead/elements/meta.py:30-36 | For a layout without repeated names, the reader accepts a token list exactly when it is the encoding of fields that fit the layout, and then returns those fields. |
| `Tag.ReadIff` | src/pyhead/elements/script.py:72-85 | The layout reader accepts exactly the tags written from quote-free fields and returns those fields. |

## Left out

- I/O and side effects: `pprint(self.e)` in `compile` (src/pyhead/__init__.py:119), the CLI, the Flask helper and the demo app.
- `random_key`: randomness.
- The md5 digest: the lookup-id builders take the hash as a function parameter, so every property holds for any hash.
- markupsafe's `Markup`: it wraps already-built strings and never escapes, so it is the identity here.
- `__repr__` of every class other than `SocialMediaCard`: debug output only. `SocialMediaCard` has no `__str__` (src/pyhead/elements/social_media_card.py:52-53), so its repr is what `compile` writes, and `SocialMediaCard.Repr` models it.
- `__str__`, and `__call__`/`_compile` where a class has them: every class renders through one method (the first package's classes format their text directly in `__str__`), so the model has one render per class.
- Extra `*args`/`**kwargs` of the presets: they are ignored by the code and have no parameter here.
- The re-export modules (`__init__` of `elements`, `tags` and `presets`) and the `CompileDelayed` protocol: hrefs are plain strings.
- `as_dict` of the first package's `Head`: it returns the three attributes unchanged.
- The first package's `pyhead/tags/meta_tag.py` and `pyhead/tags/title_tag.py`: neither is part of this model. The first package's presets are modelled with the later `MetaTag`.
- The first package's `favicon`, `geo_position`, `google` and `twitter_card` presets: they are not part of this model.
- `getattr` of a name the class does not define, outside `FlatGoogle`: only the fixed slot names are modelled.
- The archived `Charset` and `Base` (archive/tags.py:411-454): the same code as `CharsetPreset` and `BaseTag`, with no separate members.
- List aliasing: the model copies keyword lists by value. In the code, `set_from_list` stores the caller's own list (src/pyhead/__init__.py:68-70, pyhead/tags.py:122-124, src/pyhead/presets/keywords.py:27-29), `str_append` and `list_append` then change that same list in place (pyhead/tags.py:126-132), and later changes the caller makes show up in the output. `EarlyPackage.SetPageKeywords`, `KeywordsPreset.SetFromList`, `FlatKeywords.SetFromList` and `FlatKeywords.ListAppend` do not model this sharing.
- Python's `str.split` and `str.join` on non-strings: arguments are typed `string` and `seq<string>`.

## Findings

| source | as written | input that shows it | evidently intended | confidence | as-written member | corrected member |
|---|---|---|---|---|---|---|
| pyhead/tags.py:143-147 | `Google._order` names `t__googlebot`, `t__sitelinks` and `t__no_translate`, which the class never defines, and `__str__` looks each up with `getattr` | `str(Google())`: the first lookup raises `AttributeError` | the order should name `googlebot`, `sitelinks` and `no_translate`, writing the set tags one per line | high (not executed) | `FlatGoogle.GoogleAlwaysRaises` | `FlatGoogle.GoogleCompile` |
| pyhead/tags.py:51-52 | `ContentSecurityPolicy` writes its policy under `http-equiv="viewport"` | `ContentSecurityPolicy()` writes `<meta http-equiv="viewport" content="default-src 'self'">` | `http-equiv="Content-Security-Policy"`, as the live element writes | high (not executed) | `FlatTags.PolicyAsWrittenMisnamed` | `FlatTags.RenderPolicy` |
| pyhead/tags.py:126-132 | `str_append` and `list_append` append the new list as one element, nesting it | `Keywords().set_from_string("a").str_append("b")`: writing then joins a list holding a list and raises `TypeError` | add the new keywords one by one (`extend`) | high (not executed) | `FlatKeywords.AppendExample` | `FlatKeywords.ListExtend` |
| archive/tags.py:337-339 | `FavIcon` passes its table entries as keyword arguments, and their key `type` is swallowed by `LinkTag`'s `**kwargs`, whose parameter is `type_` | `FavIcon(ico_icon_href="x")` writes `<link rel="icon" href="x" sizes="16x16 32x32">` with no type | each link carries its entry's type, as the live favicon's table spells it `type_` | high (not executed) | `ArchiveTags.FavIconDropsType` | `ArchiveTags.FavIconTyped` |
| archive/tags.py:558-559 | the search-box flag is stored on `sitelinks`, while `_order` names `sitelinkssearchbox` | `Google(no_sitelinks_search_box=True)` writes `""` | the `google`/`nositelinkssearchbox` tag is written; the live `elements/google.py:31-32` and both presets share the slip | high (not executed) | `ArchiveTags.GoogleSitelinksIgnored` | `ArchiveTags.GoogleIntended` |
