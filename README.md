# Link preview metadata extractor — Dafny model

This project models the server side of a hover link-preview service. The PHP endpoint
`preview2.php` takes a `url` query parameter. It sanitises and validates the parameter
(`LinkPreview::__construct`), fetches the page, and parses it leniently. It then extracts
four preview fields from the page (`getTitle`, `getDescription`, `getImage`, `getFavicon`,
with relative URLs resolved by `makeAbsoluteUrl`). Finally it answers with one of four
fixed JSON shapes: the success shape or the failure shape of `getMetadata`, or one of
the two error shapes of the request entry point.

The source is pure in character, so the model is functional:

- `wrappers.dfy` (`Wrappers`): `Option` stands for PHP `null`, or a missing array key.
  `Result` stands for a thrown `Exception` and its message.
- `php_strings.dfy` (`PhpStrings`): the PHP primitives the extractor relies on, each
  written out concretely:
  - `trim` with its default character list (space, tab, LF, CR, NUL, vertical tab);
  - `ltrim($s, '/')`;
  - `empty()` on a string, which is true for `""` and for `"0"`;
  - XPath `contains()`;
  - the `FILTER_SANITIZE_URL` filter.
- `document.dfy` (`Document`): the parsed page, as its `meta`, `title` and `link`
  elements in document order. Each XPath query is a `Query` value.
  - `Select` gives the attribute node that a query picks from one element. A `…/@content`
    or `…/@href` query picks nothing from an element that lacks that attribute.
  - `QueryFirst` is `item(0)->nodeValue`: the value from the first element in document
    order that yields a node.
- `preview.dfy` (`Preview`): the rest of the model.
  - The constructor, `makeAbsoluteUrl` and the four extractors.
  - `getMetadata` and the request entry point.
  - The response shapes and the properties that connect them.

The behaviour of PHP's libraries that is not written out is gathered in a `Runtime`
value. The model treats these as given functions:

- `validateUrl`: `FILTER_VALIDATE_URL` together with the scheme and host that
  `parse_url` reads from an accepted URL. Both are non-empty.
- `schemeOf`: `parse_url($u, PHP_URL_SCHEME)`. It has three outcomes: `false`
  (`Unparsable`), `null` (`NoScheme`) or a scheme.
- `allowUrlFopen`: the `allow_url_fopen` setting.
- `fetch`: `@file_get_contents`. It gives either the body, or failure together with
  `error_get_last()`'s message, if there is one.
- `domAvailable`: whether the DOM extension is loaded.
- `parse`: `DOMDocument::loadHTML`, which yields the element sequence.

Some consequences of the code are easy to miss:

- A blank `og:title` or `og:description` still wins. The first such `meta` that carries
  `content` is used even if its content trims to `""`, so the title can be empty
  (`BlankOgTitleGivesEmptyTitle`).
- If the first `link` whose `rel` contains `icon` has an empty `href`, there is no
  favicon (`null`). The `/favicon.ico` default applies only when no icon link carries
  an `href` (`EmptyIconHrefGivesNoFavicon`).
- `empty()` is true for `"0"`. So `?url=0` is answered as a missing URL
  (`ZeroUrlIsMissing`), and an `og:image` of `"0"` gives no image.
- `makeAbsoluteUrl` tests `parse_url(...) === null`. A candidate that `parse_url`
  rejects outright is therefore returned unchanged, like one that has a scheme.
- `makeAbsoluteUrl` strips every leading slash and does not interpret what remains. So
  `//cdn/x`, `/cdn/x` and `cdn/x` all resolve to `scheme://host/cdn/x`
  (`MakeAbsoluteUrlIgnoresSlashes`).
- A present `image` or `favicon` is not always absolute. A candidate that `parse_url`
  rejects (for example `///cdn/a.png`) is kept as written, and so stays relative
  (`UnparsableImageKeptAsWritten`).
- Which URL a response echoes depends on the shape:
  - The success and failure shapes echo the sanitised URL, as `url` and as the
    fallback `title`.
  - The invalid-URL shape echoes the raw parameter in both `title` and `url`.
- A title equal to the URL does not mean the page lacked both title sources. An
  `og:title` whose content is the URL gives the same title. The code guarantees only
  one direction: with neither source, the title is the URL (`GetTitle`). For a
  sanitised URL the two cases give the same title (`TitleIsUrlFromOgTitle`).

## Model

| member | source | states |
|---|---|---|
| `PhpStrings.TrimStart` | preview2.php:90 | the leading part of `trim`: the result is a suffix of the input; everything dropped is a trimmed character; the result does not start with one |
| `PhpStrings.TrimEnd` | preview2.php:90 | the trailing part of `trim`: the result is a prefix of the input; everything dropped is a trimmed character; the result does not end with one |
| `PhpStrings.Trim` | preview2.php:90 | `trim` never lengthens its input, and neither end of the result is whitespace from PHP's default list |
| `PhpStrings.TrimFindsCore` | preview2.php:90 | the input may be split into whitespace, then a core whose ends are not whitespace, then whitespace; `trim` then returns exactly that core |
| `PhpStrings.TrimStartSkipsLead` | preview2.php:90 | after a run of trimmed characters, the leading half of `trim` stops at the first character it keeps |
| `PhpStrings.TrimEndSkipsTrail` | preview2.php:90 | before a run of trimmed characters, the trailing half of `trim` stops at the last character it keeps |
| `PhpStrings.TrimIdempotent` | preview2.php:96 | trimming a trimmed title or description changes nothing |
| `PhpStrings.TrimLeadingSlashes` | preview2.php:146 | `ltrim($url, '/')` removes exactly the maximal run of leading slashes: only slashes are dropped, and the rest does not start with one |
| `PhpStrings.IsEmpty` | preview2.php:141 | PHP `empty()` on a string: `""` and `"0"` are empty, and no other string is (no other one-character string, and nothing of two or more characters) |
| `PhpStrings.Contains` | preview2.php:130 | XPath `contains(@rel, 'icon')` holds exactly when the needle occurs at some position of the haystack |
| `PhpStrings.SanitizeUrl` | preview2.php:12 | `FILTER_SANITIZE_URL` never lengthens its input, and leaves only URL-safe characters |
| `PhpStrings.SanitizeUrlKeepsSafe` | preview2.php:12 | every safe character keeps its number of occurrences; every other character is removed |
| `PhpStrings.SanitizeUrlAppend` | preview2.php:12 | the filter keeps the input order: sanitising a concatenation is concatenating the sanitised parts |
| `PhpStrings.TrimKeepsUrlSafe` | preview2.php:90 | `trim` leaves a string made only of characters the URL filter keeps unchanged |
| `PhpStrings.SanitizeUrlOfSafe` | preview2.php:12 | a string made only of URL-safe characters passes the filter unchanged |
| `PhpStrings.SanitizeUrlIdempotent` | preview2.php:12 | sanitising an already sanitised URL changes nothing |
| `Document.Select` | preview2.php:88 | a query selects a node only from an element of its kind that passes its test, and then always does: a `meta` whose `property` (or `name`) equals the query's gives its `content`; a `link` whose `rel` contains the fragment gives its `href`; a `<title>` gives its text |
| `Document.FirstMatchUnique` | preview2.php:89-90 | there is only one first match, so `item(0)` is well defined |
| `Document.HasMatchSkip` | preview2.php:104-105 | an element the query selects nothing from does not decide whether the node list is empty |
| `Document.FirstMatch` | preview2.php:88-89 | finds the first element, in document order, from which the query selects a node (so the node list is non-empty), or reports that the query selects nothing |
| `Document.QueryFirst` | preview2.php:88-90 | `item(0)->nodeValue` is present iff the query matches some element; it is the value from the first element that carries the selected attribute, whatever that value is |
| `Document.QueryFirstAppend` | preview2.php:120-122 | only document order matters: a match in an earlier part of the page hides everything after it; if the earlier part has no match, the later part decides |
| `Document.QueryFirstSkip` | preview2.php:104-106 | an element from which the query selects nothing (for example a `meta` without `content`) does not affect the first match |
| `Preview.Construct` | preview2.php:11-16 | the stored URL is the sanitised parameter, holding only URL-safe characters; the constructor succeeds iff validation accepts the sanitised URL, and otherwise throws "URL inválida" |
| `Preview.MakeAbsoluteUrl` | preview2.php:140-149 | null iff the candidate is empty (`""` or `"0"`); a candidate with a scheme, or one `parse_url` rejects, is returned unchanged; any other candidate gives `scheme://host/` followed by the candidate without all its leading slashes, so no `/` follows the host's slash |
| `Preview.MakeAbsoluteUrlIdempotent` | preview2.php:140-149 | resolving the resolved URL again returns it unchanged |
| `Preview.MakeAbsoluteUrlIgnoresSlashes` | preview2.php:143-146 | a candidate made of any number of slashes and then a path (`//cdn/x`, `/cdn/x`, `cdn/x`) resolves to `scheme://host/` + path |
| `Preview.TrimLeadingSlashesOfSlashes` | preview2.php:146 | `ltrim($url, '/')` removes exactly the slashes in front of a path that does not start with one |
| `Preview.ResolvedNotSchemeless` | preview2.php:143-148 | `parse_url` either finds a scheme in whatever `makeAbsoluteUrl` returns, or rejects it; a rejected string is kept as written and may be relative |
| `Preview.GetTitle` | preview2.php:86-100 | the trimmed content of the first `og:title` meta that carries `content`, even when that trims to `""` and whatever `<title>` exists; else the trimmed text of the first `<title>`; with neither, the URL exactly |
| `Preview.GetDescription` | preview2.php:102-116 | the trimmed content of the first `og:description` meta, else of the first `meta[name='description']`, else `""` (never null) |
| `Preview.GetImage` | preview2.php:118-126 | the first `og:image` content resolved by `makeAbsoluteUrl`; null iff there is no `og:image` content or the first one is empty |
| `Preview.GetFavicon` | preview2.php:128-138 | the `href` of the first `link` whose `rel` contains `icon`, resolved; with no such link, `scheme://host/favicon.ico`; null only when an icon link exists |
| `Preview.DefaultFavicon` | preview2.php:136-137 | the default favicon is the origin's `scheme://host/` followed by `favicon.ico` |
| `Preview.DefaultFaviconIsResolved` | preview2.php:136-137 | the default favicon equals `makeAbsoluteUrl("/favicon.ico")` |
| `Preview.ImageIsResolved` | preview2.php:118-126 | a present image has a scheme, or is a string `parse_url` rejects (kept as written, possibly relative); either way, resolving it again changes nothing |
| `Preview.FaviconIsResolved` | preview2.php:128-138 | a present favicon, whether declared or the default, has a scheme, or is a string `parse_url` rejects (kept as written, possibly relative); either way, resolving it again changes nothing |
| `Preview.UnparsableImageKeptAsWritten` | preview2.php:141-148 | an `og:image` of `///cdn/a.png`, which `parse_url` rejects, is returned as written and stays relative |
| `Preview.GetMetadata` | preview2.php:25-84 | the response is the success shape or the failure shape, echoing the URL; it is success iff `allow_url_fopen` is on, the fetch returns a body and the DOM extension is loaded; each failing step gives its own message (the fetch error falls back to "Error desconocido"); on success the four fields are those of the extractors |
| `Preview.Failed` | preview2.php:74-82 | the catch block builds the failure shape: the message as `error`, the URL as `title` and `url`, the fixed description, no image or favicon |
| `Preview.SuccessUrlsAreResolved` | preview2.php:62-69 | in a response, a present `image` or `favicon` has a scheme, or is a string `parse_url` rejects (kept as written, possibly relative); either way, resolving it again changes nothing |
| `Preview.HandleRequest` | preview2.php:157-184 | a missing or empty `url` parameter gives the missing-URL shape with every field null; a rejected URL gives "URL inválida" with the raw parameter as `title` and `url`; otherwise the response is what `getMetadata` answers |
| `Preview.ResponseShapes` | preview2.php:157-184 | every response is exactly one of the four shapes; `error` is present iff `success` is false; each shape occurs exactly under its own condition |
| `Preview.NoFetchBeforeValidation` | preview2.php:157-172 | a missing, empty or rejected URL, or `allow_url_fopen` being off, gives a response that does not depend on the fetch or the parser |
| `Preview.BlankOgTitleGivesEmptyTitle` | preview2.php:88-91 | a blank `og:title` gives an empty title even when a `<title>` follows |
| `Preview.TitleIsUrlFromOgTitle` | preview2.php:88-99 | for a sanitised URL, a page whose `og:title` content is the URL and a page with no title source both get the URL as title |
| `Preview.EmptyIconHrefGivesNoFavicon` | preview2.php:130-133 | an icon link with an empty `href` gives a null favicon, not the default |
| `Preview.ZeroUrlIsMissing` | preview2.php:157-167 | `?url=0` is answered with the missing-URL shape |

## Left out

- Network fetch: the User-Agent header, the 10-second `$timeout`, redirect following and
  the transport's errors. `Runtime.fetch` stands for all of these. It returns a body, or
  a failure with the last PHP error message if there is one.
- HTML parsing: `DOMDocument::loadHTML`, libxml's error suppression and `DOMXPath`.
  `Runtime.parse` stands for them and is total. On PHP 8, `loadHTML('')` (an empty body)
  throws a `ValueError`, which `catch (Exception $e)` does not handle. The model does not
  capture that uncaught error.
- URL validation: `FILTER_VALIDATE_URL` and `parse_url` are PHP library internals. They
  are the `Runtime.validateUrl` and `Runtime.schemeOf` functions.
  - A validated URL is assumed to have a non-empty scheme and host.
  - URLs that validate without a host (such as `file:///…`) are not modelled. For those,
    PHP would concatenate an empty host.
- MakeAbsoluteUrlIdempotent, ResolvedNotSchemeless, ImageIsResolved, FaviconIsResolved and
  SuccessUrlsAreResolved assume (`RootHasScheme`) that `parse_url` finds a scheme in, or
  rejects, every string of the form `scheme://host/…`. The code relies on this and does
  not check it.
- `trim`'s character list is PHP's default list, written out. Multibyte characters are
  treated as single characters: `trim` and `FILTER_SANITIZE_URL` act on bytes, but
  every byte of a multibyte UTF-8 character lies outside both character lists, so the
  results are the same.
- Response output: `json_encode`, the `Content-Type` and CORS headers, and `echo`. This
  includes the order of keys in the JSON, and `json_encode` failing on text that is not
  valid UTF-8.
- A `url` parameter given as an array (`?url[]=…`). The parameter is modelled as an
  optional string.
- `index.php`, a demo page that calls `LinkPreview` without loading its definition.
- `js/funciones2.js`, the browser-side hover UI with its debounce timer and response
  cache.
- Determinism: every operation is a Dafny function, so equal requests over equal
  runtimes give equal responses. No separate lemma states this.
