/**
 * The `LinkPreview` class and the request entry point of the link-preview
 * endpoint: validation of the requested URL, the four metadata extractors,
 * relative-URL resolution and the response shapes.
 */
module Preview {
  import opened Wrappers
  import opened PhpStrings
  import opened Document

  /** What `parse_url($u, PHP_URL_SCHEME)` gives: `false` for a URL it cannot parse, `null` when there is no scheme. */
  datatype SchemeLookup = Unparsable | NoScheme | Scheme(name: string)

  /** The scheme and host `parse_url` reads from a URL. */
  datatype Origin = Origin(scheme: string, host: string)

  /** A URL accepted by `FILTER_VALIDATE_URL` has a scheme and a host. */
  type ValidOrigin = o: Origin | o.scheme != "" && o.host != "" witness Origin("http", "localhost")

  /** What `@file_get_contents` gives: the body, or `false` with the last PHP error, if any. */
  datatype Fetch = Fetched(html: string) | FetchFailed(lastError: Option<string>)

  /**
   * The behaviour of the PHP runtime and its libraries that the extractor depends on
   * but does not define: URL validation with `parse_url`'s scheme and host, `parse_url`'s
   * scheme lookup, the `allow_url_fopen` setting, the network fetch, whether the DOM
   * extension is loaded, and the lenient HTML parser.
   */
  datatype Runtime = Runtime(
    validateUrl: string -> Option<ValidOrigin>,
    schemeOf: string -> SchemeLookup,
    allowUrlFopen: bool,
    fetch: string -> Fetch,
    domAvailable: bool,
    parse: string -> Page)

  /** A constructed `LinkPreview`: its sanitised `$url` and the origin `parse_url` reads from it. */
  datatype LinkPreview = LinkPreview(url: string, origin: ValidOrigin)


  const InvalidUrlMessage := "URL inválida"
  const MissingUrlMessage := "No se proporcionó URL"
  const AllowUrlFopenMessage := "allow_url_fopen debe estar habilitado en PHP"
  const FetchErrorPrefix := "Error al obtener el contenido: "
  const UnknownFetchError := "Error desconocido"
  const DomMissingMessage := "La extensión DOM es requerida"
  const FailureDescription := "No se pudo obtener la descripción"

  const OgTitle := MetaContentByProperty("og:title")
  const OgDescription := MetaContentByProperty("og:description")
  const OgImage := MetaContentByProperty("og:image")
  const NamedDescription := MetaContentByName("description")
  const IconLink := LinkHrefByRel("icon")

  /**
   * `new LinkPreview($url)`: the URL is sanitised, then validated; a rejected URL throws
   * "URL inválida". The stored URL holds only URL-safe characters.
   */
  function Construct(rt: Runtime, raw: string): (r: Result<LinkPreview>)
    ensures r.Success? ==> r.value.url == SanitizeUrl(raw)
    ensures r.Success? ==> forall k :: 0 <= k < |r.value.url| ==> IsUrlSafe(r.value.url[k])
    ensures r.Success? ==> rt.validateUrl(r.value.url) == Some(r.value.origin)
    ensures r.Failure? ==> r.error == InvalidUrlMessage && rt.validateUrl(SanitizeUrl(raw)).None?
  {
    var url := SanitizeUrl(raw);
    match rt.validateUrl(url)
    case None => Failure(InvalidUrlMessage)
    case Some(o) => Success(LinkPreview(url, o))
  }

  /** `scheme://host/`, the prefix every resolved relative URL starts with. */
  function Root(o: Origin): string {
    o.scheme + "://" + o.host + "/"
  }

  /** `n` slashes. */
  function Slashes(n: nat): string {
    seq(n, _ => '/')
  }

  /** `rest` is `candidate` without its leading slashes, all of them. */
  predicate SlashesStripped(candidate: string, rest: string) {
    && |rest| <= |candidate|
    && candidate == Slashes(|candidate| - |rest|) + rest
    && (rest == [] || rest[0] != '/')
  }

  /**
   * `makeAbsoluteUrl($url)`: an empty candidate (`""` or `"0"`) gives null; a candidate
   * `parse_url` finds a scheme in, or cannot parse, is kept; any other candidate is
   * appended to `scheme://host/` with all its leading slashes removed.
   */
  function MakeAbsoluteUrl(rt: Runtime, o: Origin, candidate: string): (r: Option<string>)
    ensures r.None? <==> IsEmpty(candidate)
    ensures r.Some? && rt.schemeOf(candidate) != NoScheme ==> r.value == candidate
    ensures r.Some? && rt.schemeOf(candidate) == NoScheme ==>
      Root(o) <= r.value && SlashesStripped(candidate, r.value[|Root(o)|..])
  {
    if IsEmpty(candidate) then None
    else if rt.schemeOf(candidate) == NoScheme then
      var rest := TrimLeadingSlashes(candidate);
      assert candidate == Slashes(|candidate| - |rest|) + rest;
      Some(Root(o) + rest)
    else Some(candidate)
  }

  /** `parse_url` finds a scheme in (or rejects) every URL of the form `scheme://host/…`. */
  ghost predicate RootHasScheme(rt: Runtime, o: Origin) {
    forall path :: rt.schemeOf(Root(o) + path) != NoScheme
  }

  /**
   * Resolving a resolved URL changes nothing: the result of `makeAbsoluteUrl` is
   * non-empty and carries the base scheme.
   */
  lemma MakeAbsoluteUrlIdempotent(rt: Runtime, o: ValidOrigin, candidate: string)
    requires RootHasScheme(rt, o)
    requires MakeAbsoluteUrl(rt, o, candidate).Some?
    ensures MakeAbsoluteUrl(rt, o, MakeAbsoluteUrl(rt, o, candidate).value) == MakeAbsoluteUrl(rt, o, candidate)
  {
  }

  /**
   * Leading slashes are not interpreted: a root-relative, a protocol-relative
   * (`//cdn/x`) and a document-relative candidate with the same path after the
   * slashes all resolve to the same URL under the base origin.
   */
  lemma {:induction false} MakeAbsoluteUrlIgnoresSlashes(rt: Runtime, o: Origin, n: nat, path: string)
    requires path != [] && path[0] != '/' && !IsEmpty(Slashes(n) + path)
    requires rt.schemeOf(Slashes(n) + path) == NoScheme
    ensures MakeAbsoluteUrl(rt, o, Slashes(n) + path) == Some(Root(o) + path)
  {
    TrimLeadingSlashesOfSlashes(n, path);
  }

  /** `ltrim` with `/` removes exactly the slashes put in front of a path. */
  lemma {:induction false} TrimLeadingSlashesOfSlashes(n: nat, path: string)
    requires path == [] || path[0] != '/'
    ensures TrimLeadingSlashes(Slashes(n) + path) == path
  {
    var c := Slashes(n) + path;
    if n == 0 {
      assert c == path;
    } else {
      assert c[0] == '/';
      assert c[1..] == Slashes(n - 1) + path;
      TrimLeadingSlashesOfSlashes(n - 1, path);
    }
  }

  /**
   * `getTitle`: the trimmed content of the first `og:title` meta that carries `content`,
   * even when it trims to ""; otherwise the trimmed text of the first `<title>`;
   * otherwise the URL itself.
   */
  function GetTitle(p: LinkPreview, page: Page): (r: string)
    ensures forall i :: IsFirstMatch(page, OgTitle, i) ==> r == Trim(Select(OgTitle, page[i]).value)
    ensures !HasMatch(page, OgTitle) ==>
      forall i :: IsFirstMatch(page, TitleText, i) ==> r == Trim(page[i].text)
    ensures !HasMatch(page, OgTitle) && !HasMatch(page, TitleText) ==> r == p.url
  {
    match QueryFirst(page, OgTitle)
    case Some(content) => Trim(content)
    case None =>
      match QueryFirst(page, TitleText)
      case Some(text) => Trim(text)
      case None => p.url
  }

  /**
   * `getDescription`: the trimmed content of the first `og:description` meta, else of
   * the first `meta[name='description']`, else the empty string; never null.
   */
  function GetDescription(page: Page): (r: string)
    ensures forall i :: IsFirstMatch(page, OgDescription, i) ==> r == Trim(Select(OgDescription, page[i]).value)
    ensures !HasMatch(page, OgDescription) ==>
      forall i :: IsFirstMatch(page, NamedDescription, i) ==> r == Trim(Select(NamedDescription, page[i]).value)
    ensures !HasMatch(page, OgDescription) && !HasMatch(page, NamedDescription) ==> r == ""
  {
    match QueryFirst(page, OgDescription)
    case Some(content) => Trim(content)
    case None =>
      match QueryFirst(page, NamedDescription)
      case Some(content) => Trim(content)
      case None => ""
  }

  /**
   * `getImage`: the first `og:image` content (untrimmed) resolved by `makeAbsoluteUrl`;
   * null when there is none or when that first content is empty.
   */
  function GetImage(rt: Runtime, o: Origin, page: Page): (r: Option<string>)
    ensures forall i :: IsFirstMatch(page, OgImage, i) ==> r == MakeAbsoluteUrl(rt, o, Select(OgImage, page[i]).value)
    ensures r.None? <==>
      (!HasMatch(page, OgImage) || exists i :: IsFirstMatch(page, OgImage, i) && IsEmpty(Select(OgImage, page[i]).value))
  {
    match FirstMatch(page, OgImage)
    case Some(i) =>
      var content := Select(OgImage, page[i]).value;
      assert forall j :: IsFirstMatch(page, OgImage, j) ==> j == i by {
        forall j | IsFirstMatch(page, OgImage, j) ensures j == i {
          FirstMatchUnique(page, OgImage, i, j);
        }
      }
      MakeAbsoluteUrl(rt, o, content)
    case None => None
  }

  /** `scheme://host/favicon.ico`, the favicon assumed when the page declares none. */
  function DefaultFavicon(o: Origin): (r: string)
    ensures r == Root(o) + "favicon.ico"
  {
    var f := "favicon.ico";
    assert "/favicon.ico" == "/" + f;
    o.scheme + "://" + o.host + "/favicon.ico"
  }

  /**
   * `getFavicon`: the `href` of the first `link` whose `rel` contains "icon", resolved by
   * `makeAbsoluteUrl` (so null when that `href` is empty); with no such link,
   * `scheme://host/favicon.ico`.
   */
  function GetFavicon(rt: Runtime, o: Origin, page: Page): (r: Option<string>)
    ensures forall i :: IsFirstMatch(page, IconLink, i) ==> r == MakeAbsoluteUrl(rt, o, page[i].href.value)
    ensures !HasMatch(page, IconLink) ==> r == Some(DefaultFavicon(o))
    ensures r.None? ==> HasMatch(page, IconLink)
  {
    match FirstMatch(page, IconLink)
    case Some(i) => MakeAbsoluteUrl(rt, o, page[i].href.value)
    case None => Some(DefaultFavicon(o))
  }

  /** The default favicon is what `makeAbsoluteUrl("/favicon.ico")` would give. */
  lemma DefaultFaviconIsResolved(rt: Runtime, o: Origin)
    requires rt.schemeOf("/favicon.ico") == NoScheme
    ensures MakeAbsoluteUrl(rt, o, "/favicon.ico") == Some(DefaultFavicon(o))
  {
    var f := "favicon.ico";
    assert Slashes(1) == "/";
    assert "/favicon.ico" == Slashes(1) + f;
    TrimLeadingSlashesOfSlashes(1, f);
  }


  /**
   * A response object as `json_encode` sees it. `error` is `None` when the key is
   * absent (the success shape only); every other `None` is a JSON `null`.
   */
  datatype Response = Response(
    success: bool,
    error: Option<string>,
    title: Option<string>,
    description: Option<string>,
    image: Option<string>,
    favicon: Option<string>,
    url: Option<string>)

  /** The success shape of `getMetadata`: no `error` key, a title and a description, the URL echoed. */
  predicate IsSuccessShape(r: Response, url: string) {
    r.success && r.error.None? && r.title.Some? && r.description.Some? && r.url == Some(url)
  }

  /** The catch-all shape of `getMetadata`: the message, the URL as title, a fixed description, no image or favicon. */
  predicate IsFailureShape(r: Response, url: string) {
    && !r.success && r.error.Some? && r.title == Some(url) && r.description == Some(FailureDescription)
    && r.image.None? && r.favicon.None? && r.url == Some(url)
  }

  /** The entry point's answer to a missing or empty `url` parameter: only `success` and `error` are set. */
  predicate IsMissingUrlShape(r: Response) {
    r == Response(false, Some(MissingUrlMessage), None, None, None, None, None)
  }

  /** The entry point's answer to a URL the constructor rejects: the raw parameter as title and URL. */
  predicate IsInvalidUrlShape(r: Response, raw: string) {
    r == Response(false, Some(InvalidUrlMessage), Some(raw), None, None, None, Some(raw))
  }

  /** The message of the exception `getMetadata` catches when the fetch fails. */
  function FetchErrorMessage(lastError: Option<string>): string {
    FetchErrorPrefix + match lastError case Some(m) => m case None => UnknownFetchError
  }

  /**
   * `getMetadata`: check `allow_url_fopen`, fetch the page, check the DOM extension,
   * parse, extract. A failure at any step yields the failure shape carrying that
   * step's message; otherwise the success shape carrying the four extracted fields.
   */
  function GetMetadata(rt: Runtime, p: LinkPreview): (r: Response)
    ensures IsSuccessShape(r, p.url) || IsFailureShape(r, p.url)
    ensures r.success <==> rt.allowUrlFopen && rt.fetch(p.url).Fetched? && rt.domAvailable
    ensures !rt.allowUrlFopen ==> r.error == Some(AllowUrlFopenMessage)
    ensures rt.allowUrlFopen && rt.fetch(p.url).FetchFailed? ==>
      r.error == Some(FetchErrorMessage(rt.fetch(p.url).lastError))
    ensures rt.allowUrlFopen && rt.fetch(p.url).Fetched? && !rt.domAvailable ==>
      r.error == Some(DomMissingMessage)
    ensures r.success ==>
      var page := rt.parse(rt.fetch(p.url).html);
      && r.title == Some(GetTitle(p, page))
      && r.description == Some(GetDescription(page))
      && r.image == GetImage(rt, p.origin, page)
      && r.favicon == GetFavicon(rt, p.origin, page)
  {
    if !rt.allowUrlFopen then
      Failed(p, AllowUrlFopenMessage)
    else
      match rt.fetch(p.url)
      case FetchFailed(lastError) => Failed(p, FetchErrorMessage(lastError))
      case Fetched(html) =>
        if !rt.domAvailable then
          Failed(p, DomMissingMessage)
        else
          var page := rt.parse(html);
          Response(
            success := true,
            error := None,
            title := Some(GetTitle(p, page)),
            description := Some(GetDescription(page)),
            image := GetImage(rt, p.origin, page),
            favicon := GetFavicon(rt, p.origin, page),
            url := Some(p.url))
  }

  /** The response `getMetadata`'s catch block builds. */
  function Failed(p: LinkPreview, message: string): (r: Response)
    ensures IsFailureShape(r, p.url) && r.error == Some(message)
  {
    Response(false, Some(message), Some(p.url), Some(FailureDescription), None, None, Some(p.url))
  }

  /**
   * The request entry point: `param` is `$_GET['url']` (`None` when unset). A missing
   * or empty parameter gives the missing-URL shape, a rejected URL the invalid-URL
   * shape, and a valid one whatever `getMetadata` answers.
   */
  function HandleRequest(rt: Runtime, param: Option<string>): (r: Response)
    ensures param.None? || IsEmpty(param.value) ==> IsMissingUrlShape(r)
    ensures param.Some? && !IsEmpty(param.value) ==>
      match Construct(rt, param.value)
      case Failure(_) => IsInvalidUrlShape(r, param.value)
      case Success(p) => r == GetMetadata(rt, p)
  {
    if param.None? || IsEmpty(param.value) then
      Response(false, Some(MissingUrlMessage), None, None, None, None, None)
    else
      match Construct(rt, param.value)
      case Failure(message) =>
        Response(false, Some(message), Some(param.value), None, None, None, Some(param.value))
      case Success(p) => GetMetadata(rt, p)
  }

  /**
   * Every response is exactly one of the four shapes; `error` is present exactly
   * when `success` is false; a response that is not the missing-URL one echoes the
   * requested URL (sanitised once the constructor has accepted it).
   */
  lemma ResponseShapes(rt: Runtime, param: Option<string>)
    ensures var r := HandleRequest(rt, param);
      && (r.success <==> r.error.None?)
      && (IsMissingUrlShape(r) <==> param.None? || IsEmpty(param.value))
      && (param.Some? && !IsEmpty(param.value) ==>
            (IsInvalidUrlShape(r, param.value) <==> Construct(rt, param.value).Failure?)
            && (IsSuccessShape(r, SanitizeUrl(param.value)) || IsFailureShape(r, SanitizeUrl(param.value))
                <==> Construct(rt, param.value).Success?))
  {
  }

  /**
   * An `image` or `favicon` that is present (only on success) is resolved: `parse_url`
   * either finds a scheme in it or rejects it, and resolving it again leaves it as it
   * is. A candidate `parse_url` rejects is kept as written, so it may still be relative
   * (`UnparsableImageKeptAsWritten`).
   */
  lemma SuccessUrlsAreResolved(rt: Runtime, p: LinkPreview)
    requires RootHasScheme(rt, p.origin)
    ensures var r := GetMetadata(rt, p);
      && (r.image.Some? ==> rt.schemeOf(r.image.value) != NoScheme && MakeAbsoluteUrl(rt, p.origin, r.image.value) == r.image)
      && (r.favicon.Some? ==> rt.schemeOf(r.favicon.value) != NoScheme && MakeAbsoluteUrl(rt, p.origin, r.favicon.value) == r.favicon)
  {
    if rt.fetch(p.url).Fetched? {
      var page := rt.parse(rt.fetch(p.url).html);
      ImageIsResolved(rt, p.origin, page);
      FaviconIsResolved(rt, p.origin, page);
    }
  }

  /** A present `image` is resolved (see `SuccessUrlsAreResolved`). */
  lemma ImageIsResolved(rt: Runtime, o: ValidOrigin, page: Page)
    requires RootHasScheme(rt, o)
    ensures var r := GetImage(rt, o, page);
      r.Some? ==> rt.schemeOf(r.value) != NoScheme && MakeAbsoluteUrl(rt, o, r.value) == r
  {
  }

  /** A present `favicon`, declared or default, is resolved (see `SuccessUrlsAreResolved`). */
  lemma FaviconIsResolved(rt: Runtime, o: ValidOrigin, page: Page)
    requires RootHasScheme(rt, o)
    ensures var r := GetFavicon(rt, o, page);
      r.Some? ==> rt.schemeOf(r.value) != NoScheme && MakeAbsoluteUrl(rt, o, r.value) == r
  {
    match FirstMatch(page, IconLink)
    case Some(i) =>
      var c := page[i].href.value;
      if MakeAbsoluteUrl(rt, o, c).Some? {
        MakeAbsoluteUrlIdempotent(rt, o, c);
        ResolvedNotSchemeless(rt, o, c);
      }
    case None =>
      var u := DefaultFavicon(o);
      assert u == Root(o) + "favicon.ico";
      assert rt.schemeOf(Root(o) + "favicon.ico") != NoScheme;
      assert !IsEmpty(u);
  }

  /** What `makeAbsoluteUrl` returns is never a URL in which `parse_url` finds no scheme. */
  lemma ResolvedNotSchemeless(rt: Runtime, o: Origin, candidate: string)
    requires RootHasScheme(rt, o)
    requires MakeAbsoluteUrl(rt, o, candidate).Some?
    ensures rt.schemeOf(MakeAbsoluteUrl(rt, o, candidate).value) != NoScheme
  {
  }

  /**
   * A request the entry point answers without constructing a working `LinkPreview`
   * never reaches the network: its response is the same whatever the fetch and the
   * parser would have done. The same holds when `allow_url_fopen` is off.
   */
  lemma NoFetchBeforeValidation(rt: Runtime, fetch: string -> Fetch, parse: string -> Page, param: Option<string>)
    requires param.None? || IsEmpty(param.value) || Construct(rt, param.value).Failure? || !rt.allowUrlFopen
    ensures HandleRequest(rt.(fetch := fetch, parse := parse), param) == HandleRequest(rt, param)
  {
  }

  /**
   * The first `og:title` that carries `content` wins even when it is blank: the title
   * is then the empty string, although a `<title>` follows.
   */
  lemma BlankOgTitleGivesEmptyTitle(p: LinkPreview)
    ensures GetTitle(p, [Meta(Some("og:title"), None, Some(" \n")), Title("Home")]) == ""
  {
  }

  /**
   * An `og:title` whose content is the (sanitised) URL gives the same title as a page
   * with no title source at all: a title equal to the URL does not tell the two apart.
   */
  lemma TitleIsUrlFromOgTitle(p: LinkPreview)
    requires forall k :: 0 <= k < |p.url| ==> IsUrlSafe(p.url[k])
    ensures GetTitle(p, [Meta(Some("og:title"), None, Some(p.url))]) == p.url
    ensures GetTitle(p, []) == p.url
  {
    var page := [Meta(Some("og:title"), None, Some(p.url))];
    assert IsFirstMatch(page, OgTitle, 0);
    TrimKeepsUrlSafe(p.url);
    assert !HasMatch([], OgTitle) && !HasMatch([], TitleText);
  }

  /**
   * A page whose first icon `link` has an empty `href` gets no favicon: the default
   * `/favicon.ico` is used only when no icon link carries an `href` at all.
   */
  lemma EmptyIconHrefGivesNoFavicon(rt: Runtime, o: Origin)
    ensures GetFavicon(rt, o, [Link(Some("shortcut icon"), Some("")), Link(Some("icon"), Some("/i.png"))]) == None
  {
    var page := [Link(Some("shortcut icon"), Some("")), Link(Some("icon"), Some("/i.png"))];
    assert OccursAt("shortcut icon", "icon", 9);
    assert IsFirstMatch(page, IconLink, 0);
  }

  /**
   * A candidate `parse_url` cannot parse passes through `makeAbsoluteUrl` unchanged:
   * `///cdn/a.png` stays relative even where every `scheme://host/…` URL parses.
   */
  lemma UnparsableImageKeptAsWritten(rt: Runtime)
    requires rt.schemeOf("///cdn/a.png") == Unparsable
    requires RootHasScheme(rt, Origin("http", "example.com"))
    ensures GetImage(rt, Origin("http", "example.com"), [Meta(Some("og:image"), None, Some("///cdn/a.png"))])
            == Some("///cdn/a.png")
  {
    var page := [Meta(Some("og:image"), None, Some("///cdn/a.png"))];
    assert IsFirstMatch(page, OgImage, 0);
  }

  /** PHP's `empty("0")` holds, so `?url=0` is answered as a missing URL. */
  lemma ZeroUrlIsMissing(rt: Runtime)
    ensures IsMissingUrlShape(HandleRequest(rt, Some("0")))
  {
  }
}
