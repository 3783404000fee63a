/** The DisableAuthorPages plugin class: the decision taken on every page
    request whether to redirect an author archive away (`disable_author_page`),
    the filter that blanks author links (`disable_author_link`), and the
    filter that adds a "Settings" entry to the plugin's action links
    (`plugin_settings_link`).

    WordPress is not part of this model. What the code reads from it (the
    six stored options, the request's classification, the global `$post`)
    arrives as plain values, and what it asks of it (`author_can`,
    `get_permalink`, `home_url`, `admin_url`) arrives as oracle answers. */
module DisableAuthorPages {
  import opened PhpValues
  import opened PhpArrays

  const MENU_SLUG: string := "disable_author_pages_settings"

  /** The key under which plugin_settings_link files its entry. */
  const SETTINGS: Key := StrKey("settings")

  /** What the options table holds for each of the plugin's options
      (`disable_author_pages_activate`, …); None when never saved. */
  datatype Options = Options(
    redirectNonAuthors: Option<string>,
    activate: Option<string>,
    adminOnly: Option<string>,
    destination: Option<string>,
    status: Option<string>,
    authorLink: Option<string>)

  /** `get_option( $name )`: PHP false when the option is absent. */
  function GetOption(stored: Option<string>): Value
  {
    match stored
    case None => False
    case Some(s) => Str(s)
  }

  /** `get_option( $name, $default )` with a string default. */
  function GetOptionOr(stored: Option<string>, default: string): string
  {
    stored.GetOr(default)
  }

  /** What WordPress knows about the current request. */
  datatype Request = Request(
    is404: bool,             // is_404()
    isAuthor: bool,          // is_author()
    authorVar: string,       // get_query_var( 'author' ), '' when unset
    authorNameVar: string,   // get_query_var( 'author_name' ), '' when unset
    postIsObject: bool)      // is_object( $post )

  /** What `get_permalink` returns: a URL, or false for a page it cannot resolve. */
  datatype Location = Url(url: string) | NoPermalink

  /** The answers WordPress would give to the calls the decision makes. */
  datatype Oracles = Oracles(
    authorCan: bool,                 // author_can( get_the_ID(), 'manage_options' )
    permalink: string -> Location,   // get_permalink( $id )
    homeUrl: string)                 // home_url()

  /** `wp_safe_redirect( $location, $status )` followed by `exit`. */
  datatype Redirect = Redirect(location: Location, status: string)

  /** `get_query_var( 'author' ) || get_query_var( 'author_name' )`. */
  predicate AuthorQuery(req: Request)
  {
    Truthy(Str(req.authorVar)) || Truthy(Str(req.authorNameVar))
  }

  /** `get_option( ADMIN_ONLY, '0' )`. */
  function AdminOnly(opts: Options): Value
  {
    Str(GetOptionOr(opts.adminOnly, "0"))
  }

  /** Where a redirect goes and with which status, once it has been decided
      on: the permalink of the destination page when the destination option
      is truthy, the home URL otherwise, with the status option (301 when
      never saved). */
  function Target(opts: Options, o: Oracles): Redirect
  {
    var dest := GetOptionOr(opts.destination, "");
    Redirect(if Truthy(Str(dest)) then o.permalink(dest) else Url(o.homeUrl),
             GetOptionOr(opts.status, "301"))
  }

  /** The redirect decision, stated case by case. On a 404 the request is
      redirected exactly when it carries an author query and both the
      master switch and "redirect non-authors" cast to 1. Otherwise it is
      redirected exactly when it is an author archive, the master switch
      casts to 1, and, in admin-only mode, the global post is an object
      whose author may manage options. */
  function Decide(req: Request, opts: Options, o: Oracles): Option<Redirect>
  {
    var fires :=
      IntIs1(GetOption(opts.activate)) &&
      if req.is404 then AuthorQuery(req) && IntIs1(GetOption(opts.redirectNonAuthors))
      else req.isAuthor && (Truthy(AdminOnly(opts)) ==> req.postIsObject && o.authorCan);
    if fires then Some(Target(opts, o)) else None
  }

  /** Whether the decision asks WordPress for the viewed author's capability. */
  predicate AsksCapability(req: Request, opts: Options)
  {
    !req.is404 && req.isAuthor && IntIs1(GetOption(opts.activate))
    && Truthy(AdminOnly(opts)) && req.postIsObject
  }

  /** disable_author_page, statement by statement: the two local flags
      `$author_request` and `$author_can`, the early return for a 404 that
      is not an author query, and the redirect (None: the request goes on
      to render). `askedCapability` tells whether `author_can` was called. */
  method DisableAuthorPage(req: Request, opts: Options, o: Oracles)
    returns (r: Option<Redirect>, askedCapability: bool)
    ensures r == Decide(req, opts, o)
    ensures askedCapability == AsksCapability(req, opts)
  {
    r, askedCapability := None, false;
    var authorRequest := false;

    if req.is404 && IntIs1(GetOption(opts.redirectNonAuthors)) && AuthorQuery(req) {
      authorRequest := true;
    }

    if req.is404 && !AuthorQuery(req) {
      return;
    }

    if (req.isAuthor || authorRequest) && IntIs1(GetOption(opts.activate)) {
      var adminOnly := AdminOnly(opts);
      var authorCan := false;

      if Truthy(adminOnly) && req.postIsObject && !req.is404 {
        authorCan := o.authorCan;
        askedCapability := true;
      }

      if (Truthy(adminOnly) && authorCan)
        || (!Truthy(adminOnly) && !req.is404)
        || (req.is404 && IntIs1(GetOption(opts.redirectNonAuthors)))
      {
        var status := GetOptionOr(opts.status, "301");
        var url := GetOptionOr(opts.destination, "");
        var location := if Truthy(Str(url)) then o.permalink(url) else Url(o.homeUrl);
        r := Some(Redirect(location, status));
      }
    }
  }

  /** A 404 that carries no author query is never redirected, whatever the options say. */
  lemma Plain404NeverRedirects(req: Request, opts: Options, o: Oracles)
    requires req.is404 && req.authorVar in {"", "0"} && req.authorNameVar in {"", "0"}
    ensures Decide(req, opts, o) == None
  {
  }

  /** Unless the master switch casts to 1, nothing is ever redirected. */
  lemma InactiveNeverRedirects(req: Request, opts: Options, o: Oracles)
    requires !IntIs1(GetOption(opts.activate))
    ensures Decide(req, opts, o) == None
  {
  }

  /** With the master switch on and admin-only mode off, every live author
      archive is redirected to the configured target. */
  lemma ArchiveRedirects(req: Request, opts: Options, o: Oracles)
    requires !req.is404 && req.isAuthor
    requires IntIs1(GetOption(opts.activate)) && !Truthy(AdminOnly(opts))
    ensures Decide(req, opts, o) == Some(Target(opts, o))
  {
  }

  /** In admin-only mode a live author archive is redirected exactly when
      the global post is an object whose author may manage options. */
  lemma AdminOnlyArchive(req: Request, opts: Options, o: Oracles)
    requires !req.is404 && req.isAuthor
    requires IntIs1(GetOption(opts.activate)) && Truthy(AdminOnly(opts))
    ensures Decide(req, opts, o).Some? <==> req.postIsObject && o.authorCan
  {
  }

  /** A page that is neither a 404 nor an author archive is never redirected. */
  lemma OtherPagesNeverRedirect(req: Request, opts: Options, o: Oracles)
    requires !req.is404 && !req.isAuthor
    ensures Decide(req, opts, o) == None
  {
  }

  /** A 404 that carries an author query is redirected when both switches
      cast to 1, whether admin-only mode is on or not. */
  lemma AuthorLike404Redirects(req: Request, opts: Options, o: Oracles)
    requires req.is404 && AuthorQuery(req)
    requires IntIs1(GetOption(opts.activate)) && IntIs1(GetOption(opts.redirectNonAuthors))
    ensures Decide(req, opts, o) == Some(Target(opts, o))
    ensures forall a :: Decide(req, opts.(adminOnly := a), o) == Decide(req, opts, o)
  {
  }

  /** Unless "redirect non-authors" casts to 1, no 404 is redirected, even
      one that WordPress classifies as an author page. */
  lemma No404WithoutRedirectNonAuthors(req: Request, opts: Options, o: Oracles)
    requires req.is404 && !IntIs1(GetOption(opts.redirectNonAuthors))
    ensures Decide(req, opts, o) == None
  {
  }

  /** The capability is never asked for on a 404, and when it is not asked
      for its answer cannot change the decision. */
  lemma CapabilityOnlyWhenAsked(req: Request, opts: Options, o: Oracles, answer: bool)
    ensures req.is404 ==> !AsksCapability(req, opts)
    ensures !AsksCapability(req, opts) ==>
      Decide(req, opts, o.(authorCan := answer)) == Decide(req, opts, o)
  {
  }

  /** A redirect's status is the stored status option, or "301" when none is
      stored; its location is get_permalink of the stored destination when
      that is truthy — passed on unchecked even when it is false — and the
      home URL when the destination is absent, "" or "0". */
  lemma RedirectTarget(req: Request, opts: Options, o: Oracles)
    requires Decide(req, opts, o).Some?
    ensures Decide(req, opts, o).value.status ==
      (if opts.status.Some? then opts.status.value else "301")
    ensures Decide(req, opts, o).value.location ==
      (if opts.destination.Some? && opts.destination.value != "" && opts.destination.value != "0"
       then o.permalink(opts.destination.value) else Url(o.homeUrl))
  {
  }

  /** `get_option( AUTHOR_LINK, '0' )`. */
  function AuthorLinkOption(opts: Options): Value
  {
    Str(GetOptionOr(opts.authorLink, "0"))
  }

  /** disable_author_link: the author URL becomes '' when the author-link
      option casts to 1, and passes through (cast to string) otherwise. */
  function DisableAuthorLink(content: Mixed, opts: Options): (r: string)
    ensures opts.authorLink.Some? && IntIs1(Str(opts.authorLink.value)) ==> r == ""
    ensures !(opts.authorLink.Some? && IntIs1(Str(opts.authorLink.value))) ==> r == StringCast(content)
  {
    if IntIs1(AuthorLinkOption(opts)) then "" else StringCast(content)
  }

  /** `(string) $content`: null is '', a string is itself, an array is "Array". */
  function StringCast(m: Mixed): string
  {
    match m
    case Null => ""
    case Text(s) => s
    case Arr(_) => "Array"
  }

  /** The author-link filter applied to its own output gives the same output. */
  lemma AuthorLinkIdempotent(content: Mixed, opts: Options)
    ensures DisableAuthorLink(Text(DisableAuthorLink(content, opts)), opts)
         == DisableAuthorLink(content, opts)
  {
  }

  /** With the author-link option never saved, author links are left alone. */
  lemma AuthorLinkDefaultKeeps(url: string, opts: Options)
    requires opts.authorLink.None?
    ensures DisableAuthorLink(Text(url), opts) == url
  {
  }

  /** The settings link:
      `<a href="ADMIN_URL" aria-label="LABEL">TEXT</a>` where ADMIN_URL is
      admin_url of the plugin's settings page and LABEL, TEXT are the
      translated and escaped strings. */
  function SettingsAnchor(adminUrl: string -> string, ariaLabel: string, text: string): string
  {
    "<a href=\"" + adminUrl("options-general.php?page=" + MENU_SLUG)
      + "\" aria-label=\"" + ariaLabel + "\">" + text + "</a>"
  }

  /** plugin_settings_link: `array_merge( [ 'settings' => SettingsAnchor(…) ], (array) $actions )`.
      Whatever `$actions` is, the result starts with the 'settings' key. */
  function PluginSettingsLink(actions: Mixed, adminUrl: string -> string, ariaLabel: string, text: string)
    : (r: PhpArray)
    ensures r != [] && r[0].0 == SETTINGS
  {
    var anchor := SettingsAnchor(adminUrl, ariaLabel, text);
    MergeKeepsHead([(SETTINGS, anchor)], 0, ArrayCast(actions));
    ArrayMerge([(SETTINGS, anchor)], ArrayCast(actions))
  }

  /** The layout plugin_settings_link produces from a PHP array: the
      'settings' entry first, holding the array's own 'settings' value when
      it has one and the anchor otherwise, then every other entry of the
      array in its order, integer keys renumbered from 0. */
  function SettingsFirst(anchor: string, actions: PhpArray): PhpArray
  {
    [(SETTINGS, Lookup(actions, SETTINGS).GetOr(anchor))] + Renumber(Without(actions, SETTINGS), 0)
  }

  /** plugin_settings_link lays out its result as SettingsFirst describes,
      and the result is again a PHP array (no key twice). */
  lemma SettingsLinkLayout(actions: Mixed, adminUrl: string -> string, ariaLabel: string, text: string)
    requires actions.Arr? ==> KeysDistinct(actions.entries)
    ensures PluginSettingsLink(actions, adminUrl, ariaLabel, text)
         == SettingsFirst(SettingsAnchor(adminUrl, ariaLabel, text), ArrayCast(actions))
    ensures KeysDistinct(PluginSettingsLink(actions, adminUrl, ariaLabel, text))
  {
    var anchor := SettingsAnchor(adminUrl, ariaLabel, text);
    var input := ArrayCast(actions);
    assert ([(SETTINGS, anchor)] + input)[1..] == input;
    assert Update([], SETTINGS, anchor) == [(SETTINGS, anchor)];
    MergeAfterHead(SETTINGS, anchor, [], 0, input);
    assert [(SETTINGS, anchor)] + [] == [(SETTINGS, anchor)];
    WithoutDistinct(input, SETTINGS);
    RenumberKeys(Without(input, SETTINGS), 0);
    RenumberDistinct(Without(input, SETTINGS), 0);
  }
}
