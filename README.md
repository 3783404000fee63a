# Disable Author Pages — a Dafny model of the redirect decision

The WordPress plugin "Disable Author Pages" redirects visitors away from
author archive pages. It can also blank the author profile links that
themes print. It has three pieces of logic, all in the class
`DisableAuthorPages`, and this project models each of them:

- `disable_author_page` runs on the `template_redirect` hook. It decides
  whether the current request gets a redirect, and if so to which URL and
  with which status. A redirect is followed by `exit`.
  - The model is the method `DisableAuthorPage`. It follows the PHP
    statement by statement: the flags `$author_request` and `$author_can`,
    the early return, and the three-way disjunction.
  - The function `Decide` is an independent case-by-case statement of the
    same rule.
  - The method is proved equal to `Decide`. It also reports whether it
    called `author_can`, and that is tied to the predicate `AsksCapability`.
  - The lemmas about `Decide` state what the rule does.
- `disable_author_link` is the `author_link` filter: `DisableAuthorLink`.
- `plugin_settings_link` is the filter on the plugin's action links:
  `PluginSettingsLink`. It is built on a model of PHP ordered arrays and
  `array_merge` (module `PhpArrays`).

PHP's own value semantics live in the module `PhpValues`:

- `Value` is what `get_option` returns: `false` when the option is absent,
  otherwise the stored string.
- `Truthy` is PHP truthiness. `""`, `"0"` and `false` are false.
- `IntCast` is the `(int)` cast. It reads leading whitespace, a sign,
  digits, a decimal point, more digits and an exponent, then truncates
  toward zero and saturates to 64 bits. `IntIs1` is `(int) $v === 1`.

WordPress itself is outside the model. The request classification
(`is_404`, `is_author`, the `author` and `author_name` query vars, whether
`$post` is an object) and the six stored options arrive as values. The
answers of `author_can`, `get_permalink` and `home_url` arrive as the
`Oracles` value. `admin_url` and the translated, escaped label strings are
parameters of `PluginSettingsLink`, which builds the settings anchor from
them with `SettingsAnchor` (DisableAuthorPages.php:290-296).

Facts about the code that the model keeps:

- The code has no home-URL fallback when `get_permalink` fails. It passes
  whatever `get_permalink` returns, `false` included, on to
  `wp_safe_redirect` (DisableAuthorPages.php:107-109). `RedirectTarget`
  states this.
- Admin-only mode also needs `is_object( $post )`
  (DisableAuthorPages.php:96). An author archive whose global post is not
  an object is therefore never redirected in admin-only mode
  (`AdminOnlyArchive`).
- `ACTIVATE`, `REDIRECT_NON_AUTHORS` and `AUTHOR_LINK` are tested with
  `(int) … === 1` (DisableAuthorPages.php:76, 91, 103, 137). `ADMIN_ONLY`
  and `DESTINATION` are tested by truthiness (DisableAuthorPages.php:96,
  101, 107). So an `ADMIN_ONLY` of `"no"` counts as on.
  `CheckboxValuesAgree` shows that the two readings agree on the values
  the settings form stores.

The following are plain definitions with no contract of their own:
`Decide`, `Target`, `AsksCapability` (DisableAuthorPages.php:72-110),
`Truthy` and `IntIs1` (:76, :91, :93, :103, :107, :137), `ArrayMerge` and
`MergeInto` (:298), and `StringCast` (:141). What they do is stated by the
method and lemmas in the table below: `DisableAuthorPage` and the lemmas
about `Decide`, `IntCast`'s own contract and the cast lemmas, and
`MergeAfterHead` and `SettingsLinkLayout`.

## Model

| member | source | states |
|---|---|---|
| DisableAuthorPages.DisableAuthorPage | DisableAuthorPages.php:69-113 | the step-by-step decision returns exactly the case-by-case rule `Decide`; it calls `author_can` exactly when the request is not a 404, is an author archive, activate casts to 1, admin-only is truthy and `$post` is an object |
| DisableAuthorPages.Plain404NeverRedirects | DisableAuthorPages.php:82-87 | a 404 whose `author` and `author_name` query vars are both falsy is never redirected, whatever the options |
| DisableAuthorPages.InactiveNeverRedirects | DisableAuthorPages.php:89-91 | unless the activate option casts to integer 1 (absent, `""`, `"0"`, …), no request is redirected |
| DisableAuthorPages.ArchiveRedirects | DisableAuthorPages.php:89-102 | on a non-404 author archive with activate = 1 and admin-only falsy, the request is always redirected to the configured target |
| DisableAuthorPages.AdminOnlyArchive | DisableAuthorPages.php:93-104 | on a non-404 author archive with activate = 1 and admin-only truthy, a redirect happens iff `$post` is an object and `author_can( get_the_ID(), 'manage_options' )` holds |
| DisableAuthorPages.OtherPagesNeverRedirect | DisableAuthorPages.php:89-92 | a page that is neither a 404 nor an author archive is never redirected |
| DisableAuthorPages.AuthorLike404Redirects | DisableAuthorPages.php:72-104 | a 404 with an author query var set and activate = 1 and redirect-non-authors = 1 is redirected to the target, and the admin-only option cannot change that |
| DisableAuthorPages.No404WithoutRedirectNonAuthors | DisableAuthorPages.php:74-80 | unless redirect-non-authors casts to 1, no 404 is redirected, even one that `is_author()` reports as an author page |
| DisableAuthorPages.CapabilityOnlyWhenAsked | DisableAuthorPages.php:94-98 | the capability is never asked for on a 404, and when it is not asked for, its answer cannot change the decision |
| DisableAuthorPages.RedirectTarget | DisableAuthorPages.php:105-110 | a redirect's status is the stored status, or `'301'` when none is stored; its location is `get_permalink` of the destination when the destination is truthy, even when that is false, and `home_url()` when the destination is absent, `''` or `'0'` |
| DisableAuthorPages.DisableAuthorLink | DisableAuthorPages.php:136-142 | the author link becomes `''` when the author-link option casts to 1, and is its input cast to string otherwise |
| DisableAuthorPages.AuthorLinkIdempotent | DisableAuthorPages.php:136-142 | applying the author-link filter to its own output changes nothing |
| DisableAuthorPages.AuthorLinkDefaultKeeps | DisableAuthorPages.php:137 | with the author-link option never saved (default `'0'`), links pass through unchanged |
| DisableAuthorPages.PluginSettingsLink | DisableAuthorPages.php:289-298 | for every argument, null, scalar or array, the result's first key is `'settings'`; the anchor it merges is built from `admin_url` of the settings page and the two label strings |
| DisableAuthorPages.SettingsLinkLayout | DisableAuthorPages.php:290-298 | for every argument (an array one being a PHP array, keys distinct) the result is the `'settings'` entry, holding the argument's own `'settings'` value when it has one and the anchor otherwise, followed by every other entry in order with integer keys renumbered from 0; no key appears twice |
| PhpArrays.ArrayCast | DisableAuthorPages.php:298 | `(array)` yields a PHP array with no key twice: null and scalars always do, an array argument is left as it is |
| PhpArrays.MergeAfterHead | DisableAuthorPages.php:298 | `array_merge` of `[s => w] + rest` with an array of distinct keys: `s` stays first and takes the later value, `rest` is unchanged, new string keys follow in order, integer keys are renumbered |
| PhpArrays.MergeKeepsHead | DisableAuthorPages.php:298 | merging into a non-empty array never moves its first key |
| PhpArrays.UpdateAbsent | DisableAuthorPages.php:298 | writing a string key that is not present appends it at the end |
| PhpArrays.RenumberDistinct | DisableAuthorPages.php:298 | renumbering integer keys of an array with distinct keys keeps keys distinct |
| PhpValues.IntCast | DisableAuthorPages.php:76 | `(int)` of an option value is always a 64-bit PHP integer, and `(int) false` is 0 |
| PhpValues.SkipWhitespace | DisableAuthorPages.php:76 | the cast skips exactly a maximal prefix of space, tab, newline, carriage return, vertical tab and form feed |
| PhpValues.DigitPrefix | DisableAuthorPages.php:76 | the cast reads the longest run of leading decimal digits |
| PhpValues.IntCastSkipsWhitespace | DisableAuthorPages.php:76 | leading whitespace never changes `(int)` of an option string |
| PhpValues.DecimalStringCast | DisableAuthorPages.php:91 | a string of decimal digits casts to the number it spells, saturated to 64 bits |
| PhpValues.IntIs1ImpliesTruthy | DisableAuthorPages.php:93 | a value that casts to integer 1 is truthy, because `false`, `''` and `'0'` cast to 0 |
| PhpValues.CheckboxValuesAgree | DisableAuthorPages.php:186-191 | for the values the settings form stores (`'1'`, `''`) and an absent option, `(int) … === 1` and truthiness agree, and hold only for `'1'` |

## Left out

- The constructor's hook wiring, `register_settings`, `load_translations` and `options_menu` (DisableAuthorPages.php:51-61, 120-170) only register callbacks with WordPress and have no logic.
- `create_options_disable_author_menu` (DisableAuthorPages.php:175-275) renders and escapes the settings form. It is not modelled. Its select offers only `'301'` and `'307'`, but the decision passes any stored status through unchecked, and so does the model.
- plugin.php is not part of this model. Its uninstall routine is a raw SQL `DELETE … LIKE 'disable_author_pages_%'`, which is database I/O. The rest of the file is bootstrap.
- The internals of WordPress are not modelled: `get_option` storage and its filters, `is_404`, `is_author`, `get_query_var`, `author_can`, `get_the_ID`, `get_permalink`, `home_url`, `admin_url`, translation and escaping, `wp_safe_redirect`'s validation of the URL, the HTTP response and `exit`. Each is an input or an oracle value. A redirect in the model stands for the response being sent and processing stopping.
- Option values and query vars are strings or absent. Serialized non-string option values (arrays, integers) are not modelled.
- PhpValues.IntCast: PHP converts a numeral with a decimal point or exponent through a binary64 double. The model truncates the exact decimal value instead. So strings within rounding distance of an integer (for example `"0.99999999999999999999"`, which PHP casts to 1) and numerals that overflow to infinity (which PHP casts to 0, while the model saturates) are read differently. The exponent forms follow PHP 7.1 and later. PHP 7.0, the oldest version the plugin header admits, stops at the `e`.
- DisableAuthorPages.StringCast: `(string)` of PHP values other than null, strings and arrays (integers, floats, booleans, objects) is not modelled. An array gives `"Array"`, and PHP's accompanying warning is not modelled.
- PhpArrays.MergeInto: the next free integer index of the merge target is modelled as a counter starting at 0 and incremented by one for each appended integer key. This equals PHP's rule here, because `array_merge` builds a fresh array that receives integer keys only by appending. The merged values are strings, and the `(array)` cast is modelled for null, strings and arrays only.
