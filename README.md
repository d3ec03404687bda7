# Fintech site core: admin gate, article views, client helpers, class filter

A Dafny model of the decision logic inside a small Django news site:

- **Admin IP gate** (`AdminMiddleware`, core/middleware.py).
  - Built once from the `ADMIN_URL` and `ADMIN_ALLOWED_IPS` settings, it normalises the admin prefix to `/…/` and collects the allowed addresses into a set.
  - For a request below the prefix, it takes the client address from the first comma token of `X-Forwarded-For`, trimmed, or else from `REMOTE_ADDR`.
  - It answers 403 unless that address is allowed.
  - The middleware object never changes after construction, so it is a datatype value. `New` is `__init__` and `Call` is `__call__`.
- **Article and contact views** (`Views`, website/views.py over the records of website/models.py).
  - Querysets are sequences of `Article` records in the manager's newest-first order. An ORM `filter(...)` is `Filter` with one `Lookup` per keyword.
  - `home` is the first five published articles.
  - `article_list` is the published list, narrowed by exactly three URL slugs.
  - `article_detail` is `get_object_or_404(slug=…, is_published=True)`, with the "more than one" outcome kept explicit.
  - `contact` appends one `ContactMessage` on a valid POST.
- **Client helpers** (`ClientScript`, static/js/main.js).
  - `getCookie` is a method with its `for` loop and early `break`, proved equal to the function `CookieValue`.
  - The table-of-contents handler is a method that assigns each heading's `id` in place and appends list items to a `TocList` object.
  - `shareArticle`'s platform switch is the function `ShareUrl`.
- **`add_class` template filter** (`FormUtils`, website/templatetags/form_utils.py).
  - It composes the `class` attribute.
  - It falls back to the untouched field when rendering raises.
- **`Text`**: the host languages' string operations, written out (with the differences listed under "Left out").
  - Python `split(c)[0]`, `strip()` and `strip('/')`.
  - JavaScript `split`, `trim` and `substring`, with each language's own whitespace set.
  - The decimal rendering used in `heading-${index}`.

Three behaviours of the code are easy to misread:

- **Category slugs.** The code compares the slug with exactly `finance`, `technology` and `real-estate`; no hyphen-to-underscore rewriting takes place and there is no `trade` slug. So `real_estate`, `trade` and any other slug fall through to the unfiltered list (`Views.OtherSlugShowsAll`, `Views.UnknownSlugShowsAll`).
- **No header normaliser or redirect.** The code has no forwarded-host normaliser and no `www.` redirect. The gate does its own first-token extraction (`AdminMiddleware.ClientIp`).
- **Empty forwarded header.** For the header, the gate's test is Python truthiness, so an empty `X-Forwarded-For` falls back to `REMOTE_ADDR` like an absent one.

## Model

| member | source | states |
|---|---|---|
| AdminMiddleware.NormalizeAdminUrl | core/middleware.py:14 | The prefix always starts and ends with `/`. A missing or empty `ADMIN_URL` gives exactly `/admin/`. Otherwise the inner part is the setting with its slashes stripped, and it has no slash at either end. |
| AdminMiddleware.New | core/middleware.py:12-16 | Keeps the handler and normalises the prefix. An address is allowed exactly when the setting is present and lists it; `None` allows nothing. |
| AdminMiddleware.ClientIp | core/middleware.py:22-27 | With a non-empty forwarded header, the address is the whitespace-stripped text before the first comma, and it holds no comma. Otherwise it is `REMOTE_ADDR`, or absent when that key is missing. |
| AdminMiddleware.Decide | core/middleware.py:20-30 | Rejects exactly when the path starts with the prefix and the client address is not in the allow-set. |
| AdminMiddleware.Call | core/middleware.py:18-32 | On rejection, the fixed 403 response. Otherwise, the handler's response to the same request. |
| AdminMiddleware.NormalizeKeepsCleanPrefix | core/middleware.py:14 | A setting already of the form `/t/`, with `t` having no slash at either end, is kept as it is. |
| AdminMiddleware.NormalizeIdempotent | core/middleware.py:14 | Normalising a normalised prefix gives it back. |
| AdminMiddleware.NormalizeWrapsCleanSetting | core/middleware.py:14 | A setting with no slash at either end is wrapped in one slash on each side. |
| AdminMiddleware.OutsideAdminPassesThrough | core/middleware.py:20 | A path outside the prefix reaches the handler, whatever the request's META holds. |
| AdminMiddleware.ForwardedForOverridesRemoteAddr | core/middleware.py:23-27 | With a non-empty forwarded header, changing `REMOTE_ADDR` changes neither the client address nor the decision. |
| AdminMiddleware.AllowedRemoteAddrDoesNotAdmitForwarded | core/middleware.py:23-30 | An allow-listed `REMOTE_ADDR` does not admit an admin request whose first forwarded token is not allowed. |
| AdminMiddleware.MissingAddressIsRejected | core/middleware.py:27-30 | An admin request with neither a forwarded header nor `REMOTE_ADDR` is refused. |
| AdminMiddleware.RejectedIgnoresHandler | core/middleware.py:29-30 | A rejected request gets status 403 with body `Access to admin is restricted`. Swapping the handler for any other one gives the same response, so the handler is not consulted. |
| AdminMiddleware.AdmittedReachesHandler | core/middleware.py:32 | An admitted request gets the handler's response unchanged. |
| AdminMiddleware.EmptyAllowListRejectsAdmin | core/middleware.py:16-30 | Fails closed: with `ADMIN_ALLOWED_IPS` empty or `None`, every request below the prefix is refused. |
| AdminMiddleware.SingleAllowedAddressGate | core/middleware.py:14-32 | With the prefix `t` and one allowed address `a`, a request below `/t/` forwarded for `a` reaches the handler. One forwarded for any other clean address gets the 403. |
| AdminMiddleware.ControlPanelExample | core/middleware.py:14-32 | `/control-panel/x` forwarded for `1.1.1.1` gets the 403, and forwarded for `9.9.9.9` reaches the handler. |
| AdminMiddleware.FirstForwardedAddressExample | core/middleware.py:25 | `X-Forwarded-For: "1.2.3.4, 5.6.7.8"` gives the client address `1.2.3.4`. |
| AdminMiddleware.ForwardedListFirst | core/middleware.py:25 | A header `a,rest`, with `a` comma-free and with no whitespace at either end, gives `a`. |
| AdminMiddleware.SingleForwardedAddress | core/middleware.py:25 | A header holding one clean address gives that address. |
| Views.Filter | website/views.py:35 | The result holds exactly the records that meet every lookup. It is no longer than the input and keeps the newest-first order. |
| Views.Published | website/views.py:35 | Exactly the published records. |
| Views.FilterIsSubsequence | website/views.py:35 | A filter result is an order-preserving subsequence of its queryset. |
| Views.FilterChain | website/views.py:39 | `.filter(l1).filter(l2)` equals one filter with both sets of keywords. |
| Views.FilterUniqueSlug | website/models.py:22 | With unique slugs, a filter on the slug keeps at most one record. |
| Views.Home | website/views.py:9 | A prefix of the published list, of length `min(5, number published)`. Every article on it is published and comes from the table. |
| Views.HomeNewestFirst | website/views.py:9 | The home page keeps the manager's newest-first order. |
| Views.HomeIsSubsequence | website/views.py:9 | The home page is an order-preserving subsequence of the table. |
| Views.HomeShowsAllWhenFew | website/views.py:9 | With at most five published articles, the home page is all of them. |
| Views.CategoryForSlug | website/views.py:38-46 | A selected category is always one of `Article.CATEGORY_CHOICES`, with its own label. |
| Views.CategorySlugs | website/views.py:38-46 | `finance`, `technology` and `real-estate` select `finance`/`Finance`, `technology`/`Technology` and `real_estate`/`Real Estate`. No other slug selects anything. |
| Views.ArticleList | website/views.py:30-51 | Every listed article is published, and the list is an order-preserving subsequence of both the table and the published list. With no category: the full published list, labelled `All`. With a category: exactly the published articles of that category, with its label. |
| Views.OtherSlugShowsAll | website/views.py:36-46 | Any slug other than `finance`, `technology` and `real-estate`, and no slug at all, gives the full published list labelled `All`. |
| Views.UnknownSlugShowsAll | website/views.py:36-46 | No slug, `real_estate` with an underscore, and an unknown slug all give the full published list labelled `All`. |
| Views.ArticleListNewestFirst | website/views.py:35-46 | Every list page keeps the newest-first order. |
| Views.ArticleDetail | website/views.py:54-61 | A found article is published, has the slug and comes from the table. The 404 is given exactly when no published article has the slug. |
| Views.DetailFindsPublished | website/views.py:58 | With unique slugs, the lookup never finds two. It finds `a` exactly when `a` is the published article with that slug. |
| Views.DetailHidesUnpublished | website/views.py:58 | Removing every unpublished record from the table changes no lookup. |
| Views.UnpublishedLooksMissing | website/views.py:58 | An unpublished article gets the same 404 as a slug that does not exist. |
| Views.Contact | website/views.py:19-27 | The old messages are kept as a prefix, with at most one more. The thanks page is rendered exactly when one message was added, and that is exactly a valid POST. The new message holds the form's cleaned fields and the time. A form page is bound exactly for a POST. |
| Views.ContactGetWritesNothing | website/views.py:25-27 | A GET renders the empty form and writes nothing. |
| ClientScript.GetCookie | static/js/main.js:95-108 | The loop returns `CookieValue`: `null` for an empty cookie string, otherwise the decoded value of the first trimmed `;`-entry that starts with `name=`. |
| ClientScript.EntryMatchesIsPrefix | static/js/main.js:101 | The `substring` comparison holds exactly when the entry starts with `name=`. |
| ClientScript.FirstCookieAt | static/js/main.js:99-104 | When entry `i` is the first that matches, its value is returned, whatever follows. |
| ClientScript.FirstCookieNone | static/js/main.js:99-107 | The result is `null` exactly when no trimmed entry matches. |
| ClientScript.LaterEntriesIgnored | static/js/main.js:99-104 | Once an entry matches, appending entries, even ones with the same name, changes nothing. |
| ClientScript.EmptyCookieString | static/js/main.js:96-97 | An empty `document.cookie` gives `null`. |
| ClientScript.LongerNameDoesNotMatch | static/js/main.js:101 | An entry whose name merely begins with `name` followed by anything but `=` does not match. |
| ClientScript.CsrfTokenExample | static/js/main.js:101 | `csrftoken2=abc` gives `null` for `csrftoken`. |
| ClientScript.SingleEntry | static/js/main.js:97-104 | A cookie string that is one entry with no blank at either end gives that entry's value if it matches, else `null`. |
| ClientScript.ValueKeepsEquals | static/js/main.js:102 | The value is the decoded text after the first `name=`, so `=` signs inside it are kept. |
| ClientScript.TocList.AppendChild | static/js/main.js:89 | The new item goes at the end; the earlier items are unchanged. |
| ClientScript.TocEntries | static/js/main.js:77-89 | One entry per heading, the `i`-th built from heading `i` and index `i`. |
| ClientScript.GenerateTableOfContents | static/js/main.js:71-91 | With both elements present, the list gains exactly `TocEntries(headings)` at its end, and heading `i` gets id `heading-i`. With either missing, the list is unchanged, and with the list missing no heading's id changes. |
| ClientScript.HeadingIdsDistinct | static/js/main.js:78 | Different indexes give different heading ids. |
| ClientScript.TocEntriesFaithful | static/js/main.js:76-89 | Entry `i` links `#heading-i` with heading `i`'s text. It is indented exactly for an H3. No two entries link to the same anchor. |
| ClientScript.ShareUrlCases | static/js/main.js:54-65 | Exactly `twitter`, `facebook` and `linkedin` give an address, each from its own template. Any other platform leaves it undefined. |
| ClientScript.ShareUrl | static/js/main.js:50-65 | An address is produced exactly for `twitter`, `facebook` and `linkedin`; any other platform leaves it undefined. |
| ClientScript.ShareUrlHost | static/js/main.js:54-65 | Each known platform's address starts with its own site: `https://twitter.com/`, `https://www.facebook.com/` or `https://www.linkedin.com/`. |
| ClientScript.TwitterHost | static/js/main.js:57 | The twitter address starts with `https://twitter.com/`. |
| ClientScript.FacebookHost | static/js/main.js:60 | The facebook address starts with `https://www.facebook.com/`. |
| ClientScript.LinkedinHost | static/js/main.js:63 | The linkedin address starts with `https://www.linkedin.com/`. |
| ClientScript.ShareUrlsDiffer | static/js/main.js:54-65 | Two different platforms never open the same address, because their site prefixes differ. |
| ClientScript.FacebookIgnoresTitle | static/js/main.js:59-60 | The facebook address does not depend on the title. |
| FormUtils.ComposeClass | website/templatetags/form_utils.py:17-20 | With no existing class, the new class alone. Otherwise the existing classes, one space, then the new class. |
| FormUtils.AddClass | website/templatetags/form_utils.py:8-23 | Renders exactly for a bound field whose rendering succeeds; otherwise returns the field itself. The attributes passed hold only `class`, composed from the widget's existing class. |
| FormUtils.ComposeClassAppendsToken | website/templatetags/form_utils.py:17-18 | Read as a space-separated list, the result is the existing list followed by the new class's tokens. |
| FormUtils.AddClassRepeats | website/templatetags/form_utils.py:17-18 | Adding a class that is already there repeats it; nothing is de-duplicated. |
| FormUtils.AddClassToBareWidget | website/templatetags/form_utils.py:16-20 | A widget with no class, or an empty one, gets exactly the new class. |
| FormUtils.ExceptionReturnsField | website/templatetags/form_utils.py:22-23 | If the attribute lookups or the rendering raise, the field comes back unchanged. |
| Text.Split | core/middleware.py:25 | The first piece is the text before the first separator; there is always at least one piece. |
| Text.PyStrip | core/middleware.py:25 | The result has no Python whitespace at either end. |
| Text.JsTrim | static/js/main.js:100 | The result has no JavaScript whitespace at either end. |
| Text.JsSubstring | static/js/main.js:101 | The result is a contiguous piece of the string (a prefix of some suffix), never longer than it. With `start <= end <= length`, it is exactly the characters from `start` up to `end`. |
| Text.JsSubstringFrom | static/js/main.js:102 | The one-argument form: everything from `start` to the end of the string, or the empty string when `start` is past the end. |
| Text.NatToString | static/js/main.js:78 | A non-empty run of decimal digits. |
| Text.NatToStringValue | static/js/main.js:78 | The rendering is the decimal notation of the number: its digits denote it, and it starts with `0` only for `0`. |
| Text.SplitJoin | static/js/main.js:98 | Joining the pieces of a split with the separator gives the string back, and no piece holds the separator. |
| Text.SplitConcat | website/templatetags/form_utils.py:18 | Splitting `a + sep + b` gives the pieces of `a` followed by the pieces of `b`. |
| Text.StripKeepsMiddle | core/middleware.py:14 | Stripping keeps one contiguous piece of the string. Everything cut away on either side is a stripped character. |
| Text.StripNoop | core/middleware.py:25 | Stripping a string with clean ends returns it unchanged. |
| Text.IndexOfIs | core/middleware.py:25 | The first-separator index is exactly the position before which no separator occurs. |
| Text.SubstringEqualsIsPrefix | static/js/main.js:101 | Comparing `substring(0, n)` with a string of length `n` is a prefix test. |
| Text.NatToStringInjective | static/js/main.js:78 | Different numbers render differently. |

## Left out

- Template rendering, HTTP response objects and their headers are not modelled. Views are reduced to the context they render, and responses to status and body.
- The ORM is not modelled. A queryset is a sequence already in `Meta.ordering` (newest first), filters are sequence filters, and `created_at` comes from a clock passed in as `now`.
- Django's contact form validation is not modelled: whether a POST is valid is an input (`isValid`), and `form.save()` is an append to the message sequence.
- `Article.category` is a plain string. The `choices` restriction is enforced only by Django forms and the admin, not by the model's `save`.
- Settings: the settings file defines neither `ADMIN_URL` nor `ADMIN_ALLOWED_IPS`, and reading an undefined setting raises `AttributeError`.
  - The model takes both as optional constructor parameters and does not model that exception.
  - The middleware is also not in the `MIDDLEWARE` list, so the model describes the class and not a running site.
- `encodeURIComponent` and `decodeURIComponent` are opaque function parameters. The `URIError` that `decodeURIComponent` throws on a malformed escape is not modelled.
- `window.open` is not modelled; `ShareUrl` is the address it would be given.
- Text.JsSubstring: counts Dafny characters (Unicode scalar values), while JavaScript's `length` and `substring` count UTF-16 code units, so the two differ on text outside the Basic Multilingual Plane. `getCookie`'s result is unaffected, since its comparison is a prefix test and the value is the remainder of the entry.
- Views.Contact: the form's cleaning (for example the stripping of surrounding whitespace by CharFields) is not modelled; the submission is taken to hold the already cleaned fields.
- The DOM is cut down:
  - `document.querySelector`, `querySelectorAll('h2, h3')` and element creation are given by their results (an `ArticleElement` holding its headings, a `TocList`).
  - `li.style.paddingLeft` is a field of the list item.
- The other scripts in static/js/main.js are not modelled, because they consist of timers, network requests and styling:
  - the reading-progress bar (floating-point scroll arithmetic and scroll events);
  - the newsletter form handler (a network request);
  - `showAlert` (DOM insertion and a timer);
  - lazy image loading.
- website/static/js/main.js is not modelled: it only wires DOM events (search overlay, smooth scrolling, tooltips).
- The `about` view only renders a fixed template.
- Like toggling, comment submission, newsletter signup and the policy pages are routed in the URL configuration, but no view in website/views.py implements them.
- There is no forwarded-host normaliser, no `www.` redirect and no article search in the code, so none is modelled.
- Not modelled because they are configuration or use library calls and randomness:
  - website/templatetags/html_utils.py;
  - website/sitemaps.py (it filters on a `status` field that the model does not define);
  - utils/generate_placeholders.py (image drawing, random colours, files);
  - the `create_sample_data` command.
- Pure configuration, not modelled: settings, URL configuration, admin registration, forms and context processors.
