# Storefront request-security gate, modelled in Dafny

The storefront (`Program.cs`) is a small ASP.NET Core shop with three
users and three products. Most of it is hosting and HTML. This project
models the part that decides who may do what. It has four pieces:

- **Path allow-list and authentication gate.** `IsWhitelisted` is exact
  membership in `{"/", "/login", "/public"}`. On every other path the
  authentication middleware redirects to `/` when the session has no
  non-empty `UserId`.
- **Login.** `POST /login` finds the first user whose email and password
  match the posted values. It writes that user's Id (a Guid, as text) into
  the session under `UserId`.
- **Safe image resolver.** `GET /images?name=...` checks the name against
  the filter `^[a-zA-Z0-9.\s]*$`. It then joins the name onto
  `<cwd>/public/images`, canonicalises the result with
  `Path.GetFullPath`, and requires the result to start with the base
  path's text. Last, it requires the file to exist.
- **Products and orders.** `GET /products` asks the antiforgery service
  for a request token once per product form. The service caches the
  token for the request, so every form on one page carries the same
  token. `POST /place-order` runs a fixed chain of steps: session check,
  Guid parse, user lookup, `product_id` parse, the `user != null` test,
  CSRF validity, product lookup.

Modules, one per component:

| module | file | what it holds |
|---|---|---|
| `Runtime` | runtime.dfy | `Option`, the exceptions that escape a handler, `List<T>.Find` |
| `Antiforgery` | antiforgery.dfy | request tokens and the per-request feature that caches one |
| `Http` | http.dfy | `Response`, `StringValues` conversions, the `Session` class |
| `Guids` | guids.dfy | `Guid.ToString()` ("D" format) and `Guid.Parse` |
| `Int32Text` | int32_text.dfy | `Int32.ToString()` and `int.Parse` |
| `Accounts` | accounts.dfy | users, `/login`, the session-to-user lookup |
| `Gate` | gate.dfy | `IsWhitelisted`, the middleware, the `UseWhen` branch |
| `Images` | images.dfy | the filter, `Path.Combine`, `Path.GetFullPath`, the resolver |
| `Orders` | orders.dfy | `/products` (a loop that asks for a token per form), `/place-order` |
| `Storefront` | storefront.dfy | how the gate and the endpoints combine |

Where the model's state changes in place, it uses classes. `Session` holds
a `map<string, string>` that `Login` updates through `SetString`.
`RequestFeature` holds the request token cached for one request.
`GetAndStoreTokens` fills it on the first call, and `ListProducts` calls it
once per product. The decisions themselves are functions.

Points where the code differs from what a hardened design would do. The
model follows the code in each case:

- The containment test is a plain `StartsWith`, not a separator-aware
  test. `Images.PrefixTestIsSeparatorAware` proves the two agree on every
  name the filter admits. `Images.SiblingBypassNeedsFilter` proves the
  filter is what makes this so.
- `int.Parse(product_id)` runs before the `user != null` test. So a
  session that names no user, posted with a bad `product_id`, throws
  instead of being redirected (`Orders.ParseRunsBeforeUserCheck`).
- A submitted token is not consumed by `/place-order`. The model does not
  decide validity, so it promises nothing about reuse.
- With the working directory at `/`, the base path text is
  `//public/images`. No canonical path starts with it, so every image is
  refused (`Images.RootWorkingDirectoryRefusesAll`).

## Model

| member | source | states |
|---|---|---|
| `Runtime.FindIndex` | Program.cs:144 | The index returned is the first element that satisfies the predicate. None means no element does. |
| `Runtime.Find` | Program.cs:169 | `List<T>.Find` gives null exactly when no element satisfies the predicate. Otherwise it gives an element of the list that satisfies it. |
| `Runtime.FindFirst` | Program.cs:144 | `Find` returns `xs[i]` when `xs[i]` satisfies the predicate and no earlier element does. |
| `Http.AsString` | Program.cs:249 | Converting form values to a string gives null for no value and the value itself for one value. Several values skip the empty ones: all empty gives "", one non-empty gives that value, and two or more non-empty give text containing a comma. |
| `Http.BlankValuesIgnored` | Program.cs:249 | Empty values posted after at least one value do not change the converted string. |
| `Http.ToStringOrEmpty` | Program.cs:208 | The query value as text: "" for no value or only empty values, the one non-empty value when there is exactly one, and text containing a comma for two or more non-empty values. |
| `Http.GetString` | Program.cs:47 | A session read gives a value exactly when the key is present, and then the stored value. |
| `Http.Session.SetString` | Program.cs:148 | Writing a key replaces that key's value and leaves every other key unchanged. |
| `Guids.GuidText` | Program.cs:148 | `Guid.ToString()` gives "D"-format text with lower-case hex digits. |
| `Guids.ParseGuid` | Program.cs:247 | `Guid.Parse` succeeds exactly on "D"-format text. Anything else throws `FormatException`. |
| `Guids.ParseGuidText` | Program.cs:247 | `Guid.Parse(g.ToString()) == g`: the session's `UserId` text parses back to the same Guid. |
| `Guids.GuidTextOfParse` | Program.cs:168 | Printing a parsed Guid gives back the input text with its hex letters in lower case. |
| `Guids.GuidTextInjective` | Program.cs:148 | Distinct Guids are written into the session as distinct texts. |
| `Int32Text.ParseInt32` | Program.cs:249 | `int.Parse` throws `ArgumentNullException` on null. A value it returns lies in the Int32 range and comes from text that contains a digit. |
| `Int32Text.FormatInt` | Program.cs:185 | The id's text starts with '-' exactly for a negative id. Every other character is a decimal digit. |
| `Int32Text.ParseFormat` | Program.cs:185 | The `product_id` field printed from an Int32 id parses back to that id. |
| `Int32Text.ParseRefusesLeadingJunk` | Program.cs:249 | Text that starts with something other than white space, a sign or a digit throws `FormatException`. |
| `Int32Text.ParseIntegerText` | Program.cs:249 | Text laid out as white space, an optional '+' or '-', one or more digits, then white space parses to the value it denotes. When that value is outside the Int32 range, it throws `OverflowException`. So "+5" and " 05 " both give 5. |
| `Int32Text.ParsedTextHasLayout` | Program.cs:249 | Any text that does not throw `FormatException` has that layout. |
| `Int32Text.ParseInt32Outcomes` | Program.cs:249 | `int.Parse` throws `FormatException` exactly on text without the layout. On text with it, the result is the denoted value, or `OverflowException` when that value is outside the Int32 range. |
| `Antiforgery.RequestFeature.GetAndStoreTokens` | Program.cs:176-177 | The first call of a request yields a newly generated token and caches it. Every later call of the same request yields the cached token, which is never replaced. |
| `Accounts.CurrentUser` | Program.cs:239-248 | The session-to-user lookup. An empty or missing `UserId` is anonymous. Text that is not a Guid throws `FormatException`. A known user is in the user list and has the parsed Id. An unknown Id matches no user. |
| `Accounts.Login` | Program.cs:140-156 | On a match, the session gets `UserId` set to that user's Guid text and the response redirects to /products. With no match, the session is unchanged and the response is "Invalid credentials. Please try again.". |
| `Accounts.LoginPicksFirstMatch` | Program.cs:144 | The user chosen is the first in list order whose email and password equal the single posted values. |
| `Accounts.LoginRejects` | Program.cs:144-155 | No user is chosen when no user has both the email and the password, or when either field is missing or posted more than once. |
| `Accounts.LoginThenKnown` | Program.cs:144-169 | When user Ids are distinct, the session written by a successful login resolves to exactly the user who logged in. |
| `Accounts.SeedLogins` | Program.cs:63-68 | With the seed users, Alice's credentials log in Alice, and Bob's email with Alice's password logs in nobody. |
| `Gate.IsWhitelisted` | Program.cs:77-81 | A path is allow-listed exactly when it equals "/", "/login" or "/public". |
| `Gate.WhitelistIsExact` | Program.cs:77-81 | These paths are gated: "/public/x", "/login/", "/Login", "", "/products" and "/images". |
| `Gate.AuthenticationMiddleware` | Program.cs:45-56 | `next()` runs exactly when `UserId` is present and non-empty. Otherwise the response is a redirect to "/". |
| `Gate.GateDecision` | Program.cs:119-122 | A request passes exactly when its path is allow-listed or the session has a non-empty `UserId`. Otherwise it is redirected to "/". |
| `Gate.Serve` | Program.cs:118-124 | A request that the gate lets through gets its endpoint's answer. Any other request gets a redirect to "/". |
| `Gate.AnonymousNeverReachesEndpoint` | Program.cs:119-122 | Off the allow-list and without a `UserId`, the answer is a redirect to "/" whatever the endpoint would have answered. |
| `Gate.WhitelistedAlwaysReachesEndpoint` | Program.cs:119-122 | An allow-listed path reaches its endpoint whatever the session holds. |
| `Gate.GateIgnoresWhoTheUserIs` | Program.cs:47-55 | The gate passes any session whose `UserId` is non-empty, including one that names no user or is not a Guid. |
| `Gate.LoginOpensGate` | Program.cs:148 | After a successful login, every path passes the gate. |
| `Images.PassesFilter` | Program.cs:211-215 | A name that passes `^[a-zA-Z0-9.\s]*$` holds no '/', no '\\', no NUL and no ','. |
| `Images.Combine` | Program.cs:219 | `Path.Combine` gives the first path for an empty second one. A rooted second path (or an empty first path) gives the second path. Otherwise the result starts with the first path, ends with the second, and has one '/' before the second. |
| `Images.FullPath` | Program.cs:222 | `Path.GetFullPath` throws exactly on an empty path or one that holds NUL. |
| `Images.ResolveImage` | Program.cs:211-234 | A file is resolved only for a name that passes the filter, and only when its path starts with the base path and is an existing file. The filter refuses exactly the names that fail it. |
| `Images.ImagesEndpoint` | Program.cs:206-235 | A file is sent only when it exists and its path starts with the base path. |
| `Images.ResolvedPath` | Program.cs:217-222 | A name that passes the filter is joined on as one segment. After canonicalisation it is the base directory (for "" and "."), its parent (for ".."), or the entry of the base named by the name. |
| `Images.PrefixTestRefusesOnlyParent` | Program.cs:224-228 | Among names that pass the filter, the `StartsWith` test refuses exactly "..". |
| `Images.PrefixTestIsSeparatorAware` | Program.cs:224-228 | On names that pass the filter, the plain prefix test agrees with a separator-aware containment test. No sibling directory gets through. |
| `Images.ResolveImageOutcomes` | Program.cs:210-234 | Every outcome, for a non-root working directory. The filter decides `InvalidName`. ".." alone is outside the base. Otherwise existence decides between not found and the file at the target path. No exception is thrown. |
| `Images.SentFileIsEntryOfBase` | Program.cs:229-234 | A sent file is the entry of the image directory whose name is the query's name, and that name is a single plain segment. |
| `Images.DirectoryIsNotFound` | Program.cs:229-231 | A name that resolves to the image directory itself ("", "." or no name) gets "Image not found!". |
| `Images.RepeatedNameRefused` | Program.cs:208-215 | Two or more non-empty `name` values are joined with a comma and refused as an invalid name. |
| `Images.BlankNamesIgnored` | Program.cs:208 | A query whose only non-empty `name` value is n gets the same answer as `name=n` given once. |
| `Images.RootWorkingDirectoryRefusesAll` | Program.cs:218-228 | With the working directory at the root, every name is refused by the filter or by the prefix test. |
| `Images.SiblingBypassNeedsFilter` | Program.cs:210-228 | "../images<suffix>/<file>" would canonicalise into a sibling directory whose path starts with the base path's text but lies outside it. The filter refuses every such name. |
| `Orders.ListProducts` | Program.cs:158-204 | For a known user: one form per product in catalogue order, carrying the product's id text and image, and every form carries the request's one token (the cached one, or else the newly generated one, which becomes cached). Otherwise: a redirect to "/" (or the Guid parse's exception), and the request's antiforgery state is untouched. |
| `Orders.PlaceOrder` | Program.cs:237-284 | "Order Placed" happens only with a valid token and a known user. A 403 happens only with an invalid token. |
| `Orders.OrderPlacedOnlyAfterAllGuards` | Program.cs:251-274 | An order is placed only with a valid token, for a known user, and for a parsed id that names a catalogue entry whose name is on the page. |
| `Orders.PlaceOrderOutcomes` | Program.cs:239-283 | Every branch of the guard chain: redirect, exception, 403 "CSRF validation failed", or 404 "Product not found", in source order. |
| `Orders.TokenCheckedOnlyForKnownUsers` | Program.cs:251-263 | When the session's user is not known, the token check does not affect the answer and no order is placed. |
| `Orders.ParseRunsBeforeUserCheck` | Program.cs:247-251 | For a session that names no user, any `product_id` without the integer layout throws `FormatException`, and a missing one throws `ArgumentNullException`. There is no redirect. |
| `Orders.BlankIdRepeatsIgnored` | Program.cs:249 | Empty `product_id` values posted after a value change no answer of /place-order. |
| `Orders.SubmittedFormOrdersItsProduct` | Program.cs:265-273 | Submitting the form rendered for a product, with a valid token, orders that product when no earlier product has the same Id. With a duplicate Id, `products.Find` picks the earlier product. |
| `Orders.NullIdFormFails` | Program.cs:185 | The form of a product with a null Id posts an empty `product_id`, which throws `FormatException`. |
| `Orders.SeedFormsOrderTheirProducts` | Program.cs:70-75 | Each seed product's form orders that product. |
| `Storefront.PlaceOrderGateIsRedundant` | Program.cs:239-245 | /place-order checks the session itself, so putting the gate in front of it changes no answer. |
| `Storefront.ImagesOnlyBehindGate` | Program.cs:119-122 | /images reads no session. Only the gate keeps a request without a signed-in user away from the files. |
| `Storefront.LoginThenOrder` | Program.cs:148 | Logging in and then submitting a rendered form with a valid token places the order through the gate. |

## Left out

- Host bootstrap, routing, session and cookie options, and antiforgery options are framework wiring. They include `SameSite = None` on the session cookie and the form field name `__CSRF`.
- Route matching is left out. ASP.NET routing ignores case and trailing slashes. `Gate.Serve` takes the endpoint's answer as given.
- The HTML of `/`, `/products` and the order page is presentation. The model keeps only which forms `/products` renders and which product an order names. Prices (`decimal`) are not modelled.
- The internals of `IAntiforgery` are a library. Token validity is a boolean oracle given to `PlaceOrder`. The token a generation would produce is a parameter, because the generation uses randomness. How tokens bind to the antiforgery cookie, and the cookie `GetAndStoreTokens` sets, are not modelled.
- The file system is I/O. The working directory is a parameter given as canonical segments. `File.Exists` is membership in a set of regular-file paths. `SendFileAsync` is the `SendFile` response.
- `Path.GetFullPath` is modelled for Unix only. Windows drive letters, trimming of trailing dots and spaces, symbolic links, and the preservation of a trailing separator are left out. No path the resolver builds ends in a separator.
- `String.StartsWith(string)` compares with the current culture. The model uses an ordinal prefix test.
- `Guid.Parse` is modelled for the "D" format only. The N, B, P and X formats and surrounding white space are treated as malformed. So are "D"-format components with a `0x` or `+` prefix, which .NET's compatibility parsing accepts. The application only writes "D"-format text into the session.
- `int.Parse` culture settings are left out: the model uses the invariant signs `+` and `-`. .NET's parser skips trailing NUL characters, and the model refuses text that ends in them.
- `Request.Form` on a request that is not a form post throws. This is not modelled.
- Async execution, concurrent requests, and session storage, expiry and cookies are left out. Each function or method describes one request.
- An exception that escapes a handler is the `Crash` response. The developer exception page and the 500 status are not modelled further.
