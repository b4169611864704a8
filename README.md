# Magic Card Business server: a Dafny model

This project models the core logic of the Magic Card Business server (`server.js`). Users save a
greeting card (an id, a message type and an optional text) in a hosted `cards` table. They read it
back by id through a viewer page, and a QR code links a phone to that page. The model covers three
pieces:

- **Base-URL resolver** (`getBaseUrl`). A pure, first-match-wins function of the request's protocol
  and Host header:
  1. the pinned tunnel hostname resolves to the constant `https://papir.ca`;
  2. any other tunnel domain (`ngrok-free.dev`, `.app`, `.com`) gets the declared protocol with an
     `s` appended;
  3. everything else is used as declared.

  The tunnel-info endpoint's `isUsingYourNgrok` comparison is modelled with it. The model also
  gives an independent reference definition for the resolver: a data-driven table of host rules
  (`BaseUrl.Resolve`, `BaseUrl.TunnelPolicy`), proved equal to it.
- **`cards` table** (`CardStore`). A map from `card_id` to row. The insert refuses an id that is
  already present, with Postgres code `23505`. The single-row select filters on the exact id and
  `status = 'active'`, and reports `PGRST116` when no row matches.
- **Two card endpoints** (`CardApi`):
  - `POST /api/cards` checks the fields by JavaScript truthiness, then checks the database handle.
    It inserts the trimmed record with status `active`, maps store errors to 409 or 500, and on
    success builds the share, viewer, local-viewer, QR and maker links.
  - `GET /api/cards/:card_id` does the active-row lookup. It maps "no rows" (or no data) to 404 and
    any other error to 500.

  The handlers have two forms. Pure functions (`Create`, `Get`) state what each handler does to a
  table value. The class `CardApi.Server` holds the handle, fixed at start-up, and the `cards` map.
  Its `PostCard` method changes the map, and its `GetCard` function only reads it.

The JavaScript built-ins the logic depends on are modelled in `JsStrings`: `trim`, using
ECMAScript's whitespace and line-terminator characters, and `includes`.

The model follows the code, including where it departs from what the links and field names suggest (one assumption about store faults is listed under "Left out"):

- The viewer link and the QR payload use the constant `https://papir.ca`, not the resolved base URL.
  The base URL computed at server.js:228 is never used.
- These links are built from `card_id` as the request sent it. The stored id is trimmed.
- Validation tests truthiness before trimming. A whitespace-only id therefore passes and is stored
  as the empty string, and a whitespace-only text is stored as `""`, not NULL.
- The GET handler does not trim the id in the path.
- `created_at` and `updated_at` come from two separate clock readings. They are not modelled.

Two things come from outside the model and are passed in as parameters: `fault`, a database failure
outside the id constraint (network, credentials, other constraints), and `encode`, standing for
`encodeURIComponent`.

## Model

| member | source | states |
|---|---|---|
| `JsStrings.Trim` | server.js:197-199 | `String.prototype.trim`; no ensures of its own, characterised by `TrimSpec`, `TrimFixesTrimmed`, `TrimIdempotent` and `TrimEmptyIffBlank` |
| `JsStrings.Contains` | server.js:21-26 | `String.prototype.includes`; no ensures of its own, characterised by `ContainsIff` and `ContainsTransitive` |
| `BaseUrl.HostOf` | server.js:17 | the Host header or the empty string; no ensures of its own, characterised by `MissingHostIsEmpty` |
| `BaseUrl.GetBaseUrl` | server.js:16-32 | `getBaseUrl`; no ensures of its own, characterised by `GetBaseUrlFollowsPolicy`, `PinnedHostWins`, `TunnelHostAppendsS`, `OtherHostAsDeclared` and `MissingHostIsEmpty` |
| `BaseUrl.IsUsingYourNgrok` | server.js:362 | the `isUsingYourNgrok` comparison; no ensures of its own, characterised by `IsUsingYourNgrokExactly` |
| `CardApi.NewRecord` | server.js:196-203 | the inserted row; no ensures of its own, characterised by `CreateInsertsNormalisedRecord`, `NewRecordOfTrimmed` and `MessageTextNormalised` |
| `CardApi.ViewerUrl` | server.js:229 | the viewer link on the pinned origin; no ensures of its own, characterised by `CreatedLinks` and `GetFindsOnlyActive` (which covers its use at server.js:309) |
| `CardApi.QrCodeUrl` | server.js:230 | the QR image link; no ensures of its own, characterised by `QrCarriesViewer` |
| `CardApi.SavedUrls` | server.js:236-242 | the links of a 201; no ensures of its own, characterised by `CreatedLinks` |
| `CardApi.CreateFromReply` | server.js:207-249 | the create handler's mapping of the insert reply to 409, 500 or 201; no ensures of its own, characterised by `CreateStatusTable`, `DuplicateIdRejected`, `StoreFailureReported` and `CreatedLinks` |
| `CardApi.GetFromReply` | server.js:282-310 | the get handler's mapping of the select reply to 404, 500 or 200; no ensures of its own, characterised by `GetFindsOnlyActive` and `GetErrorMapping` |
| `JsStrings.TrimStartSpec` | server.js:197-199 | the left half of `trim`: what it keeps is a suffix of the input, everything it drops is whitespace, and the result does not start with whitespace |
| `JsStrings.TrimEndSpec` | server.js:197-199 | the right half of `trim`: what it keeps is a prefix of the input, everything it drops is whitespace, and the result does not end with whitespace |
| `JsStrings.TrimSpec` | server.js:197-199 | `trim` returns an infix of its input with no whitespace at either end, and only whitespace is dropped on either side |
| `JsStrings.TrimFixesTrimmed` | server.js:197-199 | `trim` leaves a string unchanged exactly when neither end is whitespace |
| `JsStrings.TrimIdempotent` | server.js:197-199 | trimming twice is trimming once |
| `JsStrings.TrimEmptyIffBlank` | server.js:197-199 | a string trims to `""` exactly when it is all whitespace |
| `JsStrings.ContainsIff` | server.js:21-26 | `includes` holds exactly when the needle occurs at some index of the string |
| `JsStrings.ContainsTransitive` | server.js:21-26 | a host containing `t` contains every substring of `t` |
| `BaseUrl.PinnedHostIsTunnelHost` | server.js:21-26 | every host naming the pinned tunnel also matches the generic tunnel rule, so rule order decides |
| `BaseUrl.PinnedHostWins` | server.js:13-23 | a host containing the pinned name resolves to `https://papir.ca` for every protocol, although the tunnel rule also matches |
| `BaseUrl.TunnelHostAppendsS` | server.js:26-28 | any other tunnel host resolves to `protocol + "s://" + host` |
| `BaseUrl.OtherHostAsDeclared` | server.js:30-31 | a host naming no tunnel domain resolves to `protocol + "://" + host`, and the pinned rule cannot fire for it |
| `BaseUrl.MissingHostIsEmpty` | server.js:17 | a missing Host header resolves like an empty one, to `protocol + "://"` |
| `BaseUrl.IsUsingYourNgrokExactly` | server.js:362 | for a colon-free protocol, the comparison holds exactly for a host naming the pinned tunnel, or for `https` and host `papir.ca` |
| `BaseUrl.ResolveFirstMatch` | server.js:20-28 | in a rule table, the first rule whose markers the host contains decides the result |
| `BaseUrl.ResolveNoMatch` | server.js:30-31 | when no rule matches, the request's protocol and host are used as declared |
| `BaseUrl.GetBaseUrlFollowsPolicy` | server.js:16-32 | `getBaseUrl` equals the two-rule table (pinned host to the fixed URL, tunnel domains to forced TLS) applied to the header-or-empty host |
| `CardStore.Insert` | server.js:194-205 | the insert succeeds exactly when there is no fault and the id is absent, and then adds only that row; otherwise the table is unchanged; a fault comes back as the reply's error, and without one an existing id gives error `23505` and no data; existing rows are never altered, and uniqueness by id is kept |
| `CardStore.SelectActive` | server.js:275-280 | a returned row is in the table, is active and has the requested id; a fault comes back as the reply's error |
| `CardStore.SelectFindsActiveRow` | server.js:275-280 | without a fault, the select finds a row exactly when some row has that exact id and is active, and returns that row; otherwise it reports `PGRST116` |
| `CardApi.Create` | server.js:171-223 | the create handler answers only 201, 400, 409, 500 or 503, and `success` holds exactly for 201; only a 201 changes the table, existing rows are never changed, and ids stay unique |
| `CardApi.Get` | server.js:262-310 | the get handler answers only 200, 404, 500 or 503, and `success` holds exactly for 200 |
| `CardApi.CreateStatusTable` | server.js:178-223 | each create status as an if-and-only-if condition: 400 when a field is falsy; then 503 when there is no handle; then 409 for a `23505` fault or an existing trimmed id; 500 for any other fault; otherwise 201 |
| `CardApi.MissingFieldsFirst` | server.js:178-184 | a falsy `card_id` or `message_type` gives 400 with `required = ['card_id','message_type']` whatever the handle and the store, and inserts nothing |
| `CardApi.CreateInsertsNormalisedRecord` | server.js:196-205 | on 201, the inserted row has the id and type trimmed, the text trimmed (NULL exactly when falsy) and status `active`; it is stored under its previously absent trimmed id and returned as `card` |
| `CardApi.NewRecordOfTrimmed` | server.js:196-200 | fields that need no trimming are stored exactly as sent |
| `CardApi.BlankIdStoredEmpty` | server.js:178-197 | a whitespace-only id passes validation and is stored as the empty id, while the links keep the id as sent |
| `CardApi.MessageTextNormalised` | server.js:199 | an absent or empty text is stored as NULL, any other text trimmed, and a whitespace-only text as `""` |
| `CardApi.DuplicateIdRejected` | server.js:207-216 | an id whose trimmed form is taken gives 409 `Duplicate card ID`, with a message quoting the id as sent, and leaves the table unchanged |
| `CardApi.StoreFailureReported` | server.js:218-222 | any other store error gives 500 `Database operation failed` with the store's message as `details`, and the table is unchanged |
| `CardApi.QrCarriesViewer` | server.js:230 | the QR link contains the encoded viewer link as its `data=` parameter |
| `CardApi.CreatedLinks` | server.js:228-241 | on 201: viewer is `https://papir.ca/viewer.html?card=` plus the id as sent, share is the same path without the origin, the local link is on `http://localhost:3000`, maker is `https://papir.ca/maker.html`, and the QR link carries the encoded viewer link |
| `CardApi.CreateKeepsKeysTrimmed` | server.js:197 | if every key is trimmed before a create, every key is trimmed after it |
| `CardApi.GetFindsOnlyActive` | server.js:275-310 | without a fault, get gives 200 exactly when an active row with exactly that id exists, returning that row and the pinned viewer link; otherwise it gives 404 `Card not found` with the id in the message |
| `CardApi.UnknownIdNotFound` | server.js:282-289 | an id that no row has gives 404 |
| `CardApi.UntrimmedIdNotFound` | server.js:278 | the path id is not trimmed, so an id with whitespace at an end gives 404 when every stored key is trimmed |
| `CardApi.GetErrorMapping` | server.js:282-296 | a store error on get gives 404 for `PGRST116` and 500 with the message as `details` for any other code |
| `CardApi.NoHandleUnavailable` | server.js:186-191 | without a database handle, a valid create gives 503 and changes nothing |
| `CardApi.NoHandleGetUnavailable` | server.js:268-273 | without a database handle, every get gives 503, whatever the id and the store |
| `CardApi.UntrimmedLinkNotFound` | server.js:197-278 | a create whose id has whitespace at an end gives 201 with share and viewer links carrying the id as sent (server.js:229, 237), but the key is stored trimmed (server.js:197) and the get path is not trimmed (server.js:278), so a get on that id gives 404 |
| `CardApi.CreateThenGet` | test-flow.js:86-101 | after a successful create under a fresh id, get on the trimmed id returns 200 with the stored record and the sent type and text (trimmed); for an id sent without surrounding whitespace, get on the id as sent gives the same answer |
| `CardApi.TestFlowCreateAndRead` | test-flow.js:61-101 | for a fresh, already-trimmed id, create gives 201 and stores the card under that id with viewer link `https://papir.ca/viewer.html?card=<id>`, and get then gives 200 |
| `CardApi.TestFlowRejects` | test-flow.js:105-141 | on the table after that create, a second create with the same id gives 409 and changes nothing, and an id never created gives 404; it also states that a create without a type gives 400 there (server.js:178-184), which the script does not check |
| `CardApi.Server.constructor` | server.js:146-168 | the server starts with a handle that is either present or absent, fixed from then on, and a table that is unique by id |
| `CardApi.Server.InsertRow` | server.js:194-205 | the insert changes the `cards` map exactly as `CardStore.Insert` says and keeps it unique by id |
| `CardApi.Server.PostCard` | server.js:171-259 | the response and the new `cards` map are those of `CardApi.Create` on the old map; a non-201 response leaves the map unchanged |
| `CardApi.Server.GetCard` | server.js:262-319 | gives 200 exactly when the handle is present, there is no fault and an active row with exactly that id exists; the body is then that row with the pinned viewer link |

## Left out

- Express wiring: helmet CSP, CORS, body-size limits, rate limiting, static files, the welcome page, the catch-all 404 handler and console logging. This is framework plumbing.
- Supabase client construction and environment loading. Only the presence or absence of the handle is modelled (the `connected` flag).
- `/api/health`, `/api/test-supabase` and `/api/ngrok-info`. These are diagnostic endpoints outside the card logic: health reports whether the handle is set, test-supabase makes a live query, and ngrok-info assembles display strings. Only the `isUsingYourNgrok` comparison is modelled.
- The `created_at` and `updated_at` timestamps. They come from two separate clock readings.
- The 201 body's fixed `instructions` and `note` texts. They are constant display strings.
- How `encodeURIComponent` works, and the QR image service. The encoder is the parameter `encode`, and the QR link is only a string.
- The generic 500 from the `catch` blocks. It is reached only when a non-string field makes the handler throw (in the log template or in `trim`), and request fields are modelled as strings.
- Database failures other than the id constraint and "no rows" (network, credentials, other constraints). They arrive through the `fault` parameter.
- CardStore.Insert: a fault is assumed to leave the table unchanged, so an insert that commits but whose reply is lost (a 500 answer with the row stored, after which a retry gets 409) is not modelled. The "non-201 leaves the table unchanged" clauses of `CardApi.Create`, `CardApi.StoreFailureReported` and `CardApi.Server.PostCard` rest on this assumption.
- Races between concurrent creates of one id. The database's uniqueness constraint settles them.
- `.single()` seeing several rows. With ids unique, the select never finds more than one row.
- The GET branch for "no error and no data" (server.js:298-303) is modelled in `GetFromReply`, but the table model never produces it.
- A production-domain variant of the resolver that always trusts the request. It lives in other server configurations, which are not part of this model.
- The client scripts (test-flow.js, create-samples.js, test-phone-qr.js, cleanup.js, test-fix.js). They are HTTP and database clients. test-flow.js is used only for the expected status codes.
