# Business-process console: verified model of its decision logic

This project models, in Dafny, the three pieces of self-contained logic in the
business-process administration console (a Next.js application):

- **Avatar initials** (`getInitials` in the page layout): how the two letters shown
  for the signed-in user are derived from a name that may be missing. Module `Initials`,
  on top of module `JsString`, which models the JavaScript string operations it uses:
  `trim` (with the full ECMAScript white-space set), `split` on a single space,
  `substring` and `toUpperCase`.
- **Event ingestion** (`POST` of the create-event route and its `CreateEventSchema`):
  which JSON payloads are accepted (201), how a rejection's `details` map is built from
  the validation issues (400), and the catch-all for a body that cannot be read (500).
  Module `CreateEvent`. The issue-to-map `reduce` is a method with a loop, proved equal
  to an independent definition of the map.
- **Route guard** (the `auth` callback of the proxy and its `config.matcher`): who is
  redirected to the sign-in page (with the requested URL as `callbackUrl`), who is sent
  to the dashboard, and which paths the guard runs on at all. Module `Proxy`.

All three are pure decisions with no state between calls, so they are modelled as
functions with lemmas. The source mutates in two places. The accumulator of the `reduce`
becomes the loop of `CreateEvent.FieldErrors`. The `searchParams.set` call on the freshly
built sign-in URL is modelled as building a new query value (`Proxy.SetParam`); nothing
else holds that URL, so no other reader can see the difference.

Some consequences of the code as written that the proofs make explicit:

- A name made only of white space is truthy, so it does not show `??`: it shows the
  empty string (`Initials.InitialsOfBlankName`).
- The ingestion handler (`app/api/create-event/route.ts:12-63`) accepts the fields
  `process_id`, `key`, `status`, `message`, `type`, `sequence` and an optional
  `predecessor`; `status` is any non-empty string; no API key is read; and nothing is
  stored, since the insertion is only a placeholder comment (`route.ts:60-61`).
- The matcher skips every path whose remainder after `/` starts with `login`, so the
  guard never runs on the sign-in page, and its second branch (a signed-in visitor on
  the sign-in page is sent to the dashboard) cannot fire in the deployed guard
  (`Proxy.ProxyRedirectsOnlyToSignIn`). The same prefix rule also leaves `/login-anything`,
  `/images…` and, because `.` is a regular-expression wildcard, `/faviconXico`
  unguarded.
- A body that is not a JSON object yields a single issue with an empty path; the
  `reduce` then files it under the property key `"undefined"`
  (`CreateEvent.NonObjectReported`).

## Model

| member | source | states |
|---|---|---|
| `JsString.Trim` | app/components/layout-floorplan-page.tsx:51 | the result is empty or starts and ends with a non-blank character |
| `JsString.TrimStart` | app/components/layout-floorplan-page.tsx:51 | the result is a suffix of the input that is empty or starts with a non-blank character |
| `JsString.TrimEnd` | app/components/layout-floorplan-page.tsx:51 | the result is a prefix of the input that is empty or ends with a non-blank character |
| `JsString.TrimIsSlice` | app/components/layout-floorplan-page.tsx:51 | the result is the contiguous slice of the input that begins right after its leading white space |
| `JsString.TrimDropsBlank` | app/components/layout-floorplan-page.tsx:51 | everything cut off in front of that slice and behind it is white space |
| `JsString.TrimEmptyIff` | app/components/layout-floorplan-page.tsx:51 | `trim` empties a string exactly when it is all white space |
| `JsString.TrimPadded` | app/components/layout-floorplan-page.tsx:51 | white space added at either end never changes the result of `trim` |
| `JsString.Split` | app/components/layout-floorplan-page.tsx:51 | `split(' ')` always yields at least one piece, so `parts[0]` is always defined |
| `JsString.SplitPieces` | app/components/layout-floorplan-page.tsx:51 | `split(' ')` yields one more piece than there are separators, and no piece holds the separator |
| `JsString.JoinSplit` | app/components/layout-floorplan-page.tsx:51 | joining the pieces with the separator gives back the original string |
| `JsString.SplitJoin` | app/components/layout-floorplan-page.tsx:51 | splitting a join of separator-free pieces gives back the pieces |
| `JsString.SplitAppend` | app/components/layout-floorplan-page.tsx:51 | the pieces of `a + sep + b` are the pieces of `a` followed by the pieces of `b` |
| `JsString.SplitLast` | app/components/layout-floorplan-page.tsx:53 | a non-empty string not ending in the separator has a non-empty last piece |
| `JsString.Substring` | app/components/layout-floorplan-page.tsx:52 | the result is no longer than the input, nor than the distance between the two bounds |
| `JsString.SubstringOrdered` | app/components/layout-floorplan-page.tsx:52 | with the bounds in order, `substring` is the slice between the bounds, each clamped to the length |
| `JsString.SubstringSwap` | app/components/layout-floorplan-page.tsx:52 | swapping the two bounds of `substring` gives the same result |
| `JsString.UpperChar` | app/components/layout-floorplan-page.tsx:52-53 | the result is never a lower-case ASCII letter, letters stay letters, and a character is unchanged exactly when it is not lower-case |
| `JsString.UpperCharAlphabet` | app/components/layout-floorplan-page.tsx:52-53 | each of the 26 lower-case letters becomes its own upper-case letter (`a` to `A` … `z` to `Z`) |
| `JsString.LowerAlphabetComplete` | app/components/layout-floorplan-page.tsx:52-53 | those 26 letters are exactly the lower-case ASCII letters, so the two lemmas above fix `UpperChar` completely |
| `JsString.UpperCharCaseOnly` | app/components/layout-floorplan-page.tsx:52-53 | two different characters become the same one only when exactly one of them is lower-case |
| `JsString.ToUpperIdempotent` | app/components/layout-floorplan-page.tsx:52-53 | upper-casing an upper-cased string changes nothing |
| `JsString.ToUpper` | app/components/layout-floorplan-page.tsx:52-53 | upper-casing keeps the length and maps each character on its own |
| `Initials.InitialsOfTrimmed` | app/components/layout-floorplan-page.tsx:51-53 | reading a trimmed name, as one piece or as its first and last pieces, gives at most two characters |
| `Initials.GetInitials` | app/components/layout-floorplan-page.tsx:49-53 | the result has at most two characters; a null, undefined or empty name gives `"??"` |
| `Initials.OuterPartsNonEmpty` | app/components/layout-floorplan-page.tsx:51-53 | after `trim`, a split into two or more pieces has a non-empty first and last piece, so both `[0]` reads are in range |
| `Initials.InitialsOfOnePart` | app/components/layout-floorplan-page.tsx:51-52 | a name with no space after trimming shows its first `min(2, length)` characters, upper-cased |
| `Initials.InitialsOfSeveralParts` | app/components/layout-floorplan-page.tsx:51-53 | a name with a space after trimming shows exactly two characters: its first character and the first character after its last space, upper-cased |
| `Initials.InitialsIgnorePadding` | app/components/layout-floorplan-page.tsx:51 | leading and trailing white space never changes the initials of a non-empty name |
| `Initials.InitialsIgnoreMiddle` | app/components/layout-floorplan-page.tsx:53 | inserting any middle part between the first and the last part never changes the initials |
| `Initials.InitialsOfBlankName` | app/components/layout-floorplan-page.tsx:50-52 | a non-empty name made only of white space shows `""`, not `"??"` |
| `CreateEvent.Check` | app/api/create-event/route.ts:13-28 | one field's check yields no issue exactly when the value meets its rule, and an issue is filed under that field's name |
| `CreateEvent.CheckAll` | app/api/create-event/route.ts:12-29 | the schema's checks give at most one issue per rule, each filed under a one-segment path |
| `CreateEvent.Validate` | app/api/create-event/route.ts:12-38 | `safeParse` on a body that is not an object gives exactly one issue, with an empty path; on an object it gives at most one issue per schema field, each under a one-segment path |
| `CreateEvent.ValidateEmptyIff` | app/api/create-event/route.ts:12-29 | a payload passes exactly when it is an object with non-empty strings `process_id`, `key`, `status`, `message`, numbers `type` and `sequence`, and `predecessor` absent or a string |
| `CreateEvent.BlankNumberIsMissing` | app/api/create-event/route.ts:18-26 | an empty string in `type` or `sequence` validates exactly as a missing key |
| `CreateEvent.UnknownKeyIgnored` | app/api/create-event/route.ts:12-29 | keys the schema does not name never change the validation outcome |
| `CreateEvent.ErrorMapKeys` | app/api/create-event/route.ts:42-46 | the keys of the error map are exactly the first path segments of the issues (`"undefined"` for an empty path) |
| `CreateEvent.ErrorMapLastWins` | app/api/create-event/route.ts:42-46 | each key holds the message of the last issue filed under it |
| `CreateEvent.ErrorMapSnoc` | app/api/create-event/route.ts:44 | one more issue overwrites the entry of its own key and leaves the rest |
| `CreateEvent.FieldErrors` | app/api/create-event/route.ts:42-46 | the in-order fold that writes each message under its key yields the error map |
| `CreateEvent.IssueKeysAreFailingFields` | app/api/create-event/route.ts:38-46 | the issues of an object are filed exactly under the fields whose rule it breaks |
| `CreateEvent.ErrorMapOfCheckAll` | app/api/create-event/route.ts:38-46 | with one rule per field, each broken field's entry is the message of its own issue |
| `CreateEvent.DetailsKeysOfObject` | app/api/create-event/route.ts:38-54 | `details` of a rejected object names every broken schema field, not just the first, and no other key |
| `CreateEvent.DetailsOfBrokenField` | app/api/create-event/route.ts:38-54 | each broken schema field's entry in `details` is the message of that field's check, whatever the other fields hold |
| `CreateEvent.EmptyStringReported` | app/api/create-event/route.ts:13-16 | a mandatory string field that is present but empty is reported under its name with the schema's own message for it (`"<field> is mandatory"`) |
| `CreateEvent.BadNumberReported` | app/api/create-event/route.ts:18-26 | a missing, empty or non-numeric `type` or `sequence` is reported under its name with the schema's own message for it |
| `CreateEvent.NonObjectReported` | app/api/create-event/route.ts:38-46 | a body that is not an object yields `details` with the single key `"undefined"` |
| `CreateEvent.Post` | app/api/create-event/route.ts:33-67 | 500 `"Internal Server Error"` exactly when the body cannot be read; 201 `"Event created"` exactly when the payload meets the rules; otherwise 400 `"Validation failed"` with the error map of the issues |
| `Proxy.SetParam` | proxy.ts:15 | `searchParams.set` adds at most one pair, and the pair it was given is in the result |
| `Proxy.SetParamThenGet` | proxy.ts:14-15 | after `searchParams.set`, reading that name gives the new value and every other name reads as before |
| `Proxy.Guard` | proxy.ts:4-25 | every redirect of the `auth` callback stays on the request's origin, and goes to `/login` exactly when there is no session |
| `Proxy.GuardRedirectsIff` | proxy.ts:9-25 | the guard redirects exactly when having a session and being on `/login` agree, and otherwise lets the request through |
| `Proxy.GuardSendsToSignIn` | proxy.ts:9-17 | a visitor without a session away from `/login` is sent to `/login` on the same origin with the single parameter `callbackUrl` equal to the requested `href` |
| `Proxy.GuardSendsToDashboard` | proxy.ts:22-23 | a signed-in visitor on `/login` is sent to `/dashboard` on the same origin |
| `Proxy.GuardNoLoop` | proxy.ts:9-25 | following either redirect with the same session is let through: no redirect loop |
| `Proxy.Matches` | proxy.ts:27-29 | the matcher never selects the sign-in page |
| `Proxy.Proxy` | proxy.ts:4-29 | the guard behind its matcher only ever redirects to `/login` on the request's origin |
| `Proxy.MatcherSkipsExcluded` | proxy.ts:27-29 | the guard does not run on any path whose text after `/` starts with `api/auth`, `_next/static`, `_next/image`, `images`, `favicon.ico` or `login` |
| `Proxy.MatcherSkipsSignIn` | proxy.ts:28 | the guard does not run on `/login` |
| `Proxy.MatcherDotIsWildcard` | proxy.ts:28 | the `.` of `favicon.ico` matches any character but a line terminator |
| `Proxy.MatcherGuardsDashboard` | proxy.ts:28 | the guard does run on `/` and on `/dashboard` |
| `Proxy.ProxyRedirectsOnlyToSignIn` | proxy.ts:4-29 | with the matcher applied, a request is redirected exactly when it has no session and its path is guarded, and then always to `/login` |

## Left out

- Rendering, navigation handlers, session hooks, theme and icon loading of the page
  layout: user-interface code around `getInitials`.
- `JsString.ToUpper`: upper-cases the ASCII letters only; the Unicode case mappings of
  `toUpperCase`, including those that change the length (such as `ß` to `SS`), are not
  modelled.
- `JsString.UpperChar`: the same restriction to the ASCII letters, one character at a time.
- Characters are Unicode scalar values, while JavaScript indexes and cuts UTF-16 code
  units, so names with characters outside the Basic Multilingual Plane differ in two ways.
  The `[0]` reads of the several-parts case take half a surrogate pair in the source and
  the whole character in the model. The `substring(0, 2)` of the one-part case counts code
  units: `"𝒜bc"` gives `"𝒜"` in the source and `"𝒜B"` in the model, and `"a𝒜"` gives
  `"A"` followed by a lone surrogate in the source and `"A𝒜"` in the model.
- `Initials.GetInitials`: the bound of at most two characters rests on the ASCII-only
  upper-casing; in the source a length-changing mapping makes the result longer (`"ßß"`
  gives `"SSSS"`).
- The wording of the validation library's default messages (a missing or mistyped string,
  a body that is not an object) is kept abstract as `TypeMismatch(expected, received)`;
  only the texts the schema supplies itself are modelled literally.
- Reading the request body as JSON is an input that either yields a value or fails; the
  parser itself, duplicate keys and numbers too large for a finite value (which the
  parser turns into `Infinity`) are not modelled.
- `CreateEvent.Post`: any exception other than an unreadable body (for example from
  building the response) is not modelled; the `console.log` of the payload and the
  database insertion, which is only a placeholder comment in the handler, are left out.
- A `details` key of `__proto__`, which a plain object would not store as its own entry,
  cannot arise from this schema and is not modelled.
- `Proxy.GuardSendsToSignIn`: the query is a list of name-value pairs; its serialisation
  into the URL text (percent-encoding of the `callbackUrl` value) and the rest of the
  `URL` class are not modelled.
- How the framework compiles the matcher (case sensitivity, trailing slashes, internal
  data routes, locales) is not modelled; the matcher is read as the regular expression it
  spells, applied to the path.
- Session resolution by the authentication library is an input (`isLoggedIn`); `auth.ts`
  is not part of this model.
- The database probes of the `db-test` routes (DNS and TCP with timeouts), the connection
  pool in `lib/db.ts` and the build configuration are I/O and configuration, not part of
  this model.
- The process definition store, the event-list cardinality rules and API-key tenant
  lookup are not part of this model: their code is not among the modelled files.
