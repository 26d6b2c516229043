# Success-stories gallery: verified model of its filter engine and content handler

The repository is a small React gallery of "success stories" served by a
Directus CMS. Two pieces of it hold logic, and this project models both in
Dafny and proves what they promise.

- **The gallery component** (`src/App.js`). Once the content has been fetched,
  the component stores the full article list. It derives the option lists of
  the two `<select>` controls, which are the distinct `program_detail` values
  and the distinct `company_name` values, each in order of first appearance. It
  also shows a filtered view of the list, recomputed from the full list
  whenever a select changes. The model is the class `AppComponent.App`, with
  the four state slots as fields, a `Load` method for the state updates after
  the fetch and a `FilterContent` method for `filterContent`. Both methods are
  specified by pure functions: `Sequences.Distinct` is `[...new Set(xs)]`,
  which `AppComponent.Options` applies to one facet, and
  `AppComponent.FilterArticles` is `articles.filter(...)`. The asset URL
  template of the rendered list is the separate function
  `AppComponent.ImageUrl`.
- **The content handler** (`api/fetchContent.js`). It checks the `token` query
  parameter and forwards an accepted token as a bearer credential to the CMS.
  It then turns the upstream result into a 200, 400 or 500 response. The
  model is the pure function `FetchContent.Handle`. It takes the parsed query
  value, the configured endpoint and the upstream outcome as inputs. It
  returns the upstream request it sent, if any, and the response.
  `String.prototype.trim` is modelled in `Whitespace`, using ECMAScript's exact
  set of white-space and line-terminator code points.

Modelling decisions:

- An article attribute is a `JsValues.JsValue`: a string, `null` or
  `undefined`. A `Set` keeps `null` and `undefined` as option values of their
  own. A template literal renders them as the text "null" or "undefined". A
  filter never matches them, because `===` against a non-empty string fails.
- The filter arguments are strings, because they are the `value` of a
  `<select>`. The only falsy string is `""`, which is what the "All ..." options
  carry.
- The option lists are derived from the full list, so the menus are static.
  They do not narrow as the user filters. This is what `src/App.js` does.
- The query token is a `FetchContent.QueryValue`: absent, a string, an array
  of strings (the parameter repeated) or an object (`token[k]=v`). Only an
  absent token and the empty string are falsy. An empty array is truthy, so it
  fails the format check, not the presence check.
- The upstream result is a `FetchContent.Upstream`:
  - ok with a parsed JSON body;
  - ok with a body that does not parse;
  - a non-2xx status;
  - a thrown error, which covers network failure and the timeout.

  Reading `data.data` throws on a `null` body, which gives a 500. On any other
  body that has no `data` member it yields `undefined`. The handler then
  answers 200 with no payload (`res.json(undefined)`).

## Model

| member | source | states |
|---|---|---|
| `Sequences.Distinct` | src/App.js:19-20 | `[...new Set(xs)]` is no longer than `xs`, has no duplicates and holds exactly the elements of `xs` |
| `Sequences.DistinctFirstSeenOrder` | src/App.js:19-20 | the de-duplicated list keeps the order in which the elements first occur in `xs` |
| `Sequences.DistinctUnique` | src/App.js:19-20 | any list with exactly the elements of `xs` in first-seen order is the de-duplicated list, so these properties determine it |
| `AppComponent.Options` | src/App.js:19-20 | the option list of one facet, `Distinct` applied to `FacetValues` (the `.map(article => article.program_detail)` or `company_name`): duplicate-free and no longer than the article list; `OptionsSoundAndComplete` and `OptionsDistinctInFirstSeenOrder` state what it holds and in which order |
| `AppComponent.FacetAccepts` | src/App.js:32-33 | one facet test: the selection `f` is falsy, or the attribute is `=== f`; its meaning is stated by `FilterKeepsExactlySelected`, `FilterNothingSelected` and `SelectionIsCaseSensitive` |
| `AppComponent.Selected` | src/App.js:31-34 | the filter callback, both facet tests joined by `&&`; `FilterIsConjunction` states the AND |
| `AppComponent.OptionsSoundAndComplete` | src/App.js:19-20 | a value is a program (company) option iff some loaded article carries it |
| `AppComponent.OptionsDistinctInFirstSeenOrder` | src/App.js:19-20 | each option appears once and options follow first appearance among the articles; no other list has both properties |
| `AppComponent.OptionSelectsSomeArticle` | src/App.js:19-20 | every string option, when selected, matches at least one loaded article |
| `AppComponent.FilterArticles` | src/App.js:31-34 | the view is no longer than the full list and each article in it passes both facet tests |
| `AppComponent.FilterKeepsExactlySelected` | src/App.js:31-34 | an article is in the view iff it is in the full list and passes both tests, and it appears there as many times as in the full list |
| `AppComponent.FilterIsSubsequence` | src/App.js:31-34 | the view is an order-preserving subsequence of the full list |
| `AppComponent.FilterNothingSelected` | src/App.js:32-33 | with both selections empty the view is the full list, unchanged and in order |
| `AppComponent.FilterIsConjunction` | src/App.js:32-33 | filtering by both facets equals filtering by program and then by company (logical AND) |
| `AppComponent.FilterIdempotent` | src/App.js:31-34 | filtering the view again with the same selection changes nothing |
| `AppComponent.FilterAppend` | src/App.js:31-34 | the filter decides article by article: it distributes over concatenation |
| `AppComponent.SelectionIsCaseSensitive` | src/App.js:32-33 | matching is exact `===`: "Acme" is matched by "Acme", not by "acme" or "Acme ", and an article whose company is `null` or absent is not matched by "Acme" |
| `AppComponent.ImageUrl` | src/App.js:59 | the template `${endpoint}/assets/${learner_image}`; `ImageUrlRoundTrip` and `ImageUrlInjective` state its properties |
| `JsValues.TemplateString` | src/App.js:59 | how `${v}` renders a string, `null` or `undefined`; used by `ImageUrl` and `ContentRequest` |
| `AppComponent.ImageUrlRoundTrip` | src/App.js:59 | the URL is the endpoint, then `/assets/`, then the image reference, and the reference can be read back from it |
| `AppComponent.ImageUrlInjective` | src/App.js:59 | two URLs on one endpoint are equal iff the image references render equally; an unset endpoint renders as "undefined" |
| `AppComponent.App.constructor` | src/App.js:4-7 | all four state slots start empty |
| `AppComponent.App.Load` | src/App.js:18-21 | after loading, `articles` and `filteredArticles` are the content and the option lists are its distinct program and company values |
| `AppComponent.App.FilterContent` | src/App.js:30-36 | the view is recomputed from the full `articles`, not from the previous view; only `filteredArticles` changes, and the state invariant holds |
| `Whitespace.IsWhitespace` | api/fetchContent.js:12 | the code points `trim` removes: ECMAScript WhiteSpace and LineTerminator; `TrimEmptyIff` relates it to `trim` |
| `Whitespace.TrimStart` | api/fetchContent.js:12 | removes exactly the leading white space: what is dropped is white space and what stays does not start with it |
| `Whitespace.TrimEnd` | api/fetchContent.js:12 | removes exactly the trailing white space |
| `Whitespace.Trim` | api/fetchContent.js:12 | the result is a contiguous piece of the input, surrounded only by white space, that neither starts nor ends with white space |
| `Whitespace.TrimEmptyIff` | api/fetchContent.js:12 | `s.trim() === ''` iff every character of `s` is white space |
| `FetchContent.Validate` | api/fetchContent.js:8-14 | the two token checks in source order, the first being `Falsy` (`!token`, true only for an absent or empty token); an accepted token is the received string itself and is non-empty; `MissingToken`, `MalformedToken` and `AcceptedToken` characterise each outcome |
| `FetchContent.ContentRequest` | api/fetchContent.js:17-20 | the upstream request: the URL is the rendered endpoint followed by `/items/success_stories?filter[status][_eq]=published`, and the authorization is `Bearer ` followed by the token unchanged |
| `FetchContent.DataMember` | api/fetchContent.js:29 | reading `data.data` throws exactly on `null`, finds exactly the `data` member of an object, and is `undefined` otherwise |
| `FetchContent.Reply` | api/fetchContent.js:16-33 | the `try`/`catch`: 200 exactly when the upstream was ok with a non-null JSON body, carrying its `data` member when it has one and no payload when it does not; otherwise 500 "Internal Server Error" |
| `FetchContent.Handle` | api/fetchContent.js:5-34 | the exported handler: an upstream request is sent exactly for an accepted token, and without one the status is 400; `UpstreamOnlyForAcceptedToken`, `UpstreamOutcome` and `StatusCodes` state the rest |
| `FetchContent.MissingToken` | api/fetchContent.js:8-10 | 400 "Token is required" exactly for an absent or empty token |
| `FetchContent.MalformedToken` | api/fetchContent.js:12-14 | 400 "Invalid token format" exactly for an array, an object or a non-empty all-white-space string |
| `FetchContent.AcceptedToken` | api/fetchContent.js:8-14 | a token is accepted iff it is a string with a non-white-space character, and it is accepted unchanged |
| `FetchContent.UpstreamOnlyForAcceptedToken` | api/fetchContent.js:8-22 | the upstream call is made iff the token is accepted; it goes to the endpoint plus `/items/success_stories?filter[status][_eq]=published` with `Bearer ` and the untrimmed token |
| `FetchContent.EmptyTokenIsMissing` | api/fetchContent.js:8-10 | the empty string fails the presence check, not the format check |
| `FetchContent.BlankTokenIsMalformed` | api/fetchContent.js:12-14 | a white-space-only token passes the presence check and fails the format check |
| `FetchContent.ArrayTokenIsMalformed` | api/fetchContent.js:12-14 | a repeated parameter (an array, even an empty one) is rejected as malformed |
| `FetchContent.PaddedTokenSentAsIs` | api/fetchContent.js:12-19 | a token with surrounding spaces is accepted and forwarded with its spaces |
| `FetchContent.UpstreamOutcome` | api/fetchContent.js:24-32 | for an accepted token: 200 iff the upstream was ok with a parsable non-null body; it carries exactly the `data` member when the body has one and no payload (`res.json(undefined)`) when it does not; otherwise 500 "Internal Server Error" |
| `FetchContent.StatusCodes` | api/fetchContent.js:8-32 | the status is 200, 400 or 500, and it is 400 exactly when no upstream call was made |

## Left out

- api/getAccessToken.js: the credential login is not part of this model. It is a POST with secrets from the environment and holds no logic to verify.
- The `fetch` calls in both files, `response.json()`, async sequencing and the 5-second timeout are not executed. Their results arrive as inputs: content for `Load`, an `Upstream` outcome for `Handle`.
- `console.*` logging is left out because it has no effect on state or responses.
- React rendering, JSX and the `useEffect` lifecycle are left out. `filterContent` reads the other select with `document.getElementById` (src/App.js:42,50); the model has the caller pass both current select values to `FilterContent`.
- Environment variables are opaque `JsValue` parameters, so an unset variable renders as "undefined".
- A non-array body reaching `fetchData`, for example the handler's `{ error: ... }` object, is not modelled. Line 18 would store that object in `articles`, and line 19 would then throw, leaving the other three slots unchanged.
- Content elements that are not objects are not modelled: `Article` is always a record. In src/App.js a `null` element makes `article.program_detail` on line 19 throw, so only `articles` (line 18) is replaced and the other three slots keep their old values; with both selections empty, lines 32-33 never read the element and a `null` passes the filter, while a non-empty selection makes `filterContent` throw. A primitive element (number, string, boolean) reads every attribute as `undefined`, which the model could express only as an `Article` whose attributes are all `Undefined`.
- Article attributes that are numbers, booleans or objects are not modelled. Only strings, `null` and `undefined` are.
- The JSON body of an ok upstream response is modelled only down to its `data` member. Numbers are treated as reals, so the handler's behaviour is unaffected.
- The alt text of each image (src/App.js:66) and the option markup are rendering only.
- Pagination, caching, month facets, sorting and incremental rendering are not in these files and are not modelled.
