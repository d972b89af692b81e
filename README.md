# PrimeHealthCare blog: the admin panel's logic in Dafny

This project models the logic core of a content site with an admin panel.
The site is a Next.js front end written in TypeScript. The model covers:

- **The admin session store** (`AuthStore`). It has four actions, `login`, `logout`, `setUser` and
  `checkAuth`, over the session `{user, token, isAuthenticated, isLoading}`.
  It also covers the browser storage the bearer token is written to, and the record the persistence
  middleware saves. The REST client is a parameter (`AuthClient`) that answers each call with success
  or failure. Each action is a step function on a snapshot. The `SessionStore` class performs the
  same action field by field and promises the step function's result.
- **The idle watchdog** (`IdleTimer`). It calls `onIdle` after `idleTime` milliseconds without
  activity.
  - Time is a virtual clock advanced by `Tick` inputs.
  - The host timer table is a map from handle to due time.
  - `timeoutRef` is an optional handle, and the document listeners are a set of event names.
  - The `IdleWatchdog` class attaches and detaches listeners in loops.
- **The public blog's search** (`BlogSearch`). It is a case-insensitive substring filter over the
  fetched articles. The page is a class whose invariant is that the list on screen is always the
  search result.
- **The side menu** (`Sidebar`): expanding and collapsing groups, highlighting links by pathname, and
  hiding entries reserved for super administrators.
- **The header title** (`Header`): a table lookup with a substring override for edit pages.
- **The article form** (`ArticleEditor`). This covers:
  - the submit validation (title, then content);
  - the multipart form built on success, as a sequence of (name, value) entries;
  - the initial field values;
  - the image select and remove events.
- **Shared pieces.** `Types` holds the records of `types/index.ts`. `Text` holds the JavaScript
  string operations on `seq<char>`: `trim`, `toLowerCase` (ASCII letters), `includes`,
  `startsWith` and `replace`. `Seqs` holds `Array.prototype.filter` and order-preserving
  selection.

The model follows the code as written, including where it looks unintended:

- The session can be authenticated without a token, because `setUser` sets only the user and the flag.
- `checkAuth` without a stored token leaves the in-memory token as it was.
- A failed `login` can leave the new token in storage, because the token is stored before the
  profile fetch.

## Model

| member | source | states |
|---|---|---|
| AuthStore.InitialSession | store/authstore.ts:22-25 | a fresh store has no user and no token, and is neither authenticated nor loading |
| AuthStore.Bearer | lib/api.ts:22-28 | the request carries the stored token exactly when storage holds a non-empty one |
| AuthStore.HasTruthyToken | store/authstore.ts:71 | the stored token counts as present exactly when `getItem` returns a value and that value is not the empty string |
| AuthStore.LoginStep | store/authstore.ts:28-49 | success installs the fetched admin, the returned token and the authenticated flag, and stores the token. If the token exchange fails, storage is unchanged, only that call is made and its error is rethrown. If the profile fetch fails, that fetch's error is rethrown. Any failure leaves the session as it was with loading off |
| AuthStore.LogoutStep | store/authstore.ts:52-60 | both storage keys are gone and every other key is kept with its value. User and token are cleared, the session is signed out, `isLoading` is untouched, and no call is made |
| AuthStore.SetUserStep | store/authstore.ts:63-65 | the user is replaced and the session marked authenticated; token, loading flag and storage are untouched |
| AuthStore.CheckAuthStep | store/authstore.ts:68-93 | no truthy token: signed out with no call, token kept. With a token, exactly one profile call carrying it. Success installs user and stored token. Failure removes the stored token and clears the session. It never throws when storage does not, and never changes `isLoading` |
| AuthStore.ActionsKeepInvariants | store/authstore.ts:28-93 | every action preserves "authenticated implies a user" and "an in-memory token implies a stored one" |
| AuthStore.SetUserAuthenticatesWithoutToken | store/authstore.ts:63-65 | `setUser` on a fresh store gives an authenticated session with no token |
| AuthStore.FailedReloginDesynchronisesToken | store/authstore.ts:34-37 | a re-login whose profile fetch fails keeps the old session but leaves the new token in storage |
| AuthStore.LogoutIdempotent | store/authstore.ts:52-60 | logging out twice gives the same result as once |
| AuthStore.CheckAuthAfterLogout | store/authstore.ts:69-74 | after `logout`, `checkAuth` makes no call and changes nothing |
| AuthStore.CheckAuthConfirmsLogin | store/authstore.ts:68-82 | when the same client answers the login's profile fetch and the later check, and its answer depends only on the bearer token, `checkAuth` after a successful login with a non-empty token re-establishes exactly the same session with one profile call |
| AuthStore.Partialize | store/authstore.ts:97-101 | the saved record holds user, token and the authenticated flag and leaves `isLoading` out (its round trip is `PersistRoundTrip`) |
| AuthStore.Rehydrate | store/authstore.ts:96-102 | the state after reload saves back to exactly the record it was loaded from and keeps the current `isLoading` |
| AuthStore.PersistRoundTrip | store/authstore.ts:97-101 | the persisted record ignores `isLoading`, and rehydrating it restores user, token and the flag |
| AuthStore.LoginScenario | store/authstore.ts:28-44 | concrete login: the token "abc" is stored and the admin signed in |
| AuthStore.SessionStore.constructor | store/authstore.ts:22-25 | the new object is in the initial state over the given storage |
| AuthStore.SessionStore.Login | store/authstore.ts:28-49 | field-by-field assignments reach `LoginStep`'s state, calls and error |
| AuthStore.SessionStore.Logout | store/authstore.ts:52-60 | two key removals and one `set` reach `LogoutStep`'s state |
| AuthStore.SessionStore.SetUser | store/authstore.ts:63-65 | reaches `SetUserStep`'s state |
| AuthStore.SessionStore.CheckAuth | store/authstore.ts:68-93 | reaches `CheckAuthStep`'s state and calls |
| IdleTimer.TimerDelay | hooks/idleTimer.ts:11-13 | the browser's delay: `idleTime` itself up to 2^31-1 ms; beyond that, `idleTime` modulo 2^32 read as a signed 32-bit integer, a negative value meaning 0 |
| IdleTimer.TimerDelayWraps | hooks/idleTimer.ts:11-13 | a 2^31 ms or 2^32-1 ms window fires at once, and a 2^32+5000 ms one after five seconds |
| IdleTimer.AtMostOnePending | hooks/idleTimer.ts:6-13 | in a valid state at most one timer is pending, the one `timeoutRef` holds |
| IdleTimer.Mount | hooks/idleTimer.ts:3-4 | a first render has no listener, no timer and no call of `onIdle` |
| IdleTimer.ResetTimerStep | hooks/idleTimer.ts:6-14 | the old timer is cancelled and exactly one timer is pending, due `idleTime` from now; validity is kept |
| IdleTimer.ActivateStep | hooks/idleTimer.ts:16-33 | all six activity events are listened to, and a deadline is armed even without activity |
| IdleTimer.DispatchStep | hooks/idleTimer.ts:28-30 | a listened event moves the deadline to now plus `idleTime`; any other event changes nothing |
| IdleTimer.AdvanceStep | hooks/idleTimer.ts:11-13 | advancing the clock keeps listeners and `timeoutRef` and sets the clock to the later time |
| IdleTimer.AdvanceFiresAtDeadline | hooks/idleTimer.ts:11-13 | `onIdle` fires exactly once if the deadline falls in the elapsed time, otherwise not. Firing leaves nothing pending |
| IdleTimer.TeardownStep | hooks/idleTimer.ts:36-43 | cleanup detaches every listener and leaves no timer pending |
| IdleTimer.ActivityRun | hooks/idleTimer.ts:28-30 | stepping through activity moments one at a time reaches the same state as running the inputs |
| IdleTimer.ActivityBeforeDeadline | hooks/idleTimer.ts:6-13 | activity before the deadline, including at the current instant, fires nothing and re-arms at that moment plus `idleTime` |
| IdleTimer.ShortGapsNeverFire | hooks/idleTimer.ts:6-30 | any mix of listened events (say `mousemove` then `click`) whose gaps are all below `idleTime`, including several events in the same millisecond or one at the current instant, never fires `onIdle`, and leaves the deadline `idleTime` after the last event |
| IdleTimer.NoRearmWithoutActivity | hooks/idleTimer.ts:11-13 | with nothing pending, time alone never fires `onIdle` or re-arms |
| IdleTimer.SilentAfterTeardown | hooks/idleTimer.ts:36-43 | after cleanup, no input ever fires `onIdle` or arms a timer |
| IdleTimer.IdleAfterActivationFiresOnce | hooks/idleTimer.ts:11-13 | after activation and silence, nothing has fired 1 ms before the deadline and exactly one call has fired at it (on the next tick for a zero delay) |
| IdleTimer.Scenario | hooks/idleTimer.ts:3-44 | 100 ms window: 150 ms of silence fire once; after an event at 50 ms nothing has fired at 130 ms and one call has by 151 ms |
| IdleTimer.IdleWatchdog.constructor | hooks/idleTimer.ts:3-4 | the object starts in `Mount`'s state |
| IdleTimer.IdleWatchdog.ResetTimer | hooks/idleTimer.ts:6-14 | in-place cancel and rearm reaches `ResetTimerStep` |
| IdleTimer.IdleWatchdog.Activate | hooks/idleTimer.ts:16-33 | the attaching loop and the first arm reach `ActivateStep` |
| IdleTimer.IdleWatchdog.Dispatch | hooks/idleTimer.ts:28-30 | reaches `DispatchStep` |
| IdleTimer.IdleWatchdog.AdvanceTo | hooks/idleTimer.ts:11-13 | reaches `AdvanceStep` |
| IdleTimer.IdleWatchdog.Teardown | hooks/idleTimer.ts:36-43 | the detaching loop and the cancel reach `TeardownStep` |
| Text.BlankIffAllWhitespace | app/blog/page.tsx:48 | `!s.trim()` holds exactly when every character is whitespace |
| Text.TrimStartSpec | app/blog/page.tsx:48 | leading trim leaves a suffix starting with non-whitespace and drops only whitespace |
| Text.TrimEndSpec | app/blog/page.tsx:48 | trailing trim leaves a prefix ending with non-whitespace and drops only whitespace |
| Text.ToLower | app/blog/page.tsx:51 | lower-casing keeps the length and lowers each ASCII capital |
| Text.ToLowerIdempotent | app/blog/page.tsx:51 | lowering twice is lowering once |
| Text.IncludesIffOccurs | app/blog/page.tsx:55-56 | `includes` holds exactly when the substring occurs at some position |
| Text.ReplaceFirstAbsent | components/dashboard/article-editor.tsx:79 | `replace` with an absent pattern returns the string unchanged |
| Text.ReplaceFirstAt | components/dashboard/article-editor.tsx:79 | `replace` rewrites exactly the first occurrence |
| Seqs.FilterSelects | app/blog/page.tsx:53-57 | `filter` returns an ordered selection of its input that holds each passing element exactly as often as the input does, and no failing element |
| Seqs.FilterAppend | components/dashboard/sidebar.tsx:60 | filtering distributes over concatenation |
| Seqs.FilterKeepsAll | components/dashboard/sidebar.tsx:96 | a filter that passes everything returns its input |
| Seqs.FilterIdempotent | app/blog/page.tsx:53-57 | filtering twice is filtering once |
| BlogSearch.Matches | app/blog/page.tsx:54-56 | an article matches when its lowered title, or its lowered excerpt if it has one, contains the query |
| BlogSearch.SearchFilter | app/blog/page.tsx:47-60 | a blank query shows every article; the result is never longer than the list |
| BlogSearch.SearchFilterSelects | app/blog/page.tsx:51-58 | the result is an ordered subsequence. For a non-blank query, an article is kept, as often as the list holds it, exactly when its lowered title, or its lowered non-null excerpt, contains the lowered query |
| BlogSearch.SearchFilterIdempotent | app/blog/page.tsx:52-58 | searching the result again with the same query changes nothing |
| BlogSearch.LowerKeepsWhitespace | app/blog/page.tsx:48-51 | lowering does not change whether a query is blank |
| BlogSearch.SearchIgnoresQueryCase | app/blog/page.tsx:51 | an upper-case query finds the same articles as its lower-case form |
| BlogSearch.TrailingSpaceIsSearched | app/blog/page.tsx:48-51 | trimming serves only the blank test: "FLU" finds "Flu" and "FLU " does not |
| BlogSearch.BlogPage.constructor | app/blog/page.tsx:25-28 | nothing fetched, loading, an empty query |
| BlogSearch.BlogPage.ApplySearchFilter | app/blog/page.tsx:47-60 | the list on screen becomes the search result; nothing else changes |
| BlogSearch.BlogPage.FetchCompleted | app/blog/page.tsx:30-44 | on success the fetched list replaces the list and is shown searched (all of it for a blank query). On failure both lists stay. Loading ends either way |
| BlogSearch.BlogPage.SetSearchQuery | app/blog/page.tsx:47-60 | a new query is stored and the screen shows its result |
| Sidebar.Without | components/dashboard/sidebar.tsx:60 | every copy of the name is removed; other names keep their order and multiplicity |
| Sidebar.WithoutIsFilter | components/dashboard/sidebar.tsx:60 | the removal is the component's `filter` call |
| Sidebar.ToggleExpanded | components/dashboard/sidebar.tsx:57-63 | an open group is removed (everything else kept, in order); a closed one is appended and the rest left as it was |
| Sidebar.ToggleAbsentTwice | components/dashboard/sidebar.tsx:57-63 | opening then closing a group restores the list exactly |
| Sidebar.TogglePresentTwiceReorders | components/dashboard/sidebar.tsx:57-63 | closing then reopening a group moves it to the end |
| Sidebar.InitiallyOnlyArticlesExpanded | components/dashboard/sidebar.tsx:55 | only "Articles" starts expanded |
| Sidebar.IsActive | components/dashboard/sidebar.tsx:65 | a link is active exactly on the pathname equal to its `href` |
| Sidebar.LinkHighlightIsExact | components/dashboard/sidebar.tsx:65-67 | a top-level link is highlighted on its own page and not below it, while a group's link with the same `href` is highlighted below it too |
| Sidebar.ChildHighlighted | components/dashboard/sidebar.tsx:134 | a group's link is highlighted on its own page or on any path that starts with its `href` and a slash |
| Sidebar.IsChildActive | components/dashboard/sidebar.tsx:66-67 | a group is active exactly when one of its links is its page or a page below it |
| Sidebar.NewPageHighlightsBoth | components/dashboard/sidebar.tsx:34-35 | on "/Adminarticles/newpage" both article links and the group are highlighted |
| Sidebar.PrefixNeedsSlash | components/dashboard/sidebar.tsx:134 | a path sharing letters but no slash boundary is not highlighted |
| Sidebar.VisibleItems | components/dashboard/sidebar.tsx:94-96 | the shown entries keep menu order and are exactly those not reserved, plus reserved ones for super administrators |
| Sidebar.SuperAdminSeesAll | components/dashboard/sidebar.tsx:96 | a super administrator sees the whole menu |
| Sidebar.OthersDoNotSeeAdmins | components/dashboard/sidebar.tsx:38-43 | anyone else, including nobody signed in, sees every entry but "Admins" |
| Header.LooksLikeEditPage | components/dashboard/header.tsx:23 | a path looks like an edit page when it contains both "/articles/" and "/edit" anywhere |
| Header.PageTitle | components/dashboard/header.tsx:8-25 | an edit-looking path gets "Edit Article"; otherwise a key gets its title and any other path "Dashboard"; the title is always one of six |
| Header.CreatePageKeepsItsTitle | components/dashboard/header.tsx:11-23 | "/articles/new" keeps "Create Article" |
| Header.EditPathGetsOverride | components/dashboard/header.tsx:22-25 | "/articles/<id>/edit" gets "Edit Article" for every id |
| Header.ListRouteUnmapped | components/dashboard/header.tsx:20-23 | the panel's list route is no key and no edit page |
| Header.CreateRouteUnmapped | components/dashboard/header.tsx:20-23 | the panel's create route is no key and no edit page |
| Header.EditRouteUnmapped | components/dashboard/header.tsx:20-23 | the panel's edit route for a numeric id is no key and, despite "/edit", no edit page |
| Header.AdminArticlePagesShowDashboard | components/dashboard/header.tsx:8-25 | `PageTitle` of the panel's article list, create and edit paths (under "/Adminarticles") is the fallback "Dashboard" |
| ArticleEditor.Lookup | components/dashboard/article-editor.tsx:125-130 | reading a form entry finds one exactly when the name was appended, and returns the value of the first entry with that name |
| ArticleEditor.BoolString | components/dashboard/article-editor.tsx:129 | the published flag is sent as "true" exactly when it is true, otherwise "false" |
| ArticleEditor.ContentMissing | components/dashboard/article-editor.tsx:120 | content is missing when there is no editor, its HTML is empty, or the editor reports itself empty |
| ArticleEditor.Submit | components/dashboard/article-editor.tsx:115-133 | a blank title alerts "Title is required" whatever the content. Otherwise missing content alerts "Content is required". Otherwise the form is submitted |
| ArticleEditor.FormNames | components/dashboard/article-editor.tsx:125-130 | the form's entries are title, content, excerpt, published and, only with a selected image, featured_image, in that order |
| ArticleEditor.FormFields | components/dashboard/article-editor.tsx:125-130 | each entry holds what went in: title untrimmed, the editor html, the excerpt, "true"/"false", and the image iff one is selected |
| ArticleEditor.TitleSentUntrimmed | components/dashboard/article-editor.tsx:116-126 | " Flu " passes validation and is sent with its spaces |
| ArticleEditor.ApiBase | components/dashboard/article-editor.tsx:79 | an unset address prints "undefined"; one without "/api" is kept |
| ArticleEditor.ApiBaseStripsApi | components/dashboard/article-editor.tsx:79 | `host + "/api" + rest`, with no "/api" in host, becomes `host + rest` |
| ArticleEditor.InitialPreview | components/dashboard/article-editor.tsx:77-81 | a preview exists exactly when the article has a non-empty image, and is that image under the API base |
| ArticleEditor.InitialTitle | components/dashboard/article-editor.tsx:74 | the title starts as the article's, or empty |
| ArticleEditor.InitialExcerpt | components/dashboard/article-editor.tsx:75 | the excerpt starts as the article's non-null excerpt, or empty |
| ArticleEditor.Editor.constructor | components/dashboard/article-editor.tsx:74-81 | fields start from the article; no image selected; nothing alerted or submitted |
| ArticleEditor.Editor.SetTitle | components/dashboard/article-editor.tsx:74 | only the title changes |
| ArticleEditor.Editor.SetExcerpt | components/dashboard/article-editor.tsx:75 | only the excerpt changes |
| ArticleEditor.Editor.HandleImageChange | components/dashboard/article-editor.tsx:105-113 | the first chosen file becomes the image; no file leaves the image state unchanged |
| ArticleEditor.Editor.PreviewLoaded | components/dashboard/article-editor.tsx:110 | the read data URL becomes the preview |
| ArticleEditor.Editor.RemoveImage | components/dashboard/article-editor.tsx:239 | both file and preview are cleared |
| ArticleEditor.Editor.HandleSubmit | components/dashboard/article-editor.tsx:115-133 | an alert appends its message and submits nothing. An accepted submit hands over exactly one form, the one `Submit` describes, and alerts nothing. Fields are unchanged |

## Left out

- The REST client (`lib/api.ts`) is not part of this model beyond its request interceptor. Its
  answers are the `AuthClient` parameter. The response interceptor's 401 handling (clearing
  storage, redirecting to the login page) is a browser side effect and is not modelled.
- Asynchrony: each store action runs atomically. Interleaved `login`/`checkAuth` calls and the
  moment during `login` when `isLoading` is true are not observable. The sidebar's 500 ms delayed
  logout and its toast are not modelled.
- The persistence middleware's JSON serialisation is not modelled. Only the saved projection
  (`Partialize`) and the merge on reload (`Rehydrate`) are. The middleware's own `auth-storage`
  key, which it rewrites after every `set`, is outside `Storage`. So "every other key is kept"
  and "storage untouched" speak only of the keys the actions write themselves.
- `toLowerCase` lowers ASCII letters only. Other Unicode case mappings are not modelled. Strings
  are sequences of Unicode scalar values rather than UTF-16 code units. `trim`, `includes`,
  `startsWith` and `replace` agree with JavaScript on well-formed strings, and lone surrogates
  cannot be represented.
- AuthStore.CheckAuthStep / LogoutStep / LoginStep: storage calls never fail in this model.
  - In the source, `getItem` (store/authstore.ts:69) sits outside the `try`. So storage that throws
    (site data blocked) makes `checkAuth` reject instead of signing out.
  - The `removeItem` calls of `logout` (store/authstore.ts:53-54) and of `checkAuth`'s failure
    branch (store/authstore.ts:86) are unguarded. A throw there escapes before the session is
    cleared.
  - A failing `setItem` in `login` (store/authstore.ts:34) is caught and rethrown with no profile
    fetch made. The model cannot express this case.
- Real timers, DOM listeners and React effect scheduling are replaced by a virtual clock and
  explicit inputs. The effect's re-run when `idleTime` or `onIdle` changes is not modelled.
- The rich-text editor is the (html, isEmpty) pair it reports. Its initial content, toolbar and
  preview tab (`activeTab`) are not modelled.
- The `FileReader` is the `PreviewLoaded` event, which may arrive at any time after a selection.
- `isSubmitting`, `mode` and what `onSubmit` does with the form belong to the calling pages, which
  are not part of this model.
- The header lookup is modelled on the five own keys of `pageTitles`. A pathname that names an
  inherited object property (such as "constructor") is not modelled.
- The mobile menu (`mobileOpen`) and all rendering are not modelled.
- Header.EditRouteUnmapped: stated only for ids that have no '/' and do not start with 'a'. Numeric
  ids satisfy both conditions.
- IdleTimer.ShortGapsNeverFire: the clock moves only at event times. A tick between two events
  before the pending deadline is covered one step at a time by `AdvanceFiresAtDeadline`.
- Browsers raise the delay of deeply nested timers to 4 ms. The hook's timers are not nested, so
  this is not modelled.
