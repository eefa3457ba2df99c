# pjax-router: route table and matcher, in Dafny

A model of the routing core of tectonic/pjax-router, a small routing layer
for jQuery-pjax. A route couples a URL pattern such as `users/:id` with an
HTTP verb, a handler and a timing (`when: 'after'` by default). The router
keeps an append-only table of routes and answers `match(url, verb, when)`
with either the first matching route (`'single'`) or all of them, in
registration order (`'all'`). The policy is a setting of the configuration
store. `determineHttpVerb` derives the verb of an outgoing request,
honouring a `_method` form field.

The library ships in three builds, and all three share one model:

- the modules under `src/`;
- the bundled `pjax-router.js`, whose expressions carry the end anchor `\/?$`;
- the older `pjax-router.dev.js`, which has no timing and keeps the policy in the router.

`Routes.Flavour` selects the build.

Modules, one per file:

- `Results`: `Option` and `Result`. The source throws on errors; here every error is a `Failure`.
- `Ascii`: ASCII character classes and lower-casing.
- `Pattern`: the token language a pattern compiles to (`Lit c`, `:any`, `:id`, `:alphanum`, `:alpha`, and a bare `:` before `/`).
  - `Compile` is the left-to-right scan.
  - `Accepts` is full-string acceptance, which is computable and is proved equal to a declarative parse definition.
  - `Test` is what `RegExp.test` answers: some substring is accepted (unanchored), or some suffix is accepted, possibly minus one trailing `/` (end-anchored).
- `RegexSource`: `regexify` as written, i.e. five global, case-insensitive `replace` passes. It proves that the passes produce exactly the rendering of `Compile`'s tokens, so scanning each colon once is what the source computes.
- `Routes`: the constructor (argument checks, default options, built expression) and `matches`.
- `Router`: the table, verb helpers, `resource`, `match` (a loop, proved equal to reference definitions of both policies), `clear` and `getRoutes`.
- `Config`: the closed settings store with its validated `matchBehaviour` setter.
- `LegacyRouter`: the dev build's router, with its own policy and `setMatchBehaviour`.
- `Utility`: `determineHttpVerb`.
- `RouteExamples`, `RouterExamples`, `ConfigExamples`, `UtilityExamples`: the vectors of the Jasmine tests under `tests/`, stated as lemmas.

The module singletons (`routes`, `config`, `matchBehaviour`) are values passed in and returned. Handlers are opaque ids (`Func(id)`). A constructor argument is a `Value`: a string, a function, or anything else.

Behaviour of the code worth noting:

- The stored method is never lower-cased, and `matches` compares it exactly (src/Route.js:53).
- The letter classes accept lower-case letters only: the token names are matched with `gi`, but the built `RegExp` has no flags (src/Route.js:33-39).
- The default `{when: 'after'}` replaces only a missing options object (src/Route.js:22). An options object without `when` is kept, and such a route never matches (`Routes.OptionsWithoutWhenNeverMatch`).
- The bundled expression is anchored at the end only, not at the start (pjax-router.js:313). `http://host/users/15` matches `users/:id`.
- `when` is any string, not one of two phases.
- `resource` is defined but not exported in any of the three builds. The model offers it, with the order the code uses.

## Model

| member | source | states |
|---|---|---|
| Routes.New | src/Route.js:11-22 | a route exists iff the pattern and method are strings and the handler is a function; otherwise the first failing check (pattern, method, handler, in that order) is the error; the route keeps the pattern, method and handler as given, compiles the pattern, and gets `{when: 'after'}` only when no options object was passed; legacy routes carry no timing |
| Routes.Build | src/Route.js:31-40 | the expression's tokens are the scan of the pattern, and its source text is their rendering, followed by `\/?$` in the bundled build |
| Routes.EffectiveWhen | src/Route.js:50 | the timing a query asks for is never empty: an absent or empty `when` reads as `'after'`, and any other `when` is taken as given |
| Routes.NewMatches | src/Route.js:49-61 | a fresh route matches iff the method equals the stored one exactly, the query's timing equals the route's `when` (not checked by legacy routes), and the expression accepts the URL |
| Routes.DefaultTimingIsAfter | src/Route.js:22 | a route built without options matches only queries whose timing is `'after'`, and leaving `when` out is the same as passing `'after'` |
| Routes.OptionsWithoutWhenNeverMatch | src/Route.js:52-56 | a route given an options object without `when` matches no query |
| Routes.LegacyIgnoresTiming | pjax-router.dev.js:112-118 | a legacy route matches iff its own method equals the argument and the unanchored expression accepts the URL, whatever the options |
| Routes.BundledWithinModular | pjax-router.js:285-337 | the bundled constructor accepts and rejects the same arguments with the same errors, builds the same route except for the expression, and matches no query the `src` route rejects |
| Routes.ModularMatchWidens | src/Route.js:57 | a matched URL stays matched with any text added before and after |
| Routes.BundledMatchWidens | pjax-router.js:313-315 | a bundled route's matched URL stays matched with any prefix, such as a scheme and host |
| Pattern.AcceptsIffDerives | src/Route.js:39 | the recursive acceptance holds iff the text splits into one slice per token, each in that token's language |
| Pattern.AcceptsConcat | src/Route.js:39 | a concatenation of token lists accepts exactly the concatenations of what each part accepts |
| Pattern.CompileColonFree | src/Route.js:31-39 | text without a colon compiles to its own characters as literals |
| Pattern.CompileAfterText | src/Route.js:31-39 | colon-free text in front of a pattern compiles to literals in front of the pattern's tokens |
| Pattern.CompilePlaceholders | src/Route.js:33-37 | `:any`, `:id`, `:alphanum`, `:alpha` (when not followed by `num`) and `:` before `/` each become their one token, and the scan resumes after the name |
| Pattern.CompileUpperId | src/Route.js:34 | the `i` flag makes `:ID` a digit placeholder like `:id` |
| Pattern.CompileMixedAny | src/Route.js:33 | the `i` flag makes `:Any` a wildcard like `:any` |
| RouteExamples.UpperIdVector | src/Route.js:34 | `:ID/` compiles to a digit run followed by `/` |
| Pattern.UnanchoredWiden | src/Route.js:39 | unanchored acceptance is preserved by adding text on both sides |
| Pattern.UnanchoredColonFree | src/Route.js:39 | a pattern with no colon matches a URL iff it occurs in it |
| Pattern.EndAnchoredTrailingSlash | pjax-router.js:313 | under the end anchor, an accepted text matches at the end of any URL, with or without one trailing `/` |
| Pattern.EndAnchoredWiden | pjax-router.js:313 | end-anchored acceptance is preserved by any prefix |
| Pattern.EndAnchoredImpliesUnanchored | pjax-router.js:313 | every URL the bundled expression accepts is accepted by the unanchored one |
| Pattern.UnanchoredInfix | src/Route.js:39 | if a pattern matches, each middle part of it matches on its own |
| Pattern.EndAnchoredSuffix | pjax-router.js:313 | if a pattern matches under the end anchor, its tail matches under the end anchor |
| Pattern.RejectLitsThenClass | src/Route.js:34-39 | literal text followed by a class is rejected when no occurrence of the text is followed by a character of the class |
| Pattern.RejectEndAnchoredLitsThenClass | pjax-router.js:313 | under the end anchor, literal text and a class run are rejected when every occurrence of the text is followed, before the last character, by a character outside the class |
| RegexSource.RegexifyRendersCompile | src/Route.js:31-40 | the five replace passes, applied in the source's order, yield exactly the rendering of the left-to-right scan: no pass rewrites another's output |
| RegexSource.RegexifyColonFree | src/Route.js:31-39 | a pattern without a colon is its own expression text |
| RegexSource.ReplaceNamedKeepsStart | src/Route.js:33-36 | a pass never changes whether the text after a colon starts with a placeholder name |
| RegexSource.NamedAlphaNum | src/Route.js:35-36 | `:alphanum` is consumed whole by its own pass, before the `:alpha` pass can see it |
| RegexSource.RenderLits | src/Route.js:39 | literal text renders as itself |
| Router.PolicyOf | src/Router.js:113 | the loop stops at the first hit exactly when the stored behaviour is the string `'single'`; any other value, or none, collects every match |
| Router.Add | src/Router.js:68-70 | `add` appends the constructed route, or fails as the constructor does |
| Router.Register | src/Router.js:22-70 | a verb helper appends one route with the given pattern and its verb and leaves the earlier routes unchanged; it fails iff the pattern is not a string or the handler not a function; the appended route is exactly the one the constructor builds from the pattern, verb, handler and options, so it carries the same timing and compiled expression |
| Router.Get | src/Router.js:22-24 | `get` appends one `'get'` route; the new route is the constructor's route for that pattern, `'get'`, handler and options |
| Router.Post | src/Router.js:33-35 | `post` appends one `'post'` route; the new route is the constructor's route for that pattern, `'post'`, handler and options |
| Router.Delete | src/Router.js:44-46 | `del` appends one `'delete'` route; the new route is the constructor's route for that pattern, `'delete'`, handler and options |
| Router.Put | src/Router.js:55-57 | `put` appends one `'put'` route; the new route is the constructor's route for that pattern, `'put'`, handler and options |
| Router.Resource | src/Router.js:87-96 | `resource` fails iff the name is not a string or the handler not a function, and otherwise appends exactly the six routes of `ResourceRoutes` |
| Router.ResourceOrder | src/Router.js:87-96 | the six routes are GET name, POST name, DELETE name/:id, GET name/:id, PUT name/:id, POST name/:id, in this order, after the earlier table |
| Router.Clear | src/Router.js:127-129 | `clear` leaves an empty table |
| Router.RoutesOf | src/Router.js:136-138 | `getRoutes` returns the table as it stands |
| Router.Filter | src/Router.js:106-120 | the `'all'` reference answer holds exactly the table's routes that match the query |
| Router.FirstMatch | src/Router.js:109-116 | the `'single'` reference answer has at most one route; it is empty iff no route matches, and otherwise holds a matching route of the table |
| Router.FirstMatchIsEarliest | src/Router.js:109-116 | the route `'single'` returns has no matching route before it |
| Router.Match | src/Router.js:106-120 | the loop returns exactly the `'all'` reference answer under `'all'` and exactly the `'single'` reference answer under `'single'` |
| Router.FilterConcat | src/Router.js:109-112 | the `'all'` answer of a concatenated table is the concatenation of the answers, so registration order is kept |
| Router.SinglePrefixOfAll | src/Router.js:109-116 | the `'single'` answer is a prefix of the `'all'` answer, and is empty exactly when that is |
| Router.MatchAfterRegistration | src/Router.js:68-70 | registering more routes appends to the `'all'` answer and does not change a non-empty `'single'` answer |
| Router.UniqueMatch | src/Router.js:106-120 | when exactly one route matches, both policies answer with that route alone |
| Router.FilterNone | src/Router.js:107-119 | with no matching route both answers are empty |
| Router.ClearThenRegister | src/Router.js:127-129 | after `clear`, one registration gives a one-route table holding the constructed route |
| Config.Initial | src/Config.js:3-16 | the store starts valid, with `matchBehaviour` set to `'single'` |
| Config.Get | src/Config.js:45-47 | `get` returns the stored value, and nothing (not an error) for an unknown setting |
| Config.SetMatchBehaviour | src/Config.js:30-36 | the validator accepts exactly `'single'` and `'all'`, stores the value when it accepts, and fails otherwise |
| Config.Set | src/Config.js:55-65 | `matchBehaviour` goes through its validator; any other setting is overwritten only when it already holds a truthy value, and otherwise the call fails as not configurable; a success changes that one setting only |
| Config.Behaviour | src/Router.js:113 | the policy `match` reads is `'single'` or `'all'` as stored |
| Config.UnknownSettingRejected | src/Config.js:55-65 | in a valid store, setting anything but `matchBehaviour` fails as not configurable and leaves the store unchanged |
| Config.SetPreservesValid | src/Config.js:30-36 | any single `set` call, successful or not, keeps `matchBehaviour` one of the two policies and no other setting present |
| Config.RunPreservesValid | src/Config.js:55-65 | any sequence of `set` calls keeps that invariant |
| Config.SetThenGet | src/Config.js:35-47 | a valid policy, once set, is what `get` returns and what `match` uses |
| LegacyRouter.Initial | pjax-router.dev.js:148-161 | the legacy router starts with an empty table and the `'single'` policy |
| LegacyRouter.SetMatchBehaviour | pjax-router.dev.js:257-263 | `setMatchBehaviour` accepts exactly `'single'` and `'all'`, fails as an invalid match behaviour otherwise, and on success changes the policy only |
| LegacyRouter.Register | pjax-router.dev.js:169-201 | the legacy verb helpers append one untimed route and keep the policy; the new route is the legacy constructor's route for that pattern, verb and handler |
| LegacyRouter.Resource | pjax-router.dev.js:218-227 | legacy `resource` appends the same six routes in the same order |
| LegacyRouter.Match | pjax-router.dev.js:236-250 | legacy `match` returns the first match under `'single'` and all matches in order otherwise |
| LegacyRouter.StepGrows | pjax-router.dev.js:273-275 | one exported call only appends to the table, and keeps the policy valid and every route untimed and unanchored |
| LegacyRouter.RunOnlyGrows | pjax-router.dev.js:287-297 | across any sequence of the router's own calls the table only grows: none of them removes a route, and there is no `clear` |
| LegacyRouter.LegacyMatchIgnoresWhen | pjax-router.dev.js:112-118 | in a legacy table the `when` argument changes no answer: a route matches iff its method is the one asked for and its expression occurs in the URL |
| Utility.LowerAscii | src/Utility.js:23 | lower-casing keeps the length and lower-cases each character |
| Utility.Override | src/Utility.js:19-21 | there is an override exactly when the form data has a non-empty `_method` field, and it is that field's value |
| Utility.DetermineHttpVerb | src/Utility.js:16-24 | the verb has no upper-case letters, is fixed by lower-casing, and is as long as the override or, without one, the request type |
| Utility.LowerAsciiFixed | src/Utility.js:23 | a text is unchanged by lower-casing iff it has no upper-case letters |
| Utility.VerbSource | src/Utility.js:17-23 | the verb is the lower-cased `_method` field when it is present and non-empty, and the lower-cased request type otherwise |
| RouteExamples.SomeUrlRoute | tests/RouteSpec.js:5-12 | `Route('some-url', 'get', cb)` keeps its pattern, verb and handler, and its expression text is `some-url` |
| RouteExamples.DefaultOptionsRoute | tests/RouteSpec.js:50-54 | a route built without options gets `{when: 'after'}` |
| RouteExamples.UsersIdRoute | tests/RouteSpec.js:14-19 | `users/:id` matches `/users/76` and not `/users/sdfsdf` |
| RouteExamples.UsersAlphaRoute | tests/RouteSpec.js:21-27 | `users/:alpha` rejects `/users/32` and matches `/users/asfasdf` and `/users/asfasdf-khjasdf` |
| RouteExamples.UsersAlphaNumRoute | tests/RouteSpec.js:29-35 | `users/:alphanum` matches `/users/15`, `/users/kjsdf` and `/users/as56-sfdj1` |
| RouteExamples.AlphaIdRoute | tests/RouteSpec.js:37-41 | `:alpha/:id` matches `/users/15` |
| RouteExamples.NestedRouteAccepts | tests/RouteSpec.js:43-46 | `:alpha/:id/users/:id/:alphanum` matches `/lkjsdf/23/users/765/lksdf-ksdf874` |
| RouteExamples.NestedRouteRejects | tests/RouteSpec.js:43-47 | the same route rejects the URL once the second id is `sdfsdf` |
| RouteExamples.CompileIdentity | src/Route.js:34 | `:identity` is read as `:id` followed by the literal text `entity` |
| RouteExamples.BundledUsersIdRoute | pjax-router.js:305-316 | the bundled `users/:id` matches `/users/15`, `/users/15/` and `http://host/users/15`, and rejects `/users/15/edit` |
| RouteExamples.BundledUsersIdSource | pjax-router.js:305-316 | the bundled expression text for `users/:id` is `users/([0-9]+)\/?$` |
| RouterExamples.RegisterOnCleared | tests/RouterSpec.js:5-47 | after `clear`, each of `get`, `post`, `put` and `delete` leaves one route with that pattern and verb |
| RouterExamples.RegisterUsers | tests/RouterSpec.js:9-17 | after `clear`, `get('users')` leaves one route, pattern `users`, verb `get` |
| RouterExamples.DistinctVerbs | src/Router.js:106-120 | in a table whose routes have pairwise distinct verbs, a query a route matches is answered by that route alone |
| RouterExamples.MatchByPattern | tests/RouterSpec.js:49-58 | with one route per verb registered after `clear`, each pattern used as URL gets exactly its own route, under both policies |
| RouterExamples.MatchTestRoutes | tests/RouterSpec.js:49-58 | `users`/get, `cubs`/post, `dogs`/put and `cats`/delete each give exactly one match |
| RouterExamples.NoMatchIsEmpty | tests/RouterSpec.js:60-65 | with only `delete('cats')` registered, `match('ljsdfljsdf', 'get')` is empty under both policies |
| ConfigExamples.MatchBehaviourValues | tests/ConfigSpec.js:4-8 | `'gawd'` is refused as an invalid match behaviour; `'single'` and `'all'` are accepted |
| ConfigExamples.ReadsBackLastValid | tests/ConfigSpec.js:10-12 | after setting `'gawd'`, `'single'` and `'all'`, `get('matchBehaviour')` is `'all'` |
| ConfigExamples.UnknownSetting | tests/ConfigSpec.js:14-16 | `set('invalid', 'value')` fails as not configurable |
| ConfigExamples.InvalidBehaviourKeepsStore | src/Config.js:30-36 | a refused policy leaves the store as it was |
| ConfigExamples.UnknownSettingReadsAbsent | src/Config.js:45-47 | `get('invalid')` gives nothing |
| UtilityExamples.TypeIsTheVerb | tests/UtilitySpec.js:5-8 | type `get` without data gives `get` |
| UtilityExamples.MethodFieldWins | tests/UtilitySpec.js:10-13 | `_method: 'delete'` in the form data gives `delete` |
| UtilityExamples.VerbIsLowerCased | tests/UtilitySpec.js:15-18 | type `POST` gives `post` |

## Left out

- Eventer (src/Eventer.js and its copies in both bundles): jQuery and DOM event wiring and handler invocation. It is glue around `match`, not table logic.
- src/Init.js, src/Request.js and src/Response.js: DOM-ready glue and thin XHR value objects.
- gulpfile.js: build tooling. The bundle is modelled as the `Bundled` flavour of the shared logic.
- The general JavaScript `RegExp` engine. Patterns are modelled as the token language, and `test` as the existence of an accepted substring or suffix.
- Routes.New: requires the pattern to contain no regular-expression metacharacters (`PlainPattern`). The source puts pattern text into the expression unescaped, and such characters would change its meaning. The same requirement carries over to `Router.Add`, `Router.Register`, the verb helpers, `Router.Resource` and the legacy calls.
- Utility.LowerAscii: lower-cases ASCII letters only, not the full Unicode mapping of `toLowerCase`.
- Utility.DetermineHttpVerb: the unused `xhr` parameter is dropped. A `data` value that is a string has no `_method` property (`Encoded`). A `_method` or `type` that is not a string is not modelled.
- Values of other JavaScript types (numbers, objects, `undefined`) as `when`, as a setting value, or as a query's method: all of these are strings here. The constructor's `typeof` checks are modelled by `Routes.Value`.
- The `route.options &&` test in `matches` (src/Route.js:54): after the default is applied, options is always truthy, so the test is always true and is not modelled.
- Aliasing: `getRoutes` hands out the router's live array (src/Router.js:136-138, pjax-router.dev.js:282-284), and a route keeps the caller's options object (src/Route.js:22), which `matches` reads on every call. Tables and options are immutable values here, so changes a caller makes through those references are not modelled.
- Prototype keys of the config object (`set('toString', …)`): the store is a closed map of its own keys.
- The `Pjax` versus `Tectonic.Pjax` namespace split between modules: module wiring, not behaviour.
- Handler invocation: handlers are ids, and the table never calls them.
