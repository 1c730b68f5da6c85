# Memoized movie lookup

A model of the memoizing cache wrapper of the movie watchlist backend and the
single-movie lookup it wraps.

`memoize(fn)` returns a function with a private `Map`. A call serialises its
argument list with `JSON.stringify` to get a key. If the key is present, the
call answers with the stored value. Otherwise it invokes `fn`, waits for it,
stores the value under the key and returns it. Because the store comes after
the wait, a rejected call stores nothing, and the next call with the same
arguments invokes `fn` again. `fetchMovieById` is `memoize` applied to a
function that GETs `BASE_URL + "/movie/" + id` with the API key and returns the
response body.

The project has four modules:

- `Decimal` (decimal.dfy) writes integers as JavaScript writes them, and reads them back.
- `Key` (key.dfy) builds `JSON.stringify` of an integer argument list. It proves
  that equal lists give the same key and different lists give different keys.
- `Memoize` (memoize.dfy) holds three parts:
  - the wrapper's state as a value (`Memo`: the cache and a log of the argument
    lists `fn` was invoked with);
  - one call as a function (`Step`) and a sequence of calls (`Run`), with the
    invariant `Inv` and the lemmas about them;
  - the class `Memoized`, whose `Call` updates the cache in place and is
    proved against `Step`.
- `Movies` (movies.dfy) holds the request URL, the wrapped lookup and the
  scenario of the lookup test.

## Model

| member | source | states |
|---|---|---|
| `Memoize.Memoized.constructor` | test.js:9-11 | `memoize(fn)` yields a wrapper with its own empty cache that has invoked nothing |
| `Memoize.Memoized.Call` | test.js:11-19 | the new state and result are `Step` of the old; the result is what `fn(args)` settles with; on a hit the cache and log are unchanged; on a miss `fn` is invoked exactly once; entries are never removed or overwritten; the key is present afterwards exactly when the call resolved |
| `Memoize.Step` | test.js:12-18 | one call only grows the cache and never overwrites an entry; it invokes `fn` at most once; afterwards the key is present exactly when the call resolved, holding the returned value |
| `Memoize.StepInvocations` | test.js:13-16 | a hit leaves the state unchanged, with no invocation; a miss logs exactly one invocation, with the call's arguments |
| `Memoize.StepPreservesInv` | test.js:10-19 | every call keeps the invariant: entries come from resolved invocations, resolved invocations are cached, and no key is invoked again after a success |
| `Memoize.EmptyInv` | test.js:10 | a fresh, empty wrapper satisfies the invariant |
| `Memoize.StepTransparent` | test.js:12-18 | under the invariant, a call settles exactly as `fn(args)` does: a cached value is the one `fn` resolved with for these very arguments |
| `Memoize.RepeatedCallIsHit` | test.js:13-18 | after a call resolves, the next call with equal arguments returns the same value, invokes nothing and changes nothing |
| `Memoize.FailureIsRetried` | test.js:16-17 | a rejection is passed on and leaves the cache unchanged; the next call with the same arguments invokes `fn` again |
| `Memoize.RunPreservesInv` | test.js:10-19 | any sequence of calls keeps the invariant |
| `Memoize.RunTransparent` | test.js:11-19 | every call of a sequence settles as `fn` does for its arguments |
| `Memoize.StepLogsArgs` | test.js:13-16 | after a call, its argument list is in the invocation log |
| `Memoize.RunInvokesEveryArgs` | test.js:13-16 | every argument list of a sequence of calls reaches `fn` at least once |
| `Memoize.FetchedAtMostOnce` | test.js:13-18 | under the invariant, `fn` has been invoked at most once for arguments it resolves for |
| `Memoize.FetchedExactlyOnce` | test.js:9-19 | through a fresh wrapper, arguments that `fn` resolves for are fetched exactly once, however often they are asked for |
| `Memoize.SeparateWrappers` | test.js:10 | for any two distinct wrappers, a call through one leaves the other's cache and invocation log unchanged |
| `Key.Stringify` | test.js:12 | the key of an integer argument list is its JSON array text, delimited by `[` and `]` |
| `Key.StringifyInjective` | test.js:12 | equal argument lists have the same key and different lists have different keys |
| `Key.ElementsInjective` | test.js:12 | the comma-separated element text determines the argument list |
| `Decimal.ParseIntToString` | test.js:12 | the decimal text of an integer reads back as that integer |
| `Decimal.IntToStringInjective` | test.js:12 | different integers have different texts |
| `Decimal.IntToString` | test.js:12 | an integer's text is non-empty, made of digits and the minus sign, and starts with `-` exactly when the integer is negative |
| `Decimal.NatToString` | test.js:12 | a natural number's text is a non-empty digit string without a leading zero (except "0") |
| `Movies.MovieUrl` | test.js:23 | the request URL is `BASE_URL + "/movie/"` followed by text that reads back as exactly the requested id, or as no id when the call passed none (`undefined`) |
| `Movies.RequestOf` | test.js:23-25 | the GET a lookup issues carries the API key, and its URL is `BASE_URL + "/movie/"` followed by text that reads back as the requested id |
| `Movies.FetchMovie` | test.js:22-26 | the wrapped lookup settles, for every argument list, exactly as the GET of that lookup's request does, with the response body unchanged |
| `Movies.MovieUrlInjective` | test.js:23 | different ids give different request URLs |
| `Movies.MovieUrl123` | test.js:49-51 | the lookup of id 123 requests `https://api.themoviedb.org/3/movie/123` |
| `Movies.LookupMovie123` | test.js:43-52 | with a GET that resolves with the movie data only for the request of `https://api.themoviedb.org/3/movie/123` with the API key and rejects any other, the lookup of 123 returns that data unchanged after exactly one GET, of that request |
| `Movies.RepeatedLookup` | test.js:22-27 | two lookups of one id both settle as the GET does; a resolved first lookup means one GET in all, a rejected one means a second GET |

## Left out

- The wrapped function is a deterministic function of the argument list. A real upstream can answer differently from one call to the next, for example a rejection and then a success. The model shows a retry only as a second invocation with the same arguments, and a retry that then succeeds is not modelled.
- The async machinery is not modelled. Calls run one after another. Two calls with the same key that overlap before the first settles would both invoke `fn` in the source; the model has no such interleaving.
- Arguments are mathematical integers, and keys are built only for integer argument lists. The source's `JSON.stringify` also handles other values. It writes integers of 1e21 and above in exponent notation, and JavaScript numbers lose precision above 2^53.
- Values are immutable in the model. In the source the cache holds a reference: the object a hit returns is the very object stored and handed to the first caller, so a caller that mutates the movie object changes what later hits return. That aliasing is not modelled.
- The HTTP client (`axios.get`) is a parameter of the lookup. Network errors become `Rejected`, and response bodies are opaque values. The API key read from the environment is also a parameter.
- The Jest mocking and the test harness are not modelled. The one test appears as the scenario `Movies.LookupMovie123`.
- index.js is not part of this model. It holds the Express, CORS and JSON middleware setup and the database connection, which are framework and I/O glue.
