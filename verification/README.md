# Router dispatch core of eve-rs, in Dafny

This project models the dispatch core of the `App` router of eve-rs
(`src/app.rs`). It has three parts:

- **The route table.** `App.routeStack` maps each HTTP method to the route
  entries registered under it, in registration order. An entry is a path
  pattern and a middleware. `add_to_stack` appends an entry, and creates the
  list when the method has none. The per-method registrars (`get`, `post`,
  …, `trace`) and `use_middleware` are built on it. `use_middleware`
  registers under ten methods, one after the other.
- **The lookup.** `get_middleware_stack` walks the list of one method. It
  keeps the entries whose pattern matches the request path, in their
  registration order. A method with no list gives an empty stack.
- **The chain composer.** `chained_run` runs the handler at position `i`.
  It hands that handler a continuation that runs the rest of the stack from
  `i + 1`. Past the end, it gives back the context unchanged, as a success.
  `resolve` starts this chain at position 0.

Files:

- `http.dfy` (module `Http`): the `HttpMethod` enumeration.
- `chain.dfy` (module `Chain`): the `Result` and `MiddlewareHandler` types,
  `ChainedRun`, its continuation, and lemmas about how handlers compose.
- `app.dfy` (module `Router`): the specification functions of the table and
  the lookup, their lemmas, and the class `App`.

How the model represents the parts of the system it does not own:

- **Middleware behaviour.** What `Middleware::run` does is not part of this
  model. Every operation that runs middleware takes it as a parameter
  `run: (M, C, C -> Result<C, E>) -> Result<C, E>`, which maps a middleware,
  a context and the continuation `next` to a result.
- **Behaviour classes.** The lemmas state the behaviours they need as
  preconditions on `run`. Each holds only at the context `c` that actually
  reaches the handler in that run, so a middleware may choose its behaviour
  per request:
  - *returns without calling `next`*: the result does not depend on the
    continuation;
  - *forwards*: `run(m, c, n) == n(step(m, c))`;
  - *wraps onion-style*: `run(m, c, n) == post(m, c, n(pre(m, c)))`;
  - *rejects*: `run(m, c, n) == Err(e)`.
- **Pattern matching.** `MiddlewareHandler::is_match` is the parameter
  `isMatch(pattern, path)`.
- **Contexts and errors.** The context type `C` and the error type `E`
  (`hyper::Error` in eve-rs) are opaque type parameters.

Two points about the code as written:

- `resolve` takes an already looked-up stack, not a method and a path.
  Looking up and then resolving is therefore two steps. The lemma
  `Router.NoMatchIdentity` connects them.
- `use_middleware` registers under `HttpMethod::Use` as well as under the
  nine concrete methods (`src/app.rs:100`), so the `Use` list also grows.

## Model

| member | source | states |
|---|---|---|
| `Chain.ChainedRun` | src/app.rs:11-27 | once past the end of the stack, the chain returns the context it was given, unchanged and successful |
| `Chain.Continuation` | src/app.rs:21 | the `next` closure handed to a handler: given a context, it runs the rest of the stack from the following position (its behaviour is stated by the two rows below) |
| `Chain.ContinuationPastEnd` | src/app.rs:21-24 | the continuation handed to the last handler resolves at once with the context it receives |
| `Chain.HandsOffContinuation` | src/app.rs:18-22 | before the end, handler `i` runs on the context and is handed exactly the continuation that runs the stack from `i + 1` on whatever context it passes |
| `Chain.ShortCircuit` | src/app.rs:18-22 | a handler that returns without calling `next` fixes the chain's result to its own result, which is the same for every stack holding that handler at `i`: no later handler runs |
| `Chain.PassThrough` | src/app.rs:16-27 | if each handler from `i` to `k` forwards the context that reaches it, the chain from `i` equals the chain from `k` on the context they forwarded |
| `Chain.ForwardedAgrees` | src/app.rs:16-27 | the context that forwarding handlers pass on depends only on those handlers |
| `Chain.ErrorBubblesUp` | src/app.rs:16-27 | if the handler at `k` rejects the context that reaches it with `e`, and each handler before it wraps onion-style on the context that reaches it and lets errors through, the chain fails with `e` |
| `Router.StackOf` | src/app.rs:66 | the list of a method: the registered list when the method has one, and the empty list when it has none |
| `Router.Added` | src/app.rs:49-58 | registration appends the entry to its method's list, or starts the list with it; every other method's list is unchanged |
| `Router.Matching` | src/app.rs:65-71 | the lookup of a list is no longer than the list, and every entry it holds matches the path |
| `Router.MatchingIsOrderedSelection` | src/app.rs:60-72 | the lookup holds, at strictly increasing positions of the list, the entries found at those positions |
| `Router.MatchIndicesExact` | src/app.rs:65-71 | the positions the lookup selects are exactly those whose entry's pattern matches the path |
| `Router.MatchingMembers` | src/app.rs:60-72 | an entry is in the lookup if and only if it is in the list and its pattern matches |
| `Router.MatchingAppend` | src/app.rs:60-72 | the lookup of a concatenation is the concatenation of the lookups, so earlier registrations come first |
| `Router.RegisteredVisible` | src/app.rs:49-72 | after registering under one method, that method's lookup gains the entry at its end if the pattern matches; every other method's lookup is unchanged |
| `Router.RegisterTwice` | src/app.rs:49-58 | registering the same entry twice adds two entries, in order, and a matching lookup returns both |
| `Router.AddedAll` | src/app.rs:90-103 | registering under a list of methods gives a table whose methods are the old ones together with the listed ones |
| `Router.AddedAllStacks` | src/app.rs:89-104 | registering under a list of distinct methods appends the entry once to each listed method's list and to no other list |
| `Router.UseMethods` | src/app.rs:90-101 | the ten methods `use_middleware` registers under, in order, `Use` last (its properties are the two rows below) |
| `Router.UseMethodsDistinct` | src/app.rs:90-101 | no method occurs twice among those `use_middleware` registers under |
| `Router.UseMethodsCover` | src/app.rs:90-101 | every method, `Use` among them, is among those `use_middleware` registers under |
| `Router.WildcardBreadth` | src/app.rs:89-104 | after `use_middleware`, every method's list ends with the entry, and a matching lookup under any method returns it last |
| `Router.NoMatchIdentity` | src/app.rs:60-81 | when no entry of the method matches the path, resolving the lookup gives back the context, unchanged and successful |
| `Router.ResolveForwardsAll` | src/app.rs:74-81 | when every handler forwards the context that reaches it, resolving yields `Ok` of the context forwarded by the last one |
| `Router.ResolveStopsAt` | src/app.rs:16-27 | when the handlers before `k` forward the context that reaches them and handler `k` returns without calling `next`, resolving yields that handler's result, error or context, and is the same for every stack that agrees up to `k` |
| `Router.App.constructor` | src/app.rs:42-47 | a new router has an empty route table |
| `Router.App.AddToStack` | src/app.rs:49-58 | the new table is the old one with the entry registered under the method (`Added`) |
| `Router.App.GetMiddlewareStack` | src/app.rs:60-72 | returns the matching entries of the method's list in order (`Matching`); an entry is returned if and only if it is registered under the method and its pattern matches |
| `Router.App.Resolve` | src/app.rs:74-81 | runs the chain from the first handler; an empty stack gives back the context unchanged |
| `Router.App.UseMiddleware` | src/app.rs:89-104 | registers the entry under each method of the fixed list in order; every method's list grows by exactly that entry |
| `Router.App.Get` | src/app.rs:106-108 | registers under `Get` only |
| `Router.App.Post` | src/app.rs:109-111 | registers under `Post` only |
| `Router.App.Put` | src/app.rs:112-114 | registers under `Put` only |
| `Router.App.Delete` | src/app.rs:115-117 | registers under `Delete` only |
| `Router.App.Head` | src/app.rs:118-120 | registers under `Head` only |
| `Router.App.Options` | src/app.rs:121-123 | registers under `Options` only |
| `Router.App.Connect` | src/app.rs:124-126 | registers under `Connect` only |
| `Router.App.Patch` | src/app.rs:127-129 | registers under `Patch` only |
| `Router.App.Trace` | src/app.rs:130-132 | registers under `Trace` only |

## Left out

- The asynchronous machinery is not modelled: `async`/`.await`, the pinned
  boxed futures, `Arc` sharing, and the `Send`/`Sync`/`Unpin`/`'static`
  bounds. A chain step is a plain function call, and interleaving between
  requests is not modelled.
- `MiddlewareHandler::is_match`, `Context`, `Middleware::run` and
  `HttpMethod` are defined in files that are not part of this model. The
  matcher and the middleware behaviour are parameters, the context and the
  error are type parameters, and `HttpMethod` is an enumeration with
  structural equality.
- `HashMap` hashing and capacity are not modelled; the table is a Dafny `map`.
- Handlers that call `next` more than once are described only by the
  general `ChainedRun` definition. So are handlers that, on the context
  reaching them, neither forward, wrap, reject nor stop in one of the forms
  listed above. No lemma describes them.
- `Chain.ShortCircuit`: "no later handler runs" is stated as "the chain's
  result does not depend on the handlers after `i`". `run` is a pure
  function, so the model has no notion of a handler running or of the
  order in which handlers run.
