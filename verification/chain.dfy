/** The chain composer of the router: `chained_run` and the continuation it
    hands each middleware.

    A middleware's behaviour is not known here, so it is a parameter: `run`
    gives, for a middleware, the context it receives and the continuation
    `next` it is handed, the result it returns. The asynchronous, boxed and
    reference-counted wrapping of `chained_run`'s futures is dropped: a chain step is a
    plain function call over the matched stack and a position in it. */
module Chain {

  /** The outcome of a chain step: the updated context, or the error that
      ended the chain. */
  datatype Result<T, E> = Ok(value: T) | Err(error: E)

  /** One route entry: the path pattern it was registered under and its
      middleware. */
  datatype MiddlewareHandler<M> = MiddlewareHandler(path: string, handler: M)

  /** What `Middleware::run` does: middleware, context and `next` to result. */
  type Runner<!M, !C, !E> = (M, C, C -> Result<C, E>) -> Result<C, E>

  /** Runs the stack from position `i`: the handler at `i` receives the
      context and a continuation into position `i + 1`; past the end the
      context comes back unchanged and successful. */
  function ChainedRun<M, C, E>(run: Runner<M, C, E>, context: C,
                               stack: seq<MiddlewareHandler<M>>, i: nat): (r: Result<C, E>)
    ensures i >= |stack| ==> r == Ok(context)
    decreases |stack| - i, 1
  {
    if i < |stack| then
      run(stack[i].handler, context, Continuation(run, stack, i + 1))
    else
      Ok(context)
  }

  /** The `next` handed to the handler just before position `j`: it runs the
      rest of the stack from `j` on whatever context it is given. The one
      handed to the last handler resolves immediately with its context. */
  function Continuation<M, C, E>(run: Runner<M, C, E>, stack: seq<MiddlewareHandler<M>>,
                                 j: nat): (next: C -> Result<C, E>)
    requires j <= |stack|
    decreases |stack| - j + 1, 0
  {
    c => ChainedRun(run, c, stack, j)
  }

  /** The context that reaches position `k` when every handler from `i` up to
      `k` forwards, handler `j` passing on `step(stack[j].handler, c)`. */
  function Forwarded<M, C>(step: (M, C) -> C, context: C,
                           stack: seq<MiddlewareHandler<M>>, i: nat, k: nat): C
    requires i <= k <= |stack|
    decreases k - i
  {
    if i == k then context else Forwarded(step, step(stack[i].handler, context), stack, i + 1, k)
  }

  /** Past the end, the continuation resolves immediately with the context
      it is given, unchanged and successful. */
  lemma ContinuationPastEnd<M, C, E>(run: Runner<M, C, E>, stack: seq<MiddlewareHandler<M>>, context: C)
    ensures Continuation(run, stack, |stack|)(context) == Ok(context)
  {
  }

  /** Before the end, the handler at `i` is run on the context and handed
      exactly the continuation into `i + 1`, which runs the rest of the stack
      on whatever context `passed` the handler gives it. */
  lemma HandsOffContinuation<M, C, E>(run: Runner<M, C, E>, context: C,
                                      stack: seq<MiddlewareHandler<M>>, i: nat, passed: C)
    requires i < |stack|
    ensures ChainedRun(run, context, stack, i)
            == run(stack[i].handler, context, Continuation(run, stack, i + 1))
    ensures Continuation(run, stack, i + 1)(passed) == ChainedRun(run, passed, stack, i + 1)
  {
  }

  /** A handler that returns without calling `next` decides the chain's
      result alone: it is what the handler returns with any continuation, and
      it is the same for every stack holding that handler at `i`, whatever
      follows it, so no later handler runs. */
  lemma ShortCircuit<M, C, E>(run: Runner<M, C, E>, context: C,
                              stack: seq<MiddlewareHandler<M>>, other: seq<MiddlewareHandler<M>>,
                              i: nat, next: C -> Result<C, E>)
    requires i < |stack| && i < |other| && other[i] == stack[i]
    requires forall n1: C -> Result<C, E>, n2: C -> Result<C, E> ::
               run(stack[i].handler, context, n1) == run(stack[i].handler, context, n2)
    ensures ChainedRun(run, context, stack, i) == run(stack[i].handler, context, next)
    ensures ChainedRun(run, context, other, i) == ChainedRun(run, context, stack, i)
  {
  }

  /** Forwarding handlers pass the chain on: running from `i` is running from
      `k` on the context they forwarded. Each handler need only forward the
      context that reaches it, so a guard that lets this request through but
      would reject another is covered. */
  lemma {:induction false} PassThrough<M, C, E>(run: Runner<M, C, E>, step: (M, C) -> C,
                                                 context: C, stack: seq<MiddlewareHandler<M>>,
                                                 i: nat, k: nat)
    requires i <= k <= |stack|
    requires forall j, n: C -> Result<C, E> :: i <= j < k ==>
               run(stack[j].handler, Forwarded(step, context, stack, i, j), n)
               == n(step(stack[j].handler, Forwarded(step, context, stack, i, j)))
    ensures ChainedRun(run, context, stack, i)
            == ChainedRun(run, Forwarded(step, context, stack, i, k), stack, k)
    decreases k - i
  {
    if i < k {
      var forwarded := step(stack[i].handler, context);
      assert Forwarded(step, context, stack, i, i) == context;
      assert ChainedRun(run, context, stack, i) == Continuation(run, stack, i + 1)(forwarded);
      var after := i + 1;
      forall j, n: C -> Result<C, E> | after <= j < k
        ensures run(stack[j].handler, Forwarded(step, forwarded, stack, after, j), n)
                == n(step(stack[j].handler, Forwarded(step, forwarded, stack, after, j)))
      {
        assert Forwarded(step, forwarded, stack, after, j) == Forwarded(step, context, stack, i, j);
      }
      PassThrough(run, step, forwarded, stack, after, k);
    }
  }

  /** The forwarded context depends only on the handlers it passes through. */
  lemma {:induction false} ForwardedAgrees<M, C>(step: (M, C) -> C, context: C,
                                                  stack: seq<MiddlewareHandler<M>>,
                                                  other: seq<MiddlewareHandler<M>>, i: nat, k: nat)
    requires i <= k <= |stack| && k <= |other|
    requires forall j :: i <= j < k ==> other[j] == stack[j]
    ensures Forwarded(step, context, other, i, k) == Forwarded(step, context, stack, i, k)
    decreases k - i
  {
    if i < k {
      ForwardedAgrees(step, step(stack[i].handler, context), stack, other, i + 1, k);
    }
  }

  /** The first error stops the chain: if the handler at `k` rejects with `e`
      the context that reaches it, and every handler before it (from `i`)
      is onion-style on the context that reaches it and lets errors through,
      the chain fails with `e`. */
  lemma {:induction false} ErrorBubblesUp<M, C, E>(run: Runner<M, C, E>, pre: (M, C) -> C,
                                                    post: (M, C, Result<C, E>) -> Result<C, E>,
                                                    context: C, stack: seq<MiddlewareHandler<M>>,
                                                    i: nat, k: nat, e: E)
    requires i <= k < |stack|
    requires forall j, n: C -> Result<C, E> :: i <= j < k ==>
               run(stack[j].handler, Forwarded(pre, context, stack, i, j), n)
               == post(stack[j].handler, Forwarded(pre, context, stack, i, j),
                       n(pre(stack[j].handler, Forwarded(pre, context, stack, i, j))))
    requires forall j, e': E :: i <= j < k ==>
               post(stack[j].handler, Forwarded(pre, context, stack, i, j), Err(e')) == Err(e')
    requires forall n: C -> Result<C, E> :: run(stack[k].handler, Forwarded(pre, context, stack, i, k), n) == Err(e)
    ensures ChainedRun(run, context, stack, i) == Err(e)
    decreases k - i
  {
    assert Forwarded(pre, context, stack, i, i) == context;
    if i < k {
      var m := stack[i].handler;
      var passed, after := pre(m, context), i + 1;
      forall j, n: C -> Result<C, E> | after <= j < k
        ensures run(stack[j].handler, Forwarded(pre, passed, stack, after, j), n)
                == post(stack[j].handler, Forwarded(pre, passed, stack, after, j),
                        n(pre(stack[j].handler, Forwarded(pre, passed, stack, after, j))))
      {
        assert Forwarded(pre, passed, stack, after, j) == Forwarded(pre, context, stack, i, j);
      }
      forall j, e': E | after <= j < k
        ensures post(stack[j].handler, Forwarded(pre, passed, stack, after, j), Err(e')) == Err(e')
      {
        assert Forwarded(pre, passed, stack, after, j) == Forwarded(pre, context, stack, i, j);
      }
      assert Forwarded(pre, passed, stack, after, k) == Forwarded(pre, context, stack, i, k);
      ErrorBubblesUp(run, pre, post, passed, stack, after, k, e);
      calc {
        ChainedRun(run, context, stack, i);
        post(m, context, Continuation(run, stack, i + 1)(pre(m, context)));
        post(m, context, Err(e));
        Err(e);
      }
    } else {
      assert ChainedRun(run, context, stack, i)
             == run(stack[k].handler, context, Continuation(run, stack, i + 1));
    }
  }
}
