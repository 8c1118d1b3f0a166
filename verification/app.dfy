/** The router `App`: a table from HTTP method to the route entries
    registered under it, in registration order; the lookup that picks the
    entries whose pattern matches a path; the per-method and all-method
    registrars; and `resolve`, which runs a looked-up stack as one chain.

    Whether a pattern matches a path is decided outside this model: it is the
    parameter `isMatch(pattern, path)`. */
module Router {
  import opened Http
  import opened Chain

  type RouteStack<M> = map<HttpMethod, seq<MiddlewareHandler<M>>>

  /** The entries registered under `verb`; none when the method has no list. */
  function StackOf<M>(table: RouteStack<M>, verb: HttpMethod): (r: seq<MiddlewareHandler<M>>)
    ensures verb !in table ==> r == []
    ensures verb in table ==> r == table[verb]
  {
    if verb in table then table[verb] else []
  }

  /** The table after registering `entry` under `verb`: that method's list
      gains `entry` at its end and every other list stays as it was. */
  function Added<M>(table: RouteStack<M>, verb: HttpMethod, entry: MiddlewareHandler<M>): (t: RouteStack<M>)
    ensures t.Keys == table.Keys + {verb}
    ensures StackOf(t, verb) == StackOf(table, verb) + [entry]
    ensures forall other :: other != verb ==> StackOf(t, other) == StackOf(table, other)
  {
    table[verb := StackOf(table, verb) + [entry]]
  }

  /** The table after registering `entry` under each of `verbs`, in order. */
  function AddedAll<M>(table: RouteStack<M>, verbs: seq<HttpMethod>, entry: MiddlewareHandler<M>): (t: RouteStack<M>)
    ensures forall verb :: verb in t <==> verb in table || verb in verbs
    decreases |verbs|
  {
    if verbs == [] then table
    else Added(AddedAll(table, verbs[..|verbs| - 1], entry), verbs[|verbs| - 1], entry)
  }

  /** The methods `use_middleware` registers under, `Use` included. */
  const UseMethods: seq<HttpMethod> := [Get, Post, Put, Delete, Head, Options, Connect, Patch, Trace, Use]

  /** No element of `s` occurs twice: the last one is not among the others,
      and the others are distinct. */
  ghost predicate Distinct<T>(s: seq<T>)
    decreases |s|
  {
    s == [] || (s[|s| - 1] !in s[..|s| - 1] && Distinct(s[..|s| - 1]))
  }

  /** The entries of `handlers` whose pattern matches `path`, in their order. */
  function Matching<M>(handlers: seq<MiddlewareHandler<M>>, path: string,
                       isMatch: (string, string) -> bool): (r: seq<MiddlewareHandler<M>>)
    ensures |r| <= |handlers|
    ensures forall k :: 0 <= k < |r| ==> isMatch(r[k].path, path)
    decreases |handlers|
  {
    if handlers == [] then []
    else
      var last := handlers[|handlers| - 1];
      Matching(handlers[..|handlers| - 1], path, isMatch) + (if isMatch(last.path, path) then [last] else [])
  }

  /** The positions in `handlers` of the entries `Matching` keeps. */
  function MatchIndices<M>(handlers: seq<MiddlewareHandler<M>>, path: string,
                           isMatch: (string, string) -> bool): seq<nat>
    decreases |handlers|
  {
    if handlers == [] then []
    else
      var n := |handlers| - 1;
      MatchIndices(handlers[..n], path, isMatch) + (if isMatch(handlers[n].path, path) then [n] else [])
  }

  /** The lookup is an order-preserving selection: it holds, at strictly
      increasing positions of `handlers`, the entries found there. */
  lemma {:induction false} MatchingIsOrderedSelection<M>(handlers: seq<MiddlewareHandler<M>>, path: string,
                                                         isMatch: (string, string) -> bool)
    ensures |MatchIndices(handlers, path, isMatch)| == |Matching(handlers, path, isMatch)|
    ensures forall k :: 0 <= k < |MatchIndices(handlers, path, isMatch)| ==>
              MatchIndices(handlers, path, isMatch)[k] < |handlers|
              && Matching(handlers, path, isMatch)[k] == handlers[MatchIndices(handlers, path, isMatch)[k]]
    ensures forall k, l :: 0 <= k < l < |MatchIndices(handlers, path, isMatch)| ==>
              MatchIndices(handlers, path, isMatch)[k] < MatchIndices(handlers, path, isMatch)[l]
    decreases |handlers|
  {
    if handlers != [] {
      var n := |handlers| - 1;
      var init := handlers[..n];
      MatchingIsOrderedSelection(init, path, isMatch);
      var idx, r := MatchIndices(init, path, isMatch), Matching(init, path, isMatch);
      assert forall j :: 0 <= j < n ==> init[j] == handlers[j];
      if isMatch(handlers[n].path, path) {
        assert MatchIndices(handlers, path, isMatch) == idx + [n];
        assert Matching(handlers, path, isMatch) == r + [handlers[n]];
      } else {
        assert MatchIndices(handlers, path, isMatch) == idx;
        assert Matching(handlers, path, isMatch) == r;
      }
    }
  }

  /** The selected positions are exactly those whose pattern matches. */
  lemma {:induction false} MatchIndicesExact<M>(handlers: seq<MiddlewareHandler<M>>, path: string,
                                                isMatch: (string, string) -> bool)
    ensures forall j :: 0 <= j < |handlers| ==>
              (isMatch(handlers[j].path, path) <==> j in MatchIndices(handlers, path, isMatch))
    decreases |handlers|
  {
    if handlers != [] {
      var n := |handlers| - 1;
      var init := handlers[..n];
      MatchIndicesExact(init, path, isMatch);
      MatchingIsOrderedSelection(init, path, isMatch);
      var idx := MatchIndices(init, path, isMatch);
      assert forall j :: 0 <= j < n ==> init[j] == handlers[j];
      assert n !in idx;
    }
  }

  /** An entry is in the lookup exactly when it is in the list and its
      pattern matches. */
  lemma {:induction false} MatchingMembers<M>(handlers: seq<MiddlewareHandler<M>>, path: string,
                                              isMatch: (string, string) -> bool, entry: MiddlewareHandler<M>)
    ensures entry in Matching(handlers, path, isMatch) <==> entry in handlers && isMatch(entry.path, path)
    decreases |handlers|
  {
    if handlers != [] {
      var n := |handlers| - 1;
      MatchingMembers(handlers[..n], path, isMatch, entry);
      assert handlers == handlers[..n] + [handlers[n]];
    }
  }

  /** Looking up a list made of two parts is looking up each part: entries
      registered later come after the matching entries registered earlier. */
  lemma {:induction false} MatchingAppend<M>(first: seq<MiddlewareHandler<M>>, second: seq<MiddlewareHandler<M>>,
                                             path: string, isMatch: (string, string) -> bool)
    ensures Matching(first + second, path, isMatch)
            == Matching(first, path, isMatch) + Matching(second, path, isMatch)
    decreases |second|
  {
    if second != [] {
      var n := |second| - 1;
      MatchingAppend(first, second[..n], path, isMatch);
      assert (first + second)[..|first + second| - 1] == first + second[..n];
    } else {
      assert first + second == first;
    }
  }

  /** Registering under `verb` adds the entry at the end of that method's
      lookup when its pattern matches the path, and leaves the lookup of
      every other method as it was. */
  lemma RegisteredVisible<M>(table: RouteStack<M>, verb: HttpMethod, entry: MiddlewareHandler<M>,
                             lookup: HttpMethod, path: string, isMatch: (string, string) -> bool)
    ensures Matching(StackOf(Added(table, verb, entry), lookup), path, isMatch)
            == if lookup == verb && isMatch(entry.path, path)
               then Matching(StackOf(table, lookup), path, isMatch) + [entry]
               else Matching(StackOf(table, lookup), path, isMatch)
  {
  }

  /** Registration never deduplicates: registering the same entry twice
      under `verb` adds it twice, and both come back from a matching lookup. */
  lemma RegisterTwice<M>(table: RouteStack<M>, verb: HttpMethod, entry: MiddlewareHandler<M>,
                         path: string, isMatch: (string, string) -> bool)
    ensures StackOf(Added(Added(table, verb, entry), verb, entry), verb) == StackOf(table, verb) + [entry, entry]
    ensures isMatch(entry.path, path) ==>
              Matching(StackOf(Added(Added(table, verb, entry), verb, entry), verb), path, isMatch)
              == Matching(StackOf(table, verb), path, isMatch) + [entry, entry]
  {
  }

  /** Registering under a list of methods is registering under all but the
      last, then under the last. */
  lemma AddedAllLast<M>(table: RouteStack<M>, verbs: seq<HttpMethod>, entry: MiddlewareHandler<M>, verb: HttpMethod)
    requires verbs != []
    ensures verb == verbs[|verbs| - 1] ==>
              StackOf(AddedAll(table, verbs, entry), verb)
              == StackOf(AddedAll(table, verbs[..|verbs| - 1], entry), verb) + [entry]
    ensures verb != verbs[|verbs| - 1] ==>
              StackOf(AddedAll(table, verbs, entry), verb)
              == StackOf(AddedAll(table, verbs[..|verbs| - 1], entry), verb)
  {
  }

  /** Registering under each of a list of distinct methods adds the entry
      once to the end of each of their lists and to no other list. */
  lemma {:induction false} AddedAllStacks<M>(table: RouteStack<M>, verbs: seq<HttpMethod>,
                                             entry: MiddlewareHandler<M>, verb: HttpMethod)
    requires Distinct(verbs)
    ensures StackOf(AddedAll(table, verbs, entry), verb)
            == StackOf(table, verb) + (if verb in verbs then [entry] else [])
    decreases |verbs|
  {
    if verbs != [] {
      var n := |verbs| - 1;
      var init := verbs[..n];
      AddedAllStacks(table, init, entry, verb);
      AddedAllLast(table, verbs, entry, verb);
      assert verbs == init + [verbs[n]];
      if verb == verbs[n] {
        assert verb !in init;
        assert StackOf(AddedAll(table, init, entry), verb) == StackOf(table, verb) + [];
      } else {
        assert verb in verbs <==> verb in init;
      }
    } else {
      assert StackOf(table, verb) + [] == StackOf(table, verb);
    }
  }

  /** A sequence whose elements differ pairwise is `Distinct`. */
  lemma {:induction false} DistinctFromPairs<T>(s: seq<T>)
    requires forall a, b :: 0 <= a < b < |s| ==> s[a] != s[b]
    ensures Distinct(s)
    decreases |s|
  {
    if s != [] {
      var init := s[..|s| - 1];
      assert forall a :: 0 <= a < |init| ==> init[a] == s[a];
      DistinctFromPairs(init);
    }
  }

  /** `use_middleware` registers under each method at most once. */
  lemma UseMethodsDistinct()
    ensures Distinct(UseMethods)
  {
    DistinctFromPairs(UseMethods);
  }

  /** `use_middleware` registers under every method, `Use` included. */
  lemma UseMethodsCover(verb: HttpMethod)
    ensures verb in UseMethods
  {
  }

  /** After `use_middleware`, every method's list, `Use` included, has the
      entry at its end, and the lookup under every method returns it after
      the earlier matches whenever its pattern matches. */
  lemma WildcardBreadth<M>(table: RouteStack<M>, entry: MiddlewareHandler<M>, verb: HttpMethod,
                           path: string, isMatch: (string, string) -> bool)
    ensures StackOf(AddedAll(table, UseMethods, entry), verb) == StackOf(table, verb) + [entry]
    ensures isMatch(entry.path, path) ==>
              Matching(StackOf(AddedAll(table, UseMethods, entry), verb), path, isMatch)
              == Matching(StackOf(table, verb), path, isMatch) + [entry]
  {
    UseMethodsCover(verb);
    UseMethodsDistinct();
    AddedAllStacks(table, UseMethods, entry, verb);
    MatchingAppend(StackOf(table, verb), [entry], path, isMatch);
    assert Matching([entry], path, isMatch) == Matching([], path, isMatch) + (if isMatch(entry.path, path) then [entry] else []);
  }

  /** With no matching entry, resolving the lookup gives back the context,
      unchanged and successful. */
  lemma NoMatchIdentity<M, C, E>(run: Runner<M, C, E>, context: C, table: RouteStack<M>, verb: HttpMethod,
                                 path: string, isMatch: (string, string) -> bool)
    requires forall entry :: entry in StackOf(table, verb) ==> !isMatch(entry.path, path)
    ensures App<M>.Resolve(run, context, Matching(StackOf(table, verb), path, isMatch)) == Ok(context)
  {
    var found := Matching(StackOf(table, verb), path, isMatch);
    if found != [] {
      MatchingMembers(StackOf(table, verb), path, isMatch, found[0]);
      assert false;
    }
  }

  /** When every handler forwards the context that reaches it, resolving
      yields the context forwarded by the last one. */
  lemma ResolveForwardsAll<M, C, E>(run: Runner<M, C, E>, step: (M, C) -> C, context: C,
                                    stack: seq<MiddlewareHandler<M>>)
    requires forall j, n: C -> Result<C, E> :: 0 <= j < |stack| ==>
               run(stack[j].handler, Forwarded(step, context, stack, 0, j), n)
               == n(step(stack[j].handler, Forwarded(step, context, stack, 0, j)))
    ensures App<M>.Resolve(run, context, stack) == Ok(Forwarded(step, context, stack, 0, |stack|))
  {
    PassThrough(run, step, context, stack, 0, |stack|);
  }

  /** When the handlers before `k` forward the context that reaches them
      and the handler at `k` returns without calling `next`, resolving yields what that handler returns,
      an error included; it is the same for every stack that agrees up to
      `k`, so nothing after `k` runs. */
  lemma ResolveStopsAt<M, C, E>(run: Runner<M, C, E>, step: (M, C) -> C, context: C,
                                stack: seq<MiddlewareHandler<M>>, other: seq<MiddlewareHandler<M>>,
                                k: nat, next: C -> Result<C, E>)
    requires k < |stack| && k < |other|
    requires forall j :: 0 <= j <= k ==> other[j] == stack[j]
    requires forall j, n: C -> Result<C, E> :: 0 <= j < k ==>
               run(stack[j].handler, Forwarded(step, context, stack, 0, j), n)
               == n(step(stack[j].handler, Forwarded(step, context, stack, 0, j)))
    requires forall n1: C -> Result<C, E>, n2: C -> Result<C, E> ::
               run(stack[k].handler, Forwarded(step, context, stack, 0, k), n1)
               == run(stack[k].handler, Forwarded(step, context, stack, 0, k), n2)
    ensures App<M>.Resolve(run, context, stack)
            == run(stack[k].handler, Forwarded(step, context, stack, 0, k), next)
    ensures App<M>.Resolve(run, context, other) == App<M>.Resolve(run, context, stack)
  {
    var reached := Forwarded(step, context, stack, 0, k);
    PassThrough(run, step, context, stack, 0, k);
    forall j | 0 <= j <= k
      ensures Forwarded(step, context, other, 0, j) == Forwarded(step, context, stack, 0, j)
    {
      ForwardedAgrees(step, context, stack, other, 0, j);
    }
    PassThrough(run, step, context, other, 0, k);
    ShortCircuit(run, reached, stack, other, k, next);
  }

  /** The route table of the router, updated in place by registration. */
  class App<M> {
    var routeStack: RouteStack<M>

    /** A router with no routes. */
    constructor ()
      ensures routeStack == map[]
    {
      routeStack := map[];
    }

    /** Appends the entry to the method's list, creating the list when the
        method has none. */
    method AddToStack(verb: HttpMethod, path: string, middleware: M)
      modifies this
      ensures routeStack == Added(old(routeStack), verb, MiddlewareHandler(path, middleware))
    {
      if verb in routeStack {
        routeStack := routeStack[verb := routeStack[verb] + [MiddlewareHandler(path, middleware)]];
      } else {
        assert StackOf(routeStack, verb) + [MiddlewareHandler(path, middleware)] == [MiddlewareHandler(path, middleware)];
        routeStack := routeStack[verb := [MiddlewareHandler(path, middleware)]];
      }
    }

    /** The entries registered under `verb` whose pattern matches `path`, in
        registration order. */
    method GetMiddlewareStack(verb: HttpMethod, path: string, isMatch: (string, string) -> bool)
      returns (stack: seq<MiddlewareHandler<M>>)
      ensures stack == Matching(StackOf(routeStack, verb), path, isMatch)
      ensures forall entry :: entry in stack <==> entry in StackOf(routeStack, verb) && isMatch(entry.path, path)
    {
      var handlers := if verb in routeStack then routeStack[verb] else [];
      stack := [];
      for k := 0 to |handlers|
        invariant stack == Matching(handlers[..k], path, isMatch)
      {
        assert handlers[..k + 1][..k] == handlers[..k];
        if isMatch(handlers[k].path, path) {
          stack := stack + [handlers[k]];
        }
      }
      assert handlers[..|handlers|] == handlers;
      forall entry
        ensures entry in stack <==> entry in handlers && isMatch(entry.path, path)
      {
        MatchingMembers(handlers, path, isMatch, entry);
      }
    }

    /** Runs `stack` as one chain from its first handler on `context`; an
        empty stack gives back the context, unchanged and successful. */
    static function Resolve<C, E>(run: Runner<M, C, E>, context: C, stack: seq<MiddlewareHandler<M>>): (r: Result<C, E>)
      ensures stack == [] ==> r == Ok(context)
    {
      ChainedRun(run, context, stack, 0)
    }

    /** Registers the entry under every method of `UseMethods`. */
    method UseMiddleware(path: string, middleware: M)
      modifies this
      ensures routeStack == AddedAll(old(routeStack), UseMethods, MiddlewareHandler(path, middleware))
      ensures forall verb :: StackOf(routeStack, verb)
                             == StackOf(old(routeStack), verb) + [MiddlewareHandler(path, middleware)]
    {
      var verbs := UseMethods;
      for k := 0 to |verbs|
        invariant routeStack == AddedAll(old(routeStack), verbs[..k], MiddlewareHandler(path, middleware))
      {
        assert verbs[..k + 1][..k] == verbs[..k];
        AddToStack(verbs[k], path, middleware);
      }
      assert verbs[..|verbs|] == verbs;
      forall verb
        ensures StackOf(routeStack, verb) == StackOf(old(routeStack), verb) + [MiddlewareHandler(path, middleware)]
      {
        UseMethodsCover(verb);
        UseMethodsDistinct();
        AddedAllStacks(old(routeStack), verbs, MiddlewareHandler(path, middleware), verb);
      }
    }

    method Get(path: string, middleware: M)
      modifies this
      ensures routeStack == Added(old(routeStack), HttpMethod.Get, MiddlewareHandler(path, middleware))
    {
      AddToStack(HttpMethod.Get, path, middleware);
    }

    method Post(path: string, middleware: M)
      modifies this
      ensures routeStack == Added(old(routeStack), HttpMethod.Post, MiddlewareHandler(path, middleware))
    {
      AddToStack(HttpMethod.Post, path, middleware);
    }

    method Put(path: string, middleware: M)
      modifies this
      ensures routeStack == Added(old(routeStack), HttpMethod.Put, MiddlewareHandler(path, middleware))
    {
      AddToStack(HttpMethod.Put, path, middleware);
    }

    method Delete(path: string, middleware: M)
      modifies this
      ensures routeStack == Added(old(routeStack), HttpMethod.Delete, MiddlewareHandler(path, middleware))
    {
      AddToStack(HttpMethod.Delete, path, middleware);
    }

    method Head(path: string, middleware: M)
      modifies this
      ensures routeStack == Added(old(routeStack), HttpMethod.Head, MiddlewareHandler(path, middleware))
    {
      AddToStack(HttpMethod.Head, path, middleware);
    }

    method Options(path: string, middleware: M)
      modifies this
      ensures routeStack == Added(old(routeStack), HttpMethod.Options, MiddlewareHandler(path, middleware))
    {
      AddToStack(HttpMethod.Options, path, middleware);
    }

    method Connect(path: string, middleware: M)
      modifies this
      ensures routeStack == Added(old(routeStack), HttpMethod.Connect, MiddlewareHandler(path, middleware))
    {
      AddToStack(HttpMethod.Connect, path, middleware);
    }

    method Patch(path: string, middleware: M)
      modifies this
      ensures routeStack == Added(old(routeStack), HttpMethod.Patch, MiddlewareHandler(path, middleware))
    {
      AddToStack(HttpMethod.Patch, path, middleware);
    }

    method Trace(path: string, middleware: M)
      modifies this
      ensures routeStack == Added(old(routeStack), HttpMethod.Trace, MiddlewareHandler(path, middleware))
    {
      AddToStack(HttpMethod.Trace, path, middleware);
    }
  }
}
