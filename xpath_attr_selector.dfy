/**
 * `XPathAttrSelector`: the `[xpath>'expr']` attribute selector. `Match`
 * evaluates the expression from the scope element, caches the result list
 * under that scope, and answers whether the candidate element is in the list.
 */
module Selectors {
  import opened Wrappers
  import opened Dom
  import opened Extensions

  /** AngleSharp's selector `Priority`: counts of inline styles, ids, classes and tags. */
  datatype Priority = Priority(inlines: nat, ids: nat, classes: nat, tags: nat)

  const OneClass: Priority := Priority(0, 0, 1, 0)

  /** The selector's cache: the last scope and its result list, both null at first. */
  datatype Cache = Cache(scope: Option<NodeId>, result: Option<seq<NodeId>>)

  /**
   * One `Match` call as written. The scope is recorded before the query runs,
   * so a query that throws leaves the new scope next to the old result list.
   */
  function MatchStep(t: Tree, engine: Engine, value: string, cache: Cache, element: NodeId, scope: Option<NodeId>)
    : (out: (Result<bool>, Cache))
    requires scope.Some? ==> scope.value in t.nodes
    ensures out.1.scope == scope
    ensures cache.scope == scope ==> out.1.result == cache.result
    ensures cache.scope != scope && Selection(t, engine, scope, Some(value)).Success? ==>
              out.1.result == Some(Selection(t, engine, scope, Some(value)).value)
    ensures cache.scope != scope && Selection(t, engine, scope, Some(value)).Failure? ==>
              out == (Failure(Selection(t, engine, scope, Some(value)).error), Cache(scope, cache.result))
    ensures cache.scope == scope && cache.result.None? ==> out.0 == Failure(NullReference)
    ensures out.0.Success? <==>
              (cache.scope != scope ==> Selection(t, engine, scope, Some(value)).Success?) && out.1.result.Some?
    ensures out.0.Success? ==> out.1.result.Some? && (out.0.value <==> element in out.1.result.value)
  {
    var cache' :=
      if cache.scope != scope then
        match Selection(t, engine, scope, Some(value))
        case Success(nodes) => Cache(scope, Some(nodes))
        case Failure(_) => Cache(scope, cache.result)
      else cache;
    if cache.scope != scope && Selection(t, engine, scope, Some(value)).Failure? then
      (Failure(Selection(t, engine, scope, Some(value)).error), cache')
    else if cache'.result.None? then (Failure(NullReference), cache')
    else (Success(element in cache'.result.value), cache')
  }

  class XPathAttrSelector {
    const tree: Tree
    const engine: Engine
    const value: string
    var scope: Option<NodeId>
    var result: Option<seq<NodeId>>

    constructor (tree: Tree, engine: Engine, value: string)
      ensures this.tree == tree && this.engine == engine && this.value == value
      ensures scope.None? && result.None?
    {
      this.tree := tree;
      this.engine := engine;
      this.value := value;
      scope := None;
      result := None;
    }

    function Cached(): Cache
      reads this
    {
      Cache(scope, result)
    }

    /** `Specificity`: one class selector's weight. */
    function Specificity(): (p: Priority)
      ensures p == OneClass
    {
      OneClass
    }

    /** `Text`: the selector written back as `[xpath>'$<value>']`. */
    function Text(): (r: string)
      reads this
      ensures |r| == |value| + 11
      ensures r[..9] == "[xpath>'$" && r[9..|r| - 2] == value && r[|r| - 2..] == "']"
    {
      "[xpath>'$" + value + "']"
    }

    /** `Accept`: visits nothing. */
    method Accept()
      ensures unchanged(this)
    {
    }

    /**
     * `Match`: re-runs the query only when the scope differs from the cached
     * one, then tests membership of `element` in the cached list.
     */
    method Match(element: NodeId, scope: Option<NodeId>) returns (r: Result<bool>)
      requires tree.Valid()
      requires scope.Some? ==> tree.IsElement(scope.value)
      modifies this`scope, this`result
      ensures (r, Cached()) == MatchStep(tree, engine, value, old(Cached()), element, scope)
      ensures this.scope == scope
      ensures old(this.scope) == scope ==> result == old(result)
      ensures old(this.scope) != scope && r.Success? ==> result == Some(Selection(tree, engine, scope, Some(value)).value)
      ensures r.Success? <==>
                (old(this.scope) != scope ==> Selection(tree, engine, scope, Some(value)).Success?) && result.Some?
      ensures r.Success? ==> (r.value <==> element in result.value)
    {
      if this.scope != scope {
        this.scope := scope;
        var nodes := SelectNodes(tree, engine, scope, Some(value));
        if nodes.Failure? {
          return Failure(nodes.error);
        }
        result := Some(nodes.value);
      }
      if result.None? {
        return Failure(NullReference);
      }
      r := Success(element in result.value);
    }
  }

  /**
   * The stale answer: after a successful match in scope `s`, a match with a
   * null scope throws but records the null scope; a second match with a null
   * scope then reuses the list computed for `s` and answers true, although no
   * query can run from a null scope.
   */
  lemma StaleResultAfterFailedQuery(t: Tree, engine: Engine, value: string, e: NodeId, s: NodeId)
    requires t.Valid() && t.IsElement(s) && t.nodes[s].owner.Some?
    requires e in Nodes(engine(QueryStart(t, s), value))
    ensures var first := MatchStep(t, engine, value, Cache(None, None), e, Some(s));
            var second := MatchStep(t, engine, value, first.1, e, None);
            var third := MatchStep(t, engine, value, second.1, e, None);
            && first.0 == Success(true)
            && second.0 == Failure(ArgumentNull("element"))
            && third.0 == Success(true)
            && Selection(t, engine, None, Some(value)).Failure?
  {
  }

  /** A cached list is always the query result of the cached scope. */
  ghost predicate Consistent(t: Tree, engine: Engine, value: string, cache: Cache) {
    cache.result.Some? ==>
      cache.scope.Some? && cache.scope.value in t.nodes &&
      Selection(t, engine, cache.scope, Some(value)) == Success(cache.result.value)
  }

  /** `Match` with the scope recorded only together with its result list. */
  function MatchStepFixed(t: Tree, engine: Engine, value: string, cache: Cache, element: NodeId, scope: Option<NodeId>)
    : (out: (Result<bool>, Cache))
    requires scope.Some? ==> scope.value in t.nodes
    ensures cache.scope == scope && cache.result.Some? ==> out.1 == cache
  {
    if cache.scope == scope && cache.result.Some? then (Success(element in cache.result.value), cache)
    else
      match Selection(t, engine, scope, Some(value))
      case Failure(err) => (Failure(err), cache)
      case Success(nodes) => (Success(element in nodes), Cache(scope, Some(nodes)))
  }

  /**
   * The corrected step keeps the cache consistent, and every answer is
   * membership in the query result of the scope passed in.
   */
  lemma FixedMatchAnswersForItsScope(t: Tree, engine: Engine, value: string, cache: Cache, element: NodeId, scope: Option<NodeId>)
    requires scope.Some? ==> scope.value in t.nodes
    requires Consistent(t, engine, value, cache)
    ensures var out := MatchStepFixed(t, engine, value, cache, element, scope);
            && Consistent(t, engine, value, out.1)
            && (out.0.Success? <==> Selection(t, engine, scope, Some(value)).Success?)
            && (out.0.Success? ==> (out.0.value <==> element in Selection(t, engine, scope, Some(value)).value))
  {
  }
}
