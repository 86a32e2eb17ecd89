/**
 * The game-object query builder. Each call of `actions` or `names` adds a
 * filter to the builder's predicate with `and`, and returns the builder
 * itself so that calls can be chained. A filter looks the object's
 * definition up by the object's id and tests its actions or its name.
 *
 * Java's `null` is `None`. The predicate is kept as the sequence of
 * filters that have been added, evaluated left to right the way nested
 * `Predicate.and` calls are: a later filter runs only once every earlier
 * one has accepted.
 */
module GameObjectQuery {
  import opened Wrappers

  /** What the client's object definition offers: its name and its actions, any of which may be null. */
  datatype ObjectDefinition = ObjectDefinition(name: Option<string>, actions: seq<Option<string>>)

  /** The exception a filter can throw. */
  datatype Exception = NullPointerException

  /** A filter that `actions` or `names` adds, with its varargs. */
  datatype Filter =
    | HasAction(requestedActions: seq<Option<string>>)
    | HasName(requestedNames: seq<Option<string>>)

  // ---------------------------------------------------------------------
  // The actions filter

  /**
   * The object offers one of the requested actions. A null on either side
   * never matches: a null offered action is skipped, and `equals(null)` is
   * false.
   */
  predicate ActionsMatch(requested: seq<Option<string>>, offered: seq<Option<string>>) {
    exists i, j :: 0 <= i < |requested| && 0 <= j < |offered| && requested[i].Some? && offered[j] == requested[i]
  }

  /** The lambda of `actions`: for each requested action, scan the offered actions. */
  method MatchActions(requested: seq<Option<string>>, offered: seq<Option<string>>) returns (found: bool)
    ensures found == ActionsMatch(requested, offered)
  {
    var i := 0;
    while i < |requested|
      invariant 0 <= i <= |requested|
      invariant forall k, j :: 0 <= k < i && 0 <= j < |offered| && requested[k].Some? ==> offered[j] != requested[k]
    {
      var j := 0;
      while j < |offered|
        invariant 0 <= j <= |offered|
        invariant forall m :: 0 <= m < j && requested[i].Some? ==> offered[m] != requested[i]
      {
        if offered[j].Some? && offered[j] == requested[i] {
          return true;
        }
        j := j + 1;
      }
      i := i + 1;
    }
    return false;
  }

  /** An `actions()` filter with no arguments rejects every object. */
  lemma NoRequestedActionMatchesNothing(offered: seq<Option<string>>)
    ensures !ActionsMatch([], offered)
  {
  }

  /**
   * A null inserted anywhere among the offered actions, or anywhere among
   * the requested ones, changes nothing about what the actions filter accepts.
   */
  lemma NullActionIgnored(requested: seq<Option<string>>, offered: seq<Option<string>>, k: nat, m: nat)
    requires k <= |offered| && m <= |requested|
    ensures ActionsMatch(requested, offered[..k] + [None] + offered[k..]) == ActionsMatch(requested, offered)
    ensures ActionsMatch(requested[..m] + [None] + requested[m..], offered) == ActionsMatch(requested, offered)
  {
    var longer := offered[..k] + [None] + offered[k..];
    assert forall j :: 0 <= j < k ==> longer[j] == offered[j];
    assert forall j :: k <= j < |offered| ==> longer[j + 1] == offered[j];
    if ActionsMatch(requested, longer) {
      var i, j :| 0 <= i < |requested| && 0 <= j < |longer| && requested[i].Some? && longer[j] == requested[i];
      var n := if j < k then j else j - 1;
      assert offered[n] == requested[i];
    }
    if ActionsMatch(requested, offered) {
      var i, j :| 0 <= i < |requested| && 0 <= j < |offered| && requested[i].Some? && offered[j] == requested[i];
      var n := if j < k then j else j + 1;
      assert longer[n] == requested[i];
    }
    var more := requested[..m] + [None] + requested[m..];
    assert forall i :: 0 <= i < m ==> more[i] == requested[i];
    assert forall i :: m <= i < |requested| ==> more[i + 1] == requested[i];
    if ActionsMatch(more, offered) {
      var i, j :| 0 <= i < |more| && 0 <= j < |offered| && more[i].Some? && offered[j] == more[i];
      var n := if i < m then i else i - 1;
      assert requested[n] == more[i];
    }
    if ActionsMatch(requested, offered) {
      var i, j :| 0 <= i < |requested| && 0 <= j < |offered| && requested[i].Some? && offered[j] == requested[i];
      var n := if i < m then i else i + 1;
      assert more[n] == requested[i];
    }
  }

  /** Requesting more actions can only widen what the filter accepts. */
  lemma ActionsMatchMonotone(requested: seq<Option<string>>, more: seq<Option<string>>, offered: seq<Option<string>>)
    ensures ActionsMatch(requested, offered) ==> ActionsMatch(requested + more, offered)
    ensures ActionsMatch(more, offered) ==> ActionsMatch(requested + more, offered)
  {
    var all := requested + more;
    if ActionsMatch(requested, offered) {
      var i, j :| 0 <= i < |requested| && 0 <= j < |offered| && requested[i].Some? && offered[j] == requested[i];
      assert all[i] == requested[i];
    }
    if ActionsMatch(more, offered) {
      var i, j :| 0 <= i < |more| && 0 <= j < |offered| && more[i].Some? && offered[j] == more[i];
      assert all[|requested| + i] == more[i];
    }
  }

  // ---------------------------------------------------------------------
  // The names filter

  /**
   * The lambda of `names`: `name.equals(gameObjectName)` for each requested
   * name in turn. The first requested name equal to the object's name
   * accepts; a null requested name reached before that throws; a null
   * object name equals no requested name.
   */
  function NamesMatch(requested: seq<Option<string>>, name: Option<string>): (r: Result<bool, Exception>)
    decreases |requested|
  {
    if requested == [] then Success(false)
    else if requested[0].None? then Failure(NullPointerException)
    else if requested[0] == name then Success(true)
    else NamesMatch(requested[1..], name)
  }

  /** The loop of the `names` lambda. */
  method MatchNames(requested: seq<Option<string>>, name: Option<string>) returns (r: Result<bool, Exception>)
    ensures r == NamesMatch(requested, name)
  {
    var i := 0;
    while i < |requested|
      invariant 0 <= i <= |requested|
      invariant NamesMatch(requested, name) == NamesMatch(requested[i..], name)
    {
      assert requested[i..][1..] == requested[i + 1..];
      if requested[i].None? {
        return Failure(NullPointerException);
      }
      if requested[i] == name {
        return Success(true);
      }
      i := i + 1;
    }
    return Success(false);
  }

  /** The names filter accepts exactly when a requested name equals the object's name with no null before it. */
  lemma {:induction false} NamesMatchAccepts(requested: seq<Option<string>>, name: Option<string>)
    ensures NamesMatch(requested, name) == Success(true) <==>
      exists i :: 0 <= i < |requested| && requested[i].Some? && requested[i] == name &&
        forall k :: 0 <= k < i ==> requested[k].Some?
    decreases |requested|
  {
    if requested != [] && requested[0].Some? && requested[0] != name {
      var rest := requested[1..];
      NamesMatchAccepts(rest, name);
      if NamesMatch(requested, name) == Success(true) {
        var i :| 0 <= i < |rest| && rest[i].Some? && rest[i] == name && forall k :: 0 <= k < i ==> rest[k].Some?;
        assert requested[i + 1] == rest[i];
        assert forall k :: 1 <= k < i + 1 ==> requested[k] == rest[k - 1];
      }
      if exists i :: 0 <= i < |requested| && requested[i].Some? && requested[i] == name &&
          forall k :: 0 <= k < i ==> requested[k].Some? {
        var i :| 0 <= i < |requested| && requested[i].Some? && requested[i] == name &&
          forall k :: 0 <= k < i ==> requested[k].Some?;
        assert rest[i - 1] == requested[i];
        assert forall k :: 0 <= k < i - 1 ==> rest[k] == requested[k + 1];
      }
    }
  }

  /** The names filter throws exactly when a null requested name comes before any match. */
  lemma {:induction false} NamesMatchThrows(requested: seq<Option<string>>, name: Option<string>)
    ensures NamesMatch(requested, name).Failure? <==>
      exists i :: 0 <= i < |requested| && requested[i].None? &&
        forall k :: 0 <= k < i ==> requested[k] != name
    decreases |requested|
  {
    if requested != [] && requested[0].Some? && requested[0] != name {
      var rest := requested[1..];
      NamesMatchThrows(rest, name);
      if NamesMatch(requested, name).Failure? {
        var i :| 0 <= i < |rest| && rest[i].None? && forall k :: 0 <= k < i ==> rest[k] != name;
        assert requested[i + 1] == rest[i];
        assert forall k :: 1 <= k < i + 1 ==> requested[k] == rest[k - 1];
      }
      if exists i :: 0 <= i < |requested| && requested[i].None? &&
          forall k :: 0 <= k < i ==> requested[k] != name {
        var i :| 0 <= i < |requested| && requested[i].None? &&
          forall k :: 0 <= k < i ==> requested[k] != name;
        assert rest[i - 1] == requested[i];
        assert forall k :: 0 <= k < i - 1 ==> rest[k] == requested[k + 1];
      }
    }
  }

  /** The names filter rejects exactly when every requested name is non-null and differs from the object's name. */
  lemma {:induction false} NamesMatchRejects(requested: seq<Option<string>>, name: Option<string>)
    ensures NamesMatch(requested, name) == Success(false) <==>
      forall i :: 0 <= i < |requested| ==> requested[i].Some? && requested[i] != name
    decreases |requested|
  {
    if requested != [] && requested[0].Some? && requested[0] != name {
      var rest := requested[1..];
      NamesMatchRejects(rest, name);
      assert forall i :: 1 <= i < |requested| ==> requested[i] == rest[i - 1];
    }
  }

  /** Without null requested names the names filter never throws and is a membership test. */
  lemma NamesMatchWithoutNulls(requested: seq<Option<string>>, name: Option<string>)
    requires forall i :: 0 <= i < |requested| ==> requested[i].Some?
    ensures NamesMatch(requested, name) == Success(name in requested)
  {
    NamesMatchAccepts(requested, name);
    NamesMatchRejects(requested, name);
  }

  /** An object without a name passes no names filter. */
  lemma NullNameNeverMatches(requested: seq<Option<string>>)
    ensures NamesMatch(requested, None) != Success(true)
  {
    NamesMatchAccepts(requested, None);
  }

  // ---------------------------------------------------------------------
  // The chained predicate

  /** One filter applied to an object's definition. */
  function Apply(filter: Filter, definition: ObjectDefinition): Result<bool, Exception> {
    match filter
    case HasAction(requested) => Success(ActionsMatch(requested, definition.actions))
    case HasName(requested) => NamesMatch(requested, definition.name)
  }

  /**
   * The builder's predicate: `p.and(q)` tests `p` first and runs `q` only
   * when `p` accepts; an exception in `p` propagates without running `q`.
   */
  function Evaluate(filters: seq<Filter>, definition: ObjectDefinition): Result<bool, Exception>
    decreases |filters|
  {
    if filters == [] then Success(true)
    else
      var earlier := Evaluate(filters[..|filters| - 1], definition);
      if earlier != Success(true) then earlier
      else Apply(filters[|filters| - 1], definition)
  }

  /**
   * The predicate is the conjunction of its filters: it accepts exactly
   * when every filter accepts; otherwise its outcome is that of the first
   * filter that does not accept.
   */
  lemma {:induction false} EvaluateIsConjunction(filters: seq<Filter>, definition: ObjectDefinition)
    ensures Evaluate(filters, definition) == Success(true) <==>
      forall i :: 0 <= i < |filters| ==> Apply(filters[i], definition) == Success(true)
    ensures Evaluate(filters, definition) != Success(true) ==>
      exists i :: 0 <= i < |filters| && Evaluate(filters, definition) == Apply(filters[i], definition) &&
        forall k :: 0 <= k < i ==> Apply(filters[k], definition) == Success(true)
    decreases |filters|
  {
    if filters != [] {
      var n := |filters| - 1;
      var front := filters[..n];
      EvaluateIsConjunction(front, definition);
      assert forall k :: 0 <= k < n ==> filters[k] == front[k];
      if Evaluate(front, definition) != Success(true) {
        var i :| 0 <= i < n && Evaluate(front, definition) == Apply(front[i], definition) &&
          forall k :: 0 <= k < i ==> Apply(front[k], definition) == Success(true);
        assert filters[i] == front[i];
      }
    }
  }

  /** A predicate made only of `actions` filters never throws. */
  lemma {:induction false} ActionFiltersNeverThrow(filters: seq<Filter>, definition: ObjectDefinition)
    requires forall i :: 0 <= i < |filters| ==> filters[i].HasAction?
    ensures Evaluate(filters, definition).Success?
    decreases |filters|
  {
    if filters != [] {
      ActionFiltersNeverThrow(filters[..|filters| - 1], definition);
    }
  }

  // ---------------------------------------------------------------------
  // The builder

  class GameObjectQueryBuilder {
    /** `client.getObjectDefinition`: the definition of the object with a given id. */
    const definitionOf: int -> ObjectDefinition
    /** The filters `and`-ed into the inherited `predicate` so far. */
    var filters: seq<Filter>

    /** A new builder over the client; its predicate accepts every object. */
    constructor(definitionOf: int -> ObjectDefinition)
      ensures this.definitionOf == definitionOf && filters == []
    {
      this.definitionOf := definitionOf;
      filters := [];
    }

    /** The predicate applied to the object with id `id`. */
    function Accepts(id: int): Result<bool, Exception>
      reads this
    {
      Evaluate(filters, definitionOf(id))
    }

    /** `actions(...)`: and-s the actions filter into the predicate and returns this builder. */
    method Actions(actions: seq<Option<string>>) returns (self: GameObjectQueryBuilder)
      modifies this
      ensures filters == old(filters) + [HasAction(actions)]
      ensures self == this
      ensures forall id ::
        Accepts(id) == if old(Accepts(id)) == Success(true) then Apply(HasAction(actions), definitionOf(id)) else old(Accepts(id))
    {
      forall id
        ensures Evaluate(filters + [HasAction(actions)], definitionOf(id)) ==
          if Accepts(id) == Success(true) then Apply(HasAction(actions), definitionOf(id)) else Accepts(id)
      {
        AddedFilterRunsLast(id, HasAction(actions));
      }
      filters := filters + [HasAction(actions)];
      self := this;
    }

    /** `names(...)`: and-s the names filter into the predicate and returns this builder. */
    method Names(names: seq<Option<string>>) returns (self: GameObjectQueryBuilder)
      modifies this
      ensures filters == old(filters) + [HasName(names)]
      ensures self == this
      ensures forall id ::
        Accepts(id) == if old(Accepts(id)) == Success(true) then Apply(HasName(names), definitionOf(id)) else old(Accepts(id))
    {
      forall id
        ensures Evaluate(filters + [HasName(names)], definitionOf(id)) ==
          if Accepts(id) == Success(true) then Apply(HasName(names), definitionOf(id)) else Accepts(id)
      {
        AddedFilterRunsLast(id, HasName(names));
      }
      filters := filters + [HasName(names)];
      self := this;
    }

    /** The chained predicate tests the existing predicate first, then the new filter. */
    lemma AddedFilterRunsLast(id: int, filter: Filter)
      ensures var before := Evaluate(filters, definitionOf(id));
        Evaluate(filters + [filter], definitionOf(id)) ==
          if before == Success(true) then Apply(filter, definitionOf(id)) else before
    {
      assert (filters + [filter])[..|filters|] == filters;
    }
  }
}
