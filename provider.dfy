/**
 * Stand-ins for the two provider clients the tool drives: the parameter
 * store (`ssm`) and the autoscaling service (`autoscaling`). Each keeps its
 * data in maps, answers a paginated listing from a fixed, finite list of
 * responses consumed one per call, and records the pagination token each
 * listing call was given.
 */
module Provider {
  import opened Wrappers
  import opened Records

  /**
   * One response of a paginated listing call: the items (absent when the
   * response lacks the list key) and the pagination token, or a call that
   * raised.
   */
  datatype Page<T> = Page(items: Option<seq<T>>, nextToken: Option<string>) | Failed

  /** The items of a response; a response without the list key has none. */
  function ItemsOf<T>(p: Page<T>): seq<T>
  {
    if p.Page? && p.items.Some? then p.items.value else []
  }

  /** The items of several responses, concatenated in order. */
  function AllItems<T>(pages: seq<Page<T>>): seq<T>
    decreases |pages|
  {
    if pages == [] then [] else ItemsOf(pages[0]) + AllItems(pages[1..])
  }

  /** The total number of items over several responses. */
  function TotalSize<T>(pages: seq<Page<T>>): nat
    decreases |pages|
  {
    if pages == [] then 0 else |ItemsOf(pages[0])| + TotalSize(pages[1..])
  }

  lemma {:induction false} AllItemsLength<T>(pages: seq<Page<T>>)
    ensures |AllItems(pages)| == TotalSize(pages)
    decreases |pages|
  {
    if pages != [] {
      AllItemsLength(pages[1..]);
    }
  }

  /**
   * The token argument sent for a held token: Python's `if next_token:`
   * sends no token when it is None or the empty string.
   */
  function TokenArg(token: Option<string>): (arg: Option<string>)
    ensures arg.Some? <==> token.Some? && token.value != ""
    ensures arg.Some? ==> arg == token
  {
    if token.Some? && token.value != "" then token else None
  }

  /**
   * Whether the listing loop calls again after this response: it must be a
   * response with a pagination token and, when `itemsRequired`, must carry
   * its item list (indexing a missing list raises).
   */
  predicate PageContinues<T>(p: Page<T>, itemsRequired: bool)
  {
    p.Page? && p.nextToken.Some? && (!itemsRequired || p.items.Some?)
  }

  /**
   * The token arguments of the calls a listing loop makes against the
   * responses `resps` from index `i` on, the first call carrying `arg`.
   */
  function Requests<T>(resps: seq<Page<T>>, i: nat, arg: Option<string>, itemsRequired: bool): (r: seq<Option<string>>)
    ensures |r| >= 1 && r[0] == arg
    decreases |resps| - i
  {
    if i < |resps| && PageContinues(resps[i], itemsRequired) then
      [arg] + Requests(resps, i + 1, TokenArg(resps[i].nextToken), itemsRequired)
    else [arg]
  }

  /**
   * A listing loop makes one call per continuing response and one more for
   * the response that stops it (or the call that finds the list exhausted).
   */
  lemma {:induction false} RequestsCount<T>(resps: seq<Page<T>>, i: nat, arg: Option<string>, itemsRequired: bool, k: nat)
    requires i <= k <= |resps|
    requires forall j :: i <= j < k ==> PageContinues(resps[j], itemsRequired)
    requires k == |resps| || !PageContinues(resps[k], itemsRequired)
    ensures |Requests(resps, i, arg, itemsRequired)| == k - i + 1
    decreases k - i
  {
    if i < k {
      RequestsCount(resps, i + 1, TokenArg(resps[i].nextToken), itemsRequired, k);
    }
  }

  /**
   * Every call after the first carries the token of the response before
   * it, and never a missing or empty one in place of a real token.
   */
  lemma {:induction false} RequestsCarryTokens<T>(resps: seq<Page<T>>, i: nat, arg: Option<string>, itemsRequired: bool,
                                                  j: nat)
    requires 0 < j < |Requests(resps, i, arg, itemsRequired)|
    ensures i + j - 1 < |resps| && PageContinues(resps[i + j - 1], itemsRequired)
    ensures Requests(resps, i, arg, itemsRequired)[j] == TokenArg(resps[i + j - 1].nextToken)
    decreases j
  {
    if j > 1 {
      RequestsCarryTokens(resps, i + 1, TokenArg(resps[i].nextToken), itemsRequired, j - 1);
    }
  }

  /** The sizes of an autoscaling group the tool can change. */
  datatype Sizes = Sizes(min: int, max: int, desired: int)

  /** One `get_parameters_by_path` call as the store received it. */
  datatype ByPathRequest = ByPathRequest(path: string, recursive: bool, withDecryption: bool, token: Option<string>)

  /** The answer to `get_parameter`: the parameter, a response without one, or a raised call. */
  datatype GetResponse = Found(parameter: Parameter) | NoParameter | Raised

  /**
   * The parameter map after an overwriting put: the key holds a parameter
   * with the new value and type and the next version; no other key changes.
   */
  function Put(m: map<string, Parameter>, name: string, value: string, ptype: ParameterType, arnPrefix: string)
    : (m': map<string, Parameter>)
    ensures name in m' && m'[name].name == name
    ensures m'[name].value == value && m'[name].ptype == ptype
    ensures m'[name].version == if name in m then m[name].version + 1 else 1
    ensures m'.Keys == m.Keys + {name}
    ensures forall k :: k in m && k != name ==> m'[k] == m[k]
  {
    var version := if name in m then m[name].version + 1 else 1;
    m[name := Parameter(name, ptype, value, version, arnPrefix + name)]
  }

  /** A stub of the parameter store client. */
  class ParameterStore {
    /** The stored parameters, by full name. */
    var params: map<string, Parameter>
    /** The responses `get_parameters_by_path` gives, one per call. */
    var pages: seq<Page<Parameter>>
    var cursor: nat
    /** Every `get_parameters_by_path` call received so far. */
    var requests: seq<ByPathRequest>
    /** When set, every single-parameter call raises. */
    var unavailable: bool
    const arnPrefix: string

    /** Every parameter is stored under its own name; the cursor stays in the list. */
    ghost predicate Valid()
      reads this
    {
      && cursor <= |pages|
      && forall k :: k in params ==> params[k].name == k
    }

    constructor (params: map<string, Parameter>, pages: seq<Page<Parameter>>, unavailable: bool, arnPrefix: string)
      requires forall k :: k in params ==> params[k].name == k
      ensures Valid()
      ensures this.params == params && this.pages == pages && this.unavailable == unavailable
      ensures this.arnPrefix == arnPrefix && cursor == 0 && requests == []
    {
      this.params := params;
      this.pages := pages;
      this.unavailable := unavailable;
      this.arnPrefix := arnPrefix;
      cursor := 0;
      requests := [];
    }

    /** `get_parameter(Name=name, WithDecryption=True)`. */
    method GetParameter(name: string) returns (r: GetResponse)
      ensures r == if unavailable then Raised else if name in params then Found(params[name]) else NoParameter
    {
      if unavailable {
        r := Raised;
      } else if name in params {
        r := Found(params[name]);
      } else {
        r := NoParameter;
      }
    }

    /** `put_parameter`: refuses to replace an existing key unless `overwrite`. */
    method PutParameter(name: string, value: string, ptype: ParameterType, overwrite: bool) returns (ok: bool)
      requires Valid()
      modifies this`params
      ensures Valid()
      ensures ok == (!unavailable && (overwrite || name !in old(params)))
      ensures params == if ok then Put(old(params), name, value, ptype, arnPrefix) else old(params)
    {
      ok := !unavailable && (overwrite || name !in params);
      if ok {
        params := Put(params, name, value, ptype, arnPrefix);
      }
    }

    /** `delete_parameter`: fails on a missing key, which changes nothing either way. */
    method DeleteParameter(name: string) returns (ok: bool)
      requires Valid()
      modifies this`params
      ensures Valid()
      ensures ok == (!unavailable && name in old(params))
      ensures params == if unavailable then old(params) else old(params) - {name}
    {
      ok := !unavailable && name in params;
      if !unavailable {
        params := params - {name};
      }
    }

    /** `get_parameters_by_path`: the next response, or a raised call once they run out. */
    method GetParametersByPath(path: string, recursive: bool, withDecryption: bool, token: Option<string>)
      returns (r: Page<Parameter>)
      requires Valid()
      modifies this`cursor, this`requests
      ensures Valid()
      ensures requests == old(requests) + [ByPathRequest(path, recursive, withDecryption, token)]
      ensures old(cursor) < |pages| ==> r == pages[old(cursor)] && cursor == old(cursor) + 1
      ensures old(cursor) == |pages| ==> r == Failed && cursor == old(cursor)
    {
      requests := requests + [ByPathRequest(path, recursive, withDecryption, token)];
      if cursor < |pages| {
        r := pages[cursor];
        cursor := cursor + 1;
      } else {
        r := Failed;
      }
    }
  }

  /** A stub of the autoscaling client. */
  class AutoScalingService {
    /** The sizes of every existing group, by name. */
    var groups: map<string, Sizes>
    /** The responses `describe_auto_scaling_groups` gives, one per call. */
    var pages: seq<Page<AutoScalingGroup>>
    var cursor: nat
    /** The `NextToken` argument of every describe call received so far. */
    var requests: seq<Option<string>>
    /** When set, every update call raises. */
    var unavailable: bool

    ghost predicate Valid()
      reads this
    {
      cursor <= |pages|
    }

    constructor (groups: map<string, Sizes>, pages: seq<Page<AutoScalingGroup>>, unavailable: bool)
      ensures Valid()
      ensures this.groups == groups && this.pages == pages && this.unavailable == unavailable
      ensures cursor == 0 && requests == []
    {
      this.groups := groups;
      this.pages := pages;
      this.unavailable := unavailable;
      cursor := 0;
      requests := [];
    }

    /** `update_auto_scaling_group`: sets the three sizes of an existing group. */
    method UpdateAutoScalingGroup(name: string, min: int, max: int, desired: int) returns (ok: bool)
      modifies this`groups
      ensures ok == (!unavailable && name in old(groups))
      ensures groups == if ok then old(groups)[name := Sizes(min, max, desired)] else old(groups)
    {
      ok := !unavailable && name in groups;
      if ok {
        groups := groups[name := Sizes(min, max, desired)];
      }
    }

    /** `describe_auto_scaling_groups`: the next response, or a raised call once they run out. */
    method DescribeAutoScalingGroups(token: Option<string>) returns (r: Page<AutoScalingGroup>)
      requires Valid()
      modifies this`cursor, this`requests
      ensures Valid()
      ensures requests == old(requests) + [token]
      ensures old(cursor) < |pages| ==> r == pages[old(cursor)] && cursor == old(cursor) + 1
      ensures old(cursor) == |pages| ==> r == Failed && cursor == old(cursor)
    {
      requests := requests + [token];
      if cursor < |pages| {
        r := pages[cursor];
        cursor := cursor + 1;
      } else {
        r := Failed;
      }
    }
  }
}
