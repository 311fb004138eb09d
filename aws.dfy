/**
 * The resource client `Aws`: every operation is scoped to one
 * (product, environment) pair and talks to the provider through the two
 * stub clients. Provider failures are swallowed as in the original: the
 * operation returns an empty or partial result instead of failing.
 */
module AwsClient {
  import opened Wrappers
  import opened Sequences
  import opened Naming
  import opened Records
  import opened Provider

  /** Put a list in front of the outcome of the remaining pages; a failure stays a failure. */
  function Prepend(acc: seq<GroupHash>, rest: Option<seq<GroupHash>>): Option<seq<GroupHash>>
  {
    match rest
    case None => None
    case Some(l) => Some(acc + l)
  }

  lemma PrependNothing(rest: Option<seq<GroupHash>>)
    ensures Prepend([], rest) == rest
  {
    if rest.Some? {
      assert [] + rest.value == rest.value;
    }
  }

  lemma PrependTwice(a: seq<GroupHash>, b: seq<GroupHash>, rest: Option<seq<GroupHash>>)
    ensures Prepend(a, Prepend(b, rest)) == Prepend(a + b, rest)
  {
    if rest.Some? {
      Associative(a, b, rest.value);
    }
  }

  /**
   * What `get_asgs` gathers from the describe responses `resps`, from
   * index `i` on: the in-scope groups of every page up to the first one
   * without a token, or None when a call raises first (including when the
   * responses run out).
   */
  function GroupsFrom(s: Scope, resps: seq<Page<AutoScalingGroup>>, i: nat): Option<seq<GroupHash>>
    decreases |resps| - i
  {
    if i >= |resps| || resps[i].Failed? then None
    else
      var here := InScope(s, ItemsOf(resps[i]));
      if resps[i].nextToken.None? then Some(here) else Prepend(here, GroupsFrom(s, resps, i + 1))
  }

  /** The loop of `get_asgs` stops: a raised call, or a response without a token. */
  lemma GroupsEnd(s: Scope, resps: seq<Page<AutoScalingGroup>>, i0: nat, acc: seq<GroupHash>, i: nat, kept: seq<GroupHash>)
    requires GroupsFrom(s, resps, i0) == Prepend(acc, GroupsFrom(s, resps, i))
    requires i >= |resps| || resps[i].Failed? || (resps[i].nextToken.None? && kept == InScope(s, ItemsOf(resps[i])))
    ensures i >= |resps| || resps[i].Failed? ==> GroupsFrom(s, resps, i0) == None
    ensures i < |resps| && resps[i].Page? ==> GroupsFrom(s, resps, i0) == Some(acc + kept)
  {
  }

  /** The loop of `get_asgs` goes on after a response with a token. */
  lemma GroupsAdvance(s: Scope, resps: seq<Page<AutoScalingGroup>>, i0: nat, acc: seq<GroupHash>, i: nat,
                      acc': seq<GroupHash>)
    requires GroupsFrom(s, resps, i0) == Prepend(acc, GroupsFrom(s, resps, i))
    requires i < |resps| && PageContinues(resps[i], false)
    requires acc' == acc + InScope(s, ItemsOf(resps[i]))
    ensures GroupsFrom(s, resps, i0) == Prepend(acc', GroupsFrom(s, resps, i + 1))
  {
    var here, later := InScope(s, ItemsOf(resps[i])), GroupsFrom(s, resps, i + 1);
    assert GroupsFrom(s, resps, i) == Prepend(here, later);
    PrependTwice(acc, here, later);
  }

  /** A listing loop's calls so far, after one more call that is its last. */
  lemma RequestsEnd<T>(resps: seq<Page<T>>, i0: nat, sent: seq<Option<string>>, i: nat, arg: Option<string>,
                       itemsRequired: bool)
    requires Requests(resps, i0, None, itemsRequired) == sent + Requests(resps, i, arg, itemsRequired)
    requires i >= |resps| || !PageContinues(resps[i], itemsRequired)
    ensures Requests(resps, i0, None, itemsRequired) == sent + [arg]
  {
  }

  /** A listing loop's calls so far, after one more call that is not its last. */
  lemma RequestsAdvance<T>(resps: seq<Page<T>>, i0: nat, sent: seq<Option<string>>, i: nat, arg: Option<string>,
                           itemsRequired: bool, sent': seq<Option<string>>, token: Option<string>)
    requires Requests(resps, i0, None, itemsRequired) == sent + Requests(resps, i, arg, itemsRequired)
    requires i < |resps| && PageContinues(resps[i], itemsRequired)
    requires sent' == sent + [arg] && token == resps[i].nextToken
    ensures Requests(resps, i0, None, itemsRequired) == sent' + Requests(resps, i + 1, TokenArg(token), itemsRequired)
  {
    var later := Requests(resps, i + 1, TokenArg(token), itemsRequired);
    assert Requests(resps, i, arg, itemsRequired) == [arg] + later;
    Associative(sent, [arg], later);
  }

  /**
   * What `get_all_secrets` gathers from the by-path responses `resps`, from
   * index `i` on: the hashes of every page up to the first one without a
   * token; a call that raises, or a response without its parameter list,
   * ends the gathering with what was collected so far.
   */
  function SecretsFrom(s: Scope, resps: seq<Page<Parameter>>, i: nat): seq<SecretHash>
    decreases |resps| - i
  {
    if i >= |resps| || resps[i].Failed? || resps[i].items.None? then []
    else
      Hashes(s, resps[i].items.value) + (if resps[i].nextToken.None? then [] else SecretsFrom(s, resps, i + 1))
  }

  /** The loop of `get_all_secrets` stops early: a raised call, or a response without its list. */
  lemma SecretsEnd(s: Scope, resps: seq<Page<Parameter>>, i0: nat, acc: seq<SecretHash>, i: nat)
    requires SecretsFrom(s, resps, i0) == acc + SecretsFrom(s, resps, i)
    requires i >= |resps| || resps[i].Failed? || resps[i].items.None?
    ensures SecretsFrom(s, resps, i0) == acc
  {
    assert acc + [] == acc;
  }

  /** The loop of `get_all_secrets` stops after a complete response without a token. */
  lemma SecretsLast(s: Scope, resps: seq<Page<Parameter>>, i0: nat, acc: seq<SecretHash>, i: nat, acc': seq<SecretHash>)
    requires SecretsFrom(s, resps, i0) == acc + SecretsFrom(s, resps, i)
    requires i < |resps| && resps[i].Page? && resps[i].items.Some? && resps[i].nextToken.None?
    requires acc' == acc + Hashes(s, resps[i].items.value)
    ensures SecretsFrom(s, resps, i0) == acc'
  {
    var here := Hashes(s, resps[i].items.value);
    assert SecretsFrom(s, resps, i) == here + [];
    assert here + [] == here;
  }

  /** The loop of `get_all_secrets` goes on after a complete response with a token. */
  lemma SecretsAdvance(s: Scope, resps: seq<Page<Parameter>>, i0: nat, acc: seq<SecretHash>, i: nat,
                       acc': seq<SecretHash>)
    requires SecretsFrom(s, resps, i0) == acc + SecretsFrom(s, resps, i)
    requires i < |resps| && PageContinues(resps[i], true)
    requires acc' == acc + Hashes(s, resps[i].items.value)
    ensures SecretsFrom(s, resps, i0) == acc' + SecretsFrom(s, resps, i + 1)
  {
    var here, later := Hashes(s, resps[i].items.value), SecretsFrom(s, resps, i + 1);
    assert SecretsFrom(s, resps, i) == here + later;
    Associative(acc, here, later);
  }

  /** The by-path calls of `get_all_secrets`: the scope path, recursive, decrypted, with each token. */
  function ByPath(path: string, tokens: seq<Option<string>>): (r: seq<ByPathRequest>)
    ensures |r| == |tokens|
    decreases |tokens|
  {
    if tokens == [] then [] else [ByPathRequest(path, true, true, tokens[0])] + ByPath(path, tokens[1..])
  }

  /** One more by-path call appends one more request. */
  lemma {:induction false} ByPathAppend(path: string, tokens: seq<Option<string>>, token: Option<string>)
    ensures ByPath(path, tokens + [token]) == ByPath(path, tokens) + [ByPathRequest(path, true, true, token)]
    decreases |tokens|
  {
    if tokens == [] {
      assert [] + [token] == [token];
    } else {
      assert (tokens + [token])[0] == tokens[0] && (tokens + [token])[1..] == tokens[1..] + [token];
      ByPathAppend(path, tokens[1..], token);
    }
  }

  /** The storage type `set_secret` picks: encrypted exactly when asked, otherwise plain. */
  function StorageType(encrypt: bool): (t: ParameterType)
    ensures t == SecureString <==> encrypt
    ensures t == String <==> !encrypt
  {
    if encrypt then SecureString else String
  }

  /** The responses `i..k`, concatenated, restart after response `i`. */
  lemma AllItemsStep<T>(resps: seq<Page<T>>, i: nat, k: nat)
    requires i <= k < |resps|
    ensures AllItems(resps[i..k + 1]) == ItemsOf(resps[i]) + AllItems(resps[i + 1..k + 1])
  {
    assert resps[i..k + 1][0] == resps[i];
    assert resps[i..k + 1][1..] == resps[i + 1..k + 1];
  }

  /**
   * A successful `get_asgs`: if the responses from index `i` up to `k`
   * (excluded) all carry a token and response `k` carries none, the result
   * is, in page order, the hashes of exactly the in-scope groups of
   * responses `i..k`.
   */
  lemma {:induction false} GroupsSucceed(s: Scope, resps: seq<Page<AutoScalingGroup>>, i: nat, k: nat)
    requires i <= k < |resps|
    requires forall j :: i <= j < k ==> PageContinues(resps[j], false)
    requires resps[k].Page? && resps[k].nextToken.None?
    ensures GroupsFrom(s, resps, i) == Some(InScope(s, AllItems(resps[i..k + 1])))
    decreases k - i
  {
    AllItemsStep(resps, i, k);
    InScopeAppend(s, ItemsOf(resps[i]), AllItems(resps[i + 1..k + 1]));
    if i < k {
      GroupsSucceed(s, resps, i + 1, k);
    } else {
      assert resps[i + 1..k + 1] == [];
      assert ItemsOf(resps[i]) + [] == ItemsOf(resps[i]);
      assert InScope(s, []) == [];
    }
  }

  /**
   * A failed `get_asgs`: if a call raises before any response without a
   * token, nothing gathered survives.
   */
  lemma {:induction false} GroupsFail(s: Scope, resps: seq<Page<AutoScalingGroup>>, i: nat, k: nat)
    requires i <= k <= |resps|
    requires forall j :: i <= j < k ==> PageContinues(resps[j], false)
    requires k == |resps| || resps[k].Failed?
    ensures GroupsFrom(s, resps, i) == None
    decreases k - i
  {
    if i < k {
      GroupsFail(s, resps, i + 1, k);
    }
  }

  /** Hashing a concatenation is concatenating the hashes. */
  lemma HashesAppend(s: Scope, a: seq<Parameter>, b: seq<Parameter>)
    ensures Hashes(s, a + b) == Hashes(s, a) + Hashes(s, b)
  {
    var l, r := Hashes(s, a + b), Hashes(s, a) + Hashes(s, b);
    forall j | 0 <= j < |l| ensures l[j] == r[j] {
      HashesAt(s, a + b, j);
      if j < |a| {
        HashesAt(s, a, j);
        assert (a + b)[j] == a[j];
      } else {
        HashesAt(s, b, j - |a|);
        assert (a + b)[j] == b[j - |a|];
      }
    }
  }

  /**
   * A successful `get_all_secrets`: the hashes of every parameter of
   * responses `i..k`, in order, where `k` is the first response without a token.
   */
  lemma {:induction false} SecretsSucceed(s: Scope, resps: seq<Page<Parameter>>, i: nat, k: nat)
    requires i <= k < |resps|
    requires forall j :: i <= j < k ==> PageContinues(resps[j], true)
    requires resps[k].Page? && resps[k].items.Some? && resps[k].nextToken.None?
    ensures SecretsFrom(s, resps, i) == Hashes(s, AllItems(resps[i..k + 1]))
    decreases k - i
  {
    AllItemsStep(resps, i, k);
    var here, rest := ItemsOf(resps[i]), AllItems(resps[i + 1..k + 1]);
    HashesAppend(s, here, rest);
    if i < k {
      SecretsSucceed(s, resps, i + 1, k);
      assert SecretsFrom(s, resps, i) == Hashes(s, here) + SecretsFrom(s, resps, i + 1);
    } else {
      assert resps[i + 1..k + 1] == [];
      assert SecretsFrom(s, resps, i) == Hashes(s, here) + [];
    }
  }

  /**
   * The shape of a successful `get_all_secrets`: one hash per parameter of
   * responses `i..k`, so as many as the pages hold together, and entry `j`
   * is parameter `j` with its name made scope-relative.
   */
  lemma SecretsShape(s: Scope, resps: seq<Page<Parameter>>, i: nat, k: nat, j: nat)
    requires i <= k < |resps|
    requires forall j :: i <= j < k ==> PageContinues(resps[j], true)
    requires resps[k].Page? && resps[k].items.Some? && resps[k].nextToken.None?
    ensures |SecretsFrom(s, resps, i)| == |AllItems(resps[i..k + 1])| == TotalSize(resps[i..k + 1])
    ensures j < |SecretsFrom(s, resps, i)| ==>
      var p := AllItems(resps[i..k + 1])[j];
      SecretsFrom(s, resps, i)[j] == SecretHash(RelativeName(s, p.name), p.ptype, p.value, p.version, p.arn)
  {
    SecretsSucceed(s, resps, i, k);
    AllItemsLength(resps[i..k + 1]);
    if j < |SecretsFrom(s, resps, i)| {
      HashesAt(s, AllItems(resps[i..k + 1]), j);
    }
  }

  /**
   * An interrupted `get_all_secrets`: when the call after the complete
   * responses `i..k` raises, or its response lacks the parameter list, the
   * result is the hashes of those complete responses.
   */
  lemma {:induction false} SecretsPartial(s: Scope, resps: seq<Page<Parameter>>, i: nat, k: nat)
    requires i <= k <= |resps|
    requires forall j :: i <= j < k ==> PageContinues(resps[j], true)
    requires k == |resps| || resps[k].Failed? || resps[k].items.None?
    ensures SecretsFrom(s, resps, i) == Hashes(s, AllItems(resps[i..k]))
    decreases k - i
  {
    if i < k {
      AllItemsStep(resps, i, k - 1);
      HashesAppend(s, ItemsOf(resps[i]), AllItems(resps[i + 1..k]));
      SecretsPartial(s, resps, i + 1, k);
    } else {
      assert resps[i..k] == [];
    }
  }

  /**
   * `set_secret` followed by `get_secret` of the same name, against any
   * prior store: the secret reads back with the value just written,
   * encrypted exactly when `encrypt` was set, whatever value and type it
   * had before; it reads back under its bare name exactly when the scope
   * path does not occur inside the name.
   */
  lemma SetThenGet(s: Scope, m: map<string, Parameter>, name: string, value: string, encrypt: bool, arnPrefix: string)
    ensures FullName(s, name) in Put(m, FullName(s, name), value, StorageType(encrypt), arnPrefix)
    ensures var h := ParamToHash(s, Put(m, FullName(s, name), value, StorageType(encrypt), arnPrefix)[FullName(s, name)]);
      h.value == value && (h.ptype == SecureString <==> encrypt) && (h.name == name <==> !Occurs(name, Path(s)))
  {
    RelativeOfFullName(s, name);
  }

  class Aws {
    const scope: Scope
    /** The parameter store client (`self.ssm`). */
    const ssm: ParameterStore
    /** The autoscaling client (`self.asg`). */
    const asg: AutoScalingService

    constructor (product: string, env: string, ssm: ParameterStore, asg: AutoScalingService)
      ensures scope == Scope(product, env) && this.ssm == ssm && this.asg == asg
    {
      scope := Scope(product, env);
      this.ssm := ssm;
      this.asg := asg;
    }

    /** `__asg_in_env`: one pass over the tags, raising a flag for each of the two tags sought. */
    method AsgInEnv(group: AutoScalingGroup) returns (inEnv: bool)
      ensures inEnv <==>
        && (exists i :: 0 <= i < |group.tags| && group.tags[i] == Tag(EnvironmentKey, scope.env))
        && (exists i :: 0 <= i < |group.tags| && group.tags[i] == Tag(ProductKey, scope.product))
      ensures inEnv == InEnv(scope, group.tags)
    {
      var ourEnv, ourProduct := false, false;
      for i := 0 to |group.tags|
        invariant ourEnv <==> exists j :: 0 <= j < i && group.tags[j] == Tag(EnvironmentKey, scope.env)
        invariant ourProduct <==> exists j :: 0 <= j < i && group.tags[j] == Tag(ProductKey, scope.product)
      {
        var tag := group.tags[i];
        if tag.key == EnvironmentKey && tag.value == scope.env {
          ourEnv := true;
        }
        if tag.key == ProductKey && tag.value == scope.product {
          ourProduct := true;
        }
      }
      inEnv := ourEnv && ourProduct;
    }

    /**
     * `scale_asg`: one update call setting exactly the three sizes of the
     * named group, whatever its tags; every other group keeps its sizes.
     * The call fails, changing nothing, when the group does not exist or
     * the service is unavailable.
     */
    method ScaleAsg(name: string, min: int, max: int, desired: int)
      modifies asg`groups
      ensures asg.groups ==
        if !asg.unavailable && name in old(asg.groups) then old(asg.groups)[name := Sizes(min, max, desired)]
        else old(asg.groups)
    {
      var _ := asg.UpdateAutoScalingGroup(name, min, max, desired);
    }

    /**
     * The body of `get_asgs`'s loop over one page's groups: the hashes of
     * the groups `__asg_in_env` accepts, in order.
     */
    method KeepInScope(groups: seq<AutoScalingGroup>) returns (kept: seq<GroupHash>)
      ensures kept == InScope(scope, groups)
    {
      kept := [];
      for j := 0 to |groups|
        invariant kept == InScope(scope, groups[..j])
      {
        var inEnv := AsgInEnv(groups[j]);
        if inEnv {
          kept := kept + [AsgToHash(groups[j])];
        }
        assert groups[..j + 1] == groups[..j] + [groups[j]];
        InScopeAppend(scope, groups[..j], [groups[j]]);
      }
      assert groups[..|groups|] == groups;
    }

    /**
     * The call at the head of `get_asgs`'s loop: the held token is passed
     * only when it is truthy.
     */
    method DescribePage(nextToken: Option<string>) returns (response: Page<AutoScalingGroup>)
      requires asg.Valid()
      modifies asg`cursor, asg`requests
      ensures asg.Valid()
      ensures asg.requests == old(asg.requests) + [TokenArg(nextToken)]
      ensures old(asg.cursor) < |asg.pages| ==> response == asg.pages[old(asg.cursor)] && asg.cursor == old(asg.cursor) + 1
      ensures old(asg.cursor) == |asg.pages| ==> response == Failed && asg.cursor == old(asg.cursor)
    {
      if nextToken.Some? && nextToken.value != "" {
        response := asg.DescribeAutoScalingGroups(nextToken);
      } else {
        response := asg.DescribeAutoScalingGroups(None);
      }
    }

    /**
     * `get_asgs`: pages through the describe responses, keeping the hashes
     * of the in-scope groups, until a response without a token; any raised
     * call discards everything gathered and yields an empty result.
     */
    method GetAsgs() returns (asgs: seq<GroupHash>)
      requires asg.Valid()
      modifies asg`cursor, asg`requests
      ensures asg.Valid()
      ensures var run := GroupsFrom(scope, asg.pages, old(asg.cursor));
        asgs == if run.Some? then run.value else []
      ensures asg.requests == old(asg.requests) + Requests(asg.pages, old(asg.cursor), None, false)
    {
      ghost var pages, i0 := asg.pages, asg.cursor;
      ghost var sent: seq<Option<string>> := [];
      var nextToken: Option<string> := None;
      asgs := [];
      PrependNothing(GroupsFrom(scope, pages, i0));
      while true
        invariant asg.Valid() && asg.pages == pages
        invariant GroupsFrom(scope, pages, i0) == Prepend(asgs, GroupsFrom(scope, pages, asg.cursor))
        invariant asg.requests == old(asg.requests) + sent
        invariant Requests(pages, i0, None, false) == sent + Requests(pages, asg.cursor, TokenArg(nextToken), false)
        decreases |pages| - asg.cursor
      {
        ghost var i := asg.cursor;
        var response := DescribePage(nextToken);
        Associative(old(asg.requests), sent, [TokenArg(nextToken)]);
        if response.Failed? {
          GroupsEnd(scope, pages, i0, asgs, i, []);
          RequestsEnd(pages, i0, sent, i, TokenArg(nextToken), false);
          return [];
        }
        var kept: seq<GroupHash> := [];
        if response.items.Some? {
          kept := KeepInScope(response.items.value);
        }
        if response.nextToken.None? {
          GroupsEnd(scope, pages, i0, asgs, i, kept);
          RequestsEnd(pages, i0, sent, i, TokenArg(nextToken), false);
          return asgs + kept;
        }
        ghost var asgsBefore, sentBefore, arg := asgs, sent, TokenArg(nextToken);
        asgs := asgs + kept;
        sent := sent + [TokenArg(nextToken)];
        nextToken := response.nextToken;
        GroupsAdvance(scope, pages, i0, asgsBefore, i, asgs);
        RequestsAdvance(pages, i0, sentBefore, i, arg, false, sent, nextToken);
      }
    }

    /** `set_secret`: an overwriting put of the value under the full name, typed by `encrypt`. */
    method SetSecret(name: string, value: string, encrypt: bool)
      requires ssm.Valid()
      modifies ssm`params
      ensures ssm.Valid()
      ensures ssm.params ==
        if ssm.unavailable then old(ssm.params)
        else Put(old(ssm.params), FullName(scope, name), value, StorageType(encrypt), ssm.arnPrefix)
    {
      var _ := ssm.PutParameter(FullName(scope, name), value, StorageType(encrypt), true);
    }

    /** `delete_secret`: removes the full name's entry and nothing else. */
    method DeleteSecret(name: string)
      requires ssm.Valid()
      modifies ssm`params
      ensures ssm.Valid()
      ensures ssm.params == if ssm.unavailable then old(ssm.params) else old(ssm.params) - {FullName(scope, name)}
    {
      var _ := ssm.DeleteParameter(FullName(scope, name));
    }

    /**
     * `get_secret`: the hash of the parameter stored under the full name,
     * or None (the original's empty dictionary) when the response has no
     * parameter or the call raises.
     */
    method GetSecret(name: string) returns (secret: Option<SecretHash>)
      requires ssm.Valid()
      ensures secret.Some? <==> !ssm.unavailable && FullName(scope, name) in ssm.params
      ensures secret.Some? ==> secret.value == ParamToHash(scope, ssm.params[FullName(scope, name)])
      ensures secret.Some? && !Occurs(name, Path(scope)) ==>
        secret.value.name == name && secret.value.value == ssm.params[FullName(scope, name)].value
    {
      var response := ssm.GetParameter(FullName(scope, name));
      if response.Found? {
        secret := Some(ParamToHash(scope, response.parameter));
        if !Occurs(name, Path(scope)) {
          ParamToHashOfScopedParameter(scope, response.parameter, name);
        }
      } else {
        secret := None;
      }
    }

    /**
     * The body of `get_all_secrets`'s loop over one page's parameters:
     * appends the hash of each, in order, to the list gathered so far.
     */
    method AppendHashes(secrets: seq<SecretHash>, params: seq<Parameter>) returns (secrets': seq<SecretHash>)
      ensures secrets' == secrets + Hashes(scope, params)
    {
      secrets' := secrets;
      for j := 0 to |params|
        invariant secrets' == secrets + Hashes(scope, params[..j])
      {
        secrets' := secrets' + [ParamToHash(scope, params[j])];
        HashesAppend(scope, params[..j], [params[j]]);
        assert params[..j + 1] == params[..j] + [params[j]];
      }
      assert params[..|params|] == params;
    }

    /**
     * The call at the head of `get_all_secrets`'s loop: the scope path,
     * recursive and decrypted, with the held token only when it is truthy.
     */
    method ListPage(nextToken: Option<string>) returns (response: Page<Parameter>)
      requires ssm.Valid()
      modifies ssm`cursor, ssm`requests
      ensures ssm.Valid()
      ensures ssm.requests == old(ssm.requests) + [ByPathRequest(Path(scope), true, true, TokenArg(nextToken))]
      ensures old(ssm.cursor) < |ssm.pages| ==> response == ssm.pages[old(ssm.cursor)] && ssm.cursor == old(ssm.cursor) + 1
      ensures old(ssm.cursor) == |ssm.pages| ==> response == Failed && ssm.cursor == old(ssm.cursor)
    {
      if nextToken.Some? && nextToken.value != "" {
        response := ssm.GetParametersByPath(Path(scope), true, true, nextToken);
      } else {
        response := ssm.GetParametersByPath(Path(scope), true, true, None);
      }
    }

    /**
     * `get_all_secrets`: pages through the scope path's parameters,
     * recursively and decrypted, hashing each, until a response without a
     * token; a raised call or a response without its parameter list ends
     * the loop and the hashes gathered so far are returned.
     */
    method GetAllSecrets() returns (secrets: seq<SecretHash>)
      requires ssm.Valid()
      modifies ssm`cursor, ssm`requests
      ensures ssm.Valid()
      ensures secrets == SecretsFrom(scope, ssm.pages, old(ssm.cursor))
      ensures ssm.requests == old(ssm.requests) + ByPath(Path(scope), Requests(ssm.pages, old(ssm.cursor), None, true))
    {
      ghost var pages, i0 := ssm.pages, ssm.cursor;
      ghost var sent: seq<Option<string>> := [];
      secrets := [];
      var nextToken: Option<string> := None;
      while true
        invariant ssm.Valid() && ssm.pages == pages
        invariant SecretsFrom(scope, pages, i0) == secrets + SecretsFrom(scope, pages, ssm.cursor)
        invariant ssm.requests == old(ssm.requests) + ByPath(Path(scope), sent)
        invariant Requests(pages, i0, None, true) ==
          sent + Requests(pages, ssm.cursor, TokenArg(nextToken), true)
        decreases |pages| - ssm.cursor
      {
        ghost var i := ssm.cursor;
        var response := ListPage(nextToken);
        ByPathAppend(Path(scope), sent, TokenArg(nextToken));
        Associative(old(ssm.requests), ByPath(Path(scope), sent), [ByPathRequest(Path(scope), true, true, TokenArg(nextToken))]);
        if response.Failed? || response.items.None? {
          SecretsEnd(scope, pages, i0, secrets, i);
          RequestsEnd(pages, i0, sent, i, TokenArg(nextToken), true);
          return;
        }
        ghost var before := secrets;
        secrets := AppendHashes(secrets, response.items.value);
        if response.nextToken.None? {
          SecretsLast(scope, pages, i0, before, i, secrets);
          RequestsEnd(pages, i0, sent, i, TokenArg(nextToken), true);
          return;
        }
        ghost var sentBefore, arg := sent, TokenArg(nextToken);
        sent := sent + [TokenArg(nextToken)];
        nextToken := response.nextToken;
        SecretsAdvance(scope, pages, i0, before, i, secrets);
        RequestsAdvance(pages, i0, sentBefore, i, arg, true, sent, nextToken);
      }
    }
  }
}
