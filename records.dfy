/**
 * The provider records the client reads (autoscaling groups with their
 * tags, stored parameters) and the plain hashes it hands back to the
 * command layer, with the two-tag membership test that decides whether a
 * group belongs to the scope.
 */
module Records {
  import opened Naming

  /** A resource tag; only its key and value are consulted. */
  datatype Tag = Tag(key: string, value: string)

  datatype AutoScalingGroup = AutoScalingGroup(
    name: string,
    minSize: int,
    maxSize: int,
    desiredCapacity: int,
    availabilityZones: seq<string>,
    tags: seq<Tag>)

  /** The storage types of a parameter. */
  datatype ParameterType = String | StringList | SecureString

  /** A stored parameter as the provider returns it; version and ARN are opaque. */
  datatype Parameter = Parameter(name: string, ptype: ParameterType, value: string, version: int, arn: string)

  /** `__param_to_hash`'s dictionary: name, type, value, version, arn. */
  datatype SecretHash = SecretHash(name: string, ptype: ParameterType, value: string, version: int, arn: string)

  /** `__asg_to_hash`'s dictionary: name, min, max, desired, azs. */
  datatype GroupHash = GroupHash(name: string, min: int, max: int, desired: int, azs: seq<string>)

  const EnvironmentKey: string := "Environment"
  const ProductKey: string := "Product"

  /** `__param_to_hash`: the parameter's fields, with its name made scope-relative. */
  function ParamToHash(s: Scope, p: Parameter): (h: SecretHash)
    ensures h.ptype == p.ptype && h.value == p.value && h.version == p.version && h.arn == p.arn
    ensures |h.name| <= |p.name|
    ensures h.name == p.name <==> !Occurs(p.name, Path(s))
  {
    SecretHash(RelativeName(s, p.name), p.ptype, p.value, p.version, p.arn)
  }

  /** `__asg_to_hash`: the group's name, sizes and zones; the tags are dropped. */
  function AsgToHash(g: AutoScalingGroup): (h: GroupHash)
    ensures h.name == g.name && h.azs == g.availabilityZones
    ensures h.min == g.minSize && h.max == g.maxSize && h.desired == g.desiredCapacity
  {
    GroupHash(g.name, g.minSize, g.maxSize, g.desiredCapacity, g.availabilityZones)
  }

  /** The group is tagged with the scope's environment and with its product. */
  predicate InEnv(s: Scope, tags: seq<Tag>)
    ensures InEnv(s, tags) <==>
      && (exists i :: 0 <= i < |tags| && tags[i].key == EnvironmentKey && tags[i].value == s.env)
      && (exists j :: 0 <= j < |tags| && tags[j].key == ProductKey && tags[j].value == s.product)
  {
    Tag(EnvironmentKey, s.env) in tags && Tag(ProductKey, s.product) in tags
  }

  /**
   * The hash of a parameter stored under a scope's full name carries the
   * bare name, for every name in which the scope path does not occur
   * (hierarchical names such as "db/password" included).
   */
  lemma {:induction false} ParamToHashOfScopedParameter(s: Scope, p: Parameter, name: string)
    requires !Occurs(name, Path(s)) && p.name == FullName(s, name)
    ensures ParamToHash(s, p) == SecretHash(name, p.ptype, p.value, p.version, p.arn)
  {
    RelativeOfFullName(s, name);
  }

  /** Membership needs two distinct tags, so an empty or one-tag list is never in scope. */
  lemma InEnvNeedsTwoTags(s: Scope, tags: seq<Tag>)
    requires InEnv(s, tags)
    ensures |tags| >= 2
  {
    var i :| 0 <= i < |tags| && tags[i] == Tag(EnvironmentKey, s.env);
    var j :| 0 <= j < |tags| && tags[j] == Tag(ProductKey, s.product);
    assert EnvironmentKey[0] != ProductKey[0];
    assert i != j;
  }

  /** The order of the tags does not matter: only which tags are present does. */
  lemma InEnvPermutation(s: Scope, tags: seq<Tag>, shuffled: seq<Tag>)
    requires multiset(tags) == multiset(shuffled)
    ensures InEnv(s, tags) == InEnv(s, shuffled)
  {
    var e, p := Tag(EnvironmentKey, s.env), Tag(ProductKey, s.product);
    assert e in tags <==> e in multiset(tags);
    assert p in tags <==> p in multiset(tags);
    assert e in shuffled <==> e in multiset(shuffled);
    assert p in shuffled <==> p in multiset(shuffled);
  }

  /** The filter-and-project step of `get_asgs` over one list of groups. */
  function InScope(s: Scope, groups: seq<AutoScalingGroup>): (r: seq<GroupHash>)
    ensures |r| <= |groups|
    decreases |groups|
  {
    if groups == [] then []
    else (if InEnv(s, groups[0].tags) then [AsgToHash(groups[0])] else []) + InScope(s, groups[1..])
  }

  /** Filtering a concatenation is concatenating the filtered parts, in order. */
  lemma {:induction false} InScopeAppend(s: Scope, a: seq<AutoScalingGroup>, b: seq<AutoScalingGroup>)
    ensures InScope(s, a + b) == InScope(s, a) + InScope(s, b)
    decreases |a|
  {
    if a != [] {
      assert (a + b)[0] == a[0] && (a + b)[1..] == a[1..] + b;
      InScopeAppend(s, a[1..], b);
    } else {
      assert a + b == b;
    }
  }

  /** `InScope` keeps exactly the hashes of the groups that are in scope. */
  lemma {:induction false} InScopeMembers(s: Scope, groups: seq<AutoScalingGroup>, h: GroupHash)
    ensures h in InScope(s, groups) <==>
      exists i :: 0 <= i < |groups| && InEnv(s, groups[i].tags) && AsgToHash(groups[i]) == h
    decreases |groups|
  {
    if groups != [] {
      InScopeMembers(s, groups[1..], h);
      if exists i :: 0 <= i < |groups[1..]| && InEnv(s, groups[1..][i].tags) && AsgToHash(groups[1..][i]) == h {
        var i :| 0 <= i < |groups[1..]| && InEnv(s, groups[1..][i].tags) && AsgToHash(groups[1..][i]) == h;
        assert groups[i + 1] == groups[1..][i];
      }
      if exists i :: 0 <= i < |groups| && InEnv(s, groups[i].tags) && AsgToHash(groups[i]) == h {
        var i :| 0 <= i < |groups| && InEnv(s, groups[i].tags) && AsgToHash(groups[i]) == h;
        if i > 0 {
          assert groups[1..][i - 1] == groups[i];
        }
      }
    }
  }

  /** The hashes of a list of parameters, one per parameter, in order. */
  function Hashes(s: Scope, params: seq<Parameter>): (r: seq<SecretHash>)
    ensures |r| == |params|
    decreases |params|
  {
    if params == [] then [] else [ParamToHash(s, params[0])] + Hashes(s, params[1..])
  }

  /** Entry `i` of the hashes is the hash of parameter `i`. */
  lemma {:induction false} HashesAt(s: Scope, params: seq<Parameter>, i: nat)
    requires i < |params|
    ensures Hashes(s, params)[i] == ParamToHash(s, params[i])
    decreases i
  {
    if i > 0 {
      HashesAt(s, params[1..], i - 1);
    }
  }
}
