# envmanage: the scoped AWS resource client, in Dafny

This project models the `Aws` class of envmanage (`aws.py`). That class
scopes every operation to one (product, environment) pair and is the
tool's only link to the provider. It covers two kinds of resource:

- Secrets live in the shared parameter store under the hierarchical name
  `/<product>/<env>/<name>`. They are written, deleted, read one at a time,
  and listed page by page.
- Autoscaling groups are listed page by page and kept only when their tags
  name the scope's environment and product. A single group can be resized.

The project has six modules:

- `Naming` (`naming.dfy`): the scope path, the full name, and the
  scope-relative name. The relative name is computed, as in the original,
  with Python's `str.replace`, which removes every occurrence of the path
  and not only a leading one. `Split`/`Join` give an independent reference
  definition of `replace`.
- `Records` (`records.dfy`) covers the provider records and the hashes handed back to the
  command layer, the two-tag membership test, and the per-page filter.
- `Provider` (`provider.dfy`): stub clients for the parameter store and the autoscaling
  service. Their data is held in maps. Each stub answers its paginated
  listing from a finite list of responses, consumed one per call, and
  records the pagination token every listing call received.
- `AwsClient` (`aws.dfy`) holds the `Aws` class itself. The two paging loops are
  imperative methods. Each is proved against a recursive specification
  function over the responses (`GroupsFrom`, `SecretsFrom`), and the
  properties of those specifications are proved as lemmas.
- `Wrappers` (`wrappers.dfy`) holds `Option`.
- `Sequences` (`sequences.dfy`) holds the associativity of concatenation, which the proofs share.

The provider's raised exceptions are modelled as values:

- a `Failed` response from a listing call;
- `Raised` from `get_parameter`;
- the `unavailable` flag, which makes the single-item calls fail.

The original catches every exception and prints it. The model keeps only
the result the original returns in that case.

## Model

| member | source | states |
|---|---|---|
| Naming.Path | aws.py:31-32 | the scope path starts and ends with the separator and is three characters longer than product and environment together |
| Naming.PathParts | aws.py:31-32 | the scope path holds the product between its first two separators and the environment between the last two |
| Naming.FullName | aws.py:34-35 | the full name is the scope path followed by exactly the secret name |
| Naming.Replace | aws.py:37-38 | Python `str.replace` for a non-empty pattern: replacing a pattern by itself changes nothing; replacing by something no longer never lengthens the string |
| Naming.ReplaceIsJoinOfSplit | aws.py:37-38 | `replace` agrees with the reference definition `repl.join(s.split(pat))` on every input |
| Naming.RelativeName | aws.py:37-38 | the relative name is never longer than the stored name, and it equals the stored name iff the scope path does not occur in it |
| Naming.ReplaceWithoutOccurrence | aws.py:37-38 | replacing in a string that lacks the pattern is the identity |
| Naming.RemovingShortens | aws.py:37-38 | removing a pattern that occurs makes the string strictly shorter |
| Naming.RelativeNameRemovesInnerPath | aws.py:37-38 | the relative name is not a prefix strip: for scope (a, b), "/a/b/x/a/b/y" becomes "xy" |
| Naming.SeparatorFreeLacksPath | aws.py:31-32 | the scope path never occurs in a name without a separator |
| Naming.RelativeOfFullName | aws.py:34-38 | the relative name of a full name is the name iff the scope path does not occur in the name |
| Naming.RoundTrip | aws.py:34-38 | the relative name of the full name of a separator-free name is that name |
| Naming.FullNameTail | aws.py:31-35 | after its first character a full name is product, separator, environment, separator, name |
| Naming.FullNameDeterminesScope | aws.py:31-35 | for scopes without separators, equal full names mean equal scopes and equal names, so scopes never share a stored parameter |
| Records.ParamToHash | aws.py:40-47 | the hash copies the parameter's type, value, version and ARN; its name is never longer than the stored name and equals it iff the scope path does not occur in it |
| Records.ParamToHashOfScopedParameter | aws.py:40-47 | the hash of a parameter stored under a scope's full name carries the bare name and the parameter's type, value, version and ARN, for every name in which the scope path does not occur (hierarchical names included) |
| Records.AsgToHash | aws.py:49-56 | the hash keeps the group's name, its minimum, maximum and desired sizes and its zones |
| Records.InEnv | aws.py:58-73 | a tag list is in scope iff some tag has key `Environment` and the scope's environment as value, and some tag has key `Product` and the scope's product as value |
| Records.InEnvNeedsTwoTags | aws.py:58-73 | a group is never in scope with fewer than two tags, so an empty tag list is out |
| Records.InEnvPermutation | aws.py:58-73 | reordering the tags never changes membership |
| Records.InScope | aws.py:105-108 | filtering a page keeps at most as many hashes as it has groups |
| Records.InScopeMembers | aws.py:105-108 | a hash is kept iff some group of the page is in scope and hashes to it |
| Records.InScopeAppend | aws.py:105-108 | filtering two pages one after the other equals filtering their concatenation, in order |
| Records.Hashes | aws.py:187-188 | one hash per parameter |
| Records.HashesAt | aws.py:187-188 | hash `i` is the hash of parameter `i` |
| Provider.AllItemsLength | aws.py:187-188 | the items of several pages number the sum of the page sizes |
| Provider.TokenArg | aws.py:100-103 | a token is passed iff it is present and non-empty, and then unchanged |
| Provider.Requests | aws.py:99-113 | the first listing call carries no token (the loop starts with `next_token = None`) |
| Provider.RequestsCount | aws.py:99-113 | a listing loop makes one call per response with a token, plus the final call |
| Provider.RequestsCarryTokens | aws.py:99-113 | every call after the first passes the token of the response before it, subject to the truthiness test |
| Provider.Put | aws.py:136-137 | an overwriting put gives the key the new value and type and the next version; every other key keeps its parameter |
| Provider.ParameterStore.GetParameter | aws.py:159 | the stored parameter, no parameter, or a raised call |
| Provider.ParameterStore.PutParameter | aws.py:136-137 | with `Overwrite=True` the put succeeds whenever the store is reachable, and its new state is `Put` |
| Provider.ParameterStore.DeleteParameter | aws.py:148 | removes exactly the key |
| Provider.ParameterStore.GetParametersByPath | aws.py:180-185 | logs the request and answers with the next response, or raises once the responses run out |
| Provider.AutoScalingService.UpdateAutoScalingGroup | aws.py:85-86 | sets exactly the three sizes of an existing group |
| Provider.AutoScalingService.DescribeAutoScalingGroups | aws.py:101-103 | logs the token and answers with the next response, or raises once the responses run out |
| AwsClient.Aws.constructor | aws.py:19-26 | the client is bound to the given product, environment and the two provider clients |
| AwsClient.Aws.AsgInEnv | aws.py:58-73 | the flag loop returns true iff some tag is (`Environment`, env) and some tag is (`Product`, product), which is `InEnv` |
| AwsClient.Aws.ScaleAsg | aws.py:75-88 | the named group gets exactly (min, max, desired), whatever its tags; every other group is unchanged; a failed call changes nothing |
| AwsClient.Aws.KeepInScope | aws.py:105-108 | the page loop keeps, in order, the hashes of exactly the groups `InScope` keeps |
| AwsClient.Aws.DescribePage | aws.py:100-103 | the call passes the held token only when it is truthy, and consumes one response, or none once they have run out |
| AwsClient.Aws.GetAsgs | aws.py:90-118 | returns the run's groups as `GroupsFrom` gathers them, or empty if a call raises; the calls carry the tokens `Requests` prescribes |
| AwsClient.GroupsSucceed | aws.py:95-115 | when pages before `k` carry a token and page `k` none, the result is, in page order, the in-scope hashes of exactly those pages; a page without groups adds nothing |
| AwsClient.GroupsFail | aws.py:116-118 | a raised call before the last page discards everything gathered |
| AwsClient.ByPath | aws.py:180-185 | one by-path request per call |
| AwsClient.ByPathAppend | aws.py:180-185 | one more call adds one request, for the scope path, recursive and decrypted |
| AwsClient.StorageType | aws.py:136-137 | the type is `SecureString` iff `encrypt`, and `String` otherwise |
| AwsClient.Aws.SetSecret | aws.py:127-139 | the full name's entry is overwritten with the value, `SecureString` iff `encrypt`; nothing else changes |
| AwsClient.SetThenGet | aws.py:127-167 | after `set_secret` of any name, the hash under the same name has the new value and the encrypted type iff `encrypt`; it has the bare name iff the scope path does not occur in the name |
| AwsClient.Aws.DeleteSecret | aws.py:141-150 | removes exactly the full name's entry |
| AwsClient.Aws.GetSecret | aws.py:152-167 | returns a hash iff the store is reachable and holds the full name; the hash is the stored parameter's, with the bare name whenever the scope path does not occur in the name |
| AwsClient.Aws.AppendHashes | aws.py:187-188 | the page loop appends the hashes of the page's parameters, in order |
| AwsClient.Aws.ListPage | aws.py:179-185 | the call is for the scope path, recursive, decrypted, with the held token only when it is truthy, and consumes one response, or none once they have run out |
| AwsClient.Aws.GetAllSecrets | aws.py:169-197 | returns what `SecretsFrom` gathers; the calls are the by-path requests for the tokens `Requests` prescribes |
| AwsClient.SecretsSucceed | aws.py:174-193 | when pages before `k` carry a token and page `k` none, the result is the hashes of every parameter of those pages, in order |
| AwsClient.SecretsShape | aws.py:40-47 | a successful run has as many hashes as the pages hold parameters, and hash `j` is parameter `j` under its scope-relative name |
| AwsClient.SecretsPartial | aws.py:177-197 | a raised call, or a response without `Parameters`, after `k` complete pages keeps the hashes of those `k` pages |

## Left out

- `envmanage.py` (the command layer) and `kubernetes.py` (kubectl pipelines) are not part of this model.
- `Aws.__init__`: the environment-variable fallbacks, the region and profile fields, the boto3 session and the banner print are outside the model. The constructor takes product, environment and the two clients directly.
- `show_k8s_dashboard` has an empty body and is not modelled.
- The `print(e)` in every exception handler is output only and is not modelled.
- Provider semantics are outside the model:
  - Versions and ARNs are opaque values that the stub supplies.
  - There is no encryption.
  - A listing stub ignores the token's value and answers with its next response.
  - The stub's listing responses are not derived from its parameter or group maps.
- Tag fields other than key and value, and group fields other than those `__asg_to_hash` reads, are not modelled.
- AwsClient.Aws.GetAsgs: on failure the original returns an empty dictionary and on success a list. The model returns an empty sequence for both "nothing found" and "failed".
- AwsClient.Aws.GetSecret: the original returns an empty dictionary both when the response lacks `Parameter` and when the call raises. The model follows the code and gives None for both; it does not distinguish "missing" from "failed".
- The relative name follows the code (`str.replace`, removing every occurrence of the scope path), not a prefix strip. `Naming.RelativeNameRemovesInnerPath` shows where the two differ. The round trip is proved to hold exactly for the names in which the scope path does not occur, which includes every name without a separator.
- Neither listing deduplicates its results; the model does not either.
