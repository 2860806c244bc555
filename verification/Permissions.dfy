/** What a user may do at a path, and in a whole subtree (permissionOf and canAccessSubtree in
  internal/sources/permissions.go).
 */
module Permissions {
  import opened Paths
  import opened Wrappers

  datatype Permission = Nothing | ReadOnly | ReadWrite

  function Level(permission: Permission): nat {
    match permission
    case ReadWrite => 2
    case ReadOnly => 1
    case Nothing => 0
  }

  function FromLevel(level: nat): Permission {
    if level >= 2 then ReadWrite else if level == 1 then ReadOnly else Nothing
  }

  /** Levels stand for permissions and keep their order. */
  lemma LevelsExactly(a: Permission, b: Permission)
    ensures FromLevel(Level(a)) == a
    ensures Level(a) < Level(b) <==> (a == Nothing && b != Nothing) || (a == ReadOnly && b == ReadWrite)
  {
  }

  /** A policy's say on one source: a permission, overridden below the prefixes of its rules. */
  datatype Policy = Policy(base: Permission, rules: map<string, Permission>)

  /** The policies of one user that name one source, by id. */
  type Policies = map<nat, Policy>

  /** Ids start at one and no rule is for the root. */
  predicate ValidPolicies(policies: Policies) {
    0 !in policies && forall id <- policies :: "" !in policies[id].rules
  }

  // ---------------------------------------------------------------- the meaning

  predicate Matches(policy: Policy, prefix: string, path: string) {
    prefix in policy.rules && Under(prefix, path)
  }

  ghost predicate IsLongestMatch(policy: Policy, prefix: string, path: string) {
    Matches(policy, prefix, path) && forall other :: Matches(policy, other, path) ==> |other| <= |prefix|
  }

  lemma {:induction false} LongestExists(prefixes: set<string>) returns (longest: string)
    requires prefixes != {}
    ensures longest in prefixes && forall p <- prefixes :: |p| <= |longest|
    decreases |prefixes|
  {
    longest :| longest in prefixes;
    var rest := prefixes - {longest};
    if rest != {} {
      var other := LongestExists(rest);
      if |longest| < |other| {
        longest := other;
      }
    }
  }

  lemma LongestMatchExists(policy: Policy, path: string)
    requires exists prefix :: Matches(policy, prefix, path)
    ensures exists prefix :: IsLongestMatch(policy, prefix, path)
  {
    var matching := set prefix | prefix in policy.rules && Under(prefix, path);
    var any :| Matches(policy, any, path);
    assert any in matching;
    var longest := LongestExists(matching);
    forall other | Matches(policy, other, path) ensures |other| <= |longest| {
      assert other in matching;
    }
    assert IsLongestMatch(policy, longest, path);
  }

  lemma LongestMatchIsUnique(policy: Policy, p: string, q: string, path: string)
    requires IsLongestMatch(policy, p, path) && IsLongestMatch(policy, q, path)
    ensures p == q
  {
    SharedPathMeansNested(p, q, path);
  }

  /** The rule with the longest prefix decides, or else the base. */
  ghost function PolicyPermission(policy: Policy, path: string): Permission {
    if exists prefix :: Matches(policy, prefix, path) then
      LongestMatchExists(policy, path);
      var prefix :| IsLongestMatch(policy, prefix, path);
      policy.rules[prefix]
    else policy.base
  }

  lemma PermissionIsLongest(policy: Policy, prefix: string, path: string)
    requires IsLongestMatch(policy, prefix, path)
    ensures PolicyPermission(policy, path) == policy.rules[prefix]
  {
    var chosen :| IsLongestMatch(policy, chosen, path) && PolicyPermission(policy, path) == policy.rules[chosen];
    LongestMatchIsUnique(policy, prefix, chosen, path);
  }

  /** Of several policies the most generous counts. */
  ghost predicate IsBestLevel(policies: Policies, path: string, level: nat) {
    && (forall id <- policies :: Level(PolicyPermission(policies[id], path)) <= level)
    && (level == 0 || exists id <- policies :: Level(PolicyPermission(policies[id], path)) == level)
  }

  ghost predicate Permits(policies: Policies, path: string, needWrite: bool) {
    exists id <- policies ::
      var permission := PolicyPermission(policies[id], path);
      permission == ReadWrite || (permission == ReadOnly && !needWrite)
  }

  // -------------------------------------------------------------- the row scan

  /** A row of the join: a policy's base and one of its rules, or none if it has none. */
  datatype Row = Row(policy: nat, base: Permission, rule: Option<(string, Permission)>)

  ghost predicate HasRow(rows: seq<Row>, id: nat) {
    exists k :: 0 <= k < |rows| && rows[k].policy == id
  }

  ghost predicate HasRuleRow(rows: seq<Row>, id: nat, prefix: string) {
    exists k :: 0 <= k < |rows| && rows[k].policy == id && rows[k].rule.Some? && rows[k].rule.value.0 == prefix
  }

  predicate IsRowOf(row: Row, policies: Policies) {
    && row.policy in policies && row.base == policies[row.policy].base
    && (row.rule.Some? ==>
          row.rule.value.0 in policies[row.policy].rules
          && policies[row.policy].rules[row.rule.value.0] == row.rule.value.1)
  }

  /** The query's result: the rows of all policies, grouped by policy id. */
  ghost predicate IsJoin(rows: seq<Row>, policies: Policies) {
    && (forall i, j :: 0 <= i < j < |rows| ==> rows[i].policy <= rows[j].policy)
    && (forall k :: 0 <= k < |rows| ==> IsRowOf(rows[k], policies))
    && (forall id {:trigger HasRow(rows, id)} :: id in policies ==> HasRow(rows, id))
    && (forall id, prefix {:trigger HasRuleRow(rows, id, prefix)} ::
          id in policies && prefix in policies[id].rules ==> HasRuleRow(rows, id, prefix))
  }

  /** The join of one policy with one rule: its base and the rule, in one row. */
  lemma JoinExactly(id: nat, base: Permission, prefix: string, permission: Permission, rows: seq<Row>)
    requires IsJoin(rows, map[id := Policy(base, map[prefix := permission])])
    ensures Row(id, base, Some((prefix, permission))) in rows
    ensures forall row <- rows :: row.policy == id && row.base == base
                                  && (row.rule == None || row.rule == Some((prefix, permission)))
  {
    var policies := map[id := Policy(base, map[prefix := permission])];
    assert HasRuleRow(rows, id, prefix);
    assert forall row <- rows :: IsRowOf(row, policies);
  }

  /** Such a join there is, with a row that has no rule where the policy has none. */
  lemma JoinExists(id: nat, base: Permission, prefix: string, permission: Permission)
    ensures IsJoin([Row(id, base, Some((prefix, permission)))], map[id := Policy(base, map[prefix := permission])])
    ensures IsJoin([Row(id, base, None)], map[id := Policy(base, map[])])
  {
    var ruled, plain := [Row(id, base, Some((prefix, permission)))], [Row(id, base, None)];
    assert ruled[0].policy == id && plain[0].policy == id;
    assert HasRow(ruled, id) && HasRow(plain, id) && HasRuleRow(ruled, id, prefix);
  }

  predicate RowMatches(row: Row, id: nat, path: string) {
    row.policy == id && row.rule.Some? && Under(row.rule.value.0, path)
  }

  /** What the scan knows of the current policy after the first n rows. */
  ghost predicate IsCurrent(rows: seq<Row>, n: nat, base: Permission, id: nat, path: string, permission: Permission, longest: int)
    requires n <= |rows|
  {
    && (longest == -1 ==> permission == base && forall k :: 0 <= k < n ==> !RowMatches(rows[k], id, path))
    && (longest != -1 ==>
          && (exists k :: 0 <= k < n && RowMatches(rows[k], id, path)
                          && |rows[k].rule.value.0| == longest && rows[k].rule.value.1 == permission)
          && forall k :: 0 <= k < n && RowMatches(rows[k], id, path) ==> |rows[k].rule.value.0| <= longest)
  }

  /** Once all rows of a policy were scanned, the running permission is the policy's. */
  lemma ScannedPolicy(rows: seq<Row>, n: nat, policies: Policies, id: nat, path: string, permission: Permission, longest: int)
    requires IsJoin(rows, policies) && n <= |rows| && id in policies && longest >= -1
    requires IsCurrent(rows, n, policies[id].base, id, path, permission, longest)
    requires forall k :: n <= k < |rows| ==> rows[k].policy != id
    ensures PolicyPermission(policies[id], path) == permission
  {
    var policy := policies[id];
    forall prefix | Matches(policy, prefix, path)
      ensures exists k :: 0 <= k < n && RowMatches(rows[k], id, path) && rows[k].rule.value.0 == prefix
    {
      assert HasRuleRow(rows, id, prefix);
    }
    if longest != -1 {
      var k :| 0 <= k < n && RowMatches(rows[k], id, path) && |rows[k].rule.value.0| == longest && rows[k].rule.value.1 == permission;
      assert IsRowOf(rows[k], policies);
      assert IsLongestMatch(policy, rows[k].rule.value.0, path);
      PermissionIsLongest(policy, rows[k].rule.value.0, path);
    }
  }

  /** The best of the policies with ids below a bound. */
  ghost predicate IsBestBelow(policies: Policies, bound: int, path: string, level: nat) {
    && (forall id <- policies :: id < bound ==> Level(PolicyPermission(policies[id], path)) <= level)
    && (level == 0 || exists id <- policies :: id < bound && Level(PolicyPermission(policies[id], path)) == level)
  }

  /** What the scan's variables hold after the first i rows. */
  ghost predicate Scanned(rows: seq<Row>, i: nat, policies: Policies, path: string, best: nat, current: int,
                          permission: Permission, longest: int)
  {
    && i <= |rows| && best <= 2 && longest >= -1 && (current == -1 <==> i == 0)
    && (i > 0 ==>
          && current == rows[i - 1].policy && current in policies
          && IsCurrent(rows, i, policies[current].base, current, path, permission, longest))
    && IsBestBelow(policies, current, path, best)
  }

  /** The current policy is done when the next row is another's, or there is none: folding it in
      gives the best of all policies before the next row's. */
  lemma FlushIsRight(rows: seq<Row>, i: nat, policies: Policies, path: string, best: nat, current: int,
                     permission: Permission, longest: int)
    requires ValidPolicies(policies) && IsJoin(rows, policies)
    requires Scanned(rows, i, policies, path, best, current, permission, longest) && i > 0
    requires i < |rows| ==> rows[i].policy != current
    ensures IsBestBelow(policies, current + 1, path, if Level(permission) > best then Level(permission) else best)
  {
    forall k | i <= k < |rows| ensures rows[k].policy != current {
      assert rows[i - 1].policy <= rows[i].policy;
      assert i < k ==> rows[i].policy <= rows[k].policy;
    }
    ScannedPolicy(rows, i, policies, current, path, permission, longest);
  }

  /** No policy's id lies between the last row's and the next row's. */
  lemma NothingBetween(rows: seq<Row>, i: nat, policies: Policies, path: string, best: nat)
    requires ValidPolicies(policies) && IsJoin(rows, policies) && i < |rows|
    requires i > 0 ==> rows[i - 1].policy != rows[i].policy
    requires IsBestBelow(policies, if i == 0 then 0 else rows[i - 1].policy + 1, path, best)
    ensures IsBestBelow(policies, rows[i].policy, path, best)
  {
    assert i > 0 ==> rows[i - 1].policy <= rows[i].policy;
    forall id | id in policies && id < rows[i].policy ensures i > 0 && id <= rows[i - 1].policy {
      assert HasRow(rows, id);
      var k :| 0 <= k < |rows| && rows[k].policy == id;
      assert k < i - 1 ==> rows[k].policy <= rows[i - 1].policy;
    }
  }

  lemma NothingAfter(rows: seq<Row>, policies: Policies, path: string, best: nat)
    requires ValidPolicies(policies) && IsJoin(rows, policies)
    requires IsBestBelow(policies, if rows == [] then 0 else rows[|rows| - 1].policy + 1, path, best)
    ensures IsBestLevel(policies, path, best)
  {
    forall id | id in policies ensures rows != [] && id <= rows[|rows| - 1].policy {
      assert HasRow(rows, id);
      var k :| 0 <= k < |rows| && rows[k].policy == id;
      assert k < |rows| - 1 ==> rows[k].policy <= rows[|rows| - 1].policy;
    }
  }

  /** A policy's first row starts it afresh. */
  lemma FirstRow(rows: seq<Row>, i: nat, policies: Policies, path: string)
    requires IsJoin(rows, policies) && i < |rows| && (i > 0 ==> rows[i - 1].policy != rows[i].policy)
    ensures rows[i].policy in policies
    ensures IsCurrent(rows, i, rows[i].base, rows[i].policy, path, rows[i].base, -1)
  {
    assert IsRowOf(rows[i], policies);
    forall k | 0 <= k < i ensures rows[k].policy != rows[i].policy {
      assert k < i - 1 ==> rows[k].policy <= rows[i - 1].policy;
      assert rows[i - 1].policy <= rows[i].policy;
    }
  }

  /** The best level after folding a policy in. */
  function Folded(best: nat, permission: Permission): nat {
    if Level(permission) > best then Level(permission) else best
  }

  /** One row: flush the last policy if it is over, then look at the row's rule. */
  method ScanRow(rows: seq<Row>, i: nat, ghost policies: Policies, path: string, best: nat, current: int,
                 permission: Permission, longest: int)
      returns (best': nat, current': int, permission': Permission, longest': int)
    requires ValidPolicies(policies) && IsJoin(rows, policies) && i < |rows|
    requires Scanned(rows, i, policies, path, best, current, permission, longest)
    ensures Scanned(rows, i + 1, policies, path, best', current', permission', longest')
  {
    best', current', permission', longest' := best, current, permission, longest;
    var row := rows[i];
    assert IsRowOf(row, policies);
    if row.policy != current {
      if current != -1 {
        FlushIsRight(rows, i, policies, path, best, current, permission, longest);
        best' := Folded(best, permission);
      }
      NothingBetween(rows, i, policies, path, best');
      FirstRow(rows, i, policies, path);
      current', permission', longest' := row.policy, row.base, -1;
    }
    if row.rule.Some? && Under(row.rule.value.0, path) && |row.rule.value.0| > longest' {
      permission', longest' := row.rule.value.1, |row.rule.value.0|;
      assert RowMatches(rows[i], row.policy, path);
    }
  }

  /** permissionOf: one pass over the rows finds the best of all policies. */
  method PermissionOf(isAdmin: bool, rows: seq<Row>, ghost policies: Policies, path: string) returns (permission: Permission)
    requires ValidPolicies(policies) && IsJoin(rows, policies)
    ensures isAdmin ==> permission == ReadWrite
    ensures !isAdmin ==>
              && (permission == ReadWrite <==> exists id <- policies :: PolicyPermission(policies[id], path) == ReadWrite)
              && (permission == Nothing <==> forall id <- policies :: PolicyPermission(policies[id], path) == Nothing)
  {
    if isAdmin {
      return ReadWrite;
    }
    var bestLevel: nat, currentPolicy: int, currentPermission, longestPrefix: int := 0, -1, Nothing, -1;
    for i := 0 to |rows|
      invariant Scanned(rows, i, policies, path, bestLevel, currentPolicy, currentPermission, longestPrefix)
    {
      bestLevel, currentPolicy, currentPermission, longestPrefix :=
        ScanRow(rows, i, policies, path, bestLevel, currentPolicy, currentPermission, longestPrefix);
    }
    if currentPolicy != -1 {
      FlushIsRight(rows, |rows|, policies, path, bestLevel, currentPolicy, currentPermission, longestPrefix);
      bestLevel := Folded(bestLevel, currentPermission);
    }
    NothingAfter(rows, policies, path, bestLevel);
    assert IsBestLevel(policies, path, bestLevel);
    permission := FromLevel(bestLevel);
  }

  // ------------------------------------------------------------------- subtrees

  ghost predicate IsRule(policies: Policies, prefix: string) {
    exists id <- policies :: prefix in policies[id].rules
  }

  /** Two paths under the same rules have the same permission. */
  lemma SameRulesSamePermission(policies: Policies, p: string, q: string, needWrite: bool)
    requires forall prefix :: IsRule(policies, prefix) ==> (Under(prefix, p) <==> Under(prefix, q))
    ensures Permits(policies, p, needWrite) == Permits(policies, q, needWrite)
  {
    forall id | id in policies ensures PolicyPermission(policies[id], p) == PolicyPermission(policies[id], q) {
      var policy := policies[id];
      forall prefix ensures Matches(policy, prefix, p) <==> Matches(policy, prefix, q) {
        assert prefix in policy.rules ==> IsRule(policies, prefix);
      }
      if prefix :| IsLongestMatch(policy, prefix, p) {
        assert IsLongestMatch(policy, prefix, q);
        PermissionIsLongest(policy, prefix, p);
        PermissionIsLongest(policy, prefix, q);
      } else if any :| Matches(policy, any, p) {
        LongestMatchExists(policy, p);
      }
    }
  }

  /** The prefixes a subtree check looks at besides the path itself. */
  predicate Below(path: string, prefix: string) {
    path == "" || path + "/" <= prefix
  }

  /** Any path of a subtree has the permission of the subtree's root or of a rule below it. */
  lemma RepresentedByRule(policies: Policies, path: string, q: string, needWrite: bool) returns (r: string)
    requires ValidPolicies(policies) && IsSameOrDescendant(path, q)
    ensures r == path || (IsRule(policies, r) && Below(path, r))
    ensures Permits(policies, r, needWrite) == Permits(policies, q, needWrite)
  {
    var all := set id, prefix | id in policies && prefix in policies[id].rules :: prefix;
    var deeper := set prefix | prefix in all && Below(path, prefix) && Under(prefix, q);
    r := path;
    if deeper != {} {
      r := LongestExists(deeper);
    }
    forall prefix | IsRule(policies, prefix) ensures Under(prefix, r) <==> Under(prefix, q) {
      assert prefix in all;
      RuleReaches(policies, path, q, r, prefix, prefix in deeper);
    }
    SameRulesSamePermission(policies, r, q, needWrite);
  }

  lemma RuleReaches(policies: Policies, path: string, q: string, r: string, prefix: string, deeper: bool)
    requires ValidPolicies(policies) && IsSameOrDescendant(path, q) && IsRule(policies, prefix)
    requires deeper <==> Below(path, prefix) && Under(prefix, q)
    requires (r == path && !deeper) || (Below(path, r) && Under(r, q) && (deeper ==> |prefix| <= |r|))
    ensures Under(prefix, r) <==> Under(prefix, q)
  {
    if Under(prefix, r) && Under(r, q) {
      UnderIsTransitive(prefix, r, q);
    }
    if Under(prefix, q) && Under(r, q) {
      SharedPathMeansNested(prefix, r, q);
    }
  }

  /** The prefixes of all rules, as the second query lists them. */
  ghost predicate ListsRules(prefixes: seq<string>, policies: Policies) {
    forall prefix :: prefix in prefixes <==> IsRule(policies, prefix)
  }

  /** Every path at or below is permitted. */
  ghost predicate PermitsSubtree(policies: Policies, path: string, needWrite: bool) {
    forall q :: IsSameOrDescendant(path, q) ==> Permits(policies, q, needWrite)
  }

  ghost predicate PermitsPrefix(policies: Policies, path: string, prefix: string, needWrite: bool) {
    Below(path, prefix) ==> Permits(policies, prefix, needWrite)
  }

  predicate Suffices(permission: Permission, needWrite: bool) {
    permission == ReadWrite || (!needWrite && permission == ReadOnly)
  }

  method IsAllowed(rows: seq<Row>, ghost policies: Policies, path: string, needWrite: bool) returns (allowed: bool)
    requires ValidPolicies(policies) && IsJoin(rows, policies)
    ensures allowed <==> Permits(policies, path, needWrite)
  {
    var permission := PermissionOf(false, rows, policies, path);
    return Suffices(permission, needWrite);
  }

  /** canAccessSubtree: a finite check that stands for all the subtree's paths. */
  method CanAccessSubtree(isDisabled: bool, isAdmin: bool, rows: seq<Row>, prefixes: seq<string>,
                          ghost policies: Policies, path: string, needWrite: bool) returns (allowed: bool)
    requires ValidPolicies(policies) && IsJoin(rows, policies) && ListsRules(prefixes, policies)
    ensures allowed <==>
              !isDisabled
              && (isAdmin
                  || forall q :: IsSameOrDescendant(path, q) ==>
                       exists id <- policies ::
                         var permission := PolicyPermission(policies[id], q);
                         permission == ReadWrite || (permission == ReadOnly && !needWrite))
  {
    if isDisabled {
      return false;
    }
    if isAdmin {
      return true;
    }
    CheckedPrefixesSuffice(policies, prefixes, path, needWrite);
    assert PermitsSubtree(policies, path, needWrite) <==>
           forall q :: IsSameOrDescendant(path, q) ==> Permits(policies, q, needWrite);
    allowed := IsAllowed(rows, policies, path, needWrite);
    if allowed {
      allowed := CheckPrefixes(rows, prefixes, policies, path, needWrite);
    }
  }

  ghost predicate PermitsPrefixes(policies: Policies, path: string, prefixes: seq<string>, needWrite: bool) {
    forall k :: 0 <= k < |prefixes| ==> PermitsPrefix(policies, path, prefixes[k], needWrite)
  }

  method CheckPrefixes(rows: seq<Row>, prefixes: seq<string>, ghost policies: Policies, path: string, needWrite: bool)
      returns (allowed: bool)
    requires ValidPolicies(policies) && IsJoin(rows, policies)
    ensures allowed <==> PermitsPrefixes(policies, path, prefixes, needWrite)
  {
    for i := 0 to |prefixes|
      invariant PermitsPrefixes(policies, path, prefixes[..i], needWrite)
    {
      if path == "" || path + "/" <= prefixes[i] {
        allowed := IsAllowed(rows, policies, prefixes[i], needWrite);
        if !allowed {
          assert !PermitsPrefix(policies, path, prefixes[i], needWrite);
          return;
        }
      }
      assert prefixes[..i + 1] == prefixes[..i] + [prefixes[i]];
    }
    assert prefixes[..|prefixes|] == prefixes;
    return true;
  }

  /** The finite check is enough, and necessary since it looks only at paths of the subtree. */
  lemma CheckedPrefixesSuffice(policies: Policies, prefixes: seq<string>, path: string, needWrite: bool)
    requires ValidPolicies(policies) && ListsRules(prefixes, policies)
    ensures PermitsSubtree(policies, path, needWrite) <==>
            Permits(policies, path, needWrite) && PermitsPrefixes(policies, path, prefixes, needWrite)
  {
    if PermitsSubtree(policies, path, needWrite) {
      assert IsSameOrDescendant(path, path);
      forall k | 0 <= k < |prefixes| ensures PermitsPrefix(policies, path, prefixes[k], needWrite) {
        assert Below(path, prefixes[k]) ==> IsSameOrDescendant(path, prefixes[k]);
      }
    }
    if Permits(policies, path, needWrite) && PermitsPrefixes(policies, path, prefixes, needWrite) {
      forall q | IsSameOrDescendant(path, q) ensures Permits(policies, q, needWrite) {
        var r := RepresentedByRule(policies, path, q, needWrite);
        if r != path {
          var k :| 0 <= k < |prefixes| && prefixes[k] == r;
          assert PermitsPrefix(policies, path, prefixes[k], needWrite);
        }
      }
    }
  }
}
