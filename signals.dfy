/**
 * Turning decoded platform replies into the pieces of a record: the admin
 * list from the role bindings and the deployment timestamps.
 */
module Signals {
  import opened Wrappers
  import opened Protocol

  /** The role binding whose users are the namespace's admins. */
  const AdminRole: string := "admin"

  /** The `last_deployment` given when there is no deployment timestamp. */
  const NoDeployment: string := "N/A"

  /** True when a binding contributes users: it is named "admin" and lists user names. */
  predicate Contributes(binding: RolebindingsItem) {
    binding.metadata.name == AdminRole && binding.userNames.Some?
  }

  function BindingUsers(binding: RolebindingsItem): seq<string> {
    if Contributes(binding) then binding.userNames.value else []
  }

  /** filter(name == "admin"), filter_map(user_names), flatten, collect. */
  function AdminNames(bindings: seq<RolebindingsItem>): seq<string> {
    if bindings == [] then [] else BindingUsers(bindings[0]) + AdminNames(bindings[1..])
  }

  /** The admin list of a concatenation of binding lists is the concatenation of their admin lists. */
  lemma {:induction false} AdminNamesAppend(a: seq<RolebindingsItem>, b: seq<RolebindingsItem>)
    ensures AdminNames(a + b) == AdminNames(a) + AdminNames(b)
  {
    if a == [] {
      assert a + b == b;
    } else {
      assert (a + b)[1..] == a[1..] + b;
      AdminNamesAppend(a[1..], b);
    }
  }

  /** A user is an admin exactly when some binding named "admin" lists that user. */
  lemma {:induction false} AdminNamesMember(bindings: seq<RolebindingsItem>, user: string)
    ensures user in AdminNames(bindings) <==>
            exists i :: 0 <= i < |bindings| && Contributes(bindings[i]) && user in bindings[i].userNames.value
  {
    if bindings != [] {
      AdminNamesMember(bindings[1..], user);
      if user in AdminNames(bindings) {
        if user !in BindingUsers(bindings[0]) {
          var i :| 0 <= i < |bindings[1..]| && Contributes(bindings[1..][i]) && user in bindings[1..][i].userNames.value;
          assert bindings[i + 1] == bindings[1..][i];
        }
      } else {
        forall i | 0 <= i < |bindings| && Contributes(bindings[i])
          ensures user !in bindings[i].userNames.value
        {
          if i > 0 {
            assert bindings[1..][i - 1] == bindings[i];
          }
        }
      }
    }
  }

  /** Bindings that are not named "admin", or list no users, add nothing to the admin list. */
  lemma {:induction false} AdminNamesNone(bindings: seq<RolebindingsItem>)
    requires forall i :: 0 <= i < |bindings| ==> !Contributes(bindings[i])
    ensures AdminNames(bindings) == []
  {
    if bindings != [] {
      AdminNamesNone(bindings[1..]);
    }
  }

  function ConditionTimes(conditions: seq<DeploymentCondition>): seq<string> {
    seq(|conditions|, j requires 0 <= j < |conditions| => conditions[j].lastUpdateTime)
  }

  /** One timestamp per condition, the conditions of each config in turn, configs in listing order. */
  function DeploymentTimes(configs: seq<DeploymentItem>): seq<string> {
    if configs == [] then [] else ConditionTimes(configs[0].status.conditions) + DeploymentTimes(configs[1..])
  }

  lemma {:induction false} DeploymentTimesAppend(a: seq<DeploymentItem>, b: seq<DeploymentItem>)
    ensures DeploymentTimes(a + b) == DeploymentTimes(a) + DeploymentTimes(b)
  {
    if a == [] {
      assert a + b == b;
    } else {
      assert (a + b)[1..] == a[1..] + b;
      DeploymentTimesAppend(a[1..], b);
    }
  }

  /** There is no deployment timestamp exactly when no config has a condition. */
  lemma {:induction false} DeploymentTimesEmpty(configs: seq<DeploymentItem>)
    ensures DeploymentTimes(configs) == [] <==>
            forall i :: 0 <= i < |configs| ==> configs[i].status.conditions == []
  {
    if configs != [] {
      DeploymentTimesEmpty(configs[1..]);
      if DeploymentTimes(configs) == [] {
        forall i | 0 <= i < |configs| ensures configs[i].status.conditions == [] {
          if i > 0 {
            assert configs[1..][i - 1] == configs[i];
          }
        }
      }
    }
  }

  /** The first timestamp is the first condition of the first config that has one. */
  lemma {:induction false} DeploymentTimesFirst(configs: seq<DeploymentItem>, k: nat)
    requires k < |configs| && configs[k].status.conditions != []
    requires forall i :: 0 <= i < k ==> configs[i].status.conditions == []
    ensures DeploymentTimes(configs) != []
    ensures DeploymentTimes(configs)[0] == configs[k].status.conditions[0].lastUpdateTime
  {
    if k > 0 {
      assert configs[0].status.conditions == [];
      DeploymentTimesFirst(configs[1..], k - 1);
    }
  }

  /** The first timestamp, or "N/A" when there is none. */
  function LastDeployment(times: seq<string>): string {
    if times == [] then NoDeployment else times[0]
  }

  /** One creation timestamp per deploymentconfig, in listing order. */
  function CreationTimes(configs: seq<DeploymentItem>): seq<string> {
    seq(|configs|, i requires 0 <= i < |configs| => configs[i].metadata.creationTimestamp)
  }
}
