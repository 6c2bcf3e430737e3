/**
 * The earlier stand-alone binary: the same tracking with its own platform
 * query (no build call, one timestamp per deploymentconfig) and the
 * collection fixed to "namespaces".
 */
module ShelfMain {
  import opened Wrappers
  import opened Protocol
  import opened Api
  import opened Signals
  import opened Text
  import opened Records
  import opened Store
  import ShelfLife

  const NamespacesCollection: string := "namespaces"

  const NamespaceForbidden: string := "Error! Could not fetch namespace information. Bad API token?"
  const NamespaceFailed: string := "Error! Could not fetch namespace information. Is the namespace wrong?"
  const DeploymentConfigsForbidden: string := "Error! Could not fetch namespace information. Bad API token?"
  const DeploymentConfigsFailed: string := "Error! Could not fetch deployment configs. Is the namespace wrong?"
  const RolebindingsForbidden: string := "Error! Could not fetch namespace information. Bad API token?"
  const RolebindingsFailed: string := "Error! Could not fetch rolebindings for deployment. Is the namespace wrong?"

  /** An error returned by a call, or the panic of `unwrap` on an empty timestamp list, which ends the process. */
  datatype Failure = ApiFailure(error: ApiError) | UnwrapPanic

  /**
   * The record for `namespace` from the namespace, deploymentconfigs and
   * rolebindings replies. The last deployment is the creation timestamp
   * of the first deploymentconfig; with none, `unwrap` panics.
   */
  function ApiNamespace(namespace: string, nsReply: Reply<()>, dcReply: Reply<DeploymentResponse>,
                        rbReply: Reply<RolebindingsResponse>)
    : (r: Result<DBItem, Failure>)
    ensures r.Ok? <==> Succeeded(nsReply) && Fetched(dcReply) && Fetched(rbReply) && dcReply.body.value.items != []
    ensures r == Err(UnwrapPanic) <==>
              Succeeded(nsReply) && Fetched(dcReply) && Fetched(rbReply) && dcReply.body.value.items == []
    ensures r.Ok? ==> r.value.name == namespace
    ensures r.Ok? ==> r.value.admins == AdminNames(rbReply.body.value.items)
    ensures r.Ok? ==> r.value.lastDeployment == dcReply.body.value.items[0].metadata.creationTimestamp
    ensures !Succeeded(nsReply) ==> r.Err? && r.error.ApiFailure? && r.error.error.call == NamespaceCall
    ensures Succeeded(nsReply) && !Fetched(dcReply) ==>
              r.Err? && r.error.ApiFailure? && r.error.error.call == DeploymentConfigsCall
    ensures Succeeded(nsReply) && Fetched(dcReply) && !Fetched(rbReply) ==>
              r.Err? && r.error.ApiFailure? && r.error.error.call == RolebindingsCall
    ensures r.Err? && r.error.ApiFailure? ==> r.error.error.call != BuildsCall
  {
    match Check(NamespaceCall, nsReply, NamespaceForbidden, NamespaceFailed)
    case Some(e) => Err(ApiFailure(e))
    case None =>
      match Receive(DeploymentConfigsCall, dcReply, DeploymentConfigsForbidden, DeploymentConfigsFailed)
      case Err(e) => Err(ApiFailure(e))
      case Ok(deploymentconfigs) =>
        match Receive(RolebindingsCall, rbReply, RolebindingsForbidden, RolebindingsFailed)
        case Err(e) => Err(ApiFailure(e))
        case Ok(rolebindings) =>
          var lastDeployments := CreationTimes(deploymentconfigs.items);
          if lastDeployments == [] then Err(UnwrapPanic)
          else Ok(DBItem(namespace, AdminNames(rolebindings.items), lastDeployments[0]))
  }

  /** query_api_namespace: the calls in order, with the loop collecting one creation timestamp per config. */
  method QueryApiNamespace(namespace: string, nsReply: Reply<()>, dcReply: Reply<DeploymentResponse>,
                           rbReply: Reply<RolebindingsResponse>)
    returns (r: Result<DBItem, Failure>)
    ensures r == ApiNamespace(namespace, nsReply, dcReply, rbReply)
  {
    var nsCheck := Check(NamespaceCall, nsReply, NamespaceForbidden, NamespaceFailed);
    if nsCheck.Some? {
      return Err(ApiFailure(nsCheck.value));
    }
    var deploymentconfigs :=
      Receive(DeploymentConfigsCall, dcReply, DeploymentConfigsForbidden, DeploymentConfigsFailed);
    if deploymentconfigs.Err? {
      return Err(ApiFailure(deploymentconfigs.error));
    }
    var configs := deploymentconfigs.value.items;
    var lastDeployments: seq<string> := [];
    var i := 0;
    while i < |configs|
      invariant 0 <= i <= |configs|
      invariant |lastDeployments| == i
      invariant forall k :: 0 <= k < i ==> lastDeployments[k] == configs[k].metadata.creationTimestamp
    {
      lastDeployments := lastDeployments + [configs[i].metadata.creationTimestamp];
      i := i + 1;
    }
    assert lastDeployments == CreationTimes(configs);
    var rolebindings := Receive(RolebindingsCall, rbReply, RolebindingsForbidden, RolebindingsFailed);
    if rolebindings.Err? {
      return Err(ApiFailure(rolebindings.error));
    }
    var admins := AdminNames(rolebindings.value.items);
    if lastDeployments == [] {
      return Err(UnwrapPanic);
    }
    r := Ok(DBItem(namespace, admins, lastDeployments[0]));
  }

  /** get_db_namespace_table: the read path of the library, on the "namespaces" collection. */
  method GetDbNamespaceTable(db: Database, render: Bson -> string) returns (table: seq<DBItem>)
    ensures table == db.Table(NamespacesCollection, render)
  {
    table := ShelfLife.GetDbTable(db, NamespacesCollection, render);
  }

  /** add_item_to_db_namespace_table: append the record's document to "namespaces". */
  method AddItemToDbNamespaceTable(db: Database, item: DBItem)
    modifies db
    ensures db.collections ==
            old(db.collections)[NamespacesCollection := old(db.Entries(NamespacesCollection)) + [Stored(Encode(item))]]
  {
    ShelfLife.AddItemToDbTable(db, NamespacesCollection, item);
  }

  /** remove_item_from_db: delete the first "namespaces" document named `namespace`. */
  method RemoveItemFromDb(db: Database, namespace: string)
    modifies db
    ensures db.Entries(NamespacesCollection) == RemoveFirst(old(db.Entries(NamespacesCollection)), namespace)
    ensures forall c :: c != NamespacesCollection ==> db.Entries(c) == old(db.Entries(c))
  {
    ShelfLife.RemoveItemFromDbTable(db, NamespacesCollection, namespace);
  }

  /**
   * query_known_namespace of the earlier binary: the same guarded add,
   * always into "namespaces". A panic ends the run before the database is
   * read or written.
   */
  method QueryKnownNamespace(db: Database, namespace: string, nsReply: Reply<()>,
                             dcReply: Reply<DeploymentResponse>, rbReply: Reply<RolebindingsResponse>,
                             reply: string, render: Bson -> string)
    returns (r: Result<(), Failure>)
    modifies db
    ensures var info := ApiNamespace(namespace, nsReply, dcReply, rbReply);
            && (info.Err? ==> r == Err(info.error) && db.collections == old(db.collections))
            && (info.Ok? ==> r == Ok(()))
            && (info.Ok? && ConfirmAdd(old(db.Table(NamespacesCollection, render)), namespace, reply) ==>
                  db.collections == old(db.collections)[NamespacesCollection :=
                    old(db.Entries(NamespacesCollection)) + [Stored(Encode(info.value))]])
            && (info.Ok? && !ConfirmAdd(old(db.Table(NamespacesCollection, render)), namespace, reply) ==>
                  db.collections == old(db.collections))
    ensures UniqueNames(old(db.Table(NamespacesCollection, render))) ==>
              UniqueNames(db.Table(NamespacesCollection, render))
  {
    var info := QueryApiNamespace(namespace, nsReply, dcReply, rbReply);
    if info.Err? {
      return Err(info.error);
    }
    var currentTable := GetDbNamespaceTable(db, render);
    var queriedNamespace := info.value.name;
    if !HasName(currentTable, queriedNamespace) {
      if Trim(reply) == "y" {
        ghost var before := db.Entries(NamespacesCollection);
        AddItemToDbNamespaceTable(db, info.value);
        assert db.Entries(NamespacesCollection) == before + [Stored(Encode(info.value))];
        if UniqueNames(DecodeAll(before, render)) {
          ConfirmedAddKeepsNamesUnique(before, info.value, reply, render);
        }
      }
    }
    r := Ok(());
  }
}
