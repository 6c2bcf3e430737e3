/**
 * The library's namespace tracking: gathering a namespace's record from
 * the platform, reading, adding to and removing from a collection, and
 * the confirmed add of a queried namespace.
 */
module ShelfLife {
  import opened Wrappers
  import opened Protocol
  import opened Api
  import opened Signals
  import opened Text
  import opened Records
  import opened Store

  const NamespaceForbidden: string := "Error! Could not fetch namespace information. Bad API token or wrong namespace?"
  const NamespaceFailed: string := "Error! Could not fetch namespace information."
  const BuildsForbidden: string := "Error! Could not fetch build information. Bad API token or wrong namespace?"
  const BuildsFailed: string := "Error! Could not fetch build information."
  const DeploymentConfigsForbidden: string :=
    "Error! Could not fetch deploymentconfig information. Bad API token or wrong namespace?"
  const DeploymentConfigsFailed: string := "Error! Could not fetch deploymentconfig information."
  const RolebindingsForbidden: string := "Error! Could not fetch namespace information. Bad API token?"
  const RolebindingsFailed: string := "Error! Could not fetch rolebindings for deployment. Is the namespace wrong?"

  /**
   * The record for `namespace` from the replies to its four calls, in the
   * order they are made: the namespace itself, its builds, its
   * deploymentconfigs and its rolebindings. The first call that fails
   * ends the query with its error.
   */
  function ShelflifeInfo(namespace: string, nsReply: Reply<()>, buildsReply: Reply<BuildlistResponse>,
                         dcReply: Reply<DeploymentResponse>, rbReply: Reply<RolebindingsResponse>)
    : (r: Result<DBItem, ApiError>)
    ensures r.Ok? <==> Succeeded(nsReply) && Fetched(buildsReply) && Fetched(dcReply) && Fetched(rbReply)
    ensures r.Ok? ==> r.value.name == namespace
    ensures r.Ok? ==> r.value.admins == AdminNames(rbReply.body.value.items)
    ensures r.Ok? ==> r.value.lastDeployment == LastDeployment(DeploymentTimes(dcReply.body.value.items))
    ensures !Succeeded(nsReply) ==> r.Err? && r.error.call == NamespaceCall
    ensures Succeeded(nsReply) && !Fetched(buildsReply) ==> r.Err? && r.error.call == BuildsCall
    ensures Succeeded(nsReply) && Fetched(buildsReply) && !Fetched(dcReply) ==>
              r.Err? && r.error.call == DeploymentConfigsCall
    ensures Succeeded(nsReply) && Fetched(buildsReply) && Fetched(dcReply) && !Fetched(rbReply) ==>
              r.Err? && r.error.call == RolebindingsCall
    ensures nsReply.Received? && nsReply.status == FORBIDDEN ==>
              r == Err(StatusError(NamespaceCall, FORBIDDEN, NamespaceForbidden))
    ensures r.Err? && r.error.StatusError? ==> r.error.status != OK
  {
    match Check(NamespaceCall, nsReply, NamespaceForbidden, NamespaceFailed)
    case Some(e) => Err(e)
    case None =>
      match Receive(BuildsCall, buildsReply, BuildsForbidden, BuildsFailed)
      case Err(e) => Err(e)
      case Ok(_) =>
        match Receive(DeploymentConfigsCall, dcReply, DeploymentConfigsForbidden, DeploymentConfigsFailed)
        case Err(e) => Err(e)
        case Ok(deploymentconfigs) =>
          match Receive(RolebindingsCall, rbReply, RolebindingsForbidden, RolebindingsFailed)
          case Err(e) => Err(e)
          case Ok(rolebindings) =>
            Ok(DBItem(namespace, AdminNames(rolebindings.items),
                      LastDeployment(DeploymentTimes(deploymentconfigs.items))))
  }

  /** get_shelflife_info: the calls in order, with the timestamp loop over configs and their conditions. */
  method GetShelflifeInfo(namespace: string, nsReply: Reply<()>, buildsReply: Reply<BuildlistResponse>,
                          dcReply: Reply<DeploymentResponse>, rbReply: Reply<RolebindingsResponse>)
    returns (r: Result<DBItem, ApiError>)
    ensures r == ShelflifeInfo(namespace, nsReply, buildsReply, dcReply, rbReply)
  {
    var nsCheck := Check(NamespaceCall, nsReply, NamespaceForbidden, NamespaceFailed);
    if nsCheck.Some? {
      return Err(nsCheck.value);
    }
    var buildlist := Receive(BuildsCall, buildsReply, BuildsForbidden, BuildsFailed);
    if buildlist.Err? {
      return Err(buildlist.error);
    }
    var deploymentconfigs :=
      Receive(DeploymentConfigsCall, dcReply, DeploymentConfigsForbidden, DeploymentConfigsFailed);
    if deploymentconfigs.Err? {
      return Err(deploymentconfigs.error);
    }
    var configs := deploymentconfigs.value.items;
    var lastDeployments: seq<string> := [];
    var i := 0;
    while i < |configs|
      invariant 0 <= i <= |configs|
      invariant lastDeployments == DeploymentTimes(configs[..i])
    {
      var conditions := configs[i].status.conditions;
      var j := 0;
      while j < |conditions|
        invariant 0 <= j <= |conditions|
        invariant lastDeployments == DeploymentTimes(configs[..i]) + ConditionTimes(conditions[..j])
      {
        assert ConditionTimes(conditions[..j + 1]) == ConditionTimes(conditions[..j]) + [conditions[j].lastUpdateTime];
        lastDeployments := lastDeployments + [conditions[j].lastUpdateTime];
        j := j + 1;
      }
      assert conditions[..j] == conditions;
      DeploymentTimesAppend(configs[..i], [configs[i]]);
      assert configs[..i + 1] == configs[..i] + [configs[i]];
      assert DeploymentTimes([configs[i]]) == ConditionTimes(conditions) + DeploymentTimes([]);
      i := i + 1;
    }
    assert configs[..i] == configs;
    var rolebindings := Receive(RolebindingsCall, rbReply, RolebindingsForbidden, RolebindingsFailed);
    if rolebindings.Err? {
      return Err(rolebindings.error);
    }
    var admins := AdminNames(rolebindings.value.items);
    r := Ok(DBItem(namespace, admins, LastDeployment(lastDeployments)));
  }

  /** The last deployment is the first condition of the first deploymentconfig that has one, not the latest. */
  lemma LastDeploymentIsFirstCondition(namespace: string, nsReply: Reply<()>, buildsReply: Reply<BuildlistResponse>,
                                       dcReply: Reply<DeploymentResponse>, rbReply: Reply<RolebindingsResponse>, k: nat)
    requires Succeeded(nsReply) && Fetched(buildsReply) && Fetched(dcReply) && Fetched(rbReply)
    requires k < |dcReply.body.value.items| && dcReply.body.value.items[k].status.conditions != []
    requires forall i :: 0 <= i < k ==> dcReply.body.value.items[i].status.conditions == []
    ensures ShelflifeInfo(namespace, nsReply, buildsReply, dcReply, rbReply).value.lastDeployment
            == dcReply.body.value.items[k].status.conditions[0].lastUpdateTime
  {
    DeploymentTimesFirst(dcReply.body.value.items, k);
  }

  /** With no condition in any deploymentconfig the last deployment is "N/A". */
  lemma LastDeploymentNotAvailable(namespace: string, nsReply: Reply<()>, buildsReply: Reply<BuildlistResponse>,
                                   dcReply: Reply<DeploymentResponse>, rbReply: Reply<RolebindingsResponse>)
    requires Succeeded(nsReply) && Fetched(buildsReply) && Fetched(dcReply) && Fetched(rbReply)
    requires forall i :: 0 <= i < |dcReply.body.value.items| ==> dcReply.body.value.items[i].status.conditions == []
    ensures ShelflifeInfo(namespace, nsReply, buildsReply, dcReply, rbReply).value.lastDeployment == NoDeployment
  {
    DeploymentTimesEmpty(dcReply.body.value.items);
  }

  /** get_db_table: decode each readable entry of the cursor, with "" and [] for missing or ill-typed fields. */
  method GetDbTable(db: Database, collection: string, render: Bson -> string) returns (table: seq<DBItem>)
    ensures table == db.Table(collection, render)
  {
    var cursor := db.Find(collection);
    table := [];
    var i := 0;
    while i < |cursor|
      invariant 0 <= i <= |cursor|
      invariant table == DecodeAll(cursor[..i], render)
    {
      DecodeAllAppend(cursor[..i], [cursor[i]], render);
      assert cursor[..i + 1] == cursor[..i] + [cursor[i]];
      assert DecodeAll([cursor[i]], render) == DecodeEntry(cursor[i], render) + DecodeAll([], render);
      if cursor[i].Stored? {
        var namespaceDocument := DecodeItem(cursor[i].doc, render);
        table := table + [namespaceDocument];
      }
      i := i + 1;
    }
    assert cursor[..i] == cursor;
  }

  /** The body of the cursor loop for one readable document: mutable defaults, overwritten by well-typed fields. */
  method DecodeItem(item: Document, render: Bson -> string) returns (namespaceDocument: DBItem)
    ensures namespaceDocument == DecodeDocument(item, render)
  {
    var docName := "";
    var docAdmins: seq<string> := [];
    var docLastDeployment := "";
    if NameKey in item && item[NameKey].BString? {
      docName := item[NameKey].str;
    }
    if AdminsKey in item && item[AdminsKey].BArray? {
      var elements := item[AdminsKey].elements;
      var j := 0;
      while j < |elements|
        invariant 0 <= j <= |elements|
        invariant |docAdmins| == j
        invariant forall k :: 0 <= k < j ==> docAdmins[k] == render(elements[k])
      {
        docAdmins := docAdmins + [render(elements[j])];
        j := j + 1;
      }
    }
    if LastDeploymentKey in item && item[LastDeploymentKey].BString? {
      docLastDeployment := item[LastDeploymentKey].str;
    }
    assert docAdmins == DecodeDocument(item, render).admins;
    namespaceDocument := DBItem(docName, docAdmins, docLastDeployment);
  }

  /** add_item_to_db_table: the record's document is appended, whatever the collection holds already. */
  method AddItemToDbTable(db: Database, collection: string, item: DBItem)
    modifies db
    ensures db.collections == old(db.collections)[collection := old(db.Entries(collection)) + [Stored(Encode(item))]]
  {
    db.InsertOne(collection, Encode(item));
  }

  /** remove_item_from_db_table: the first document named `namespace` is deleted; everything else stays. */
  method RemoveItemFromDbTable(db: Database, collection: string, namespace: string)
    modifies db
    ensures db.Entries(collection) == RemoveFirst(old(db.Entries(collection)), namespace)
    ensures collection in old(db.collections) ==>
              db.collections == old(db.collections)[collection := RemoveFirst(old(db.collections)[collection], namespace)]
    ensures collection !in old(db.collections) ==> db.collections == old(db.collections)
  {
    db.FindOneAndDelete(collection, namespace);
  }

  /**
   * query_known_namespace: fetch the namespace's record; if no record of
   * the collection has its name and the console reply trims to "y",
   * append it. Any collection name is written to; the name only changes
   * what is printed.
   */
  method QueryKnownNamespace(db: Database, collection: string, namespace: string,
                             nsReply: Reply<()>, buildsReply: Reply<BuildlistResponse>,
                             dcReply: Reply<DeploymentResponse>, rbReply: Reply<RolebindingsResponse>,
                             reply: string, render: Bson -> string)
    returns (r: Result<(), ApiError>)
    modifies db
    ensures var info := ShelflifeInfo(namespace, nsReply, buildsReply, dcReply, rbReply);
            && (info.Err? ==> r == Err(info.error) && db.collections == old(db.collections))
            && (info.Ok? ==> r == Ok(()))
            && (info.Ok? && ConfirmAdd(old(db.Table(collection, render)), namespace, reply) ==>
                  db.collections == old(db.collections)[collection := old(db.Entries(collection)) + [Stored(Encode(info.value))]])
            && (info.Ok? && !ConfirmAdd(old(db.Table(collection, render)), namespace, reply) ==>
                  db.collections == old(db.collections))
    ensures UniqueNames(old(db.Table(collection, render))) ==> UniqueNames(db.Table(collection, render))
  {
    var info := GetShelflifeInfo(namespace, nsReply, buildsReply, dcReply, rbReply);
    if info.Err? {
      return Err(info.error);
    }
    var currentTable := GetDbTable(db, collection, render);
    var queriedNamespace := info.value.name;
    if !HasName(currentTable, queriedNamespace) {
      if Trim(reply) == "y" {
        ghost var before := db.Entries(collection);
        AddItemToDbTable(db, collection, info.value);
        assert db.Entries(collection) == before + [Stored(Encode(info.value))];
        if UniqueNames(DecodeAll(before, render)) {
          ConfirmedAddKeepsNamesUnique(before, info.value, reply, render);
        }
      }
    }
    r := Ok(());
  }
}
