# ShelfLife namespace tracking, modelled in Dafny

ShelfLife keeps track of OpenShift namespaces in a MongoDB database. For a
queried namespace it asks the platform for the namespace, its builds, its
deploymentconfigs and its rolebindings. From the replies it builds a record
`{name, admins, last_deployment}`. If no record of the chosen collection has
that name and the operator answers "y", the record is appended. Records can
also be listed and removed by name.

This project models that core as it is written in `src/lib.rs` (the
library) and `src/main.rs` (an earlier, divergent stand-alone binary):

- `Protocol`: the decoded reply shapes and the `DBItem` record.
- `Api`: one platform call as a value. The send either fails, or a reply
  arrives with a status and a body that either binds to its shape or does
  not. There is also the status check every call site repeats.
- `Signals`: the admin list drawn from role bindings, the deployment
  timestamps, and "first, or `N/A`".
- `Text`: Rust's `str::trim` over the Unicode White_Space characters.
- `Records`: the BSON documents the database holds. It also has the
  document written for a record, the read path with its defaults,
  `find_one_and_delete`'s choice of document, and the add guard.
- `Store`: the database as a class. Its field maps each collection name to
  its entries. It has the three driver operations the code uses.
- `ShelfLife`: `get_shelflife_info`, `get_db_table`,
  `add_item_to_db_table`, `remove_item_from_db_table` and
  `query_known_namespace` of the library.
- `ShelfMain`: `query_api_namespace` and its `query_known_namespace`, plus
  the table, add and remove functions of the earlier binary (always the
  "namespaces" collection).

The code is followed where the wider design of the system says otherwise.
The design speaks of a resolved "last activity" time (the latest of
creation, build and deployment times), of a discovery date, a cause,
tiers and culling. None of that is in these files. Here `last_deployment`
is the first deployment timestamp in listing order, not the latest, and
build timestamps are collected and never read.

Decisions in the model:

- Replies are given values (`Api.Reply`). The console answer is a string
  parameter. `Bson::to_string` is the parameter `render`: it is left
  uninterpreted, so nothing depends on how an admin element is printed.
- The database holds documents, not records. A cursor entry is either a
  readable document or one that comes back as an error (`Entry.Unreadable`).
  That is what gives the read path's defaults and skips their meaning. An unreadable entry still holds its document, so the remove filter, which the server applies, can match it.
- `src/main.rs` reads `metadata.creation_timestamp` of a deploymentconfig,
  and `src/protocol.rs` does not declare that field. The model's
  `DeploymentMetadata` carries it.
- `src/protocol.rs` declares a `DBItem` with `last_update` and `cause`.
  Both binaries build and store `name`/`admins`/`last_deployment`, so that
  is the record modelled.
- In `src/main.rs`, `last_deployments.first().unwrap()` panics when there
  is no deploymentconfig. The model gives that as the outcome
  `ShelfMain.Failure.UnwrapPanic`. It is reached only after all three calls
  succeed, and the database is then neither read nor written.
- The table, add and remove functions of `src/main.rs`
  (main.rs:217-278) are copies of the library's with the collection fixed
  to "namespaces". The model's `ShelfMain` members call the `ShelfLife`
  ones with that name.

## Model

| member | source | states |
|---|---|---|
| `Api.Check` | src/lib.rs:118-131 | A failed send is a send error. OK, and only OK, passes. FORBIDDEN gives the call site's "forbidden" message and any other status gives its other message. The error names the call. |
| `Api.Receive` | src/lib.rs:145-158 | Succeeds exactly when the send succeeded, the status is OK and the body bound; it then yields that body. An unbound body after OK is a JSON error of that call. Otherwise the error is `Check`'s. |
| `Signals.AdminNamesMember` | src/lib.rs:224-230 | A user is in the admin list exactly when some binding named "admin", with user names present, lists that user. |
| `Signals.AdminNamesAppend` | src/lib.rs:224-230 | The admin list keeps binding order: the list for `a + b` is the list for `a` followed by the list for `b`. |
| `Signals.AdminNamesNone` | src/lib.rs:227-228 | Bindings that are not named "admin", or whose user names are absent, contribute nothing. |
| `Signals.DeploymentTimesAppend` | src/lib.rs:193-198 | The timestamps follow config order: those of `a + b` are those of `a` followed by those of `b`. |
| `Signals.DeploymentTimesEmpty` | src/lib.rs:193-198 | The timestamp list is empty exactly when no deploymentconfig has a condition. |
| `Signals.DeploymentTimesFirst` | src/lib.rs:193-198 | The first timestamp is the first condition's update time of the first deploymentconfig that has a condition. |
| `Text.TrimStartPadding` | src/lib.rs:71 | Trimming the start removes any whitespace prefix in front of text that does not start with whitespace. |
| `Text.TrimEndPadding` | src/lib.rs:71 | Trimming the end removes any whitespace suffix after text that does not end with whitespace. |
| `Text.TrimStartSplit` | src/lib.rs:71 | Trimming the start removes only a whitespace prefix and keeps the rest unchanged. |
| `Text.TrimEndSplit` | src/lib.rs:71 | Trimming the end removes only a whitespace suffix and keeps the rest unchanged. |
| `Text.TrimIsY` | src/lib.rs:71 | A reply trims to "y" exactly when it is "y" surrounded by whitespace only. |
| `Text.TrimReplyLine` | src/lib.rs:67-71 | The newline kept by `read_line` is removed, so "y\n" trims to "y" and "n\n" to "n". |
| `Records.DecodeDocument` | src/lib.rs:256-275 | A missing or non-string `name` or `last_deployment` reads as "", and a string reads as itself. A missing or non-array `admins` reads as []; an array reads as one rendered string per element, in order. |
| `Records.DecodeEncode` | src/lib.rs:314 | A written record reads back with the same name and last deployment. It has one admin per admin written, each the rendering of that string. |
| `Records.DecodeAllAppend` | src/lib.rs:254-278 | Reading a cursor in two parts gives the two tables one after the other: the read keeps cursor order. |
| `Records.DecodeAllLength` | src/lib.rs:254-255 | The table never has more records than the cursor has entries, since error entries are skipped. |
| `Records.DecodeAllReadable` | src/lib.rs:254-278 | With no error entries, record i is the decoding of entry i, and the lengths agree. |
| `Records.DecodeAllMember` | src/lib.rs:254-278 | A record is in the table exactly when some readable entry decodes to it. |
| `Records.RemoveFirstAt` | src/lib.rs:323-324 | When entry i is the first whose name is the argument, removal deletes exactly entry i. The others stay, in order. |
| `Records.RemoveFirstNoMatch` | src/lib.rs:323-324 | When no entry has the name, removal changes nothing. |
| `Records.RemoveFirstRemovesOne` | src/lib.rs:323-324 | At most one entry is removed, the rest is a sub-multiset of the original, and whatever was removed has the name. |
| `Records.RemoveFirstKeepsDuplicate` | src/lib.rs:323-324 | With two entries of the same name, one of that name remains after removal. |
| `Records.ConfirmedAddKeepsNamesUnique` | src/lib.rs:59-83 | When the table's names are unique, the name is absent and the reply trims to "y", appending the record's document gives the old table plus the record as read back (same name and last deployment, each admin rendered). The names stay unique, and the name is now present. |
| `Store.Database.Find` | src/lib.rs:253 | The cursor holds every entry of the collection, in order. An absent collection gives no entries. |
| `Store.Database.InsertOne` | src/lib.rs:314 | The document is appended to the collection, with no uniqueness check. No other collection changes. |
| `Store.Database.FindOneAndDelete` | src/lib.rs:323 | The collection becomes the collection with its first matching entry removed. An absent collection stays absent, and nothing else changes. |
| `ShelfLife.ShelflifeInfo` | src/lib.rs:96-244 | The query succeeds exactly when all four calls succeed: namespace, builds, deploymentconfigs, rolebindings. The record's name is the argument, its admins the admin list, its last deployment the first timestamp or "N/A". The first failing call, whatever its status, determines the error. |
| `ShelfLife.GetShelflifeInfo` | src/lib.rs:96-244 | The method with its timestamp push loops computes exactly `ShelflifeInfo`. |
| `ShelfLife.LastDeploymentIsFirstCondition` | src/lib.rs:236-240 | On success, the last deployment is the first condition of the first deploymentconfig that has one. It is not the latest. |
| `ShelfLife.LastDeploymentNotAvailable` | src/lib.rs:236-240 | On success with no condition in any deploymentconfig, the last deployment is "N/A". |
| `ShelfLife.GetDbTable` | src/lib.rs:246-280 | The decode loop returns exactly the decoded table of the collection: error entries skipped, defaults for missing or ill-typed fields. |
| `ShelfLife.DecodeItem` | src/lib.rs:256-275 | The loop body for one readable document, with its mutable defaults and the admins push loop, returns exactly the decoded record. |
| `ShelfLife.AddItemToDbTable` | src/lib.rs:309-316 | The record's document is appended to the named collection, whatever it already holds. Nothing else changes. |
| `ShelfLife.RemoveItemFromDbTable` | src/lib.rs:318-327 | The collection loses its first entry with that name and keeps all others. Other collections are untouched. |
| `ShelfLife.QueryKnownNamespace` | src/lib.rs:29-93 | A failed query returns its error and changes nothing. Otherwise the result is Ok. The collection, whatever its name, gains the record exactly when its table lacks the name and the reply trims to "y"; "n", any other reply or a present name change nothing. Unique names stay unique. |
| `ShelfMain.ApiNamespace` | src/main.rs:114-215 | Success exactly when all three calls succeed (no build call) and there is a deploymentconfig; with none, the outcome is the unwrap panic. The record has the argument as name, the admin list of the "admin" bindings, and the first config's creation timestamp. The first failing call determines the error. |
| `ShelfMain.QueryApiNamespace` | src/main.rs:114-215 | The method with its push loop, one creation timestamp per deploymentconfig, computes exactly `ApiNamespace`. |
| `ShelfMain.GetDbNamespaceTable` | src/main.rs:217-256 | Returns the decoded table of the "namespaces" collection. |
| `ShelfMain.AddItemToDbNamespaceTable` | src/main.rs:258-268 | Appends the record's document to "namespaces"; nothing else changes. |
| `ShelfMain.RemoveItemFromDb` | src/main.rs:270-278 | "namespaces" loses its first entry with that name; every other collection is unchanged. |
| `ShelfMain.QueryKnownNamespace` | src/main.rs:54-112 | A failed query or panic changes nothing. Otherwise "namespaces" gains the record exactly when its table lacks the name and the reply trims to "y". Unique names stay unique. |

## Left out

- HTTP: `make_api_call`, the request URLs, the Bearer header, the sends and `.json()` binding are not modelled. Each reply is a given `Api.Reply`; a failed send or an unbound body is an abstract error.
- The namespace call's body is never read by the code, and the model ignores it as well.
- The `last_builds` loop (src/lib.rs:159-162) collects build completion timestamps that are never read. It is left out; the builds call's send, status and JSON checks are kept.
- MongoDB: connecting, the `SHELFLIFE_NAMESPACES` database name, and the `.unwrap()`/`.expect()` panics on driver or connection errors are not modelled. The same goes for the environment reads of `DB_ADDR`/`DB_PORT` in src/main.rs. One database is modelled, and its operations always succeed.
- `bson::to_bson(&item.admins)?` cannot fail for a list of strings, and its result is discarded by the callers (`let _table_add`). Adding always succeeds in the model.
- `Bson::to_string` is the uninterpreted parameter `render`.
- Records.DecodeEncode: does not claim that admins round-trip unchanged, because each admin is read back through `Bson::to_string`, which the model leaves uninterpreted.
- Records.UniqueNames: unique names are promised for the readable table only, because the add flow's name check sees only the documents the cursor can read; a document the cursor returns as an error can share a name with an added one.
- Records.Matches: the filter `{"name": namespace}` is modelled as string equality on the `name` field. MongoDB's matching of array fields that contain the value is not modelled. "First" is taken as the collection's natural order.
- Console input: `stdin().read_line` and its `expect` panic are not modelled; the reply is a parameter.
- Output: `view_db_table`, the table printing in src/main.rs, and all `println!`/`print!`/`dbg!` calls. The collection-name match in `query_known_namespace` only selects a message, so it is not modelled.
- src/main.rs `main`, src/bin/main.rs (argument dispatch, environment setup), and src/bin/api.rs (an async HTTP server over a locked in-memory list).
- src/protocol.rs structs that no modelled code reads (projects, pods), and its `DBItem` with `last_update`/`cause`.
- Timestamps are opaque strings: they are never parsed, compared or ordered.
