/**
 * The decoded shapes of the platform's JSON replies, and the record the
 * tool stores for a namespace.
 */
module Protocol {
  import opened Wrappers

  newtype u32 = x: int | 0 <= x < 0x1_0000_0000

  datatype BuildStatus = BuildStatus(completionTimestamp: Option<string>)

  datatype BuildItem = BuildItem(status: BuildStatus)

  datatype BuildlistResponse = BuildlistResponse(items: seq<BuildItem>)

  datatype DeploymentCondition = DeploymentCondition(lastUpdateTime: string)

  datatype DeploymentStatus = DeploymentStatus(replicas: u32, conditions: seq<DeploymentCondition>)

  /** `creationTimestamp` is the field the earlier binary reads from a deploymentconfig's metadata. */
  datatype DeploymentMetadata = DeploymentMetadata(name: string, creationTimestamp: string)

  datatype DeploymentItem = DeploymentItem(metadata: DeploymentMetadata, status: DeploymentStatus)

  datatype DeploymentResponse = DeploymentResponse(items: seq<DeploymentItem>)

  datatype RolebindingsMetadata = RolebindingsMetadata(name: string)

  datatype RolebindingsItem = RolebindingsItem(metadata: RolebindingsMetadata, userNames: Option<seq<string>>)

  datatype RolebindingsResponse = RolebindingsResponse(items: seq<RolebindingsItem>)

  /** The record built from the platform's replies and kept in the database. */
  datatype DBItem = DBItem(name: string, admins: seq<string>, lastDeployment: string)
}
