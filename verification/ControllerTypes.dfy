/** What the classifier hands to the admission controller and the reconciler. */
module ControllerTypes {
  import opened Pacers

  datatype Result<+T> = Ok(value: T) | Err(error: string)

  /** A pod's staggering group: its id, the pacers its composite combines, and the group's
      MaxBlockedDuration policy (0 for none). */
  datatype Classification = Classification(id: string, pacers: seq<Pacer>, maxBlockedDuration: int)

  const ENABLE_LABEL := "v1.straggler.technicianted/enable"
  const GROUP_ID_LABEL := "v1.straggler.technicianted/group"
  const STAGGERED_POD_LABEL := "v1.straggler.technicianted/staggered"
  const JOB_POD_LABEL := "v1.straggler.technicianted/jobPod"

  predicate Enabled(labels: map<string, string>) {
    ENABLE_LABEL in labels && labels[ENABLE_LABEL] == "1"
  }
}
