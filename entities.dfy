/**
 * The records the registry stores. A job and a payload are identified by
 * their name; every other field they carry belongs to other packages and is
 * kept here as one opaque string that the codec carries verbatim. A machine,
 * at this layer, is nothing but its boot identifier.
 */
module Entities {

  datatype Job = Job(name: string, body: string)

  datatype JobPayload = JobPayload(name: string, body: string)

  datatype Machine = Machine(bootId: string)

  /** The zero value of a Go `job.Job`, which is what an ignored unmarshal error leaves behind. */
  const ZeroJob := Job("", "")

  /** The zero value of a Go `job.JobPayload`. */
  const ZeroPayload := JobPayload("", "")
}
