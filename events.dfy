/**
 * The three filters that turn a store notification into a registry event.
 * Each one is total: a notification it does not recognise yields no event.
 */
module Events {
  import opened Wrappers
  import opened Entities
  import opened Paths
  import opened Codec
  import opened Keys

  /** A store notification: what happened (`set`, `delete`, `expire`, ...), to which key, with which value. */
  datatype Response = Response(action: string, key: string, value: string)

  /** What an event is about: the decoded job itself, or only the job's name. */
  datatype Subject = OfJob(job: Job) | OfName(name: string)

  /** A registry event: its kind, what it is about, and the machine it concerns, if any. */
  datatype Event = Event(kind: string, payload: Subject, context: Option<Machine>)

  /** `filterEventJobCreated`: a set of a key whose last element is `object` and whose value decodes as a job. */
  function FilterJobCreated(resp: Response): (r: Option<Event>)
    ensures r.Some? <==> resp.action == "set" && Base(resp.key) == "object" && DecodeJob(resp.value).Some?
    ensures r.Some? ==> r.value.kind == "EventJobCreated" && r.value.context == None
    ensures r.Some? ==> r.value.payload.OfJob? && DecodeJob(resp.value) == Some(r.value.payload.job)
  {
    if resp.action != "set" then None
    else if Base(resp.key) != "object" then None
    else
      match DecodeJob(resp.value)
      case None => None
      case Some(j) => Some(Event("EventJobCreated", OfJob(j), None))
  }

  /**
   * `filterEventJobScheduled`: a set of a key whose file part is `target`;
   * the job is named by the directory above it, the machine by the value.
   */
  function FilterJobScheduled(resp: Response): (r: Option<Event>)
    ensures r.Some? <==> resp.action == "set" && Split(resp.key).1 == "target"
    ensures r.Some? ==> r.value.kind == "EventJobScheduled" && r.value.payload.OfName?
    ensures r.Some? ==> r.value.context == Some(Machine(resp.value))
  {
    if resp.action != "set" then None
    else
      var (dir, baseName) := Split(resp.key);
      if baseName != "target" then None
      else Some(Event("EventJobScheduled", OfName(Base(TrimSlash(dir))), Some(Machine(resp.value))))
  }

  /**
   * `filterEventJobStopped`: a delete or an expiry of a key whose file part is
   * `target`; the job is named by the file part of the directory above it.
   */
  function FilterJobStopped(resp: Response): (r: Option<Event>)
    ensures r.Some? <==> (resp.action == "delete" || resp.action == "expire") && Split(resp.key).1 == "target"
    ensures r.Some? ==> r.value.kind == "EventJobStopped" && r.value.payload.OfName? && r.value.context == None
  {
    if resp.action != "delete" && resp.action != "expire" then None
    else
      var (dir, baseName) := Split(resp.key);
      if baseName != "target" then None
      else
        var (_, jobName) := Split(TrimSlash(dir));
        Some(Event("EventJobStopped", OfName(jobName), None))
  }

  /** Splitting `<dir>/<n>/target` yields the file part `target` below the directory `<dir>/<n>/`. */
  lemma SplitTarget(dir: string, n: string)
    requires n != [] && '/' !in n
    ensures Split(dir + "/" + n + "/target") == (dir + "/" + n + "/", "target")
    ensures TrimSlash(dir + "/" + n + "/") == dir + "/" + n
  {
    BaseOfChild(dir + "/" + n, "target");
    assert dir + "/" + n + "/target" == (dir + "/" + n) + "/" + "target";
    var d := dir + "/" + n + "/";
    assert d[..|d| - 1] == dir + "/" + n;
  }

  /** A set of `<dir>/<n>/target` is reported as job `n` scheduled to the machine the value names. */
  lemma ScheduledName(dir: string, n: string, value: string)
    requires n != [] && '/' !in n
    ensures FilterJobScheduled(Response("set", dir + "/" + n + "/target", value))
      == Some(Event("EventJobScheduled", OfName(n), Some(Machine(value))))
  {
    SplitTarget(dir, n);
    BaseOfChild(dir, n);
  }

  /** A delete or an expiry of `<dir>/<n>/target` is reported as job `n` stopped. */
  lemma StoppedName(dir: string, n: string, action: string, value: string)
    requires n != [] && '/' !in n
    requires action == "delete" || action == "expire"
    ensures FilterJobStopped(Response(action, dir + "/" + n + "/target", value))
      == Some(Event("EventJobStopped", OfName(n), None))
  {
    SplitTarget(dir, n);
    BaseOfChild(dir, n);
  }

  /** The set that `CreateJob(j)` performs is reported as the creation of exactly `j`. */
  lemma CreatedFromCreateJob(prefix: string, j: Job)
    ensures FilterJobCreated(Response("set", JobObjectKey(prefix, j.name), EncodeJob(j)))
      == Some(Event("EventJobCreated", OfJob(j), None))
  {
    var dir := JobsRoot(prefix) + Segment(j.name);
    BaseOfChild(dir, "object");
    assert JobObjectKey(prefix, j.name) == dir + "/" + "object";
    JobRoundTrip(j);
  }

  /** The set that `ScheduleJob(n, m)` performs is reported as `n` scheduled to `m`. */
  lemma ScheduledFromScheduleJob(prefix: string, n: string, m: string)
    requires ValidName(n)
    ensures FilterJobScheduled(Response("set", JobTargetKey(prefix, n), m))
      == Some(Event("EventJobScheduled", OfName(n), Some(Machine(m))))
  {
    KeyShapes(prefix, n);
    ScheduledName(JobsRoot(prefix), n, m);
  }

  /** The delete that `StopJob(n)` performs, or the expiry of the same key, is reported as `n` stopped. */
  lemma StoppedFromStopJob(prefix: string, n: string, action: string, value: string)
    requires ValidName(n)
    requires action == "delete" || action == "expire"
    ensures FilterJobStopped(Response(action, JobTargetKey(prefix, n), value))
      == Some(Event("EventJobStopped", OfName(n), None))
  {
    KeyShapes(prefix, n);
    StoppedName(JobsRoot(prefix), n, action, value);
  }

  /** A set whose key ends in `target` is never taken for a creation. */
  lemma CreatedExcludesScheduled(resp: Response)
    ensures !(FilterJobCreated(resp).Some? && FilterJobScheduled(resp).Some?)
  {
    if Split(resp.key).1 == "target" {
      BaseMatchesSplit(resp.key);
      assert Base(resp.key) != "object" by {
        assert "target"[0] != "object"[0];
      }
    }
  }

  /** A creation is a set, a stop is a delete or an expiry. */
  lemma CreatedExcludesStopped(resp: Response)
    ensures !(FilterJobCreated(resp).Some? && FilterJobStopped(resp).Some?)
  {
    assert "set"[0] != "delete"[0] && "set"[0] != "expire"[0];
  }

  /** A schedule is a set, a stop is a delete or an expiry. */
  lemma ScheduledExcludesStopped(resp: Response)
    ensures !(FilterJobScheduled(resp).Some? && FilterJobStopped(resp).Some?)
  {
    assert "set"[0] != "delete"[0] && "set"[0] != "expire"[0];
  }
}
