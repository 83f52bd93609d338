/**
 * The job registry: reads, writes and listings of jobs, payloads and targets
 * over the coordination store. The read operations are functions of the
 * store's contents; the writes and the listing loops are methods of the
 * `Registry` class, whose fields are the store's contents.
 */
module JobRegistry {
  import opened Wrappers
  import opened Entities
  import opened Codec
  import opened Paths
  import opened Keys
  import opened Store

  /**
   * `GetJob`: nil exactly when the get of the job's object key fails;
   * otherwise a job, whatever the stored value (see `GetJobDecoded`).
   */
  function GetJob(values: map<string, string>, prefix: string, name: string): (r: Option<Job>)
    ensures r.None? <==> JobObjectKey(prefix, name) !in values
  {
    match Get(values, JobObjectKey(prefix, name))
    case None => None
    case Some(v) => Some(JobOrZero(v))
  }

  /** `GetPayload`: as `GetJob`, at the payload's key. */
  function GetPayload(values: map<string, string>, prefix: string, name: string): (r: Option<JobPayload>)
    ensures r.None? <==> PayloadKey(prefix, name) !in values
  {
    match Get(values, PayloadKey(prefix, name))
    case None => None
    case Some(v) => Some(PayloadOrZero(v))
  }

  /** `GetJobTarget`: nil when the target key is absent, else the machine whose boot id is the stored value. */
  function GetJobTarget(values: map<string, string>, prefix: string, name: string): (r: Option<Machine>)
    ensures r.None? <==> JobTargetKey(prefix, name) !in values
    ensures r.Some? ==> r.value.bootId == values[JobTargetKey(prefix, name)]
  {
    match Get(values, JobTargetKey(prefix, name))
    case None => None
    case Some(v) => Some(Machine(v))
  }

  /**
   * The job `GetJob` returns for a stored value: the decoded job when the
   * value decodes, and the zero job, not nil, when it does not.
   */
  lemma GetJobDecoded(values: map<string, string>, prefix: string, name: string)
    requires JobObjectKey(prefix, name) in values
    ensures DecodeJob(values[JobObjectKey(prefix, name)]).Some? ==>
      GetJob(values, prefix, name) == DecodeJob(values[JobObjectKey(prefix, name)])
    ensures DecodeJob(values[JobObjectKey(prefix, name)]).None? ==> GetJob(values, prefix, name) == Some(ZeroJob)
  {
  }

  /** As `GetJobDecoded`, for payloads. */
  lemma GetPayloadDecoded(values: map<string, string>, prefix: string, name: string)
    requires PayloadKey(prefix, name) in values
    ensures DecodePayload(values[PayloadKey(prefix, name)]).Some? ==>
      GetPayload(values, prefix, name) == DecodePayload(values[PayloadKey(prefix, name)])
    ensures DecodePayload(values[PayloadKey(prefix, name)]).None? ==> GetPayload(values, prefix, name) == Some(ZeroPayload)
  {
  }

  /** What `GetAllJobs` looks up for each child node: `GetJob` of the node's base name. */
  function JobLookups(values: map<string, string>, prefix: string, nodes: seq<Node>): seq<Option<Job>>
  {
    seq(|nodes|, i requires 0 <= i < |nodes| => GetJob(values, prefix, Base(nodes[i].key)))
  }

  /** What `GetAllJobs` returns: nothing when the job directory cannot be listed. */
  function AllJobs(values: map<string, string>, keys: seq<string>, prefix: string): seq<Job>
  {
    match List(values, keys, JobsRoot(prefix))
    case None => []
    case Some(nodes) => Somes(JobLookups(values, prefix, nodes))
  }

  /** What `GetAllPayloads` collects from `nodes`: each node's value unmarshalled with the error ignored, in order. */
  function PayloadsFrom(nodes: seq<Node>): seq<JobPayload>
  {
    seq(|nodes|, i requires 0 <= i < |nodes| => PayloadOrZero(nodes[i].value))
  }

  /** What `GetAllPayloads` returns: nothing when the payload directory cannot be listed. */
  function AllPayloads(values: map<string, string>, keys: seq<string>, prefix: string): seq<JobPayload>
  {
    match List(values, keys, PayloadsRoot(prefix))
    case None => []
    case Some(nodes) => PayloadsFrom(nodes)
  }

  /** A job is scheduled to machine `m` when its target exists and carries `m`'s boot id. */
  predicate TargetedAt(values: map<string, string>, prefix: string, j: Job, m: Machine)
  {
    match GetJobTarget(values, prefix, j.name)
    case Some(t) => t.bootId == m.bootId
    case None => false
  }

  /** The order-preserving subsequence of `jobs` scheduled to `m`. */
  function FilterTargeted(values: map<string, string>, prefix: string, jobs: seq<Job>, m: Machine): (r: seq<Job>)
    ensures |r| <= |jobs|
    ensures forall j :: j in r ==> j in jobs
    decreases |jobs|
  {
    if jobs == [] then []
    else
      var init := jobs[..|jobs| - 1];
      var last := jobs[|jobs| - 1];
      assert jobs == init + [last];
      FilterTargeted(values, prefix, init, m) + (if TargetedAt(values, prefix, last, m) then [last] else [])
  }

  /** A job is kept by the filter exactly when it is listed and scheduled to `m`. */
  lemma {:induction false} FilterTargetedMembers(values: map<string, string>, prefix: string, jobs: seq<Job>, m: Machine, j: Job)
    ensures j in FilterTargeted(values, prefix, jobs, m) <==> j in jobs && TargetedAt(values, prefix, j, m)
    decreases |jobs|
  {
    if jobs != [] {
      var init := jobs[..|jobs| - 1];
      assert jobs == init + [jobs[|jobs| - 1]];
      FilterTargetedMembers(values, prefix, init, m, j);
    }
  }

  /** Filtering a list extended by one job extends the filtered list by that job exactly when it is targeted at `m`. */
  lemma FilterTargetedSnoc(values: map<string, string>, prefix: string, jobs: seq<Job>, j: Job, m: Machine)
    ensures FilterTargeted(values, prefix, jobs + [j], m) ==
      FilterTargeted(values, prefix, jobs, m) + (if TargetedAt(values, prefix, j, m) then [j] else [])
  {
    assert (jobs + [j])[..|jobs|] == jobs;
  }

  /** Looking up one more node extends the collected jobs by that node's job, if it has one. */
  lemma SomesSnoc<T(!new)>(xs: seq<Option<T>>, i: nat)
    requires i < |xs|
    ensures Somes(xs[..i + 1]) == Somes(xs[..i]) + match xs[i] case Some(x) => [x] case None => []
  {
    assert xs[..i + 1][..i] == xs[..i];
  }

  /** Collecting one more lookup and filtering extends the filtered jobs by that lookup's job, when it is scheduled to `m`. */
  lemma FilterSomesSnoc(values: map<string, string>, prefix: string, found: seq<Option<Job>>, i: nat, m: Machine)
    requires i < |found|
    ensures FilterTargeted(values, prefix, Somes(found[..i + 1]), m) ==
      FilterTargeted(values, prefix, Somes(found[..i]), m) +
        match found[i] case Some(j) => (if TargetedAt(values, prefix, j, m) then [j] else []) case None => []
  {
    var prev := Somes(found[..i]);
    SomesSnoc(found, i);
    match found[i]
    case None =>
      assert Somes(found[..i + 1]) == prev;
    case Some(j) =>
      assert Somes(found[..i + 1]) == prev + [j];
      FilterTargetedSnoc(values, prefix, prev, j, m);
  }

  /** A job object stored under a valid name puts that name among the children of the job directory. */
  lemma ListedJobNode(values: map<string, string>, keys: seq<string>, prefix: string, n: string) returns (i: nat)
    requires Wellformed(values, keys)
    requires ValidName(n)
    requires JobObjectKey(prefix, n) in values
    ensures List(values, keys, JobsRoot(prefix)).Some?
    ensures i < |List(values, keys, JobsRoot(prefix)).value|
    ensures Base(List(values, keys, JobsRoot(prefix)).value[i].key) == n
  {
    var root := JobsRoot(prefix);
    var key := JobObjectKey(prefix, n);
    assert key == root + "/" + n + "/object";
    ChildOfKey(root, n, "/object");
    i := ListedChild(values, keys, root, key, n);
    ListedNames(values, keys, root);
  }

  /**
   * Whatever `GetJob` finds under a valid name is among the listed jobs: the
   * job as written, or the zero job when the stored value does not decode.
   */
  lemma StoredJobIsListed(values: map<string, string>, keys: seq<string>, prefix: string, n: string, j: Job)
    requires Wellformed(values, keys)
    requires ValidName(n)
    requires GetJob(values, prefix, n) == Some(j)
    ensures j in AllJobs(values, keys, prefix)
  {
    var i := ListedJobNode(values, keys, prefix, n);
    var found := JobLookups(values, prefix, List(values, keys, JobsRoot(prefix)).value);
    assert found[i] == Some(j);
  }

  /** A job object that does not decode still shows up in the listing, as the zero job. */
  lemma UndecodableJobIsListed(values: map<string, string>, keys: seq<string>, prefix: string, n: string)
    requires Wellformed(values, keys)
    requires ValidName(n)
    requires JobObjectKey(prefix, n) in values
    requires DecodeJob(values[JobObjectKey(prefix, n)]).None?
    ensures ZeroJob in AllJobs(values, keys, prefix)
  {
    GetJobDecoded(values, prefix, n);
    StoredJobIsListed(values, keys, prefix, n, ZeroJob);
  }

  /** Every listed job is what `GetJob` returns for some name. */
  lemma ListedJobIsStored(values: map<string, string>, keys: seq<string>, prefix: string, j: Job)
    requires j in AllJobs(values, keys, prefix)
    ensures exists n :: GetJob(values, prefix, n) == Some(j)
  {
    var nodes := List(values, keys, JobsRoot(prefix)).value;
    var found := JobLookups(values, prefix, nodes);
    assert Some(j) in found;
    var i :| 0 <= i < |found| && found[i] == Some(j);
    assert GetJob(values, prefix, Base(nodes[i].key)) == Some(j);
  }

  /** `GetJob` of each of the given child names, in order. */
  function ChildJobs(values: map<string, string>, prefix: string, cs: seq<string>): seq<Option<Job>>
  {
    seq(|cs|, i requires 0 <= i < |cs| => GetJob(values, prefix, cs[i]))
  }

  /** The listed jobs are what `GetJob` finds for the children of the job directory, by name, in listing order. */
  lemma AllJobsOfChildren(values: map<string, string>, keys: seq<string>, prefix: string)
    ensures AllJobs(values, keys, prefix) == Somes(ChildJobs(values, prefix, Children(JobsRoot(prefix), keys)))
  {
    var root := JobsRoot(prefix);
    var cs := Children(root, keys);
    if cs != [] {
      ListedNames(values, keys, root);
      assert JobLookups(values, prefix, List(values, keys, root).value) == ChildJobs(values, prefix, cs);
    }
  }

  /** An entry that finds nothing adds nothing to what is collected. */
  lemma SomesNone<T(!new)>(xs: seq<Option<T>>)
    ensures Somes(xs + [None]) == Somes(xs)
  {
    assert (xs + [None])[..|xs|] == xs;
  }

  /**
   * A store change that no job lookup can see, and that adds at most one
   * child without a job object at the end, leaves the collected jobs as they were.
   */
  lemma InvisibleChangeKeepsJobs(values: map<string, string>, values': map<string, string>, prefix: string,
                                 cs: seq<string>, cs': seq<string>, n: string)
    requires forall x :: GetJob(values', prefix, x) == GetJob(values, prefix, x)
    requires cs' == cs || (cs' == cs + [n] && JobObjectKey(prefix, n) !in values)
    ensures Somes(ChildJobs(values', prefix, cs')) == Somes(ChildJobs(values, prefix, cs))
  {
    assert ChildJobs(values', prefix, cs) == ChildJobs(values, prefix, cs);
    if cs' != cs {
      assert ChildJobs(values', prefix, cs') == ChildJobs(values', prefix, cs) + [None];
      SomesNone(ChildJobs(values', prefix, cs));
    }
  }

  /** A target write under a valid name adds no child to the job directory, or only that name's, which has no object. */
  lemma TargetWriteChildren(values: map<string, string>, keys: seq<string>, prefix: string, n: string)
    requires Wellformed(values, keys)
    requires ValidName(n)
    ensures var k, root := JobTargetKey(prefix, n), JobsRoot(prefix);
      var cs, cs' := Children(root, keys), Children(root, if k in values then keys else keys + [k]);
      cs' == cs || (cs' == cs + [n] && JobObjectKey(prefix, n) !in values)
  {
    var k, root := JobTargetKey(prefix, n), JobsRoot(prefix);
    KeyShapes(prefix, n);
    if k !in values {
      ChildOfKey(root, n, "/target");
      ChildrenSnoc(root, keys, k);
      if JobObjectKey(prefix, n) in values {
        ChildOfKey(root, n, "/object");
      }
    }
  }

  /** No job lookup sees a target write. */
  lemma TargetWriteInvisible(values: map<string, string>, prefix: string, n: string, m: string)
    ensures forall x :: GetJob(values[JobTargetKey(prefix, n) := m], prefix, x) == GetJob(values, prefix, x)
  {
    forall x ensures GetJob(values[JobTargetKey(prefix, n) := m], prefix, x) == GetJob(values, prefix, x) {
      KeysDisjoint(prefix, x, n);
    }
  }

  /**
   * Scheduling a job under a valid name does not change which jobs are
   * listed, nor their order: a target key adds no child but its job's, and
   * a child with no object contributes no job.
   */
  lemma TargetWriteKeepsJobs(values: map<string, string>, keys: seq<string>, prefix: string, n: string, m: string)
    requires Wellformed(values, keys)
    requires ValidName(n)
    ensures var k := JobTargetKey(prefix, n);
      AllJobs(values[k := m], if k in values then keys else keys + [k], prefix) == AllJobs(values, keys, prefix)
  {
    var k := JobTargetKey(prefix, n);
    var values', keys' := values[k := m], if k in values then keys else keys + [k];
    var root := JobsRoot(prefix);
    TargetWriteChildren(values, keys, prefix, n);
    TargetWriteInvisible(values, prefix, n, m);
    AllJobsOfChildren(values, keys, prefix);
    AllJobsOfChildren(values', keys', prefix);
    InvisibleChangeKeepsJobs(values, values', prefix, Children(root, keys), Children(root, keys'), n);
  }

  /** An empty job directory lists no jobs, and an empty payload directory no payloads. */
  lemma EmptyListings(values: map<string, string>, keys: seq<string>, prefix: string)
    ensures Children(JobsRoot(prefix), keys) == [] ==> AllJobs(values, keys, prefix) == []
    ensures Children(PayloadsRoot(prefix), keys) == [] ==> AllPayloads(values, keys, prefix) == []
  {
  }

  /** No child of the payload directory is skipped: the i-th payload is the i-th child's value, unmarshalled. */
  lemma PayloadsOnePerChild(values: map<string, string>, keys: seq<string>, prefix: string)
    ensures |AllPayloads(values, keys, prefix)| == |Children(PayloadsRoot(prefix), keys)|
    ensures forall i :: 0 <= i < |AllPayloads(values, keys, prefix)| ==>
      AllPayloads(values, keys, prefix)[i] ==
        PayloadOrZero(LeafValue(values, PayloadsRoot(prefix) + "/" + Children(PayloadsRoot(prefix), keys)[i]))
  {
  }

  /**
   * Whatever `GetPayload` finds under a valid name is among the listed
   * payloads: the payload as written, or the zero payload when the stored
   * value does not decode.
   */
  lemma StoredPayloadIsListed(values: map<string, string>, keys: seq<string>, prefix: string, n: string, p: JobPayload)
    requires Wellformed(values, keys)
    requires ValidName(n)
    requires GetPayload(values, prefix, n) == Some(p)
    ensures p in AllPayloads(values, keys, prefix)
  {
    var root := PayloadsRoot(prefix);
    var key := PayloadKey(prefix, n);
    assert key == root + "/" + n;
    ChildOfKey(root, n, "");
    var i := ListedChild(values, keys, root, key, n);
    var nodes := List(values, keys, root).value;
    assert nodes[i].value == values[key];
    assert PayloadsFrom(nodes)[i] == p;
  }

  /**
   * A single stored job object whose key lies in a child of the job directory
   * under which `GetJob` finds nothing is not listed at all.
   */
  lemma UnlistedJob(values: map<string, string>, keys: seq<string>, prefix: string, child: string)
    requires |keys| == 1 && ChildOf(JobsRoot(prefix), keys[0]) == Some(child)
    requires JobObjectKey(prefix, child) !in values
    ensures AllJobs(values, keys, prefix) == []
  {
    var root := JobsRoot(prefix);
    assert keys == [] + [keys[0]];
    assert Children(root, keys) == [child];
    assert ChildJobs(values, prefix, [child]) == [None];
    AllJobsOfChildren(values, keys, prefix);
  }

  /** The key of a job named `a/b` lies in the child `a`, whose own object key is another one. */
  lemma SlashNamedKey(prefix: string)
    ensures ChildOf(JobsRoot(prefix), JobObjectKey(prefix, "a/b")) == Some("a")
    ensures JobObjectKey(prefix, "a") != JobObjectKey(prefix, "a/b")
  {
    var root, key := JobsRoot(prefix), JobObjectKey(prefix, "a/b");
    KeyShapes(prefix, "a/b");
    assert key == root + "/" + "a" + "/b/object";
    ChildOfKey(root, "a", "/b/object");
    KeyShapes(prefix, "a");
    assert |JobObjectKey(prefix, "a")| < |key|;
  }

  /** The key of a job with the empty name is the child `object` itself, whose own object key is another one. */
  lemma EmptyNamedKey(prefix: string)
    ensures ChildOf(JobsRoot(prefix), JobObjectKey(prefix, "")) == Some("object")
    ensures JobObjectKey(prefix, "object") != JobObjectKey(prefix, "")
  {
    var root, key := JobsRoot(prefix), JobObjectKey(prefix, "");
    assert Segment("") == [];
    assert key == root + "/" + "object";
    ChildOfKey(root, "object", "");
    KeyShapes(prefix, "object");
    assert |JobObjectKey(prefix, "object")| > |key|;
  }

  /**
   * A job whose name holds a slash is stored, but `GetAllJobs` does not list
   * it: its key lies in the child `a` of the job directory, and `GetJob("a")`
   * finds nothing.
   */
  lemma SlashNamedJobNotListed(prefix: string, j: Job)
    requires j.name == "a/b"
    ensures GetJob(map[JobObjectKey(prefix, j.name) := EncodeJob(j)], prefix, j.name) == Some(j)
    ensures AllJobs(map[JobObjectKey(prefix, j.name) := EncodeJob(j)], [JobObjectKey(prefix, j.name)], prefix) == []
  {
    SlashNamedKey(prefix);
    var key := JobObjectKey(prefix, j.name);
    UnlistedJob(map[key := EncodeJob(j)], [key], prefix, "a");
    JobRoundTrip(j);
  }

  /**
   * A job with the empty name is stored at `<prefix>/job/object`, listed as the
   * child `object`, and `GetJob("object")` finds nothing there.
   */
  lemma EmptyNamedJobNotListed(prefix: string, j: Job)
    requires j.name == ""
    ensures GetJob(map[JobObjectKey(prefix, j.name) := EncodeJob(j)], prefix, j.name) == Some(j)
    ensures AllJobs(map[JobObjectKey(prefix, j.name) := EncodeJob(j)], [JobObjectKey(prefix, j.name)], prefix) == []
  {
    EmptyNamedKey(prefix);
    var key := JobObjectKey(prefix, j.name);
    UnlistedJob(map[key := EncodeJob(j)], [key], prefix, "object");
    JobRoundTrip(j);
  }

  /** For valid names, a delete below one job's target removes no job object and no other job's target. */
  lemma TargetTreeIsolated(prefix: string, name: string, other: string)
    requires ValidName(name) && ValidName(other)
    ensures !Doomed(JobTargetKey(prefix, name), true, JobObjectKey(prefix, other))
    ensures other != name ==> !Doomed(JobTargetKey(prefix, name), true, JobTargetKey(prefix, other))
  {
    KeysDisjoint(prefix, other, name);
    var t := JobTargetKey(prefix, name);
    var at := |JobsRoot(prefix)| + 1 + |name|;
    assert (t + "/")[at] == '/';
    forall k | k == JobObjectKey(prefix, other) || k == JobTargetKey(prefix, other)
      ensures !Under(t, k)
    {
      if |t| + 1 <= |k| {
        assert k[at] == other[|name|] && other[|name|] in other;
        assert k[..|t| + 1][at] != (t + "/")[at];
      }
    }
    KeysInjective(prefix, name, other);
  }

  /** No delete below a job's target touches a payload key. */
  lemma TargetTreeAvoidsPayloads(prefix: string, name: string, q: string)
    ensures !Doomed(JobTargetKey(prefix, name), true, PayloadKey(prefix, q))
  {
    var t, k := JobTargetKey(prefix, name), PayloadKey(prefix, q);
    KeysDisjoint(prefix, q, name);
    assert (t + "/")[|prefix| + 1] == 'j' && k[|prefix| + 1] == 'p';
    assert k[..|prefix| + 2] != (t + "/")[..|prefix| + 2];
  }

  /**
   * The registry of one process: the key prefix it works under and the
   * contents of the store, a map from leaf keys to values with the order in
   * which the store lists its keys.
   */
  class Registry {
    const prefix: string
    var values: map<string, string>
    var keys: seq<string>

    ghost predicate Valid()
      reads this
    {
      CleanPrefix(prefix) && Wellformed(values, keys)
    }

    constructor (prefix: string)
      requires CleanPrefix(prefix)
      ensures Valid() && this.prefix == prefix
      ensures values == map[] && keys == []
      ensures forall n :: GetJobTarget(values, prefix, n) == None
    {
      this.prefix := prefix;
      values := map[];
      keys := [];
    }

    /** The store's set: `value` is stored at `key`; a new key is listed after every existing one. */
    method StoreSet(key: string, value: string)
      requires Valid()
      modifies this
      ensures Valid()
      ensures values == old(values)[key := value]
      ensures keys == if key in old(values) then old(keys) else old(keys) + [key]
    {
      if key !in values {
        keys := keys + [key];
      }
      values := values[key := value];
    }

    /** The store's delete: removes `key`, and with `recursive` everything below it too. */
    method StoreDelete(key: string, recursive: bool)
      requires Valid()
      modifies this
      ensures Valid()
      ensures values == map k | k in old(values) && !Doomed(key, recursive, k) :: old(values)[k]
      ensures keys == Without(old(keys), key, recursive)
    {
      values := map k | k in values && !Doomed(key, recursive, k) :: values[k];
      keys := Without(keys, key, recursive);
    }

    /** `CreateJob`: writes the encoded job at its object key; the job reads back as written. */
    method CreateJob(j: Job)
      requires Valid()
      modifies this
      ensures Valid()
      ensures values == old(values)[JobObjectKey(prefix, j.name) := EncodeJob(j)]
      ensures keys == if JobObjectKey(prefix, j.name) in old(values) then old(keys) else old(keys) + [JobObjectKey(prefix, j.name)]
      ensures GetJob(values, prefix, j.name) == Some(j)
      ensures forall n :: n != j.name ==> GetJob(values, prefix, n) == GetJob(old(values), prefix, n)
      ensures forall n :: GetJobTarget(values, prefix, n) == GetJobTarget(old(values), prefix, n)
      ensures forall q :: GetPayload(values, prefix, q) == GetPayload(old(values), prefix, q)
    {
      var key := JobObjectKey(prefix, j.name);
      var json := EncodeJob(j);
      StoreSet(key, json);
      JobRoundTrip(j);
      forall n ensures n != j.name ==> GetJob(values, prefix, n) == GetJob(old(values), prefix, n) {
        KeysInjective(prefix, j.name, n);
      }
      forall n ensures GetJobTarget(values, prefix, n) == GetJobTarget(old(values), prefix, n) {
        KeysDisjoint(prefix, j.name, n);
      }
      forall q ensures GetPayload(values, prefix, q) == GetPayload(old(values), prefix, q) {
        KeysDisjoint(prefix, q, j.name);
      }
    }

    /** `CreatePayload`: writes the encoded payload at its key; the payload reads back as written. */
    method CreatePayload(jp: JobPayload)
      requires Valid()
      modifies this
      ensures Valid()
      ensures values == old(values)[PayloadKey(prefix, jp.name) := EncodePayload(jp)]
      ensures keys == if PayloadKey(prefix, jp.name) in old(values) then old(keys) else old(keys) + [PayloadKey(prefix, jp.name)]
      ensures GetPayload(values, prefix, jp.name) == Some(jp)
      ensures forall q :: q != jp.name ==> GetPayload(values, prefix, q) == GetPayload(old(values), prefix, q)
      ensures forall n :: GetJob(values, prefix, n) == GetJob(old(values), prefix, n)
      ensures forall n :: GetJobTarget(values, prefix, n) == GetJobTarget(old(values), prefix, n)
    {
      var key := PayloadKey(prefix, jp.name);
      var json := EncodePayload(jp);
      StoreSet(key, json);
      PayloadRoundTrip(jp);
      forall q ensures q != jp.name ==> GetPayload(values, prefix, q) == GetPayload(old(values), prefix, q) {
        KeysInjective(prefix, jp.name, q);
      }
      forall n ensures GetJob(values, prefix, n) == GetJob(old(values), prefix, n)
        && GetJobTarget(values, prefix, n) == GetJobTarget(old(values), prefix, n)
      {
        KeysDisjoint(prefix, jp.name, n);
      }
    }

    /** `DestroyPayload`: a non-recursive delete of the payload's key; the payload then reads as nil. */
    method DestroyPayload(payloadName: string)
      requires Valid()
      modifies this
      ensures Valid()
      ensures values == old(values) - {PayloadKey(prefix, payloadName)}
      ensures keys == Without(old(keys), PayloadKey(prefix, payloadName), false)
      ensures GetPayload(values, prefix, payloadName) == None
      ensures forall q :: q != payloadName ==> GetPayload(values, prefix, q) == GetPayload(old(values), prefix, q)
      ensures forall n :: GetJob(values, prefix, n) == GetJob(old(values), prefix, n)
      ensures forall n :: GetJobTarget(values, prefix, n) == GetJobTarget(old(values), prefix, n)
    {
      var key := PayloadKey(prefix, payloadName);
      StoreDelete(key, false);
      assert values == old(values) - {key};
      forall q ensures q != payloadName ==> GetPayload(values, prefix, q) == GetPayload(old(values), prefix, q) {
        KeysInjective(prefix, payloadName, q);
      }
      forall n ensures GetJob(values, prefix, n) == GetJob(old(values), prefix, n)
        && GetJobTarget(values, prefix, n) == GetJobTarget(old(values), prefix, n)
      {
        KeysDisjoint(prefix, payloadName, n);
      }
    }

    /** `ScheduleJob`: stores the machine name, unencoded, at the job's target key. */
    method ScheduleJob(jobName: string, machName: string)
      requires Valid()
      modifies this
      ensures Valid()
      ensures values == old(values)[JobTargetKey(prefix, jobName) := machName]
      ensures keys == if JobTargetKey(prefix, jobName) in old(values) then old(keys) else old(keys) + [JobTargetKey(prefix, jobName)]
      ensures GetJobTarget(values, prefix, jobName) == Some(Machine(machName))
      ensures forall n :: n != jobName ==> GetJobTarget(values, prefix, n) == GetJobTarget(old(values), prefix, n)
      ensures forall n :: GetJob(values, prefix, n) == GetJob(old(values), prefix, n)
      ensures forall q :: GetPayload(values, prefix, q) == GetPayload(old(values), prefix, q)
      ensures ValidName(jobName) ==> AllJobs(values, keys, prefix) == AllJobs(old(values), old(keys), prefix)
    {
      var key := JobTargetKey(prefix, jobName);
      if ValidName(jobName) {
        TargetWriteKeepsJobs(values, keys, prefix, jobName, machName);
      }
      StoreSet(key, machName);
      forall n ensures (n != jobName ==> GetJobTarget(values, prefix, n) == GetJobTarget(old(values), prefix, n))
        && GetJob(values, prefix, n) == GetJob(old(values), prefix, n)
      {
        KeysInjective(prefix, jobName, n);
        KeysDisjoint(prefix, n, jobName);
      }
      forall q ensures GetPayload(values, prefix, q) == GetPayload(old(values), prefix, q) {
        KeysDisjoint(prefix, q, jobName);
      }
    }

    /**
     * `StopJob`: a recursive delete of the job's target key. The target then
     * reads as nil; for valid names no job object and no other job's target
     * changes, and no payload changes at all.
     */
    method StopJob(jobName: string)
      requires Valid()
      modifies this
      ensures Valid()
      ensures values == map k | k in old(values) && !Doomed(JobTargetKey(prefix, jobName), true, k) :: old(values)[k]
      ensures keys == Without(old(keys), JobTargetKey(prefix, jobName), true)
      ensures GetJobTarget(values, prefix, jobName) == None
      ensures forall q :: GetPayload(values, prefix, q) == GetPayload(old(values), prefix, q)
      ensures ValidName(jobName) ==>
        forall n :: ValidName(n) ==> GetJob(values, prefix, n) == GetJob(old(values), prefix, n)
      ensures ValidName(jobName) ==>
        forall n :: ValidName(n) && n != jobName ==> GetJobTarget(values, prefix, n) == GetJobTarget(old(values), prefix, n)
    {
      var key := JobTargetKey(prefix, jobName);
      StoreDelete(key, true);
      forall q ensures GetPayload(values, prefix, q) == GetPayload(old(values), prefix, q) {
        TargetTreeAvoidsPayloads(prefix, jobName, q);
      }
      if ValidName(jobName) {
        forall n | ValidName(n)
          ensures GetJob(values, prefix, n) == GetJob(old(values), prefix, n)
          ensures n != jobName ==> GetJobTarget(values, prefix, n) == GetJobTarget(old(values), prefix, n)
        {
          TargetTreeIsolated(prefix, jobName, n);
          KeysDisjoint(prefix, n, jobName);
        }
      }
    }

    /** `GetAllPayloads`: one payload per child of the payload directory, in listing order. */
    method GetAllPayloads() returns (payloads: seq<JobPayload>)
      ensures payloads == AllPayloads(values, keys, prefix)
    {
      payloads := [];
      var resp := List(values, keys, PayloadsRoot(prefix));
      if resp.None? {
        return;
      }
      var nodes := resp.value;
      var i := 0;
      while i < |nodes|
        invariant 0 <= i <= |nodes|
        invariant payloads == PayloadsFrom(nodes)[..i]
      {
        var jp := PayloadOrZero(nodes[i].value);
        assert PayloadsFrom(nodes)[..i + 1] == PayloadsFrom(nodes)[..i] + [jp];
        payloads := payloads + [jp];
        i := i + 1;
      }
    }

    /** `GetAllJobs`: for each child of the job directory, in listing order, its job where `GetJob` finds one. */
    method GetAllJobs() returns (jobs: seq<Job>)
      ensures jobs == AllJobs(values, keys, prefix)
    {
      jobs := [];
      var resp := List(values, keys, JobsRoot(prefix));
      if resp.None? {
        return;
      }
      var nodes := resp.value;
      ghost var found := JobLookups(values, prefix, nodes);
      var i := 0;
      while i < |nodes|
        invariant 0 <= i <= |nodes|
        invariant jobs == Somes(found[..i])
      {
        var j := GetJob(values, prefix, Base(nodes[i].key));
        SomesSnoc(found, i);
        if j.Some? {
          jobs := jobs + [j.value];
        }
        i := i + 1;
      }
      assert found[..i] == found;
    }

    /** `GetAllJobsByMachine`: the jobs `GetAllJobs` lists, in order, keeping those scheduled to `machine`. */
    method GetAllJobsByMachine(machine: Machine) returns (jobs: seq<Job>)
      ensures jobs == FilterTargeted(values, prefix, AllJobs(values, keys, prefix), machine)
    {
      jobs := [];
      var resp := List(values, keys, JobsRoot(prefix));
      if resp.None? {
        return;
      }
      var nodes := resp.value;
      ghost var found := JobLookups(values, prefix, nodes);
      assert found[..0] == [];
      var i := 0;
      while i < |nodes|
        invariant 0 <= i <= |nodes|
        invariant jobs == FilterTargeted(values, prefix, Somes(found[..i]), machine)
      {
        var j := GetJob(values, prefix, Base(nodes[i].key));
        assert j == found[i];
        FilterSomesSnoc(values, prefix, found, i, machine);
        if j.Some? {
          var tgt := GetJobTarget(values, prefix, j.value.name);
          if tgt.Some? && tgt.value.bootId == machine.bootId {
            jobs := jobs + [j.value];
          }
        }
        i := i + 1;
      }
      assert found[..i] == found;
    }
  }
}
