/**
 * The key schema: where the registry keeps each record in the store.
 *
 *   <prefix>/job/<name>/object   the encoded job
 *   <prefix>/job/<name>/target   the boot identifier of the machine it is scheduled to
 *   <prefix>/payload/<name>      the encoded payload
 *
 * The Go code builds every key with `path.Join`, which drops empty elements
 * and then cleans the result. Here a key is the plain concatenation, with an
 * empty name dropped as `path.Join` drops it; for a prefix satisfying
 * `CleanPrefix` and a name that is empty or `ValidName`, that is what
 * `path.Join` yields. For other names the two differ, and the properties
 * proved below are about the keys as built here.
 */
module Keys {

  /** A name `path.Join` inserts verbatim: one non-empty element, neither "." nor "..". */
  predicate ValidName(n: string)
  {
    n != [] && '/' !in n && n != "." && n != ".."
  }

  /**
   * A prefix in the form `path.Clean` leaves for a rooted path: empty, or
   * rooted with no empty element, no "." or ".." element and no trailing
   * slash. `path.Join` leaves such a prefix as it is.
   */
  predicate CleanPrefix(p: string)
  {
    p == [] ||
    (p[0] == '/' && p[|p| - 1] != '/' &&
     (forall i :: 0 < i < |p| && p[i] == '/' ==> p[i - 1] != '/') &&
     (forall i :: 0 <= i < |p| - 1 && p[i] == '/' && p[i + 1] == '.' ==> NotDotElement(p, i + 1)))
  }

  /** The element of `p` that starts at `j` with a dot is neither "." nor "..". */
  predicate NotDotElement(p: string, j: nat)
    requires j < |p|
  {
    j + 1 < |p| && p[j + 1] != '/' && (p[j + 1] == '.' ==> j + 2 < |p| && p[j + 2] != '/')
  }

  /** A prefix with a "." or ".." element starting at `i + 1` is not in clean form. */
  lemma DotElementNotClean(p: string, i: nat)
    requires i + 1 < |p| && p[i] == '/' && p[i + 1] == '.'
    requires i + 2 == |p| || p[i + 2] == '/' || (p[i + 2] == '.' && (i + 3 == |p| || p[i + 3] == '/'))
    ensures !CleanPrefix(p)
  {
  }

  /** Examples: "." and ".." elements are refused, names that merely start with a dot are not. */
  lemma DotPrefixesNotClean()
    ensures !CleanPrefix("/a/..") && !CleanPrefix("/a/.") && !CleanPrefix("/./b")
    ensures CleanPrefix("/a/..b") && CleanPrefix("/.a")
  {
    assert "/a/.."[2] == '/' && "/a/.."[3] == '.';
    assert "/a/."[2] == '/' && "/a/."[3] == '.';
    assert "/./b"[0] == '/' && "/./b"[1] == '.';
  }

  /** The element a name adds to a joined path: none at all when it is empty. */
  function Segment(name: string): string
  {
    if name == [] then [] else "/" + name
  }

  /** `path.Join(keyPrefix, "/job/")`, the directory listed for all jobs. */
  function JobsRoot(prefix: string): string
  {
    prefix + "/job"
  }

  /** `path.Join(keyPrefix, "/payload/")`, the directory listed for all payloads. */
  function PayloadsRoot(prefix: string): string
  {
    prefix + "/payload"
  }

  function JobObjectKey(prefix: string, name: string): string
  {
    JobsRoot(prefix) + Segment(name) + "/object"
  }

  function JobTargetKey(prefix: string, name: string): string
  {
    JobsRoot(prefix) + Segment(name) + "/target"
  }

  function PayloadKey(prefix: string, name: string): string
  {
    PayloadsRoot(prefix) + Segment(name)
  }

  /** For a non-empty name each key is the directory, a slash, the name and its suffix. */
  lemma KeyShapes(prefix: string, n: string)
    requires n != []
    ensures JobObjectKey(prefix, n) == JobsRoot(prefix) + "/" + n + "/object"
    ensures JobTargetKey(prefix, n) == JobsRoot(prefix) + "/" + n + "/target"
    ensures PayloadKey(prefix, n) == PayloadsRoot(prefix) + "/" + n
  {
    var r, seg := JobsRoot(prefix), "/" + n;
    assert Segment(n) == seg;
    assert r + seg + "/object" == r + "/" + n + "/object";
    assert r + seg + "/target" == r + "/" + n + "/target";
  }

  /** The lock name `ClaimJob` hands to the leadership primitive: `fmt.Sprintf("job-%s", name)`. */
  function ClaimName(jobName: string): string
  {
    "job-" + jobName
  }

  /** The three kinds of key never collide, whatever the names. */
  lemma KeysDisjoint(prefix: string, a: string, b: string)
    ensures JobObjectKey(prefix, a) != JobTargetKey(prefix, b)
    ensures PayloadKey(prefix, a) != JobObjectKey(prefix, b)
    ensures PayloadKey(prefix, a) != JobTargetKey(prefix, b)
  {
    var o, t := JobObjectKey(prefix, a), JobTargetKey(prefix, b);
    assert o[|o| - 2] == 'c' && t[|t| - 2] == 'e';
    var p, o' := PayloadKey(prefix, a), JobObjectKey(prefix, b);
    assert p[|prefix| + 1] == 'p' && o'[|prefix| + 1] == 'j' && t[|prefix| + 1] == 'j';
  }

  lemma SegmentInjective(a: string, b: string)
    requires Segment(a) == Segment(b)
    ensures a == b
  {
    if a != [] && b != [] {
      assert a == Segment(a)[1..] && b == Segment(b)[1..];
    }
  }

  /** Distinct names give distinct keys of each kind. */
  lemma KeysInjective(prefix: string, a: string, b: string)
    ensures JobObjectKey(prefix, a) == JobObjectKey(prefix, b) ==> a == b
    ensures JobTargetKey(prefix, a) == JobTargetKey(prefix, b) ==> a == b
    ensures PayloadKey(prefix, a) == PayloadKey(prefix, b) ==> a == b
  {
    var r := JobsRoot(prefix);
    if JobObjectKey(prefix, a) == JobObjectKey(prefix, b) {
      var k := JobObjectKey(prefix, a);
      assert |Segment(a)| == |Segment(b)|;
      assert Segment(a) == k[|r|..|r| + |Segment(a)|] == Segment(b);
      SegmentInjective(a, b);
    }
    if JobTargetKey(prefix, a) == JobTargetKey(prefix, b) {
      var k := JobTargetKey(prefix, a);
      assert |Segment(a)| == |Segment(b)|;
      assert Segment(a) == k[|r|..|r| + |Segment(a)|] == Segment(b);
      SegmentInjective(a, b);
    }
    if PayloadKey(prefix, a) == PayloadKey(prefix, b) {
      var k := PayloadKey(prefix, a);
      assert Segment(a) == k[|PayloadsRoot(prefix)|..] == Segment(b);
      SegmentInjective(a, b);
    }
  }

  lemma ClaimNameInjective(a: string, b: string)
    requires ClaimName(a) == ClaimName(b)
    ensures a == b
  {
    assert a == ClaimName(a)[4..] && b == ClaimName(b)[4..];
  }
}
