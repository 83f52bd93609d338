/**
 * The coordination store as the registry sees it: a flat map from leaf keys
 * to values, plus the order in which the store lists keys. A directory is
 * implied by the keys below it; listing a directory yields one node per
 * child element, in the order the child first appears among the keys, with
 * the child's value when the child is itself a leaf and "" when it is a
 * directory.
 */
module Store {
  import opened Wrappers
  import opened Paths

  /** A node of a listing: its full key and its value. */
  datatype Node = Node(key: string, value: string)

  predicate Distinct(s: seq<string>)
  {
    forall i, j :: 0 <= i < j < |s| ==> s[i] != s[j]
  }

  /** The listing order holds each stored key exactly once. */
  ghost predicate Wellformed(values: map<string, string>, keys: seq<string>)
  {
    Distinct(keys) && forall k :: k in values <==> k in keys
  }

  /** A non-recursive get: the value, or None when the key is absent. */
  function Get(values: map<string, string>, key: string): (r: Option<string>)
    ensures r.None? <==> key !in values
    ensures r.Some? ==> r.value == values[key]
  {
    if key in values then Some(values[key]) else None
  }

  /** `key` lies strictly below the directory `root`. */
  predicate Under(root: string, key: string)
  {
    |root| + 1 <= |key| && key[..|root| + 1] == root + "/"
  }

  /** Whether a delete of `root` removes `key`: the key itself, and in a recursive delete everything below it. */
  predicate Doomed(root: string, recursive: bool, key: string)
  {
    key == root || (recursive && Under(root, key))
  }

  /** The listing order after a delete of `root`. */
  function Without(keys: seq<string>, root: string, recursive: bool): (r: seq<string>)
    ensures forall k :: k in r <==> k in keys && !Doomed(root, recursive, k)
    ensures Distinct(keys) ==> Distinct(r)
    decreases |keys|
  {
    if keys == [] then []
    else
      var init := keys[..|keys| - 1];
      var last := keys[|keys| - 1];
      assert keys == init + [last];
      var kept := Without(init, root, recursive);
      if Doomed(root, recursive, last) then kept else kept + [last]
  }

  /** The text of `s` up to its first slash. */
  function FirstSegment(s: string): (r: string)
    ensures |r| <= |s| && r == s[..|r|]
    ensures '/' !in r
    decreases |s|
  {
    if s == [] || s[0] == '/' then [] else [s[0]] + FirstSegment(s[1..])
  }

  lemma {:induction false} FirstSegmentOf(name: string, rest: string)
    requires '/' !in name
    requires rest == [] || rest[0] == '/'
    ensures FirstSegment(name + rest) == name
    decreases |name|
  {
    if name != [] {
      assert (name + rest)[1..] == name[1..] + rest;
      assert name[0] in name;
      FirstSegmentOf(name[1..], rest);
      assert [name[0]] + name[1..] == name;
    } else {
      assert name + rest == rest;
    }
  }

  /** The child of directory `dir` that `key` lies in, if it lies below `dir`. */
  function ChildOf(dir: string, key: string): (r: Option<string>)
    ensures r.Some? ==> r.value != [] && '/' !in r.value
  {
    var d := dir + "/";
    if |d| <= |key| && key[..|d|] == d then
      var seg := FirstSegment(key[|d|..]);
      if seg == [] then None else Some(seg)
    else None
  }

  /** A key built as the directory, a slash, a slash-free name and possibly more lies in that name's child. */
  lemma ChildOfKey(dir: string, name: string, rest: string)
    requires name != [] && '/' !in name
    requires rest == [] || rest[0] == '/'
    ensures ChildOf(dir, dir + "/" + name + rest) == Some(name)
    ensures rest == [] ==> ChildOf(dir, dir + "/" + name) == Some(name)
  {
    assert rest == [] ==> dir + "/" + name + rest == dir + "/" + name;
    var key := dir + "/" + name + rest;
    assert key[..|dir| + 1] == dir + "/";
    assert key[|dir| + 1..] == name + rest;
    FirstSegmentOf(name, rest);
  }

  /** The children of `dir`, each once, in order of first appearance among `keys`. */
  function Children(dir: string, keys: seq<string>): (r: seq<string>)
    ensures Distinct(r)
    ensures forall k :: k in keys && ChildOf(dir, k).Some? ==> ChildOf(dir, k).value in r
    ensures forall c :: c in r ==> exists k :: k in keys && ChildOf(dir, k) == Some(c)
    ensures forall c :: c in r ==> c != [] && '/' !in c
    decreases |keys|
  {
    if keys == [] then []
    else
      var init := keys[..|keys| - 1];
      var last := keys[|keys| - 1];
      assert keys == init + [last];
      var cs := Children(dir, init);
      match ChildOf(dir, last)
      case None => cs
      case Some(c) => if c in cs then cs else cs + [c]
  }

  /** A key appended to the listing order adds its child at the end, unless the child is already there. */
  lemma ChildrenSnoc(dir: string, keys: seq<string>, k: string)
    ensures Children(dir, keys + [k]) ==
      match ChildOf(dir, k)
      case None => Children(dir, keys)
      case Some(c) => if c in Children(dir, keys) then Children(dir, keys) else Children(dir, keys) + [c]
  {
    assert (keys + [k])[..|keys|] == keys;
  }

  /** The value a listing shows for `key`: the stored value of a leaf, and "" for a directory. */
  function LeafValue(values: map<string, string>, key: string): string
  {
    if key in values then values[key] else ""
  }

  /** The node that stands for child `name` of `dir`. */
  function ChildNode(values: map<string, string>, dir: string, name: string): Node
  {
    var key := dir + "/" + name;
    Node(key, LeafValue(values, key))
  }

  /** Each child's node key gives the child's name back under `path.Base`. */
  lemma ChildBases(dir: string, cs: seq<string>)
    requires forall c :: c in cs ==> c != [] && '/' !in c
    ensures forall i :: 0 <= i < |cs| ==> Base(dir + "/" + cs[i]) == cs[i]
  {
    forall i | 0 <= i < |cs|
      ensures Base(dir + "/" + cs[i]) == cs[i]
    {
      assert cs[i] in cs;
      BaseOfChild(dir, cs[i]);
    }
  }

  /**
   * A recursive get of directory `dir`: None (the store's "key not found")
   * when nothing lies below it, and otherwise one node per child in listing
   * order, keyed by the child's full path, whose value is the child's stored
   * value, or "" for a directory.
   */
  function List(values: map<string, string>, keys: seq<string>, dir: string): (r: Option<seq<Node>>)
    ensures r.None? <==> Children(dir, keys) == []
    ensures r.Some? ==> |r.value| == |Children(dir, keys)|
    ensures r.Some? ==> forall i :: 0 <= i < |r.value| ==> r.value[i].key == dir + "/" + Children(dir, keys)[i]
    ensures r.Some? ==> forall i :: 0 <= i < |r.value| ==> r.value[i].value == LeafValue(values, r.value[i].key)
  {
    var cs := Children(dir, keys);
    if cs == [] then None
    else Some(seq(|cs|, i requires 0 <= i < |cs| => ChildNode(values, dir, cs[i])))
  }

  /**
   * Every listed node is keyed by the directory, a slash and a non-empty,
   * slash-free child name, and `path.Base` of its key is that name.
   */
  lemma ListedNames(values: map<string, string>, keys: seq<string>, dir: string)
    requires List(values, keys, dir).Some?
    ensures forall i :: 0 <= i < |List(values, keys, dir).value| ==>
      var c := Children(dir, keys)[i];
      c != [] && '/' !in c && Base(List(values, keys, dir).value[i].key) == c
  {
    var cs := Children(dir, keys);
    ChildBases(dir, cs);
    forall i | 0 <= i < |cs| ensures cs[i] in cs {
    }
  }

  /** A child that some key lies in is listed; the returned index is where. */
  lemma ListedChild(values: map<string, string>, keys: seq<string>, dir: string, key: string, name: string)
    returns (i: nat)
    requires key in keys && ChildOf(dir, key) == Some(name)
    ensures List(values, keys, dir).Some?
    ensures i < |List(values, keys, dir).value|
    ensures List(values, keys, dir).value[i].key == dir + "/" + name
  {
    var cs := Children(dir, keys);
    assert name in cs;
    i :| 0 <= i < |cs| && cs[i] == name;
  }
}
