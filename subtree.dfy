/**
 * The location query of the OpenMRS location service: find the node with a
 * uuid in the list of all locations, climb to the ancestor carrying the
 * top-level tag, then list every node below it that carries one of the
 * queried tags. The list is read and never written, so each node is taken
 * as a value: its uuid, its tag set and the uuid of its parent node.
 * Results are positions in the list.
 */
module Subtree {
  import opened Wrappers

  /** The parent node of an entry: none, or a node whose uuid may be null. */
  datatype ParentLink = NoParent | ParentNode(id: Option<string>)

  /** What the query reads of one Location. */
  datatype Entry = Entry(locationId: Option<string>, tags: Option<set<string>>, parent: ParentLink)

  // ---------------------------------------------------------------------
  // Acyclic hierarchies

  /**
   * `depth` ranks the uuids so that every parent sits strictly above its
   * child and every uuid at or below `height`. This is what makes the
   * recursions of the model end. It excludes every cycle in the list,
   * including cycles the query never reaches, on which the source still
   * terminates; on a cycle it does reach, the source overflows its stack.
   */
  ghost predicate Ranked(all: seq<Entry>, depth: string -> nat, height: nat)
  {
    forall i :: 0 <= i < |all| ==> RankedEntry(all[i], depth, height)
  }

  /** One entry of a ranked hierarchy. */
  ghost predicate RankedEntry(e: Entry, depth: string -> nat, height: nat)
  {
    (e.locationId.Some? ==> depth(e.locationId.value) <= height) &&
    (e.parent.ParentNode? && e.parent.id.Some? ==>
       depth(e.parent.id.value) < if e.locationId.Some? then depth(e.locationId.value) else height)
  }

  /** What the climb to the top-level node decreases. */
  function Up(uuid: Option<string>, depth: string -> nat): nat
  {
    if uuid.Some? then depth(uuid.value) + 1 else 0
  }

  /** What the descent into children decreases. */
  function Down(parent: Option<string>, depth: string -> nat, height: nat): nat
  {
    if parent.Some? && depth(parent.value) <= height then height - depth(parent.value) + 1 else 0
  }

  // ---------------------------------------------------------------------
  // The search with break

  /**
   * The position of the first node whose uuid equals `uuid`, scanning from
   * `from`; a node with a null uuid met before it throws, and no match
   * gives None.
   */
  function FindFrom(all: seq<Entry>, uuid: Option<string>, from: nat): (r: Result<Option<nat>>)
    requires from <= |all|
    ensures r.Ok? && r.value.Some? ==>
      from <= r.value.value < |all| && all[r.value.value].locationId == uuid && uuid.Some? &&
      forall j :: from <= j < r.value.value ==> all[j].locationId.Some? && all[j].locationId != uuid
    ensures r == Ok(None) <==> forall j :: from <= j < |all| ==> all[j].locationId.Some? && all[j].locationId != uuid
    ensures r.Threw? ==> r.error == NullPointer
    decreases |all| - from
  {
    if from == |all| then Ok(None)
    else if all[from].locationId.None? then Threw(NullPointer)
    else if all[from].locationId == uuid then Ok(Some(from))
    else FindFrom(all, uuid, from + 1)
  }

  /**
   * A null uuid in front of the first match is what makes the search throw.
   */
  lemma {:induction false} FindThrows(all: seq<Entry>, uuid: Option<string>, from: nat)
    requires from <= |all|
    ensures FindFrom(all, uuid, from).Threw? <==>
      exists j :: from <= j < |all| && all[j].locationId.None? &&
        forall k :: from <= k < j ==> all[k].locationId != uuid
    decreases |all| - from
  {
    if from < |all| {
      FindThrows(all, uuid, from + 1);
      if all[from].locationId.Some? && all[from].locationId != uuid && FindFrom(all, uuid, from).Threw? {
        var j :| from + 1 <= j < |all| && all[j].locationId.None? && forall k :: from + 1 <= k < j ==> all[k].locationId != uuid;
        assert forall k :: from <= k < j ==> all[k].locationId != uuid;
      }
    }
  }

  /** The loop over all locations that stops at the first node with that uuid. */
  method FindLocation(all: seq<Entry>, uuid: Option<string>) returns (r: Result<Option<nat>>)
    ensures r == FindFrom(all, uuid, 0)
  {
    r := Ok(None);
    var i := 0;
    while i < |all|
      invariant 0 <= i <= |all|
      invariant FindFrom(all, uuid, 0) == FindFrom(all, uuid, i)
    {
      if all[i].locationId.None? {
        r := Threw(NullPointer);
        break;
      }
      if all[i].locationId == uuid {
        r := Ok(Some(i));
        break;
      }
      i := i + 1;
    }
  }

  // ---------------------------------------------------------------------
  // The descent

  /**
   * How many of the queried tags, counted with repetition, the tag set
   * holds: the inner loop adds the node once for each.
   */
  function TagHits(tags: set<string>, queried: seq<string>): (n: nat)
    ensures n <= |queried|
    ensures n == 0 <==> forall k :: 0 <= k < |queried| ==> queried[k] !in tags
  {
    if queried == [] then 0
    else TagHits(tags, queried[..|queried| - 1]) + (if queried[|queried| - 1] in tags then 1 else 0)
  }

  /** `n` copies of position `i`. */
  function Copies(i: nat, n: nat): (r: seq<nat>)
    ensures |r| == n && forall k :: 0 <= k < n ==> r[k] == i
  {
    if n == 0 then [] else Copies(i, n - 1) + [i]
  }

  /**
   * What the inner loop adds for entry `i`: a null parent uuid or null tags
   * throw inside the try and add nothing.
   */
  function Here(all: seq<Entry>, parent: Option<string>, queried: seq<string>, i: nat): seq<nat>
    requires i < |all|
  {
    var e := all[i];
    if e.parent.ParentNode? && e.parent.id.Some? && e.parent.id == parent && e.tags.Some?
    then Copies(i, TagHits(e.tags.value, queried))
    else []
  }

  /** Result<seq> concatenation: the first exception wins. */
  function Then(a: seq<nat>, b: Result<seq<nat>>): (r: Result<seq<nat>>)
    ensures r.Ok? <==> b.Ok?
  {
    if b.Threw? then b else Ok(a + b.value)
  }

  /**
   * getChildLocationsTreeByTagsAndParentLocationUUID over the entries from
   * `from` on: for each entry, in list order, the copies its tags earn,
   * then, when it is a child of `parent`, its own subtree. A child test on
   * a parent node with a null uuid is outside the try and throws.
   */
  function DescendFrom(all: seq<Entry>, parent: Option<string>, queried: seq<string>, from: nat,
                       ghost depth: string -> nat, ghost height: nat): (r: Result<seq<nat>>)
    requires from <= |all| && Ranked(all, depth, height)
    ensures r.Threw? ==> r.error == NullPointer
    decreases Down(parent, depth, height), |all| - from
  {
    if from == |all| then Ok([])
    else
      var e := all[from];
      var here := Here(all, parent, queried, from);
      if e.parent.ParentNode? && e.parent.id.None? then Threw(NullPointer)
      else if e.parent.ParentNode? && e.parent.id == parent then
        assert RankedEntry(e, depth, height);
        match DescendFrom(all, e.locationId, queried, 0, depth, height)
        case Threw(x) => Threw(x)
        case Ok(below) => Then(here + below, DescendFrom(all, parent, queried, from + 1, depth, height))
      else Then(here, DescendFrom(all, parent, queried, from + 1, depth, height))
  }

  /** Entry `j` hangs from the node with uuid `p` by the chain of children `path`, ending at `j`. */
  ghost predicate Path(all: seq<Entry>, p: string, path: seq<nat>)
  {
    |path| > 0 && (forall k :: 0 <= k < |path| ==> path[k] < |all|) &&
    all[path[0]].parent == ParentNode(Some(p)) &&
    forall k :: 0 <= k < |path| - 1 ==>
      all[path[k]].locationId.Some? && all[path[k + 1]].parent == ParentNode(all[path[k]].locationId)
  }

  /** Entry `j` is a strict descendant of the node with uuid `p`. */
  ghost predicate Below(all: seq<Entry>, p: string, j: nat)
  {
    exists path :: Path(all, p, path) && path[|path| - 1] == j
  }

  /** Entry `j` carries at least one queried tag. */
  ghost predicate Tagged(all: seq<Entry>, queried: seq<string>, j: nat)
    requires j < |all|
  {
    all[j].tags.Some? && exists k :: 0 <= k < |queried| && queried[k] in all[j].tags.value
  }

  /** A child of a descendant is a descendant. */
  lemma BelowStep(all: seq<Entry>, p: string, i: nat, j: nat)
    requires i < |all| && all[i].parent == ParentNode(Some(p)) && all[i].locationId.Some?
    requires Below(all, all[i].locationId.value, j)
    ensures Below(all, p, j)
  {
    var path :| Path(all, all[i].locationId.value, path) && path[|path| - 1] == j;
    var longer := [i] + path;
    assert forall k :: 0 <= k < |path| ==> longer[k + 1] == path[k];
    assert Path(all, p, longer);
  }

  /**
   * Every position the descent returns is a node below `parent` that
   * carries a queried tag; in particular the node itself is never listed.
   */
  lemma {:induction false} DescendSound(all: seq<Entry>, parent: Option<string>, queried: seq<string>, from: nat,
                                        depth: string -> nat, height: nat)
    requires from <= |all| && Ranked(all, depth, height)
    requires DescendFrom(all, parent, queried, from, depth, height).Ok?
    ensures forall j :: j in DescendFrom(all, parent, queried, from, depth, height).value ==>
      j < |all| && parent.Some? && Below(all, parent.value, j) && Tagged(all, queried, j)
    decreases Down(parent, depth, height), |all| - from
  {
    if from < |all| {
      var e := all[from];
      var here := Here(all, parent, queried, from);
      assert RankedEntry(e, depth, height);
      DescendSound(all, parent, queried, from + 1, depth, height);
      forall j | j in here
        ensures j < |all| && parent.Some? && Below(all, parent.value, j) && Tagged(all, queried, j)
      {
        assert j == from;
        assert Path(all, parent.value, [from]);
        var k :| 0 <= k < |queried| && queried[k] in e.tags.value;
      }
      if e.parent.ParentNode? && e.parent.id == parent && e.parent.id.Some? {
        DescendSound(all, e.locationId, queried, 0, depth, height);
        var below := DescendFrom(all, e.locationId, queried, 0, depth, height).value;
        forall j | j in below
          ensures Below(all, parent.value, j)
        {
          BelowStep(all, parent.value, from, j);
        }
      }
    }
  }

  /**
   * A direct child of `parent` contributes its position once per queried
   * tag it carries, directly in front of its own subtree.
   */
  lemma ChildCopies(all: seq<Entry>, parent: string, queried: seq<string>, from: nat, depth: string -> nat, height: nat)
    requires from < |all| && Ranked(all, depth, height)
    requires all[from].parent == ParentNode(Some(parent)) && all[from].tags.Some?
    requires DescendFrom(all, Some(parent), queried, from, depth, height).Ok?
    ensures var n := TagHits(all[from].tags.value, queried);
      var r := DescendFrom(all, Some(parent), queried, from, depth, height).value;
      var below := DescendFrom(all, all[from].locationId, queried, 0, depth, height);
      below.Ok? && |r| >= n + |below.value| &&
      r[..n] == Copies(from, n) && r[n..n + |below.value|] == below.value
  {
    var n := TagHits(all[from].tags.value, queried);
    var below := DescendFrom(all, all[from].locationId, queried, 0, depth, height).value;
    var rest := DescendFrom(all, Some(parent), queried, from + 1, depth, height).value;
    var r := Copies(from, n) + below + rest;
    assert r[..n] == Copies(from, n);
    assert r[n..n + |below|] == below;
  }

  /** Position `i` occurs `n` times in `n` copies of it, and no other position does. */
  lemma {:induction false} CopiesCount(i: nat, n: nat, x: nat)
    ensures multiset(Copies(i, n))[x] == if x == i then n else 0
  {
    if n > 0 {
      CopiesCount(i, n - 1, x);
    }
  }

  /**
   * A child of `parent` at or after `from` has its own copies and its whole
   * subtree inside the descent from `from`.
   */
  lemma {:induction false} ChildInside(all: seq<Entry>, parent: string, queried: seq<string>, from: nat, i: nat,
                                       depth: string -> nat, height: nat)
    requires from <= i < |all| && Ranked(all, depth, height)
    requires all[i].parent == ParentNode(Some(parent))
    requires DescendFrom(all, Some(parent), queried, from, depth, height).Ok?
    ensures DescendFrom(all, all[i].locationId, queried, 0, depth, height).Ok?
    ensures multiset(Here(all, Some(parent), queried, i)) +
            multiset(DescendFrom(all, all[i].locationId, queried, 0, depth, height).value)
            <= multiset(DescendFrom(all, Some(parent), queried, from, depth, height).value)
    decreases i - from
  {
    assert RankedEntry(all[from], depth, height);
    if from < i {
      ChildInside(all, parent, queried, from + 1, i, depth, height);
    }
  }

  /**
   * Completeness of the descent: a node hanging below `p` by a chain of
   * children is listed at least once per queried tag it carries.
   */
  lemma {:induction false} DescendComplete(all: seq<Entry>, p: string, queried: seq<string>, path: seq<nat>,
                                           depth: string -> nat, height: nat)
    requires Ranked(all, depth, height) && Path(all, p, path)
    requires all[path[|path| - 1]].tags.Some?
    requires DescendFrom(all, Some(p), queried, 0, depth, height).Ok?
    ensures multiset(DescendFrom(all, Some(p), queried, 0, depth, height).value)[path[|path| - 1]]
            >= TagHits(all[path[|path| - 1]].tags.value, queried)
    decreases |path|
  {
    var i, j := path[0], path[|path| - 1];
    ChildInside(all, p, queried, 0, i, depth, height);
    var below := DescendFrom(all, all[i].locationId, queried, 0, depth, height).value;
    if |path| == 1 {
      CopiesCount(i, TagHits(all[i].tags.value, queried), j);
    } else {
      var rest := path[1..];
      assert forall k :: 0 <= k < |rest| ==> rest[k] == path[k + 1];
      assert Path(all, all[i].locationId.value, rest);
      DescendComplete(all, all[i].locationId.value, queried, rest, depth, height);
    }
  }

  // ---------------------------------------------------------------------
  // Exact counts when uuids identify nodes

  /** Every node has a uuid and no two nodes share one. */
  ghost predicate DistinctIds(all: seq<Entry>)
  {
    (forall a :: 0 <= a < |all| ==> all[a].locationId.Some?) &&
    forall a, b :: 0 <= a < |all| && 0 <= b < |all| && all[a].locationId == all[b].locationId ==> a == b
  }

  /** Entry `j` hangs below the node with uuid `p` by a chain whose first child sits at or after `from`. */
  ghost predicate BelowFrom(all: seq<Entry>, p: string, j: nat, from: nat)
  {
    exists path :: Path(all, p, path) && path[|path| - 1] == j && path[0] >= from
  }

  /** Along a chain of children the ranks grow: each uuid on it ranks below `p`. */
  lemma {:induction false} PathDepth(all: seq<Entry>, p: string, path: seq<nat>, m: nat, depth: string -> nat, height: nat)
    requires Ranked(all, depth, height) && Path(all, p, path) && m < |path|
    requires all[path[m]].locationId.Some?
    ensures depth(p) < depth(all[path[m]].locationId.value)
  {
    assert RankedEntry(all[path[m]], depth, height);
    if m > 0 {
      PathDepth(all, p, path, m - 1, depth, height);
    }
  }

  /** With distinct uuids, two chains from `p` to the same node are the same chain. */
  lemma {:induction false} PathUnique(all: seq<Entry>, p: string, a: seq<nat>, b: seq<nat>, depth: string -> nat, height: nat)
    requires Ranked(all, depth, height) && DistinctIds(all)
    requires Path(all, p, a) && Path(all, p, b) && a[|a| - 1] == b[|b| - 1]
    ensures a == b
    decreases |a| + |b|
  {
    var j := a[|a| - 1];
    if |a| == 1 && |b| == 1 {
    } else if |a| == 1 || |b| == 1 {
      var (one, two) := if |a| == 1 then (a, b) else (b, a);
      assert all[two[|two| - 1]].parent == ParentNode(all[two[|two| - 2]].locationId);
      PathPrefix(all, p, two, |two| - 1);
      PathDepth(all, p, two[..|two| - 1], |two| - 2, depth, height);
      assert false;
    } else {
      var a', b' := a[..|a| - 1], b[..|b| - 1];
      assert all[j].parent == ParentNode(all[a[|a| - 2]].locationId) == ParentNode(all[b[|b| - 2]].locationId);
      PathPrefix(all, p, a, |a| - 1);
      PathPrefix(all, p, b, |b| - 1);
      PathUnique(all, p, a', b', depth, height);
      assert a == a' + [j] && b == b' + [j];
    }
  }

  /** A non-empty prefix of a chain is a chain. */
  lemma PathPrefix(all: seq<Entry>, p: string, path: seq<nat>, m: nat)
    requires Path(all, p, path) && 1 <= m <= |path|
    ensures Path(all, p, path[..m])
  {
  }

  /**
   * Below a direct child: reaching `j` from `parent` through the entries
   * from `from` on means `j` is the child at `from`, or lies below it, or
   * is reached through a later entry.
   */
  lemma ChildRoutes(all: seq<Entry>, parent: string, j: nat, from: nat)
    requires DistinctIds(all)
    requires from < |all| && j < |all| && all[from].parent == ParentNode(Some(parent))
    ensures var child := all[from].locationId.value;
      BelowFrom(all, parent, j, from) <==> from == j || BelowFrom(all, child, j, 0) || BelowFrom(all, parent, j, from + 1)
  {
    var child := all[from].locationId.value;
    assert Path(all, parent, [from]);
    if BelowFrom(all, parent, j, from) {
      var path :| Path(all, parent, path) && path[|path| - 1] == j && path[0] >= from;
      if path[0] == from && |path| > 1 {
        var rest := path[1..];
        assert forall k :: 0 <= k < |rest| ==> rest[k] == path[k + 1];
        assert Path(all, child, rest);
      }
    }
    if BelowFrom(all, child, j, 0) {
      var path :| Path(all, child, path) && path[|path| - 1] == j && path[0] >= 0;
      ChildPath(all, parent, from, path);
    }
  }

  /** A chain from the child at `from` continues one from `parent`. */
  lemma ChildPath(all: seq<Entry>, parent: string, from: nat, path: seq<nat>)
    requires from < |all| && all[from].parent == ParentNode(Some(parent)) && all[from].locationId.Some?
    requires Path(all, all[from].locationId.value, path)
    ensures Path(all, parent, [from] + path) && ([from] + path)[|path|] == path[|path| - 1]
  {
    var longer := [from] + path;
    assert forall k :: 0 <= k < |path| ==> longer[k + 1] == path[k];
  }

  /**
   * The three routes of ChildRoutes are exclusive: the child is not below
   * itself, and no two different chains from `parent` reach `j`.
   */
  lemma ChildRoutesApart(all: seq<Entry>, parent: string, j: nat, from: nat, depth: string -> nat, height: nat)
    requires Ranked(all, depth, height) && DistinctIds(all)
    requires from < |all| && j < |all| && all[from].parent == ParentNode(Some(parent))
    ensures var child := all[from].locationId.value;
      !(from == j && BelowFrom(all, child, j, 0)) &&
      !(from == j && BelowFrom(all, parent, j, from + 1)) &&
      !(BelowFrom(all, child, j, 0) && BelowFrom(all, parent, j, from + 1))
  {
    var child := all[from].locationId.value;
    if BelowFrom(all, child, j, 0) {
      var path :| Path(all, child, path) && path[|path| - 1] == j && path[0] >= 0;
      if from == j {
        PathDepth(all, child, path, |path| - 1, depth, height);
      }
      if BelowFrom(all, parent, j, from + 1) {
        var other :| Path(all, parent, other) && other[|other| - 1] == j && other[0] >= from + 1;
        ChildPath(all, parent, from, path);
        PathUnique(all, parent, [from] + path, other, depth, height);
      }
    }
    if from == j && BelowFrom(all, parent, j, from + 1) {
      var other :| Path(all, parent, other) && other[|other| - 1] == j && other[0] >= from + 1;
      assert Path(all, parent, [from]);
      PathUnique(all, parent, [from], other, depth, height);
    }
  }

  /** An entry that is not a child of `parent` starts no chain from it. */
  lemma OtherRoutes(all: seq<Entry>, parent: string, j: nat, from: nat)
    requires from < |all| && all[from].parent != ParentNode(Some(parent))
    ensures BelowFrom(all, parent, j, from) <==> BelowFrom(all, parent, j, from + 1)
  {
    if BelowFrom(all, parent, j, from) {
      var path :| Path(all, parent, path) && path[|path| - 1] == j && path[0] >= from;
      assert path[0] != from;
    }
  }

  /** The descent from a direct child of `parent`: its copies, its subtree, then the later entries. */
  lemma DescendChild(all: seq<Entry>, parent: string, queried: seq<string>, from: nat, depth: string -> nat, height: nat)
    requires from < |all| && Ranked(all, depth, height) && all[from].parent == ParentNode(Some(parent))
    requires DescendFrom(all, Some(parent), queried, from, depth, height).Ok?
    ensures DescendFrom(all, all[from].locationId, queried, 0, depth, height).Ok?
    ensures DescendFrom(all, Some(parent), queried, from + 1, depth, height).Ok?
    ensures DescendFrom(all, Some(parent), queried, from, depth, height).value ==
      Here(all, Some(parent), queried, from) + DescendFrom(all, all[from].locationId, queried, 0, depth, height).value +
      DescendFrom(all, Some(parent), queried, from + 1, depth, height).value
  {
    assert RankedEntry(all[from], depth, height);
  }

  /** The descent past an entry that is not a child of `parent`: only the later entries. */
  lemma DescendOther(all: seq<Entry>, parent: string, queried: seq<string>, from: nat, depth: string -> nat, height: nat)
    requires from < |all| && Ranked(all, depth, height) && all[from].parent != ParentNode(Some(parent))
    requires DescendFrom(all, Some(parent), queried, from, depth, height).Ok?
    ensures DescendFrom(all, Some(parent), queried, from + 1, depth, height).Ok?
    ensures DescendFrom(all, Some(parent), queried, from, depth, height).value ==
            DescendFrom(all, Some(parent), queried, from + 1, depth, height).value
  {
    assert Here(all, Some(parent), queried, from) == [];
    var rest := DescendFrom(all, Some(parent), queried, from + 1, depth, height);
    assert rest.Ok? ==> [] + rest.value == rest.value;
  }

  /**
   * With distinct uuids the descent lists each node below `parent`
   * exactly once per queried tag it carries, and nothing else.
   */
  lemma {:induction false} DescendExact(all: seq<Entry>, parent: string, queried: seq<string>, from: nat, j: nat,
                                        depth: string -> nat, height: nat)
    requires from <= |all| && Ranked(all, depth, height) && DistinctIds(all)
    requires j < |all| && all[j].tags.Some?
    requires DescendFrom(all, Some(parent), queried, from, depth, height).Ok?
    ensures multiset(DescendFrom(all, Some(parent), queried, from, depth, height).value)[j] ==
            if BelowFrom(all, parent, j, from) then TagHits(all[j].tags.value, queried) else 0
    decreases Down(Some(parent), depth, height), |all| - from, 1
  {
    if from == |all| {
      assert !BelowFrom(all, parent, j, from);
    } else if all[from].parent == ParentNode(Some(parent)) {
      ExactAtChild(all, parent, queried, from, j, depth, height);
    } else {
      DescendOther(all, parent, queried, from, depth, height);
      DescendExact(all, parent, queried, from + 1, j, depth, height);
      OtherRoutes(all, parent, j, from);
    }
  }

  /** DescendExact at a direct child of `parent`, from DescendExact below it and after it. */
  lemma {:induction false} ExactAtChild(all: seq<Entry>, parent: string, queried: seq<string>, from: nat, j: nat,
                                        depth: string -> nat, height: nat)
    requires from < |all| && Ranked(all, depth, height) && DistinctIds(all)
    requires j < |all| && all[j].tags.Some? && all[from].parent == ParentNode(Some(parent))
    requires DescendFrom(all, Some(parent), queried, from, depth, height).Ok?
    ensures multiset(DescendFrom(all, Some(parent), queried, from, depth, height).value)[j] ==
            if BelowFrom(all, parent, j, from) then TagHits(all[j].tags.value, queried) else 0
    decreases Down(Some(parent), depth, height), |all| - from, 0
  {
    assert RankedEntry(all[from], depth, height);
    DescendChild(all, parent, queried, from, depth, height);
    DescendExact(all, parent, queried, from + 1, j, depth, height);
    DescendExact(all, all[from].locationId.value, queried, 0, j, depth, height);
    ExactChild(all, parent, queried, from, j, depth, height);
  }

  /** The count at a direct child, from the counts in its subtree and after it. */
  lemma ExactChild(all: seq<Entry>, parent: string, queried: seq<string>, from: nat, j: nat,
                   depth: string -> nat, height: nat)
    requires from < |all| && Ranked(all, depth, height) && DistinctIds(all)
    requires j < |all| && all[j].tags.Some? && all[from].parent == ParentNode(Some(parent))
    requires DescendFrom(all, Some(parent), queried, from, depth, height).Ok?
    requires var child := all[from].locationId.value;
      var hits := TagHits(all[j].tags.value, queried);
      DescendFrom(all, Some(child), queried, 0, depth, height).Ok? &&
      multiset(DescendFrom(all, Some(child), queried, 0, depth, height).value)[j] ==
        (if BelowFrom(all, child, j, 0) then hits else 0) &&
      DescendFrom(all, Some(parent), queried, from + 1, depth, height).Ok? &&
      multiset(DescendFrom(all, Some(parent), queried, from + 1, depth, height).value)[j] ==
        (if BelowFrom(all, parent, j, from + 1) then hits else 0)
    ensures multiset(DescendFrom(all, Some(parent), queried, from, depth, height).value)[j] ==
            if BelowFrom(all, parent, j, from) then TagHits(all[j].tags.value, queried) else 0
  {
    DescendChild(all, parent, queried, from, depth, height);
    ChildRoutes(all, parent, j, from);
    ChildRoutesApart(all, parent, j, from, depth, height);
    var here := Here(all, Some(parent), queried, from);
    if all[from].tags.Some? {
      CopiesCount(from, TagHits(all[from].tags.value, queried), j);
    } else {
      assert here == [];
    }
  }

  /** The descent's nested loops over the list and the queried tags, recursing into each child. */
  method ChildTree(all: seq<Entry>, parent: Option<string>, queried: seq<string>,
                   ghost depth: string -> nat, ghost height: nat) returns (r: Result<seq<nat>>)
    requires Ranked(all, depth, height)
    ensures r == DescendFrom(all, parent, queried, 0, depth, height)
    decreases Down(parent, depth, height)
  {
    var obtained: seq<nat> := [];
    var i := 0;
    ghost var whole := DescendFrom(all, parent, queried, 0, depth, height);
    assert whole.Ok? ==> [] + whole.value == whole.value;
    while i < |all|
      invariant 0 <= i <= |all|
      invariant whole == Then(obtained, DescendFrom(all, parent, queried, i, depth, height))
    {
      var e := all[i];
      var here := TagLoop(all, parent, queried, i);
      if e.parent.ParentNode? && e.parent.id.None? {
        return Threw(NullPointer);
      }
      if e.parent.ParentNode? && e.parent.id == parent {
        assert RankedEntry(e, depth, height);
        var below := ChildTree(all, e.locationId, queried, depth, height);
        if below.Threw? {
          return below;
        }
        ThenAssoc(obtained, here + below.value, DescendFrom(all, parent, queried, i + 1, depth, height));
        obtained := obtained + (here + below.value);
      } else {
        ThenAssoc(obtained, here, DescendFrom(all, parent, queried, i + 1, depth, height));
        obtained := obtained + here;
      }
      i := i + 1;
    }
    r := Ok(obtained);
    assert obtained + [] == obtained;
  }

  /** Then over a concatenation. */
  lemma ThenAssoc(a: seq<nat>, b: seq<nat>, c: Result<seq<nat>>)
    ensures Then(a, Then(b, c)) == Then(a + b, c)
  {
    if c.Ok? {
      assert a + (b + c.value) == (a + b) + c.value;
    }
  }

  /** The inner loop over the queried tags for entry `i`, each test inside its own try. */
  method TagLoop(all: seq<Entry>, parent: Option<string>, queried: seq<string>, i: nat) returns (here: seq<nat>)
    requires i < |all|
    ensures here == Here(all, parent, queried, i)
  {
    var e := all[i];
    here := [];
    var k := 0;
    while k < |queried|
      invariant 0 <= k <= |queried|
      invariant here == if e.parent.ParentNode? && e.parent.id.Some? && e.parent.id == parent && e.tags.Some?
                         then Copies(i, TagHits(e.tags.value, queried[..k])) else []
    {
      assert queried[..k + 1][..k] == queried[..k];
      if e.parent.ParentNode? && e.parent.id.Some? && e.parent.id == parent && e.tags.Some? && queried[k] in e.tags.value {
        here := here + [i];
      }
      k := k + 1;
    }
    assert queried[..k] == queried;
  }

  // ---------------------------------------------------------------------
  // The climb and the whole query

  /**
   * The climb of getLocationsByLevelAndTagsFromAllLocationsList: the first
   * node with `uuid`, or, when it lacks the top-level tag, the climb from
   * its parent's uuid. No node with `uuid` gives None; null tags or a
   * missing parent on the way up throw.
   */
  function Climb(all: seq<Entry>, uuid: Option<string>, topLevel: string,
                 ghost depth: string -> nat, ghost height: nat): (r: Result<Option<nat>>)
    requires Ranked(all, depth, height)
    ensures r.Ok? && r.value.Some? ==>
      r.value.value < |all| && all[r.value.value].tags.Some? && topLevel in all[r.value.value].tags.value
    ensures r.Threw? ==> r.error == NullPointer
    decreases Up(uuid, depth)
  {
    match FindFrom(all, uuid, 0)
    case Threw(x) => Threw(x)
    case Ok(None) => Ok(None)
    case Ok(Some(k)) =>
      var e := all[k];
      if e.tags.None? then Threw(NullPointer)
      else if topLevel !in e.tags.value then
        if e.parent.NoParent? then Threw(NullPointer)
        else
          assert RankedEntry(e, depth, height);
          Climb(all, e.parent.id, topLevel, depth, height)
      else Ok(Some(k))
  }

  /**
   * `c` is the way up from `uuid`: each step finds the first node with the
   * uuid in hand, every node before the last lacks the top-level tag and
   * hands over its parent's uuid, and the last carries the tag.
   */
  ghost predicate Chain(all: seq<Entry>, uuid: Option<string>, topLevel: string, c: seq<nat>)
  {
    |c| > 0 && (forall m :: 0 <= m < |c| ==> c[m] < |all|) &&
    FindFrom(all, uuid, 0) == Ok(Some(c[0])) &&
    (forall m :: 0 <= m < |c| - 1 ==>
       all[c[m]].tags.Some? && topLevel !in all[c[m]].tags.value && all[c[m]].parent.ParentNode? &&
       FindFrom(all, all[c[m]].parent.id, 0) == Ok(Some(c[m + 1]))) &&
    all[c[|c| - 1]].tags.Some? && topLevel in all[c[|c| - 1]].tags.value
  }

  /** The climb stops at the first ancestor-or-self of the node with `uuid` that carries the top-level tag. */
  lemma {:induction false} ClimbChain(all: seq<Entry>, uuid: Option<string>, topLevel: string, t: nat,
                                      depth: string -> nat, height: nat)
    requires Ranked(all, depth, height) && Climb(all, uuid, topLevel, depth, height) == Ok(Some(t))
    ensures exists c :: Chain(all, uuid, topLevel, c) && c[|c| - 1] == t
    decreases Up(uuid, depth)
  {
    var k := FindFrom(all, uuid, 0).value.value;
    var e := all[k];
    if topLevel in e.tags.value {
      assert Chain(all, uuid, topLevel, [k]);
    } else {
      assert RankedEntry(e, depth, height);
      ClimbChain(all, e.parent.id, topLevel, t, depth, height);
      var c :| Chain(all, e.parent.id, topLevel, c) && c[|c| - 1] == t;
      ChainCons(all, uuid, topLevel, k, c);
      assert ([k] + c)[|c|] == t;
    }
  }

  /** One step up in front of a way up from the parent's uuid is a way up. */
  lemma ChainCons(all: seq<Entry>, uuid: Option<string>, topLevel: string, k: nat, c: seq<nat>)
    requires k < |all| && FindFrom(all, uuid, 0) == Ok(Some(k))
    requires all[k].tags.Some? && topLevel !in all[k].tags.value && all[k].parent.ParentNode?
    requires Chain(all, all[k].parent.id, topLevel, c)
    ensures Chain(all, uuid, topLevel, [k] + c)
  {
    var longer := [k] + c;
    assert forall m :: 0 <= m < |c| ==> longer[m + 1] == c[m];
  }

  /** Conversely, every way up ends where the climb ends. */
  lemma {:induction false} ChainClimb(all: seq<Entry>, uuid: Option<string>, topLevel: string, c: seq<nat>,
                                      depth: string -> nat, height: nat)
    requires Ranked(all, depth, height) && Chain(all, uuid, topLevel, c)
    ensures Climb(all, uuid, topLevel, depth, height) == Ok(Some(c[|c| - 1]))
    decreases |c|
  {
    if |c| > 1 {
      var e := all[c[0]];
      assert RankedEntry(e, depth, height);
      var rest := c[1..];
      assert forall m :: 0 <= m < |rest| ==> rest[m] == c[m + 1];
      assert Chain(all, e.parent.id, topLevel, rest);
      ChainClimb(all, e.parent.id, topLevel, rest, depth, height);
    }
  }

  /**
   * getLocationsByLevelAndTagsFromAllLocationsList: the descent from the
   * node the climb stops at; no node with `uuid` gives the empty list.
   */
  function Query(all: seq<Entry>, uuid: Option<string>, topLevel: string, queried: seq<string>,
                 ghost depth: string -> nat, ghost height: nat): (r: Result<seq<nat>>)
    requires Ranked(all, depth, height)
    ensures r.Threw? ==> r.error == NullPointer
  {
    match Climb(all, uuid, topLevel, depth, height)
    case Threw(x) => Threw(x)
    case Ok(None) => Ok([])
    case Ok(Some(t)) => DescendFrom(all, all[t].locationId, queried, 0, depth, height)
  }

  /**
   * Whatever the query returns carries a queried tag and lies below the
   * node the climb stops at, which has a uuid.
   */
  lemma QuerySound(all: seq<Entry>, uuid: Option<string>, topLevel: string, queried: seq<string>,
                   depth: string -> nat, height: nat)
    requires Ranked(all, depth, height) && Query(all, uuid, topLevel, queried, depth, height).Ok?
    ensures forall j :: j in Query(all, uuid, topLevel, queried, depth, height).value ==>
      j < |all| && Tagged(all, queried, j) &&
      var top := Climb(all, uuid, topLevel, depth, height);
      top.Ok? && top.value.Some? && all[top.value.value].locationId.Some? &&
      Below(all, all[top.value.value].locationId.value, j)
  {
    var top := Climb(all, uuid, topLevel, depth, height);
    if top.value.Some? {
      DescendSound(all, all[top.value.value].locationId, queried, 0, depth, height);
    }
  }

  /**
   * Completeness of the query: a node below the one the climb stops at is
   * listed at least once per queried tag it carries; with distinct uuids,
   * exactly that often, and nodes not below it never.
   */
  lemma QueryComplete(all: seq<Entry>, uuid: Option<string>, topLevel: string, queried: seq<string>,
                      depth: string -> nat, height: nat, t: nat, path: seq<nat>)
    requires Ranked(all, depth, height) && Query(all, uuid, topLevel, queried, depth, height).Ok?
    requires Climb(all, uuid, topLevel, depth, height) == Ok(Some(t)) && all[t].locationId.Some?
    requires Path(all, all[t].locationId.value, path) && all[path[|path| - 1]].tags.Some?
    ensures multiset(Query(all, uuid, topLevel, queried, depth, height).value)[path[|path| - 1]]
            >= TagHits(all[path[|path| - 1]].tags.value, queried)
  {
    DescendComplete(all, all[t].locationId.value, queried, path, depth, height);
  }

  /** With distinct uuids the query lists each node below the top node once per queried tag it carries, and no other. */
  lemma QueryExact(all: seq<Entry>, uuid: Option<string>, topLevel: string, queried: seq<string>,
                   depth: string -> nat, height: nat, t: nat, j: nat)
    requires Ranked(all, depth, height) && DistinctIds(all) && Query(all, uuid, topLevel, queried, depth, height).Ok?
    requires Climb(all, uuid, topLevel, depth, height) == Ok(Some(t))
    requires j < |all| && all[j].tags.Some?
    ensures multiset(Query(all, uuid, topLevel, queried, depth, height).value)[j] ==
            if Below(all, all[t].locationId.value, j) then TagHits(all[j].tags.value, queried) else 0
  {
    var p := all[t].locationId.value;
    DescendExact(all, p, queried, 0, j, depth, height);
    assert Below(all, p, j) <==> BelowFrom(all, p, j, 0);
  }

  /** A uuid that no node has gives the empty list. */
  lemma UnknownUuid(all: seq<Entry>, uuid: Option<string>, topLevel: string, queried: seq<string>,
                    depth: string -> nat, height: nat)
    requires Ranked(all, depth, height)
    requires forall j :: 0 <= j < |all| ==> all[j].locationId.Some? && all[j].locationId != uuid
    ensures Query(all, uuid, topLevel, queried, depth, height) == Ok([])
  {
  }

  /** The query as the source runs it: the search loop, then the climb by recursion, then the descent. */
  method GetLocationsByLevelAndTags(all: seq<Entry>, uuid: Option<string>, topLevel: string, queried: seq<string>,
                                    ghost depth: string -> nat, ghost height: nat) returns (r: Result<seq<nat>>)
    requires Ranked(all, depth, height)
    ensures r == Query(all, uuid, topLevel, queried, depth, height)
    decreases Up(uuid, depth)
  {
    var found := FindLocation(all, uuid);
    if found.Threw? {
      return Threw(found.error);
    }
    if found.value.None? {
      return Ok([]);
    }
    var e := all[found.value.value];
    if e.tags.None? {
      return Threw(NullPointer);
    }
    if topLevel !in e.tags.value {
      if e.parent.NoParent? {
        return Threw(NullPointer);
      }
      assert RankedEntry(e, depth, height);
      r := GetLocationsByLevelAndTags(all, e.parent.id, topLevel, queried, depth, height);
      return;
    }
    r := ChildTree(all, e.locationId, queried, depth, height);
  }
}
