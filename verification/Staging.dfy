/**
 Materialising a stage plan: the artifact stream is cut into bodies, the bodies
 become a tree, and the tree is what gets validated and promoted.
 */
module Staging {
  import opened Wrappers
  import opened Bundle

  /** Cuts the stream by the planned sizes; `None` on a short stream, a wrong
      digest or a tail. */
  function SplitStream(artifacts: seq<Record>, stream: Bytes): (bodies: Option<seq<Bytes>>)
    ensures bodies.Some? ==> BodiesMatch(artifacts, bodies.value)
  {
    if artifacts == [] then (if stream == [] then Some([]) else None)
    else
      var size := artifacts[0].size;
      if |stream| < size || Sha256(stream[..size]) != artifacts[0].sha256 then None
      else
        var rest := SplitStream(artifacts[1..], stream[size..]);
        if rest.None? then None else Some([stream[..size]] + rest.value)
  }

  predicate BodiesMatch(artifacts: seq<Record>, bodies: seq<Bytes>) {
    && |bodies| == |artifacts|
    && forall i :: 0 <= i < |bodies| ==> |bodies[i]| == artifacts[i].size && Sha256(bodies[i]) == artifacts[i].sha256
  }

  function Concat(bodies: seq<Bytes>): Bytes {
    if bodies == [] then [] else bodies[0] + Concat(bodies[1..])
  }

  /** The stream is cut if and only if it is bodies of the planned sizes and digests one
      after another, with nothing behind them. */
  lemma {:induction false} SplitIsConcat(artifacts: seq<Record>, stream: Bytes, bodies: seq<Bytes>)
    ensures SplitStream(artifacts, stream) == Some(bodies) <==>
              Concat(bodies) == stream && BodiesMatch(artifacts, bodies)
    decreases |artifacts|
  {
    if artifacts != [] && bodies != [] {
      var size := artifacts[0].size;
      if |stream| >= size {
        SplitIsConcat(artifacts[1..], stream[size..], bodies[1..]);
        assert [bodies[0]] + bodies[1..] == bodies;
        if SplitStream(artifacts, stream) == Some(bodies) {
          assert ([stream[..size]] + SplitStream(artifacts[1..], stream[size..]).value)[1..] == bodies[1..];
        }
      }
      if Concat(bodies) == stream && BodiesMatch(artifacts, bodies) {
        assert stream[..size] == bodies[0] && stream[size..] == Concat(bodies[1..]);
      }
    }
  }

  /** Creates one file, and the directories above it; fails where a file is in the way. */
  function Insert(node: Node, p: Path, file: Node): Option<Node>
    decreases |p|
  {
    if p == [] || !node.Directory? then None
    else if |p| == 1 then
      if p[0] in node.children then None else Some(Directory(node.children[p[0] := file]))
    else
      var child := if p[0] in node.children then node.children[p[0]] else Directory(map[]);
      var inner := Insert(child, p[1..], file);
      if inner.None? then None else Some(Directory(node.children[p[0] := inner.value]))
  }

  function FileFor(artifact: Record, body: Bytes): Node {
    Regular(body, if artifact.executable then ReadWriteExecute else ReadWrite)
  }

  /** The tree after the first `n` artifacts have been written. */
  function Build(artifacts: seq<Record>, bodies: seq<Bytes>, n: nat): Option<Node>
    requires n <= |artifacts| == |bodies|
  {
    if n == 0 then Some(Directory(map[]))
    else
      var before := Build(artifacts, bodies, n - 1);
      if before.None? then None
      else Insert(before.value, artifacts[n - 1].path, FileFor(artifacts[n - 1], bodies[n - 1]))
  }

  predicate Clash(p: Path, q: Path) {
    p <= q || q <= p
  }

  predicate Apart(artifacts: seq<Record>, i: nat, j: nat) {
    i < j < |artifacts| ==> !Clash(artifacts[i].path, artifacts[j].path)
  }

  /** No planned file lies where another one needs a directory. */
  predicate PrefixFree(artifacts: seq<Record>) {
    forall i: nat, j: nat :: i < j < |artifacts| ==> Apart(artifacts, i, j)
  }

  predicate Portable(artifacts: seq<Record>, i: nat) {
    i < |artifacts| ==> RelativePath(artifacts[i].path)
  }

  /** The bodies are a manifest and, in its order, exactly what it lists. */
  ghost predicate Deliverable(artifacts: seq<Record>, bodies: seq<Bytes>, json: Json)
    requires |artifacts| == |bodies| > 0
  {
    && 0 < |bodies[0]|
    && json.parse(bodies[0]).Some?
    && var manifest := json.parse(bodies[0]).value;
    && RecordsOk(manifest.records)
    && EntrypointOk(manifest)
    && artifacts == [ManifestRecord(bodies[0])] + manifest.records
    && PrefixFree(artifacts)
  }

  function Paths(artifacts: seq<Record>, n: nat): set<Path>
    requires n <= |artifacts|
  {
    set i | 0 <= i < n :: artifacts[i].path
  }

  lemma {:induction false} InsertLookup(node: Node, p: Path, file: Node)
    requires |p| > 0 && Insert(node, p, file).Some?
    ensures Lookup(Insert(node, p, file).value, p) == Some(file)
    decreases |p|
  {
    if |p| > 1 {
      var child := if p[0] in node.children then node.children[p[0]] else Directory(map[]);
      InsertLookup(child, p[1..], file);
    } else {
      assert p[1..] == [];
    }
  }

  lemma {:induction false} InsertKeeps(node: Node, p: Path, file: Node, q: Path)
    requires |p| > 0 && Insert(node, p, file).Some?
    requires Lookup(node, q).Some? && Lookup(node, q).value.Regular?
    ensures Lookup(Insert(node, p, file).value, q) == Lookup(node, q)
    decreases |p|
  {
    if |p| > 1 && q[0] == p[0] {
      InsertKeeps(node.children[p[0]], p[1..], file, q[1..]);
    }
  }

  /** The new tree holds nothing beyond the old one and the path to the new file. */
  lemma {:induction false} InsertUnmanifested(node: Node, p: Path, file: Node, prefix: Path,
                                              done: set<Path>, allowed: set<Path>)
    requires |p| > 0 && Insert(node, p, file).Some? && file.Regular?
    requires Unmanifested(node, prefix, done) && done <= allowed && prefix + p in allowed
    requires forall i :: 0 <= i < |p| ==> PortableName(p[i])
    ensures Unmanifested(Insert(node, p, file).value, prefix, allowed)
    decreases |p|
  {
    var after := Insert(node, p, file).value;
    forall name | name in after.children && name != p[0]
      ensures PortableName(name)
      ensures after.children[name].Regular? ==> prefix + [name] in allowed
      ensures after.children[name].Directory? ==>
                IsAncestor(prefix + [name], allowed) && Unmanifested(after.children[name], prefix + [name], allowed)
    {
      if node.children[name].Directory? {
        AllowMore(node.children[name], prefix + [name], done, allowed);
      }
    }
    assert [p[0]] + p[1..] == p;
    if |p| > 1 {
      assert (prefix + [p[0]]) + p[1..] == prefix + p;
      assert prefix + [p[0]] < prefix + p;
      var child := if p[0] in node.children then node.children[p[0]] else Directory(map[]);
      InsertUnmanifested(child, p[1..], file, prefix + [p[0]], done, allowed);
    } else {
      assert p == [p[0]];
    }
  }

  lemma {:induction false} AllowMore(node: Node, prefix: Path, done: set<Path>, allowed: set<Path>)
    requires Unmanifested(node, prefix, done) && done <= allowed
    ensures Unmanifested(node, prefix, allowed)
    decreases node
  {
    if node.Directory? {
      forall name | name in node.children && node.children[name].Directory?
        ensures IsAncestor(prefix + [name], allowed) && Unmanifested(node.children[name], prefix + [name], allowed)
      {
        var q :| q in done && prefix + [name] < q;
        AllowMore(node.children[name], prefix + [name], done, allowed);
      }
    }
  }

  /** Where neither path lies on the other, nothing is in the way. */
  lemma {:induction false} InsertSucceeds(node: Node, p: Path, file: Node, prefix: Path, done: set<Path>)
    requires |p| > 0 && node.Directory? && Unmanifested(node, prefix, done)
    requires forall q :: q in done ==> !Clash(q, prefix + p)
    ensures Insert(node, p, file).Some?
    decreases |p|
  {
    assert [p[0]] + p[1..] == p;
    assert (prefix + [p[0]]) + p[1..] == prefix + p;
    if |p| == 1 {
      assert p == [p[0]];
    } else if p[0] in node.children {
      assert node.children[p[0]].Regular? ==> prefix + [p[0]] <= prefix + p;
      InsertSucceeds(node.children[p[0]], p[1..], file, prefix + [p[0]], done);
    } else {
      InsertSucceeds(Directory(map[]), p[1..], file, prefix + [p[0]], done);
    }
  }

  /** The first `n` planned files are in the tree, and nothing else is. */
  ghost predicate Holds(tree: Option<Node>, artifacts: seq<Record>, bodies: seq<Bytes>, n: nat)
    requires n <= |artifacts| == |bodies|
  {
    && tree.Some?
    && tree.value.Directory?
    && Unmanifested(tree.value, [], Paths(artifacts, n))
    && forall i: nat :: i < n ==> Placed(tree.value, artifacts, bodies, i)
  }

  ghost predicate Placed(tree: Node, artifacts: seq<Record>, bodies: seq<Bytes>, i: nat)
    requires i < |artifacts| == |bodies|
  {
    Lookup(tree, artifacts[i].path) == Some(FileFor(artifacts[i], bodies[i]))
  }

  lemma InsertIsClean(before: Node, p: Path, file: Node, done: set<Path>)
    requires before.Directory? && Unmanifested(before, [], done) && RelativePath(p) && file.Regular?
    requires forall q :: q in done ==> !Clash(q, p)
    ensures var after := Insert(before, p, file);
            after.Some? && after.value.Directory? && Unmanifested(after.value, [], done + {p})
  {
    assert [] + p == p;
    InsertSucceeds(before, p, file, [], done);
    InsertUnmanifested(before, p, file, [], done, done + {p});
  }

  lemma InsertHolds(before: Node, artifacts: seq<Record>, bodies: seq<Bytes>, n: nat)
    requires n < |artifacts| == |bodies| && Holds(Some(before), artifacts, bodies, n)
    requires Portable(artifacts, n)
    requires forall i: nat :: i < n ==> Apart(artifacts, i, n)
    ensures Holds(Insert(before, artifacts[n].path, FileFor(artifacts[n], bodies[n])), artifacts, bodies, n + 1)
  {
    var p, file := artifacts[n].path, FileFor(artifacts[n], bodies[n]);
    var done := Paths(artifacts, n);
    forall q | q in done ensures !Clash(q, p) {
      var i: nat :| i < n && artifacts[i].path == q;
      assert Apart(artifacts, i, n);
    }
    InsertIsClean(before, p, file, done);
    assert Paths(artifacts, n + 1) == done + {p};
    InsertLookup(before, p, file);
    forall i: nat | i < n ensures Placed(Insert(before, p, file).value, artifacts, bodies, i) {
      assert Placed(before, artifacts, bodies, i);
      InsertKeeps(before, p, file, artifacts[i].path);
    }
  }

  lemma {:induction false} BuiltTree(artifacts: seq<Record>, bodies: seq<Bytes>, n: nat) returns (tree: Node)
    requires n <= |artifacts| == |bodies| && PrefixFree(artifacts)
    requires forall i: nat :: Portable(artifacts, i)
    ensures Build(artifacts, bodies, n) == Some(tree)
    ensures Holds(Some(tree), artifacts, bodies, n)
  {
    if n == 0 {
      tree := Directory(map[]);
    } else {
      var before := BuiltTree(artifacts, bodies, n - 1);
      InsertHolds(before, artifacts, bodies, n - 1);
      tree := Insert(before, artifacts[n - 1].path, FileFor(artifacts[n - 1], bodies[n - 1])).value;
    }
  }

  ghost predicate BuildsValid(plan: Plan, bodies: seq<Bytes>, json: Json)
    requires |plan.artifacts| == |bodies| && PlanOk(plan.bundle, plan.artifacts, json)
  {
    var tree := Build(plan.artifacts, bodies, |bodies|);
    tree.Some? && Validates(tree.value, plan.bundle, json)
  }

  /** Staging goes through for exactly the deliverable plans. */
  lemma StagedIffDeliverable(plan: Plan, bodies: seq<Bytes>, json: Json)
    requires Injective(json) && PlanOk(plan.bundle, plan.artifacts, json) && BodiesMatch(plan.artifacts, bodies)
    ensures BuildsValid(plan, bodies, json) <==> Deliverable(plan.artifacts, bodies, json)
  {
    if Deliverable(plan.artifacts, bodies, json) { DeliverableValidates(plan, bodies, json); }
    if BuildsValid(plan, bodies, json) { ValidatedIsDeliverable(plan, bodies, json); }
  }

  lemma DeliverableValidates(plan: Plan, bodies: seq<Bytes>, json: Json)
    requires PlanOk(plan.bundle, plan.artifacts, json) && BodiesMatch(plan.artifacts, bodies)
    requires Deliverable(plan.artifacts, bodies, json)
    ensures BuildsValid(plan, bodies, json)
  {
    assert forall i: nat :: Portable(plan.artifacts, i);
    var tree := BuiltTree(plan.artifacts, bodies, |bodies|);
    HeldTreeValidates(tree, plan, bodies, json);
  }

  lemma HeldTreeValidates(tree: Node, plan: Plan, bodies: seq<Bytes>, json: Json)
    requires PlanOk(plan.bundle, plan.artifacts, json) && BodiesMatch(plan.artifacts, bodies)
    requires Deliverable(plan.artifacts, bodies, json)
    requires Holds(Some(tree), plan.artifacts, bodies, |bodies|)
    ensures Validates(tree, plan.bundle, json)
  {
    HeldMembersMatch(tree, plan.artifacts, bodies, json.parse(bodies[0]).value.records);
    ManifestFirst(plan, json);
  }

  lemma ManifestFirst(plan: Plan, json: Json)
    requires PlanOk(plan.bundle, plan.artifacts, json) && plan.artifacts[0].path == MANIFEST_PATH
    ensures plan.bundle == Sha256(json.canonical(Descriptor(plan.artifacts[0].sha256, plan.artifacts)))
  {
    var k :| 0 <= k < |plan.artifacts| && plan.artifacts[k].path == MANIFEST_PATH
             && plan.bundle == Sha256(json.canonical(Descriptor(plan.artifacts[k].sha256, plan.artifacts)));
    assert k == 0;
  }

  lemma HeldMembersMatch(tree: Node, artifacts: seq<Record>, bodies: seq<Bytes>, records: seq<Record>)
    requires |artifacts| == |bodies| == |records| + 1
    requires artifacts == [ManifestRecord(bodies[0])] + records
    requires Holds(Some(tree), artifacts, bodies, |bodies|) && BodiesMatch(artifacts, bodies)
    ensures Lookup(tree, MANIFEST_PATH) == Some(Regular(bodies[0], ReadWrite))
    ensures forall i :: 0 <= i < |records| ==> MemberMatches(tree, records[i])
    ensures Unmanifested(tree, [], AllowedPaths(records))
  {
    assert artifacts[0] == ManifestRecord(bodies[0]) && Placed(tree, artifacts, bodies, 0);
    forall i: nat | i < |records|
      ensures MemberMatches(tree, records[i]) && records[i].path in Paths(artifacts, |bodies|)
    {
      assert artifacts[i + 1] == records[i] && Placed(tree, artifacts, bodies, i + 1);
    }
    assert Paths(artifacts, |bodies|) == AllowedPaths(records);
  }

  lemma ValidatedIsDeliverable(plan: Plan, bodies: seq<Bytes>, json: Json)
    requires Injective(json) && PlanOk(plan.bundle, plan.artifacts, json) && BodiesMatch(plan.artifacts, bodies)
    requires BuildsValid(plan, bodies, json)
    ensures Deliverable(plan.artifacts, bodies, json)
  {
    var tree := Build(plan.artifacts, bodies, |bodies|).value;
    SurvivingPlanIsManifest(plan, tree, json);
    var raw := ManifestRaw(tree).value;
    assert Sha256(bodies[0]) == plan.artifacts[0].sha256 == Sha256(raw);
    forall i: nat, j: nat | i < j < |plan.artifacts| ensures Apart(plan.artifacts, i, j) {
      PlannedIsRegular(plan, tree, i, json);
      PlannedIsRegular(plan, tree, j, json);
      RegularFilesDoNotClash(tree, plan.artifacts[i].path, plan.artifacts[j].path);
    }
  }

  lemma RegularFilesDoNotClash(tree: Node, p: Path, q: Path)
    requires p != q
    requires Lookup(tree, p).Some? && Lookup(tree, p).value.Regular?
    requires Lookup(tree, q).Some? && Lookup(tree, q).value.Regular?
    ensures !Clash(p, q)
  {
    if p <= q {
      assert p + q[|p|..] == q;
      LookupThrough(tree, p, q[|p|..]);
    }
    if q <= p {
      assert q + p[|q|..] == p;
      LookupThrough(tree, q, p[|q|..]);
    }
  }

  lemma PlannedIsRegular(plan: Plan, tree: Node, i: nat, json: Json)
    requires Validates(tree, plan.bundle, json) && i < |plan.artifacts|
    requires plan.artifacts ==
             [ManifestRecord(ManifestRaw(tree).value)] + json.parse(ManifestRaw(tree).value).value.records
    ensures Lookup(tree, plan.artifacts[i].path).Some? && Lookup(tree, plan.artifacts[i].path).value.Regular?
  {
    if i > 0 {
      assert MemberMatches(tree, json.parse(ManifestRaw(tree).value).value.records[i - 1]);
    }
  }

  // ------------------------------------------------------- streaming the plan

  /** Writing file after file while the stream is read. */
  function WriteAll(tree: Node, artifacts: seq<Record>, stream: Bytes): Option<Node>
    decreases |artifacts|
  {
    if artifacts == [] then (if stream == [] then Some(tree) else None)
    else
      var size := artifacts[0].size;
      if |stream| < size || Sha256(stream[..size]) != artifacts[0].sha256 then None
      else
        var grown := Insert(tree, artifacts[0].path, FileFor(artifacts[0], stream[..size]));
        if grown.None? then None else WriteAll(grown.value, artifacts[1..], stream[size..])
  }

  /** The streaming form does what cutting first and building afterwards does. */
  lemma WriteAllIsBuild(artifacts: seq<Record>, stream: Bytes)
    ensures var bodies := SplitStream(artifacts, stream);
            WriteAll(Directory(map[]), artifacts, stream)
            == if bodies.None? then None else Build(artifacts, bodies.value, |artifacts|)
  {
    var bodies := SplitStream(artifacts, stream);
    if bodies.None? {
      WriteNothing(Directory(map[]), artifacts, stream);
    } else {
      assert artifacts[0..] == artifacts && bodies.value[0..] == bodies.value;
      WriteRest(artifacts, bodies.value, 0, stream, Directory(map[]));
    }
  }

  lemma {:induction false} WriteNothing(tree: Node, artifacts: seq<Record>, stream: Bytes)
    requires SplitStream(artifacts, stream).None?
    ensures WriteAll(tree, artifacts, stream).None?
    decreases |artifacts|
  {
    if artifacts != [] && |stream| >= artifacts[0].size && Sha256(stream[..artifacts[0].size]) == artifacts[0].sha256 {
      var grown := Insert(tree, artifacts[0].path, FileFor(artifacts[0], stream[..artifacts[0].size]));
      if grown.Some? { WriteNothing(grown.value, artifacts[1..], stream[artifacts[0].size..]); }
    }
  }

  lemma {:induction false} WriteRest(artifacts: seq<Record>, bodies: seq<Bytes>, k: nat, rest: Bytes, tree: Node)
    requires k <= |artifacts| == |bodies|
    requires SplitStream(artifacts[k..], rest) == Some(bodies[k..])
    requires Build(artifacts, bodies, k) == Some(tree)
    ensures WriteAll(tree, artifacts[k..], rest) == Build(artifacts, bodies, |artifacts|)
    decreases |artifacts| - k
  {
    if k < |artifacts| {
      var left := artifacts[k..];
      var body, tail := rest[..left[0].size], rest[left[0].size..];
      assert left[0] == artifacts[k] && left[1..] == artifacts[k + 1..];
      assert bodies[k..][0] == body && bodies[k..][1..] == bodies[k + 1..];
      var grown := Insert(tree, left[0].path, FileFor(left[0], body));
      assert grown == Build(artifacts, bodies, k + 1);
      if grown.Some? {
        WriteRest(artifacts, bodies, k + 1, tail, grown.value);
      } else {
        BuildPrefix(artifacts, bodies, k + 1, |artifacts|);
      }
    }
  }

  lemma {:induction false} BuildPrefix(artifacts: seq<Record>, bodies: seq<Bytes>, k: nat, n: nat)
    requires k <= n <= |artifacts| == |bodies|
    ensures Build(artifacts, bodies, k).None? ==> Build(artifacts, bodies, n).None?
    decreases n
  {
    if k < n { BuildPrefix(artifacts, bodies, k, n - 1); }
  }
}
