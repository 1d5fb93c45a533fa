/**
 Content-addressed bundles of the forced-command dispatcher: what a generation
 tree must look like under its digest, and what a stage request may ask for.
 */
module Bundle {
  import opened Wrappers

  const MAX_ARTIFACTS := 32
  const MAX_ARTIFACT_BYTES := 32 * 1024 * 1024
  const MAX_TOTAL_ARTIFACT_BYTES := 256 * 1024 * 1024
  const MAX_ARTIFACT_PATH_DEPTH := 16
  const MAX_ARTIFACT_PATH_BYTES := 512

  const MANIFEST := "manifest.json"
  const MANIFEST_PATH: Path := [MANIFEST]

  type Bytes = seq<byte>
  /** A relative path as its components; the text form joins them with '/'. */
  type Path = seq<string>

  /** SHA-256 as a free constructor: distinct messages have distinct digests. */
  datatype Digest = Sha256(message: Bytes)

  datatype Mode = ReadWrite | ReadWriteExecute | OtherMode(bits: nat)
  datatype Node = Regular(raw: Bytes, mode: Mode) | Directory(children: map<string, Node>)

  datatype Record = Record(path: Path, size: nat, sha256: Digest, executable: bool)
  datatype Manifest = Manifest(entrypoint: seq<string>, records: seq<Record>)
  datatype Descriptor = Descriptor(manifestSha256: Digest, artifacts: seq<Record>)
  datatype Plan = Plan(bundle: Digest, artifacts: seq<Record>)

  /** The JSON layer: canonical bytes of a descriptor and the strict manifest parser. */
  datatype Json = Json(canonical: Descriptor -> Bytes, parse: Bytes -> Option<Manifest>)

  ghost predicate Injective(json: Json) {
    forall a, b :: json.canonical(a) == json.canonical(b) ==> a == b
  }

  // ------------------------------------------------------------------- paths

  predicate PortableChar(c: char) {
    'a' <= c <= 'z' || 'A' <= c <= 'Z' || '0' <= c <= '9' || c in "._+-"
  }

  predicate PortableName(name: string) {
    0 < |name| <= 255 && name != "." && name != ".." && forall i :: 0 <= i < |name| ==> PortableChar(name[i])
  }

  function TextLength(p: Path): nat {
    if p == [] then 0 else |p[0]| + (if |p| == 1 then 0 else 1 + TextLength(p[1..]))
  }

  predicate RelativePath(p: Path) {
    && 0 < |p| <= MAX_ARTIFACT_PATH_DEPTH
    && TextLength(p) <= MAX_ARTIFACT_PATH_BYTES
    && forall i :: 0 <= i < |p| ==> PortableName(p[i])
  }

  // ------------------------------------------------------------------- trees

  function Lookup(node: Node, p: Path): Option<Node>
    decreases |p|
  {
    if p == [] then Some(node)
    else if node.Directory? && p[0] in node.children then Lookup(node.children[p[0]], p[1..])
    else None
  }

  predicate IsAncestor(p: Path, allowed: set<Path>) {
    exists q :: q in allowed && p < q
  }

  /** Nothing below `node` but allowed files and the directories leading to them. */
  predicate Unmanifested(node: Node, prefix: Path, allowed: set<Path>)
    decreases node
  {
    node.Directory? ==>
      forall name :: name in node.children ==>
        && PortableName(name)
        && (match node.children[name]
            case Regular(_, _) => prefix + [name] in allowed
            case Directory(_) => IsAncestor(prefix + [name], allowed)
                                 && Unmanifested(node.children[name], prefix + [name], allowed))
  }

  // -------------------------------------------------------------- validation

  function TotalSize(records: seq<Record>): nat {
    if records == [] then 0 else records[0].size + TotalSize(records[1..])
  }

  predicate DistinctPaths(records: seq<Record>) {
    forall i, j :: 0 <= i < j < |records| ==> records[i].path != records[j].path
  }

  predicate RecordsOk(records: seq<Record>) {
    && 1 <= |records| <= MAX_ARTIFACTS - 1
    && DistinctPaths(records)
    && TotalSize(records) <= MAX_TOTAL_ARTIFACT_BYTES
    && forall i :: 0 <= i < |records| ==>
         records[i].path != MANIFEST_PATH && RelativePath(records[i].path) && records[i].size <= MAX_ARTIFACT_BYTES
  }

  predicate EntrypointOk(manifest: Manifest) {
    && |manifest.entrypoint| == 3
    && manifest.entrypoint[0] !in {"sh", "bash", "zsh", "fish", "curl", "wget", "pip", "pip3", "ensurepip"}
    && manifest.entrypoint[1] == "-m"
    && manifest.entrypoint[2] in {"tuntun_edge.cli.ptt", "tuntun_edge.poc.reachy_ptt"}
    && exists i :: 0 <= i < |manifest.records| && JoinPath(manifest.records[i].path) == manifest.entrypoint[0]
                   && manifest.records[i].executable
  }

  function JoinPath(p: Path): string {
    if p == [] then "" else if |p| == 1 then p[0] else p[0] + "/" + JoinPath(p[1..])
  }

  predicate MemberMatches(root: Node, record: Record) {
    var node := Lookup(root, record.path);
    && node.Some?
    && node.value.Regular?
    && node.value.mode == (if record.executable then ReadWriteExecute else ReadWrite)
    && |node.value.raw| == record.size
    && Sha256(node.value.raw) == record.sha256
  }

  function AllowedPaths(records: seq<Record>): set<Path> {
    {MANIFEST_PATH} + set i | 0 <= i < |records| :: records[i].path
  }

  function ManifestRecord(raw: Bytes): Record {
    Record(MANIFEST_PATH, |raw|, Sha256(raw), false)
  }

  function ManifestRaw(root: Node): Option<Bytes> {
    var node := Lookup(root, MANIFEST_PATH);
    if node.Some? && node.value.Regular? && node.value.mode == ReadWrite && 0 < |node.value.raw| <= MAX_ARTIFACT_BYTES
    then Some(node.value.raw) else None
  }

  function TreeDescriptor(raw: Bytes, manifest: Manifest): Descriptor {
    Descriptor(Sha256(raw), [ManifestRecord(raw)] + manifest.records)
  }

  /** The tree is the bundle that `bundle` names. */
  predicate Validates(root: Node, bundle: Digest, json: Json) {
    && root.Directory?
    && ManifestRaw(root).Some?
    && var raw := ManifestRaw(root).value;
    && json.parse(raw).Some?
    && var manifest := json.parse(raw).value;
    && RecordsOk(manifest.records)
    && EntrypointOk(manifest)
    && (forall i {:trigger MemberMatches(root, manifest.records[i])} ::
          0 <= i < |manifest.records| ==> MemberMatches(root, manifest.records[i]))
    && Unmanifested(root, [], AllowedPaths(manifest.records))
    && bundle == Sha256(json.canonical(TreeDescriptor(raw, manifest)))
  }

  /** Content addressing: one digest names at most one tree, down to every byte,
      executable bit and directory. */
  lemma SameDigestSameTree(a: Node, b: Node, bundle: Digest, json: Json)
    requires Injective(json) && Validates(a, bundle, json) && Validates(b, bundle, json)
    ensures a == b
  {
    var rawA, rawB := ManifestRaw(a).value, ManifestRaw(b).value;
    var manifestA, manifestB := json.parse(rawA).value, json.parse(rawB).value;
    var descriptorA, descriptorB := TreeDescriptor(rawA, manifestA), TreeDescriptor(rawB, manifestB);
    assert json.canonical(descriptorA) == json.canonical(descriptorB);
    assert descriptorA == descriptorB;
    assert rawA == rawB && manifestA == manifestB;
    var allowed := AllowedPaths(manifestA.records);
    forall p | p in allowed ensures SameFile(a, b, p) {
      if p != MANIFEST_PATH {
        var i :| 0 <= i < |manifestA.records| && manifestA.records[i].path == p;
        assert MemberMatches(a, manifestA.records[i]) && MemberMatches(b, manifestA.records[i]);
      }
    }
    assert forall p :: p in allowed ==> [] + p == p;
    SameFilesSameTree(a, b, a, b, [], allowed);
  }

  ghost predicate SameFile(a: Node, b: Node, p: Path) {
    Lookup(a, p).Some? && Lookup(a, p).value.Regular? && Lookup(a, p) == Lookup(b, p)
  }

  lemma {:induction false} LookupThrough(node: Node, p: Path, q: Path)
    ensures Lookup(node, p + q) == if Lookup(node, p).None? then None else Lookup(Lookup(node, p).value, q)
    decreases |p|
  {
    if p == [] {
      assert p + q == q;
    } else if node.Directory? && p[0] in node.children {
      assert (p + q)[0] == p[0] && (p + q)[1..] == p[1..] + q;
      LookupThrough(node.children[p[0]], p[1..], q);
    } else {
      assert (p + q)[0] == p[0];
    }
  }

  /** Two subtrees at the same place of two trees that agree on the allowed files. */
  lemma {:induction false} SameFilesSameTree(a: Node, b: Node, rootA: Node, rootB: Node,
                                             prefix: Path, allowed: set<Path>)
    requires a.Directory? && b.Directory?
    requires Lookup(rootA, prefix) == Some(a) && Lookup(rootB, prefix) == Some(b)
    requires Unmanifested(a, prefix, allowed) && Unmanifested(b, prefix, allowed)
    requires forall p :: p in allowed ==> SameFile(rootA, rootB, p)
    ensures a == b
    decreases a
  {
    forall name ensures name in a.children <==> name in b.children
                ensures name in a.children ==> a.children[name] == b.children[name]
    {
      var here := prefix + [name];
      LookupThrough(rootA, prefix, [name]);
      LookupThrough(rootB, prefix, [name]);
      if name in a.children {
        assert Lookup(a, [name]) == Some(a.children[name]);
        ChildIsShared(a.children[name], rootA, rootB, here, allowed);
        assert Lookup(b, [name]).Some?;
        var other := b.children[name];
        if a.children[name].Directory? {
          SameFilesSameTree(a.children[name], other, rootA, rootB, here, allowed);
        }
      } else if name in b.children {
        assert Lookup(b, [name]) == Some(b.children[name]);
        ChildIsShared(b.children[name], rootB, rootA, here, allowed);
      }
    }
    assert a.children == b.children;
  }

  lemma ChildIsShared(child: Node, mine: Node, other: Node, here: Path, allowed: set<Path>)
    requires Lookup(mine, here) == Some(child)
    requires child.Regular? ==> here in allowed
    requires child.Directory? ==> IsAncestor(here, allowed)
    requires forall p :: p in allowed ==> SameFile(mine, other, p)
    ensures Lookup(other, here).Some?
    ensures child.Regular? ==> Lookup(other, here) == Some(child)
    ensures child.Directory? ==> Lookup(other, here).value.Directory?
  {
    if child.Directory? {
      var q :| q in allowed && here < q;
      var rest := q[|here|..];
      assert here + rest == q;
      LookupThrough(other, here, rest);
    } else {
      assert SameFile(mine, other, here);
    }
  }

  // -------------------------------------------------------------- stage plan

  predicate PlanOk(bundle: Digest, artifacts: seq<Record>, json: Json) {
    && 1 <= |artifacts| <= MAX_ARTIFACTS
    && DistinctPaths(artifacts)
    && TotalSize(artifacts) <= MAX_TOTAL_ARTIFACT_BYTES
    && (forall i :: 0 <= i < |artifacts| ==> RelativePath(artifacts[i].path) && artifacts[i].size <= MAX_ARTIFACT_BYTES)
    && (exists i :: 0 <= i < |artifacts| && artifacts[i].path == MANIFEST_PATH
                    && bundle == Sha256(json.canonical(Descriptor(artifacts[i].sha256, artifacts))))
  }

  /** A plan whose materialised tree validates lists the manifest first, and then
      exactly the manifest's artifacts in the manifest's order. */
  lemma SurvivingPlanIsManifest(plan: Plan, root: Node, json: Json)
    requires Injective(json) && PlanOk(plan.bundle, plan.artifacts, json) && Validates(root, plan.bundle, json)
    ensures plan.artifacts ==
            [ManifestRecord(ManifestRaw(root).value)] + json.parse(ManifestRaw(root).value).value.records
  {
    var raw := ManifestRaw(root).value;
    var i :| 0 <= i < |plan.artifacts| && plan.artifacts[i].path == MANIFEST_PATH
             && plan.bundle == Sha256(json.canonical(Descriptor(plan.artifacts[i].sha256, plan.artifacts)));
    var planned := Descriptor(plan.artifacts[i].sha256, plan.artifacts);
    assert json.canonical(planned) == json.canonical(TreeDescriptor(raw, json.parse(raw).value));
    assert planned == TreeDescriptor(raw, json.parse(raw).value);
  }

  lemma TotalSizeAppend(records: seq<Record>, more: Record)
    ensures TotalSize(records + [more]) == TotalSize(records) + more.size
  {
    if records != [] {
      assert (records + [more])[1..] == records[1..] + [more];
      TotalSizeAppend(records[1..], more);
    } else {
      assert records + [more] == [more];
    }
  }

  lemma TotalSizeMonotone(records: seq<Record>, k: nat)
    requires k <= |records|
    ensures TotalSize(records[..k]) <= TotalSize(records)
    decreases |records| - k
  {
    if k == |records| {
      assert records[..k] == records;
    } else {
      assert records[..k + 1] == records[..k] + [records[k]];
      TotalSizeAppend(records[..k], records[k]);
      TotalSizeMonotone(records, k + 1);
    }
  }

  /** Parses the artifact list of a stage request in one pass. */
  method ParseStagePayload(bundle: Digest, artifacts: seq<Record>, json: Json) returns (r: Option<Plan>)
    ensures r == if PlanOk(bundle, artifacts, json) then Some(Plan(bundle, artifacts)) else None
  {
    if !(1 <= |artifacts| <= MAX_ARTIFACTS) { return None; }
    var seen: set<Path> := {};
    var total := 0;
    var manifest: Option<Record> := None;
    var k := 0;
    while k < |artifacts|
      invariant 0 <= k <= |artifacts|
      invariant seen == set i | 0 <= i < k :: artifacts[i].path
      invariant total == TotalSize(artifacts[..k]) <= MAX_TOTAL_ARTIFACT_BYTES
      invariant forall i, j :: 0 <= i < j < k ==> artifacts[i].path != artifacts[j].path
      invariant forall i :: 0 <= i < k ==> RelativePath(artifacts[i].path) && artifacts[i].size <= MAX_ARTIFACT_BYTES
      invariant manifest.None? ==> forall i :: 0 <= i < k ==> artifacts[i].path != MANIFEST_PATH
      invariant manifest.Some? ==>
                  exists i :: 0 <= i < k && artifacts[i] == manifest.value && artifacts[i].path == MANIFEST_PATH
    {
      var artifact := artifacts[k];
      if !RelativePath(artifact.path) || artifact.path in seen || artifact.size > MAX_ARTIFACT_BYTES { return None; }
      seen := seen + {artifact.path};
      total := total + artifact.size;
      assert artifacts[..k + 1] == artifacts[..k] + [artifact];
      TotalSizeAppend(artifacts[..k], artifact);
      TotalSizeMonotone(artifacts, k + 1);
      if total > MAX_TOTAL_ARTIFACT_BYTES { return None; }
      if manifest.None? && artifact.path == MANIFEST_PATH { manifest := Some(artifact); }
      k := k + 1;
    }
    assert artifacts[..k] == artifacts;
    if manifest.None? { return None; }
    if Sha256(json.canonical(Descriptor(manifest.value.sha256, artifacts))) != bundle { return None; }
    r := Some(Plan(bundle, artifacts));
  }

  /** Validates one generation directory record by record. */
  method ValidateBundleDirectory(root: Node, bundle: Digest, json: Json) returns (r: Option<Manifest>)
    ensures r.Some? <==> Validates(root, bundle, json)
    ensures r.Some? ==> r == json.parse(ManifestRaw(root).value)
  {
    var manifestRaw := ManifestRaw(root);
    if !root.Directory? || manifestRaw.None? { return None; }
    var parsed := json.parse(manifestRaw.value);
    if parsed.None? { return None; }
    var manifest := parsed.value;
    if !RecordsOk(manifest.records) || !EntrypointOk(manifest) { return None; }
    var declared: seq<Record> := [];
    var allowed: set<Path> := {MANIFEST_PATH};
    for k := 0 to |manifest.records|
      invariant declared == manifest.records[..k]
      invariant allowed == {MANIFEST_PATH} + set i | 0 <= i < k :: manifest.records[i].path
      invariant forall i :: 0 <= i < k ==> MemberMatches(root, manifest.records[i])
    {
      if !MemberMatches(root, manifest.records[k]) { return None; }
      declared := declared + [manifest.records[k]];
      allowed := allowed + {manifest.records[k].path};
    }
    assert allowed == AllowedPaths(manifest.records) && declared == manifest.records;
    if !Unmanifested(root, [], allowed) { return None; }
    var descriptor := Descriptor(Sha256(manifestRaw.value), [ManifestRecord(manifestRaw.value)] + declared);
    if Sha256(json.canonical(descriptor)) != bundle { return None; }
    r := Some(manifest);
  }
}
