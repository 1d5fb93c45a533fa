/** What a valid bundle and a well-formed plan are, said of files and paths: the
    reference that the dispatcher's checks are compared with. */
module BundleReference {
  import opened Bundle
  import opened Wrappers

  // -------------------------------------------------------------------- paths

  /** The ASCII letters and digits, plus, minus, full stop and underscore, by their codes. */
  predicate GoodChar(c: char) {
    var code := c as int;
    code == 43 || code == 45 || code == 46 || 48 <= code <= 57 || 65 <= code <= 90 || code == 95 || 97 <= code <= 122
  }

  /** A component: one to 255 portable characters, and not a way up or to itself. */
  ghost predicate GoodName(name: string) {
    && 1 <= |name| <= 255
    && name != "." && name != ".."
    && forall c :: c in name ==> GoodChar(c)
  }

  /** At most 16 components, and at most 512 bytes with the slashes between them. */
  ghost predicate GoodPath(p: Path) {
    && 1 <= |p| <= 16
    && |JoinPath(p)| <= 512
    && forall i :: 0 <= i < |p| ==> GoodName(p[i])
  }

  lemma NameExact(name: string)
    ensures PortableName(name) <==> GoodName(name)
  {
    assert forall c :: PortableChar(c) <==> GoodChar(c);
    hide PortableChar, GoodChar;
    if PortableName(name) {
      forall c | c in name ensures GoodChar(c) { var i :| 0 <= i < |name| && name[i] == c; }
    }
  }

  lemma {:induction false} LengthExact(p: Path)
    ensures TextLength(p) == |JoinPath(p)|
  {
    if |p| > 1 { LengthExact(p[1..]); }
  }

  lemma PathExact(p: Path)
    ensures RelativePath(p) <==> GoodPath(p)
  {
    hide PortableName, GoodName, TextLength, JoinPath;
    LengthExact(p);
    forall i | 0 <= i < |p| ensures PortableName(p[i]) <==> GoodName(p[i]) { NameExact(p[i]); }
  }

  /** The components of a text, between slashes. */
  function Components(s: string): (p: Path)
    ensures p != []
  {
    if s == [] then [[]]
    else
      var rest := Components(s[1..]);
      if s[0] == '/' then [[]] + rest else [[s[0]] + rest[0]] + rest[1..]
  }

  lemma {:induction false} ComponentsOfName(name: string, rest: string)
    requires '/' !in name
    ensures Components(name) == [name] && Components(name + "/" + rest) == [name] + Components(rest)
  {
    if name == [] {
      assert name + "/" + rest == "/" + rest && ("/" + rest)[1..] == rest;
    } else {
      ComponentsOfName(name[1..], rest);
      assert (name + "/" + rest)[1..] == name[1..] + "/" + rest && [name[0]] + name[1..] == name;
    }
  }

  /** Joining loses nothing: the text of a good path gives its components back. */
  lemma {:induction false} JoinIsUndone(p: Path)
    requires p != [] && forall i :: 0 <= i < |p| ==> GoodName(p[i])
    ensures Components(JoinPath(p)) == p
  {
    assert '/' !in p[0] by { assert !GoodChar('/'); }
    hide GoodName, Components;
    if |p| == 1 {
      ComponentsOfName(p[0], []);
    } else {
      ComponentsOfName(p[0], JoinPath(p[1..]));
      JoinIsUndone(p[1..]);
      assert p == [p[0]] + p[1..];
    }
  }

  // ------------------------------------------------------------------ records

  /** Sizes added up over the indices, from the last one down. */
  function Sum(records: seq<Record>): nat {
    if records == [] then 0 else Sum(records[..|records| - 1]) + records[|records| - 1].size
  }

  lemma {:induction false} SumExact(records: seq<Record>)
    ensures TotalSize(records) == Sum(records)
  {
    if records != [] {
      var n := |records| - 1;
      SumExact(records[..n]);
      TotalSizeAppend(records[..n], records[n]);
      assert records[..n] + [records[n]] == records;
    }
  }

  /** Records of at most 32 MiB each and 256 MiB together, no path twice. */
  ghost predicate GoodRecords(records: seq<Record>, most: nat) {
    && 1 <= |records| <= most
    && |set i | 0 <= i < |records| :: records[i].path| == |records|
    && Sum(records) <= 268_435_456
    && forall i :: 0 <= i < |records| ==> GoodPath(records[i].path) && records[i].size <= 33_554_432
  }

  lemma {:induction false} DistinctExact(records: seq<Record>)
    ensures |set i | 0 <= i < |records| :: records[i].path| <= |records|
    ensures DistinctPaths(records) <==> |set i | 0 <= i < |records| :: records[i].path| == |records|
  {
    if records != [] {
      var n := |records| - 1;
      var before, last := records[..n], records[n].path;
      DistinctExact(before);
      var some, all := set i | 0 <= i < n :: before[i].path, set i | 0 <= i < |records| :: records[i].path;
      assert all == some + {last} by {
        forall i | 0 <= i < |records| ensures records[i].path in some + {last} {
          if i < n { assert before[i] == records[i]; }
        }
        forall i | 0 <= i < n ensures before[i].path in all { assert before[i] == records[i]; }
      }
      assert last in some <==> exists i :: 0 <= i < n && records[i].path == last by {
        forall i | 0 <= i < n ensures before[i] == records[i] {}
      }
      assert DistinctPaths(records) <==> DistinctPaths(before) && last !in some by {
        assert forall i :: 0 <= i < n ==> before[i] == records[i];
      }
    }
  }

  lemma RecordsExact(records: seq<Record>)
    ensures RecordsOk(records) <==>
              GoodRecords(records, 31) && forall i :: 0 <= i < |records| ==> records[i].path != ["manifest.json"]
  {
    hide RelativePath, GoodPath, TotalSize, Sum, DistinctPaths;
    DistinctExact(records);
    SumExact(records);
    forall i | 0 <= i < |records| ensures RelativePath(records[i].path) <==> GoodPath(records[i].path) {
      PathExact(records[i].path);
    }
  }

  /** A plan: a manifest among good records, and a digest over all of them. */
  ghost predicate GoodPlan(bundle: Digest, artifacts: seq<Record>, json: Json) {
    && GoodRecords(artifacts, 32)
    && exists i :: 0 <= i < |artifacts| && artifacts[i].path == ["manifest.json"]
                   && bundle == Sha256(json.canonical(Descriptor(artifacts[i].sha256, artifacts)))
  }

  lemma PlanExact(bundle: Digest, artifacts: seq<Record>, json: Json)
    ensures PlanOk(bundle, artifacts, json) <==> GoodPlan(bundle, artifacts, json)
  {
    hide RelativePath, GoodPath, TotalSize, Sum, DistinctPaths;
    DistinctExact(artifacts);
    SumExact(artifacts);
    forall i | 0 <= i < |artifacts| ensures RelativePath(artifacts[i].path) <==> GoodPath(artifacts[i].path) {
      PathExact(artifacts[i].path);
    }
  }

  // -------------------------------------------------------------------- trees

  /** What may lie at path `p`: a file that is meant to be there, or a directory on the
      way to one. */
  ghost predicate Meant(node: Node, p: Path, files: set<Path>) {
    && (forall i :: 0 <= i < |p| ==> GoodName(p[i]))
    && (node.Regular? ==> p in files)
    && (node.Directory? ==> exists q :: q in files && p < q)
  }

  /** Everything below `node`, which lies at `prefix`, is meant to be there. */
  ghost predicate OnlyMeant(node: Node, prefix: Path, files: set<Path>) {
    forall p: Path :: p != [] && Lookup(node, p).Some? ==> Meant(Lookup(node, p).value, prefix + p, files)
  }

  lemma {:induction false} WalkExact(node: Node, prefix: Path, files: set<Path>)
    requires forall i :: 0 <= i < |prefix| ==> GoodName(prefix[i])
    ensures Unmanifested(node, prefix, files) <==> OnlyMeant(node, prefix, files)
    decreases node, 1
  {
    hide GoodName, PortableName;
    if node.Directory? {
      if Unmanifested(node, prefix, files) {
        forall p: Path | p != [] && Lookup(node, p).Some? ensures Meant(Lookup(node, p).value, prefix + p, files) {
          WalkedIsMeant(node, prefix, files, p);
        }
      }
      if OnlyMeant(node, prefix, files) {
        forall name | name in node.children
          ensures PortableName(name)
          ensures node.children[name].Regular? ==> prefix + [name] in files
          ensures node.children[name].Directory? ==>
                    IsAncestor(prefix + [name], files) && Unmanifested(node.children[name], prefix + [name], files)
        {
          MeantIsWalked(node, prefix, files, name);
        }
      }
    }
  }

  lemma {:induction false} WalkedIsMeant(node: Node, prefix: Path, files: set<Path>, p: Path)
    requires node.Directory? && Unmanifested(node, prefix, files) && p != [] && Lookup(node, p).Some?
    requires forall i :: 0 <= i < |prefix| ==> GoodName(prefix[i])
    ensures Meant(Lookup(node, p).value, prefix + p, files)
    decreases |p|
  {
    hide GoodName, PortableName;
    NameExact(p[0]);
    var child := node.children[p[0]];
    assert prefix + p == (prefix + [p[0]]) + p[1..];
    if |p| == 1 {
      assert p == [p[0]] && Lookup(child, p[1..]) == Some(child);
    } else {
      WalkedIsMeant(child, prefix + [p[0]], files, p[1..]);
    }
  }

  lemma {:induction false} MeantIsWalked(node: Node, prefix: Path, files: set<Path>, name: string)
    requires node.Directory? && OnlyMeant(node, prefix, files) && name in node.children
    requires forall i :: 0 <= i < |prefix| ==> GoodName(prefix[i])
    ensures PortableName(name)
    ensures node.children[name].Regular? ==> prefix + [name] in files
    ensures node.children[name].Directory? ==>
              IsAncestor(prefix + [name], files) && Unmanifested(node.children[name], prefix + [name], files)
    decreases node, 0
  {
    hide GoodName, PortableName;
    var child := node.children[name];
    assert Lookup(node, [name]) == Some(child);
    assert Meant(child, prefix + [name], files);
    assert GoodName((prefix + [name])[|prefix|]);
    NameExact(name);
    if child.Directory? {
      forall p: Path | p != [] && Lookup(child, p).Some?
        ensures Meant(Lookup(child, p).value, prefix + [name] + p, files)
      {
        assert Lookup(node, [name] + p) == Lookup(child, p) by { assert ([name] + p)[1..] == p; }
        assert prefix + ([name] + p) == prefix + [name] + p;
      }
      WalkExact(child, prefix + [name], files);
    }
  }

  /** The tree holds the manifest, the recorded files with their bytes and executable
      bits, the directories above them, and nothing else; and the digest is that of the
      manifest and its records. */
  ghost predicate GoodTree(root: Node, raw: Bytes, manifest: Manifest, bundle: Digest, json: Json) {
    && root.Directory?
    && Lookup(root, ["manifest.json"]) == Some(Regular(raw, ReadWrite)) && 1 <= |raw| <= 33_554_432
    && json.parse(raw) == Some(manifest)
    && GoodRecords(manifest.records, 31)
    && (forall i :: 0 <= i < |manifest.records| ==> manifest.records[i].path != ["manifest.json"])
    && GoodEntrypoint(manifest)
    && (forall i :: 0 <= i < |manifest.records| ==> Recorded(root, manifest.records[i]))
    && OnlyMeant(root, [], {["manifest.json"]} + set i | 0 <= i < |manifest.records| :: manifest.records[i].path)
    && bundle == Sha256(json.canonical(
         Descriptor(Sha256(raw), [Record(["manifest.json"], |raw|, Sha256(raw), false)] + manifest.records)))
  }

  ghost predicate Recorded(root: Node, r: Record) {
    exists raw :: && |raw| == r.size && Sha256(raw) == r.sha256
                  && Lookup(root, r.path) == Some(Regular(raw, if r.executable then ReadWriteExecute else ReadWrite))
  }

  /** Three words: a recorded executable that is no shell or downloader, `-m`, and one
      of the two push-to-talk modules. */
  ghost predicate GoodEntrypoint(manifest: Manifest) {
    && |manifest.entrypoint| == 3
    && manifest.entrypoint[0] !in ["sh", "bash", "zsh", "fish", "curl", "wget", "pip", "pip3", "ensurepip"]
    && manifest.entrypoint[1] == "-m"
    && (manifest.entrypoint[2] == "tuntun_edge.cli.ptt" || manifest.entrypoint[2] == "tuntun_edge.poc.reachy_ptt")
    && exists r :: r in manifest.records && r.executable && JoinPath(r.path) == manifest.entrypoint[0]
  }

  /** The validation accepts exactly those trees. */
  lemma ValidatesExact(root: Node, bundle: Digest, json: Json)
    ensures Validates(root, bundle, json) <==> exists raw, manifest :: GoodTree(root, raw, manifest, bundle, json)
  {
    hide RecordsOk, GoodRecords, OnlyMeant, Unmanifested, EntrypointOk, GoodEntrypoint, MemberMatches, Recorded;
    if Validates(root, bundle, json) {
      var raw := ManifestRaw(root).value;
      ManifestExact(root, raw, json.parse(raw).value, json);
      assert GoodTree(root, raw, json.parse(raw).value, bundle, json);
    }
    if raw, manifest :| GoodTree(root, raw, manifest, bundle, json) { ManifestExact(root, raw, manifest, json); }
  }

  lemma ManifestExact(root: Node, raw: Bytes, manifest: Manifest, json: Json)
    ensures RecordsOk(manifest.records) <==>
              && GoodRecords(manifest.records, 31)
              && forall i :: 0 <= i < |manifest.records| ==> manifest.records[i].path != ["manifest.json"]
    ensures EntrypointOk(manifest) <==> GoodEntrypoint(manifest)
    ensures forall i :: 0 <= i < |manifest.records| ==>
              (MemberMatches(root, manifest.records[i]) <==> Recorded(root, manifest.records[i]))
    ensures AllowedPaths(manifest.records)
            == {["manifest.json"]} + set i | 0 <= i < |manifest.records| :: manifest.records[i].path
    ensures Unmanifested(root, [], AllowedPaths(manifest.records)) <==>
              OnlyMeant(root, [], AllowedPaths(manifest.records))
  {
    RecordsExact(manifest.records);
    EntrypointExact(manifest);
    WalkExact(root, [], AllowedPaths(manifest.records));
    hide RecordsOk, GoodRecords, OnlyMeant, Unmanifested, EntrypointOk, GoodEntrypoint;
  }

  lemma EntrypointExact(manifest: Manifest)
    ensures EntrypointOk(manifest) <==> GoodEntrypoint(manifest)
  {
    hide JoinPath;
    if GoodEntrypoint(manifest) {
      var r :| r in manifest.records && r.executable && JoinPath(r.path) == manifest.entrypoint[0];
      var i :| 0 <= i < |manifest.records| && manifest.records[i] == r;
    }
  }
}
