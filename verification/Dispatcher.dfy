/**
 The forced-command dispatcher: a state file published by compare-and-swap, and
 a store of content-addressed generations.  All requests run under one lock.

 Every method may stop before any of its mutations: `Raised` when the request
 fails, `Crashed` when the process dies.  A clause without a condition on the
 outcome therefore holds at every crash point.
 */
module Dispatcher {
  import opened Faults
  import opened Wrappers
  import opened Bundle
  import opened Staging

  const MAX_JSON_INT: nat := 0x1F_FFFF_FFFF_FFFF

  datatype Status = Commissioned | Staged | Active | Removed | Revoked

  /** The deployment record; `fixed` is everything a request never changes. */
  datatype Deployment = Deployment(fixed: Fixed, generation: nat, status: Status,
                                   staged: Option<Digest>, active: Option<Digest>)
  datatype Fixed = Fixed(commissioningId: string, pttInputMode: string, rest: string)

  datatype Response = Response(operationId: string, generation: nat, status: Status,
                               staged: Option<Digest>, active: Option<Digest>, verifiedAbsent: Option<Digest>)
  datatype Handoff = Handoff(path: Path, raw: Bytes)

  /** The state record and the stored generations, as one lock holder finds them. */
  datatype View = View(state: Deployment, generations: map<Digest, Node>)

  predicate StatusOk(d: Deployment) {
    match d.status
    case Staged => d.staged.Some? && d.active.None?
    case Active => d.staged.None? && d.active.Some?
    case Revoked => false
    case _ => d.staged.None? && d.active.None?
  }

  predicate ValidState(d: Deployment) {
    1 <= d.generation <= MAX_JSON_INT && StatusOk(d)
  }

  /** A record is valid if and only if its status says which of the two names it holds. */
  lemma StatusTells(d: Deployment)
    ensures ValidState(d) <==>
              && 1 <= d.generation <= 9_007_199_254_740_991
              && (d.status, d.staged.Some?, d.active.Some?) in
                   {(Commissioned, false, false), (Staged, true, false), (Active, false, true), (Removed, false, false)}
  {
  }

  predicate Names(d: Deployment, bundle: Digest) {
    d.staged == Some(bundle) || d.active == Some(bundle)
  }

  function Respond(operationId: string, d: Deployment, absent: Option<Digest>): Response {
    Response(operationId, d.generation, d.status, d.staged, d.active, absent)
  }

  function AfterStage(d: Deployment, bundle: Digest): Deployment {
    Deployment(d.fixed, d.generation + 1, Staged, Some(bundle), None)
  }

  function AfterActivate(d: Deployment, bundle: Digest): Deployment {
    Deployment(d.fixed, d.generation + 1, Active, None, Some(bundle))
  }

  function AfterRemove(d: Deployment, bundle: Digest): Deployment {
    var active := if d.active == Some(bundle) then None else d.active;
    var staged := if d.staged == Some(bundle) then None else d.staged;
    var status := if active.None? && staged.None? then Removed else if active.Some? then Active else Staged;
    Deployment(d.fixed, d.generation + 1, status, staged, active)
  }

  /** The generation is there and is what its digest says. */
  predicate Stored(bundle: Digest, generations: map<Digest, Node>, json: Json) {
    bundle in generations && Validates(generations[bundle], bundle, json)
  }

  /** So is every bundle the state names. */
  predicate Backed(d: Deployment, generations: map<Digest, Node>, json: Json) {
    && (d.staged.Some? ==> Stored(d.staged.value, generations, json))
    && (d.active.Some? ==> Stored(d.active.value, generations, json))
  }

  class Root {
    const json: Json

    var state: Deployment
    /** Temporary state files still present; `None` is a file not yet fully written. */
    var temps: seq<Option<Deployment>>
    var generations: map<Digest, Node>
    var staging: map<(string, Digest), Node>

    /** What every request keeps.  The requests themselves rely on the state record
        alone and look at the trees again. */
    ghost predicate Inv()
      reads this
    {
      ValidState(state) && Backed(state, generations, json)
    }

    ghost function Now(): View
      reads this
    {
      View(state, generations)
    }

    /** A commissioned root: nothing staged, nothing stored. */
    constructor (json: Json, fixed: Fixed)
      ensures Inv() && this.json == json
      ensures state == Deployment(fixed, 1, Commissioned, None, None) && generations == map[]
    {
      this.json, state := json, Deployment(fixed, 1, Commissioned, None, None);
      temps, generations, staging := [], map[], map[];
    }

    /** Unlinks this publication's temporary file, if the unlink works. */
    method Discard(calm: bool) returns (r: Outcome<Deployment>)
      requires |temps| > 0
      modifies this`temps
      ensures temps == old(temps) || temps == old(temps[..|temps| - 1])
      ensures !r.Returned?
      ensures calm ==> temps == old(temps[..|temps| - 1])
    {
      var fault := Tick(calm);
      if fault == Crash { return Crashed; }
      if fault == Calm { temps := temps[..|temps| - 1]; }
      r := Raised;
    }

    /** Exchanges the two files back after a failed check. */
    method Restore(calm: bool) returns (r: Outcome<Deployment>)
      requires |temps| > 0 && temps[|temps| - 1].Some?
      modifies this`state, this`temps
      ensures !r.Returned?
      ensures state == old(state) || state == old(temps[|temps| - 1].value)
      ensures old(temps[..|temps| - 1]) <= temps && |temps| <= |old(temps)|
      ensures calm ==> state == old(temps[|temps| - 1].value) && temps == old(temps[..|temps| - 1])
    {
      var fault := Tick(calm);
      if fault != Calm { return if fault == Crash then Crashed else Raised; }
      var last := |temps| - 1;
      state, temps := temps[last].value, temps[last := Some(state)];
      fault := Tick(calm);
      if fault != Calm { return if fault == Crash then Crashed else Raised; }
      r := Discard(calm);
    }

    /** Compare-and-swap publication.  Whatever happens, the state file holds
        exactly the old or exactly the new record. */
    method PublishState(next: Deployment, expected: Deployment, calm: bool) returns (r: Outcome<Deployment>)
      modifies this`state, this`temps
      ensures state == old(state) || state == next
      ensures old(state) != expected || !ValidState(next) || !ValidState(expected) ==>
                r == Raised && state == old(state)
      ensures r.Returned? ==> state == next == r.value && temps == old(temps)
      ensures old(temps) <= temps && |temps| <= |old(temps)| + 1
      ensures calm && old(state) == expected && ValidState(next) && ValidState(expected) ==> r.Returned?
    {
      if !ValidState(next) || !ValidState(expected) { return Raised; }
      if state != expected { return Raised; }
      var fault := Tick(calm);
      if fault != Calm { return if fault == Crash then Crashed else Raised; }
      temps := temps + [None];
      var last := |temps| - 1;
      fault := Tick(calm);
      if fault == Crash { return Crashed; }
      if fault == Error { r := Discard(calm); return; }
      temps := temps[last := Some(next)];
      fault := Tick(calm);
      if fault == Crash { return Crashed; }
      if fault == Error { r := Discard(calm); return; }
      state, temps := temps[last].value, temps[last := Some(state)];
      // Both names are read back, the directory is flushed, and both are read again.
      fault := Tick(calm);
      if fault == Crash { return Crashed; }
      if fault == Error { r := Restore(calm); return; }
      assert state == next && temps[last] == Some(expected);
      fault := Tick(calm);
      if fault == Crash { return Crashed; }
      if fault == Error { r := Restore(calm); return; }
      temps := temps[..last];
      // A failure here is reported although the new record is in place.
      fault := Tick(calm);
      if fault != Calm { return if fault == Crash then Crashed else Raised; }
      r := Returned(state);
    }

    /** Writes the artifacts one after the other as their bytes arrive. */
    method WriteArtifacts(artifacts: seq<Record>, key: (string, Digest), stream: Bytes, calm: bool)
      returns (r: Outcome<Node>)
      modifies this`staging
      ensures r.Returned? ==> Some(r.value) == WriteAll(Directory(map[]), artifacts, stream)
      ensures calm && WriteAll(Directory(map[]), artifacts, stream).Some? ==> r.Returned?
      ensures staging - {key} == old(staging) - {key}
      ensures r.Returned? && artifacts != [] ==> key in staging && staging[key] == r.value
    {
      staging := staging - {key};
      var tree := Directory(map[]);
      var rest := stream;
      var k := 0;
      while k < |artifacts|
        invariant 0 <= k <= |artifacts|
        invariant WriteAll(Directory(map[]), artifacts, stream) == WriteAll(tree, artifacts[k..], rest)
        invariant staging - {key} == old(staging) - {key}
        invariant k > 0 ==> key in staging && staging[key] == tree
      {
        var fault := Tick(calm);
        if fault != Calm {
          // Whatever of the artifact was written is left or removed.
          var remains: Node, left: bool := *, *;
          staging := if left then staging[key := remains] else staging - {key};
          return if fault == Crash then Crashed else Raised;
        }
        var artifact := artifacts[k];
        assert artifacts[k..][1..] == artifacts[k + 1..];
        if |rest| < artifact.size || Sha256(rest[..artifact.size]) != artifact.sha256 { return Raised; }
        var grown := Insert(tree, artifact.path, FileFor(artifact, rest[..artifact.size]));
        if grown.None? { return Raised; }
        tree, rest, k := grown.value, rest[artifact.size..], k + 1;
        staging := staging[key := tree];
      }
      if rest != [] { return Raised; }
      r := Returned(tree);
    }

    /** Writes the plan into the staging area, validates it there, and moves it
        under its digest.  No other generation changes, and nothing invalid
        appears under the digest. */
    method Materialize(plan: Plan, operationId: string, stream: Bytes, calm: bool) returns (r: Outcome<()>)
      requires PlanOk(plan.bundle, plan.artifacts, json)
      modifies this`generations, this`staging
      ensures generations == old(generations)
              || (plan.bundle !in old(generations) && plan.bundle in generations
                  && Validates(generations[plan.bundle], plan.bundle, json)
                  && generations == old(generations)[plan.bundle := generations[plan.bundle]])
      ensures r.Returned? ==> plan.bundle in generations && Validates(generations[plan.bundle], plan.bundle, json)
      ensures var key := (operationId, plan.bundle);
              && staging - {key} == old(staging) - {key}
              && (r.Returned? && plan.bundle !in old(generations) ==> key !in staging)
      ensures !old(Materializable(plan, stream, generations, json)) ==> !r.Returned? && generations == old(generations)
      ensures calm && old(Materializable(plan, stream, generations, json)) ==> r.Returned?
    {
      var fault := Tick(calm);
      if fault != Calm { return if fault == Crash then Crashed else Raised; }
      if plan.bundle in generations {
        if !Validates(generations[plan.bundle], plan.bundle, json) { return Raised; }
        if SplitStream(plan.artifacts, stream).None? { return Raised; }
        return Returned(());
      }
      var key := (operationId, plan.bundle);
      WriteAllIsBuild(plan.artifacts, stream);
      var written := WriteArtifacts(plan.artifacts, key, stream, calm);
      if written.Crashed? { return Crashed; }
      if written.Raised? { return Raised; }
      var tree := written.value;
      if !Validates(tree, plan.bundle, json) { return Raised; }
      fault := Tick(calm);
      if fault != Calm { return if fault == Crash then Crashed else Raised; }
      generations, staging := generations[plan.bundle := tree], staging - {key};
      fault := Tick(calm);
      if fault != Calm { return if fault == Crash then Crashed else Raised; }
      r := Returned(());
    }

    /** stage: materialise, then publish.  A bundle already named is only checked. */
    method HandleStage(operationId: string, expectedGeneration: nat, bundle: Digest, artifacts: seq<Record>,
                       stream: Bytes, calm: bool) returns (r: Outcome<Response>)
      requires ValidState(state)
      modifies this
      ensures ValidState(state) && (old(Inv()) ==> Inv())
      ensures RootStep(old(Now()), Stage(expectedGeneration, bundle), Now(), json)
      ensures generations == old(generations)
              || (bundle !in old(generations) && bundle in generations
                  && generations == old(generations)[bundle := generations[bundle]])
      ensures r.Returned? ==>
                r.value == Response(operationId, state.generation, state.status, state.staged, state.active, None)
      ensures r.Returned? ==> state.staged == Some(bundle) || state.active == Some(bundle)
      ensures r.Returned? && !old(Names(state, bundle)) ==>
                state == Deployment(old(state.fixed), old(state.generation) + 1, Staged, Some(bundle), None)
      ensures r.Returned? || state != old(state) ==> Stored(bundle, generations, json)
      ensures old(Names(state, bundle)) ==> state == old(state) && generations == old(generations)
      ensures r.Returned? && !old(Names(state, bundle)) ==> state == AfterStage(old(state), bundle)
      ensures r.Returned? ==>
                old(StageAccepted(state, generations, json, expectedGeneration, bundle, artifacts, stream))
      ensures calm && old(StageAccepted(state, generations, json, expectedGeneration, bundle, artifacts, stream)) ==>
                r.Returned?
    {
      hide Validates, SplitStream, BuildsValid;
      var plan := ParseStagePayload(bundle, artifacts, json);
      if plan.None? { return Raised; }
      if Names(state, bundle) {
        var fault := Tick(calm);
        if fault != Calm { return if fault == Crash then Crashed else Raised; }
        if !Stored(bundle, generations, json) { return Raised; }
        if SplitStream(artifacts, stream).None? { return Raised; }
        return Returned(Respond(operationId, state, None));
      }
      if expectedGeneration != state.generation { return Raised; }
      var made := Materialize(plan.value, operationId, stream, calm);
      if made.Crashed? { return Crashed; }
      if made.Raised? { return Raised; }
      var published := PublishState(AfterStage(state, bundle), state, calm);
      if published.Crashed? { return Crashed; }
      if published.Raised? { return Raised; }
      r := Returned(Respond(operationId, published.value, None));
    }

    /** activate: only what is staged, and only after validating it again. */
    method HandleActivate(operationId: string, expectedGeneration: nat, bundle: Digest, calm: bool)
      returns (r: Outcome<Response>)
      requires ValidState(state)
      modifies this`state, this`temps
      ensures ValidState(state) && (old(Inv()) ==> Inv())
      ensures RootStep(old(Now()), Activate(expectedGeneration, bundle), Now(), json)
      ensures r.Returned? ==>
                r.value == Response(operationId, state.generation, state.status, state.staged, state.active, None)
      ensures r.Returned? ==> state.active == Some(bundle)
      ensures r.Returned? && old(state.active) != Some(bundle) ==>
                state == Deployment(old(state.fixed), old(state.generation) + 1, Active, None, Some(bundle))
      ensures r.Returned? || state != old(state) ==> Stored(bundle, generations, json)
      ensures old(state.active) == Some(bundle) ==> state == old(state)
      ensures r.Returned? && old(state.active) != Some(bundle) ==> state == AfterActivate(old(state), bundle)
      ensures r.Returned? ==> old(ActivateAccepted(state, generations, json, expectedGeneration, bundle))
      ensures calm && old(ActivateAccepted(state, generations, json, expectedGeneration, bundle)) ==> r.Returned?
    {
      var fault := Tick(calm);
      if fault != Calm { return if fault == Crash then Crashed else Raised; }
      if state.active == Some(bundle) {
        if !Stored(bundle, generations, json) { return Raised; }
        return Returned(Respond(operationId, state, None));
      }
      if expectedGeneration != state.generation { return Raised; }
      if state.staged != Some(bundle) { return Raised; }
      if !Stored(bundle, generations, json) { return Raised; }
      var published := PublishState(AfterActivate(state, bundle), state, calm);
      if published.Crashed? { return Crashed; }
      if published.Raised? { return Raised; }
      r := Returned(Respond(operationId, published.value, None));
    }

    /** remove: the state stops naming the bundle before its files go. */
    method HandleRemove(operationId: string, expectedGeneration: nat, bundle: Digest, calm: bool)
      returns (r: Outcome<Response>)
      requires ValidState(state)
      modifies this`state, this`temps, this`generations
      ensures ValidState(state) && (old(Inv()) ==> Inv())
      ensures RootStep(old(Now()), Remove(expectedGeneration, bundle), Now(), json)
      ensures generations - {bundle} == old(generations) - {bundle}
      ensures r.Returned? ==>
                && bundle !in generations
                && !Names(state, bundle)
                && r.value
                   == Response(operationId, state.generation, state.status, state.staged, state.active, Some(bundle))
      ensures forall d :: d != bundle ==> (state.staged == Some(d) <==> old(state.staged) == Some(d))
      ensures forall d :: d != bundle ==> (state.active == Some(d) <==> old(state.active) == Some(d))
      ensures r.Returned? && old(Names(state, bundle) || bundle in generations) ==>
                && state.generation == old(state.generation) + 1 && state.fixed == old(state.fixed)
                && (state.status == Removed <==> state.staged.None? && state.active.None?)
                && (state.status == Staged <==> state.staged.Some?) && (state.status == Active <==> state.active.Some?)
      ensures old(!Names(state, bundle) && bundle !in generations) ==>
                state == old(state) && generations == old(generations)
      ensures r.Returned? ==> old(RemoveAccepted(state, generations, expectedGeneration, bundle))
      ensures calm && old(RemoveAccepted(state, generations, expectedGeneration, bundle)) ==> r.Returned?
    {
      var fault := Tick(calm);
      if fault != Calm { return if fault == Crash then Crashed else Raised; }
      if !Names(state, bundle) && bundle !in generations {
        return Returned(Respond(operationId, state, Some(bundle)));
      }
      if expectedGeneration != state.generation { return Raised; }
      var published := PublishState(AfterRemove(state, bundle), state, calm);
      if published.Crashed? { return Crashed; }
      if published.Raised? { return Raised; }
      fault := Tick(calm);
      if fault != Calm {
        // The tree goes file by file; whatever is left is left.
        var remains: Node := *;
        if bundle in generations { generations := generations[bundle := remains]; }
        return if fault == Crash then Crashed else Raised;
      }
      generations := generations - {bundle};
      r := Returned(Respond(operationId, published.value, Some(bundle)));
    }

    method HandleVerifyAbsent(operationId: string, expectedGeneration: nat, bundle: Digest, calm: bool)
      returns (r: Outcome<Response>)
      ensures r.Returned? ==>
                && !Names(state, bundle)
                && bundle !in generations
                && (forall key :: key in staging ==> key.1 != bundle)
                && expectedGeneration == state.generation
                && r.value
                   == Response(operationId, state.generation, state.status, state.staged, state.active, Some(bundle))
      ensures calm && !r.Returned? ==>
                || Names(state, bundle)
                || bundle in generations
                || expectedGeneration != state.generation
                || exists key :: key in staging && key.1 == bundle
    {
      var fault := Tick(calm);
      if fault != Calm { return if fault == Crash then Crashed else Raised; }
      if expectedGeneration != state.generation || Names(state, bundle) { return Raised; }
      if bundle in generations { return Raised; }
      if exists key :: key in staging && key.1 == bundle { return Raised; }
      r := Returned(Respond(operationId, state, Some(bundle)));
    }

    /** run_ptt: validates the active bundle and hands off its entrypoint, whose bytes
        are those the manifest commits to. */
    method HandleRunPtt(operationId: string, expectedGeneration: nat, inputMode: string, calm: bool)
      returns (r: Outcome<(Response, Handoff)>)
      requires ValidState(state)
      ensures r.Returned? ==>
                && state.active.Some? && Stored(state.active.value, generations, json)
                && expectedGeneration == state.generation
                && inputMode == state.fixed.pttInputMode
                && r.value.0 == Response(operationId, state.generation, state.status, state.staged, state.active, None)
                && IsEntrypoint(generations[state.active.value], r.value.1, json)
      ensures calm && state.status == Active && expectedGeneration == state.generation ==>
                (r.Returned? <==>
                   inputMode == state.fixed.pttInputMode && Stored(state.active.value, generations, json))
    {
      var fault := Tick(calm);
      if fault != Calm { return if fault == Crash then Crashed else Raised; }
      if expectedGeneration != state.generation || state.status != Active { return Raised; }
      if inputMode != state.fixed.pttInputMode { return Raised; }
      var bundle := state.active.value;
      if bundle !in generations { return Raised; }
      var tree := generations[bundle];
      var validated := ValidateBundleDirectory(tree, bundle, json);
      if validated.None? { return Raised; }
      var manifest := validated.value;
      var i :| 0 <= i < |manifest.records| && JoinPath(manifest.records[i].path) == manifest.entrypoint[0]
               && manifest.records[i].executable;
      assert MemberMatches(tree, manifest.records[i]);
      var path := manifest.records[i].path;
      r := Returned((Respond(operationId, state, None), Handoff(path, Lookup(tree, path).value.raw)));
    }
  }

  // ------------------------------------------------------------------ replay

  /** A request that was answered and comes again: whatever happens to it, the state
      and the generations stay as they are, and if it is answered it is answered the
      same, even though its expected generation is by then stale. */
  method StageAgain(root: Root, operationId: string, expectedGeneration: nat, bundle: Digest,
                    artifacts: seq<Record>, stream: Bytes, answer: Response, calm: bool)
    returns (r: Outcome<Response>)
    requires ValidState(root.state) && Names(root.state, bundle) && answer == Respond(operationId, root.state, None)
    modifies root
    ensures root.state == old(root.state) && root.generations == old(root.generations)
    ensures r.Returned? ==> r.value == answer
    ensures calm
            && StageAccepted(root.state, root.generations, root.json, expectedGeneration, bundle, artifacts, stream) ==>
              r.Returned?
  {
    r := root.HandleStage(operationId, expectedGeneration, bundle, artifacts, stream, calm);
  }

  method ActivateAgain(root: Root, operationId: string, expectedGeneration: nat, bundle: Digest,
                       answer: Response, calm: bool)
    returns (r: Outcome<Response>)
    requires ValidState(root.state) && root.state.active == Some(bundle)
    requires answer == Respond(operationId, root.state, None)
    modifies root
    ensures root.state == old(root.state) && root.generations == old(root.generations)
    ensures r.Returned? ==> r.value == answer
    ensures calm && Stored(bundle, root.generations, root.json) ==> r.Returned?
  {
    r := root.HandleActivate(operationId, expectedGeneration, bundle, calm);
  }

  method RemoveAgain(root: Root, operationId: string, expectedGeneration: nat, bundle: Digest,
                     answer: Response, calm: bool)
    returns (r: Outcome<Response>)
    requires ValidState(root.state) && !Names(root.state, bundle) && bundle !in root.generations
    requires answer == Respond(operationId, root.state, Some(bundle))
    modifies root
    ensures root.state == old(root.state) && root.generations == old(root.generations)
    ensures r.Returned? ==> r.value == answer
    ensures calm ==> r.Returned?
  {
    r := root.HandleRemove(operationId, expectedGeneration, bundle, calm);
  }

  /** Sent twice: the second request finds what the first left, so it is such a replay. */
  method ReplayStage(root: Root, operationId: string, expectedGeneration: nat, bundle: Digest,
                     artifacts: seq<Record>, stream: Bytes, calm: bool)
    returns (first: Outcome<Response>, second: Outcome<Response>)
    requires ValidState(root.state)
    modifies root
    ensures first.Returned? && second.Returned? ==> second == first
    ensures first.Returned? ==> first.value == Respond(operationId, root.state, None)
    ensures first.Returned? && old(bundle in root.generations) ==> root.generations == old(root.generations)
    ensures first.Returned? ==> root.generations - {bundle} == old(root.generations) - {bundle}
    ensures first.Returned? ==> Stored(bundle, root.generations, root.json)
    ensures first.Returned? && calm ==> second.Returned?
  {
    first := root.HandleStage(operationId, expectedGeneration, bundle, artifacts, stream, false);
    if first.Returned? {
      second := StageAgain(root, operationId, expectedGeneration, bundle, artifacts, stream, first.value, calm);
    } else {
      second := Raised;
    }
  }

  method ReplayActivate(root: Root, operationId: string, expectedGeneration: nat, bundle: Digest, calm: bool)
    returns (first: Outcome<Response>, second: Outcome<Response>)
    requires ValidState(root.state)
    modifies root
    ensures first.Returned? && second.Returned? ==> second == first
    ensures first.Returned? ==> first.value == Respond(operationId, root.state, None)
    ensures root.generations == old(root.generations)
    ensures first.Returned? && calm ==> second.Returned?
  {
    first := root.HandleActivate(operationId, expectedGeneration, bundle, false);
    if first.Returned? {
      second := ActivateAgain(root, operationId, expectedGeneration, bundle, first.value, calm);
    } else {
      second := Raised;
    }
  }

  method ReplayRemove(root: Root, operationId: string, expectedGeneration: nat, bundle: Digest, calm: bool)
    returns (first: Outcome<Response>, second: Outcome<Response>)
    requires ValidState(root.state)
    modifies root
    ensures first.Returned? && second.Returned? ==> second == first
    ensures first.Returned? ==> first.value == Respond(operationId, root.state, Some(bundle))
    ensures first.Returned? ==> root.generations == old(root.generations) - {bundle}
    ensures first.Returned? && calm ==> second.Returned?
  {
    first := root.HandleRemove(operationId, expectedGeneration, bundle, false);
    if first.Returned? {
      second := RemoveAgain(root, operationId, expectedGeneration, bundle, first.value, calm);
    } else {
      second := Raised;
    }
  }

  // -------------------------------------------------------------- whole runs

  datatype Request =
    | Stage(expectedGeneration: nat, bundle: Digest)
    | Activate(expectedGeneration: nat, bundle: Digest)
    | Remove(expectedGeneration: nat, bundle: Digest)
    | ReadOnly

  /** What one locked request may do to the state file, whether it answers, is
      rejected or dies. */
  predicate StateStep(before: Deployment, request: Request, after: Deployment) {
    || after == before
    || (request.Stage? && request.expectedGeneration == before.generation
        && after == AfterStage(before, request.bundle))
    || (request.Activate? && request.expectedGeneration == before.generation && before.staged == Some(request.bundle)
        && after == AfterActivate(before, request.bundle))
    || (request.Remove? && request.expectedGeneration == before.generation
        && after == AfterRemove(before, request.bundle))
  }

  /** And to the generations beside it: only its own bundle's, which appears whole and
      goes only when the state has stopped naming it. */
  predicate StoreStep(before: View, request: Request, after: View, json: Json) {
    match request
    case Stage(_, bundle) =>
      && (after.state != before.state ==> Stored(bundle, after.generations, json))
      && (after.generations == before.generations
          || (bundle !in before.generations && Stored(bundle, after.generations, json)
              && after.generations == before.generations[bundle := after.generations[bundle]]))
    case Activate(_, bundle) =>
      && after.generations == before.generations
      && (after.state != before.state ==> Stored(bundle, after.generations, json))
    case Remove(_, bundle) =>
      && after.generations - {bundle} == before.generations - {bundle}
      && (after.generations != before.generations ==> !Names(after.state, bundle))
    case ReadOnly => after.generations == before.generations
  }

  /** The handlers' contracts, over values. */
  predicate RootStep(before: View, request: Request, after: View, json: Json) {
    ValidState(after.state) && StateStep(before.state, request, after.state) && StoreStep(before, request, after, json)
  }

  ghost predicate Run(views: seq<View>, requests: seq<Request>, json: Json) {
    && |views| == |requests| + 1
    && forall k :: 0 <= k < |requests| ==> RootStep(views[k], requests[k], views[k + 1], json)
  }

  predicate Publishes(views: seq<View>, k: nat)
    requires k + 1 < |views|
  {
    views[k + 1].state != views[k].state
  }

  /** Lock holders never see the generation go down, and see it go up between two
      publications. */
  lemma {:induction false} GenerationGrows(views: seq<View>, requests: seq<Request>, json: Json, i: nat, j: nat)
    requires Run(views, requests, json) && i <= j < |views|
    ensures views[i].state.generation <= views[j].state.generation
    ensures i < j && Publishes(views, i) ==> views[i].state.generation < views[j].state.generation
    ensures views[i].state.fixed == views[j].state.fixed
    decreases j - i
  {
    hide StoreStep;
    if i < j {
      assert RootStep(views[i], requests[i], views[i + 1], json);
      GenerationGrows(views, requests, json, i + 1, j);
    }
  }

  /** No two publications of a run consume the same expected generation. */
  lemma ExpectedGenerationConsumedOnce(views: seq<View>, requests: seq<Request>, json: Json, i: nat, j: nat)
    requires Run(views, requests, json) && i < j < |requests|
    requires Publishes(views, i) && Publishes(views, j)
    ensures !requests[i].ReadOnly? && !requests[j].ReadOnly?
    ensures requests[i].expectedGeneration < requests[j].expectedGeneration
  {
    hide StoreStep;
    assert RootStep(views[i], requests[i], views[i + 1], json) && RootStep(views[j], requests[j], views[j + 1], json);
    GenerationGrows(views, requests, json, i, j);
  }

  /** A bundle the state names was staged by a request of the run, or was already
      named when the run began. */
  lemma {:induction false} NamedWasStaged(views: seq<View>, requests: seq<Request>, json: Json, k: nat, bundle: Digest)
    requires Run(views, requests, json) && k < |views| && Names(views[k].state, bundle)
    ensures Names(views[0].state, bundle)
            || exists i :: 0 <= i < k && requests[i].Stage? && requests[i].bundle == bundle
                           && views[i + 1].state.staged == Some(bundle)
  {
    hide StoreStep;
    if k > 0 {
      assert RootStep(views[k - 1], requests[k - 1], views[k], json);
      if Names(views[k - 1].state, bundle) {
        NamedWasStaged(views, requests, json, k - 1, bundle);
      } else {
        assert requests[k - 1].Stage? && requests[k - 1].bundle == bundle;
      }
    }
  }

  /** A bundle stops being named only by its own removal or by the staging of another. */
  lemma {:induction false} ForgottenBy(views: seq<View>, requests: seq<Request>, json: Json,
                                       i: nat, j: nat, bundle: Digest)
    returns (k: nat)
    requires Run(views, requests, json) && ValidState(views[0].state) && i <= j < |views|
    requires Names(views[i].state, bundle) && !Names(views[j].state, bundle)
    ensures i <= k < j && Publishes(views, k) && Names(views[k].state, bundle) && !Names(views[k + 1].state, bundle)
    ensures || (requests[k].Remove? && requests[k].bundle == bundle)
            || (requests[k].Stage? && requests[k].bundle != bundle)
  {
    hide StoreStep;
    k := i;
    while Names(views[k + 1].state, bundle)
      invariant i <= k < j && Names(views[k].state, bundle)
      decreases j - k
    {
      k := k + 1;
    }
    assert RootStep(views[k], requests[k], views[k + 1], json);
    if k > 0 { assert RootStep(views[k - 1], requests[k - 1], views[k], json); }
  }

  lemma StepKeepsBacked(before: View, request: Request, after: View, json: Json)
    requires RootStep(before, request, after, json) && Backed(before.state, before.generations, json)
    ensures Backed(after.state, after.generations, json)
  {
    hide Validates, ValidState;
    forall d | Names(after.state, d) ensures Stored(d, after.generations, json) {
      if Names(before.state, d) && request.Remove? && d != request.bundle {
        assert d in before.generations - {request.bundle};
        assert d in after.generations - {request.bundle};
      }
    }
  }

  /** Over any run of requests, answered, rejected or killed, every bundle the state
      names is stored and is what its digest says. */
  lemma {:induction false} NamedIsStored(views: seq<View>, requests: seq<Request>, json: Json, k: nat)
    requires Run(views, requests, json) && k < |views| && Backed(views[0].state, views[0].generations, json)
    ensures Backed(views[k].state, views[k].generations, json)
  {
    hide RootStep, Backed;
    if k > 0 {
      NamedIsStored(views, requests, json, k - 1);
      StepKeepsBacked(views[k - 1], requests[k - 1], views[k], json);
    }
  }

  /** And it is the same tree whenever it is named, however often it was removed and
      staged again in between. */
  lemma NamedTreeNeverChanges(views: seq<View>, requests: seq<Request>, json: Json, i: nat, j: nat, bundle: Digest)
    requires Injective(json)
    requires Run(views, requests, json) && Backed(views[0].state, views[0].generations, json)
    requires i < |views| && j < |views| && Names(views[i].state, bundle) && Names(views[j].state, bundle)
    ensures bundle in views[i].generations && bundle in views[j].generations
    ensures views[i].generations[bundle] == views[j].generations[bundle]
  {
    hide Validates, Injective;
    NamedIsStored(views, requests, json, i);
    NamedIsStored(views, requests, json, j);
    SameDigestSameTree(views[i].generations[bundle], views[j].generations[bundle], bundle, json);
  }

  /** Seen from the request: a plan not yet stored is accepted exactly when its
      stream delivers a manifest and what that manifest lists. */
  lemma StageAcceptsDeliverable(d: Deployment, generations: map<Digest, Node>, json: Json,
                                bundle: Digest, artifacts: seq<Record>, stream: Bytes)
    requires Injective(json) && PlanOk(bundle, artifacts, json)
    requires !Names(d, bundle) && bundle !in generations && d.generation < MAX_JSON_INT
    ensures StageAccepted(d, generations, json, d.generation, bundle, artifacts, stream) <==>
            SplitStream(artifacts, stream).Some? && Deliverable(artifacts, SplitStream(artifacts, stream).value, json)
  {
    var bodies := SplitStream(artifacts, stream);
    if bodies.Some? { StagedIffDeliverable(Plan(bundle, artifacts), bodies.value, json); }
  }

  ghost predicate IsEntrypoint(tree: Node, h: Handoff, json: Json) {
    && ManifestRaw(tree).Some?
    && json.parse(ManifestRaw(tree).value).Some?
    && var manifest := json.parse(ManifestRaw(tree).value).value;
    && |manifest.entrypoint| > 0
    && JoinPath(h.path) == manifest.entrypoint[0]
    && Lookup(tree, h.path) == Some(Regular(h.raw, ReadWriteExecute))
    && exists record :: record in manifest.records && record.path == h.path && record.sha256 == Sha256(h.raw)
  }

  ghost predicate StageAccepted(d: Deployment, generations: map<Digest, Node>, json: Json,
                                expectedGeneration: nat, bundle: Digest, artifacts: seq<Record>, stream: Bytes) {
    && PlanOk(bundle, artifacts, json)
    && SplitStream(artifacts, stream).Some?
    && ((Names(d, bundle) && Stored(bundle, generations, json))
        || (!Names(d, bundle) && expectedGeneration == d.generation < MAX_JSON_INT
            && Materializable(Plan(bundle, artifacts), stream, generations, json)))
  }

  predicate ActivateAccepted(d: Deployment, generations: map<Digest, Node>, json: Json,
                             expectedGeneration: nat, bundle: Digest) {
    && Stored(bundle, generations, json)
    && (d.active == Some(bundle) || (expectedGeneration == d.generation < MAX_JSON_INT && d.staged == Some(bundle)))
  }

  predicate RemoveAccepted(d: Deployment, generations: map<Digest, Node>, expectedGeneration: nat, bundle: Digest) {
    || (!Names(d, bundle) && bundle !in generations)
    || expectedGeneration == d.generation < MAX_JSON_INT
  }

  /** What staging `plan` from `stream` needs. */
  ghost predicate Materializable(plan: Plan, stream: Bytes, generations: map<Digest, Node>, json: Json)
    requires PlanOk(plan.bundle, plan.artifacts, json)
  {
    var bodies := SplitStream(plan.artifacts, stream);
    && bodies.Some?
    && if plan.bundle in generations
       then Validates(generations[plan.bundle], plan.bundle, json)
       else BuildsValid(plan, bodies.value, json)
  }
}
