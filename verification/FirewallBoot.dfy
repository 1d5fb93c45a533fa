/** The boot protocol around the firewall table (deploy/reachy/apply_firewall.py and
    deploy/reachy/boot_gate.py).

    `Apply` installs the emergency table, then the rendered one, and stores a
    signed receipt; `Gate` lets the edge start only if the stored receipt and the
    live table fit.  Only these two calls write the table.  Loading a script is
    one kernel transaction: afterwards the table is the old one or the new one,
    the kernel may spell the new rules in its own way but neither drops nor adds
    one, and nothing but observation tells which it is. */
module FirewallBoot {
  import opened Faults
  import FirewallPackets
  import opened FirewallTable
  import opened JsonValue
  import opened Receipts
  import opened Wrappers

  const KEY_ID := "firewall-receipt-v1"
  const GATE_REASON := "start_gate_failed"

  /** SHA-256 of a payload, of canonical rules, of a port list; no collisions. */
  datatype Digest = Sha256(raw: Bytes) | RulesSha256(rules: seq<Json>) | PortsSha256(ports: seq<nat>)

  /** What a receipt attests. */
  datatype Binding = Binding(
    bootId: nat, commit: string,
    endpointGeneration: nat, networkGeneration: nat,
    endpoint: Digest, network: Digest, capability: Digest, ports: Digest,
    neighbor: Digest, expected: Digest, observed: Digest)

  datatype Receipt = Receipt(binding: Binding, issuedAt: int, keyId: string, signature: Signature)

  /** The keyed hash of everything but the signature. */
  datatype Signature = Mac(key: Bytes, binding: Binding, issuedAt: int, keyId: string)

  /** What the three configuration documents restore to. */
  datatype Inputs = Inputs(peer: Peer, endpointGeneration: nat, networkGeneration: nat, daemonPorts: seq<nat>)

  /** What one call reads from the machine. */
  datatype Env = Env(
    bootId: nat, key: Bytes, commit: string,
    endpoint: Bytes, network: Bytes, capability: Bytes, interfaces: set<string>,
    neighbor: Digest, now: int, temp: string)

  /** Canonical JSON of receipts, and the validation of the documents. */
  datatype Library = Library(
    encode: Receipt -> Bytes,
    decode: Bytes -> Option<Receipt>,
    encodeDegraded: (string, Digest, Env) -> Bytes,
    restore: (Bytes, Bytes, Bytes, set<string>) -> Option<Inputs>)

  ghost predicate Sound(lib: Library) {
    forall r :: lib.decode(lib.encode(r)) == Some(r) && lib.encode(r) != []
  }

  datatype State = State(live: Json, receipts: Folder, degraded: Folder)

  function Restored(lib: Library, env: Env): Option<Inputs> {
    lib.restore(env.endpoint, env.network, env.capability, env.interfaces)
  }

  function FullRules(p: Peer): (rules: seq<Json>)
    ensures Semantics(FullRuleset(p)) == Some(rules)
  {
    FullIsEmergencyAndMore(p);
    Semantics(FullRuleset(p)).value
  }

  function BindingFor(env: Env, inputs: Inputs, observed: seq<Json>): Binding {
    Binding(env.bootId, env.commit, inputs.endpointGeneration, inputs.networkGeneration,
            Sha256(env.endpoint), Sha256(env.network), Sha256(env.capability), PortsSha256(inputs.daemonPorts),
            env.neighbor, RulesSha256(FullRules(inputs.peer)), RulesSha256(observed))
  }

  function Sign(binding: Binding, env: Env): Receipt {
    Receipt(binding, env.now, KEY_ID, Mac(env.key, binding, env.now, KEY_ID))
  }

  /** The receipt of a boot whose table was observed to be the rendered one. */
  function ReceiptFor(env: Env, inputs: Inputs): Receipt {
    Sign(BindingFor(env, inputs, FullRules(inputs.peer)), env)
  }

  predicate Signed(r: Receipt, key: Bytes) {
    r.keyId == KEY_ID && r.signature == Mac(key, r.binding, r.issuedAt, r.keyId)
  }

  /** The machine is in a state the gate lets through. */
  ghost predicate Admits(lib: Library, env: Env, s: State) {
    && s.degraded.receipt.None?
    && Restored(lib, env).Some?
    && Required(s.receipts, lib.decode).Some?
    && var inputs, receipt := Restored(lib, env).value, Required(s.receipts, lib.decode).value;
       && Signed(receipt, env.key)
       && Semantics(s.live) == Some(FullRules(inputs.peer))
       && receipt.binding == BindingFor(env, inputs, FullRules(inputs.peer))
  }

  // ------------------------------------------------------------ the table

  ghost predicate Loaded(script: Json, live: Json) {
    Semantics(live).Some? && Semantics(script).Some? ==> |Semantics(live).value| == |Semantics(script).value|
  }

  /** The live table is nobody's full table. */
  ghost predicate NotFull(live: Json) {
    forall p :: Semantics(live) != Semantics(FullRuleset(p))
  }

  lemma EmergencyIsNotFull(live: Json)
    requires Loaded(EmergencyRuleset(), live) || Semantics(live) == Semantics(EmergencyRuleset())
    ensures NotFull(live)
  {
    hide Semantics, FullRuleset, EmergencyRuleset;
    forall p ensures Semantics(live) != Semantics(FullRuleset(p)) { FullIsEmergencyAndMore(p); }
  }

  /** How a call ends: it returns; it raises with the emergency table observed; it
      raises because the first install of that table failed; it raises because the
      table could not be re-observed after a failure; the process dies. */
  datatype Ending = Done | Refused | NoEmergency | Unretained | Died

  /** A stored receipt, if this call got as far as storing one. */
  ghost predicate Issuing(lib: Library, env: Env, before: Folder, after: Folder,
                          issued: Option<Receipt>, acts: set<Act>) {
    if issued.None? then after == before && acts == {}
    else
      && Restored(lib, env).Some?
      && issued.value == ReceiptFor(env, Restored(lib, env).value)
      && PublicationBy(before, after, lib.encode(issued.value), env.temp, acts)
  }

  /** What an install of the emergency table makes of the live one. */
  ghost predicate Installed(before: Json, after: Json, returned: bool) {
    && (after == before || Loaded(EmergencyRuleset(), after))
    && (returned ==> Semantics(after) == Semantics(EmergencyRuleset()))
  }

  /** The table an attempt that did not return leaves behind: before it has a receipt
      to store, the one it found, one read from the emergency script or one read from
      the full script; after that, the full one. */
  ghost predicate Tried(lib: Library, env: Env, before: Json, after: Json, issued: Option<Receipt>) {
    if issued.Some? then Restored(lib, env).Some? && Semantics(after) == Some(FullRules(Restored(lib, env).value.peer))
    else
      || after == before
      || Loaded(EmergencyRuleset(), after)
      || (Restored(lib, env).Some? && Loaded(FullRuleset(Restored(lib, env).value.peer), after))
  }

  /** `notice`: the steps of the degraded receipt's publication that took effect.
      `reason`: what an apply puts its failure down to.  `first` and `tried`: the table
      after the first install and after the attempt.  `cleared`: the apply took its last
      step, the unlink of an older degraded receipt.  `calm`: nothing went wrong. */
  datatype Call =
    | Apply(env: Env, calm: bool, ending: Ending, notice: set<Act>, reason: string,
            issued: Option<Receipt>, acts: set<Act>, first: Json, tried: Json, cleared: bool)
    | Gate(env: Env, calm: bool, ending: Ending, notice: set<Act>)

  /** The payload of the degraded receipt a call would store. */
  function Notice(lib: Library, c: Call): Bytes {
    lib.encodeDegraded(if c.Apply? then c.reason else GATE_REASON, EmergencyDigest(), c.env)
  }

  /** A degraded receipt, published with any success. */
  ghost predicate Degrading(lib: Library, c: Call, before: Folder, after: Folder) {
    PublicationBy(before, after, Notice(lib, c), c.env.temp, c.notice)
  }

  ghost predicate Silent(c: Call, before: Folder, after: Folder) {
    after == before && c.notice == {}
  }

  lemma SilentIsNothing(lib: Library, c: Call, f: Folder)
    requires c.notice == {}
    ensures Degrading(lib, c, f, f)
  {
  }

  /** An undisturbed refusal leaves a degraded receipt exactly if there was one or the
      folder takes one. */
  ghost predicate Told(lib: Library, c: Call, before: Folder, after: Folder) {
    after.receipt.Some? <==> before.receipt.Some? || Accepts(before, Notice(lib, c), c.env.temp)
  }

  /** The phases an apply went through before it raised or died. */
  ghost predicate Failed(lib: Library, s: State, c: Call, t: State)
    requires c.Apply?
  {
    var ran := Installed(s.live, c.first, true) && Tried(lib, c.env, c.first, c.tried, c.issued);
    match c.ending
    case Done => false
    case NoEmergency => c.issued.None? && Installed(s.live, t.live, false) && Silent(c, s.degraded, t.degraded)
    case Unretained => ran && Installed(c.tried, t.live, false) && Silent(c, s.degraded, t.degraded)
    case Refused => ran && Installed(c.tried, t.live, true) && Degrading(lib, c, s.degraded, t.degraded)
    case Died =>
      || (c.issued.None? && Installed(s.live, t.live, false) && Silent(c, s.degraded, t.degraded))
      || (ran && t.live == c.tried && Silent(c, s.degraded, t.degraded))
      || (ran && Installed(c.tried, t.live, false) && Silent(c, s.degraded, t.degraded))
      || (ran && Installed(c.tried, t.live, true) && Degrading(lib, c, s.degraded, t.degraded))
  }

  /** An apply that took all its steps; it returns unless it dies on the way out. */
  ghost predicate Completed(lib: Library, s: State, c: Call, t: State)
    requires c.Apply?
  {
    && (c.ending == Done || c.ending == Died)
    && Admits(lib, c.env, t) && c.issued.Some? && Replaced in c.acts && !Shut(c.acts)
    && t.degraded == s.degraded.(receipt := None) && c.notice == {}
  }

  /** What an apply does.  Undisturbed it succeeds exactly if its documents restore and
      the folder takes its receipt, and otherwise tells. */
  ghost predicate ApplyStep(lib: Library, s: State, c: Call, t: State)
    requires c.Apply?
  {
    && Issuing(lib, c.env, s.receipts, t.receipts, c.issued, c.acts)
    && (if c.cleared then Completed(lib, s, c, t) else Failed(lib, s, c, t))
    && (c.calm ==> c.ending == if CanStore(lib, c.env, s.receipts) then Done else Refused)
    && (c.calm && c.ending == Refused ==> Told(lib, c, s.degraded, t.degraded))
  }

  /** What a gate does.  Undisturbed it succeeds exactly in the admitted states, and
      otherwise tells; undisturbed it leaves a degraded receipt that is present alone.  If
      it cannot find out whether there is one, it publishes its own over it. */
  ghost predicate GateStep(lib: Library, s: State, c: Call, t: State)
    requires c.Gate?
  {
    && t.receipts == s.receipts
    && (c.calm && s.degraded.receipt.Some? ==> Silent(c, s.degraded, t.degraded))
    && (match c.ending
        case Done => t == s && Admits(lib, c.env, s) && c.notice == {}
        case NoEmergency => Installed(s.live, t.live, false) && Silent(c, s.degraded, t.degraded)
        case Refused => Installed(s.live, t.live, true) && Degrading(lib, c, s.degraded, t.degraded)
        case Unretained => false
        case Died =>
          || (Installed(s.live, t.live, false) && Silent(c, s.degraded, t.degraded))
          || (Installed(s.live, t.live, true) && Degrading(lib, c, s.degraded, t.degraded)))
    && (c.calm ==> c.ending == if Admits(lib, c.env, s) then Done else Refused)
    && (c.calm && c.ending == Refused ==> Told(lib, c, s.degraded, t.degraded))
  }

  ghost predicate Step(lib: Library, s: State, c: Call, t: State) {
    if c.Apply? then ApplyStep(lib, s, c, t) else GateStep(lib, s, c, t)
  }

  class Host {
    const lib: Library
    var live: Json
    const receipts: Repository
    const degraded: Repository

    constructor (lib: Library, live: Json, receipts: Repository, degraded: Repository)
      requires Sound(lib) && receipts != degraded
      ensures Valid() && Now() == State(live, receipts.folder, degraded.folder)
    {
      this.lib, this.live, this.receipts, this.degraded := lib, live, receipts, degraded;
    }

    ghost predicate Valid() { Sound(lib) && receipts != degraded }

    ghost function Now(): State
      reads this, receipts, degraded
    {
      State(live, receipts.folder, degraded.folder)
    }

    method Load(script: Json, calm: bool) returns (r: Outcome<()>)
      modifies this`live
      ensures live == old(live) || Loaded(script, live)
      ensures r.Returned? ==> Loaded(script, live)
      ensures calm ==> r.Returned? && Semantics(live) == Semantics(script)
    {
      var fault := Tick(calm);
      var spelled: Json := *;
      var want, got := Semantics(script), Semantics(spelled);
      if calm || (want.Some? && got.Some? && |want.value| != |got.value|) { spelled := script; }
      var timedOut: bool := *;
      if fault == Calm || timedOut { live := spelled; }
      r := if fault == Calm then Returned(()) else if fault == Crash then Crashed else Raised;
    }

    /** A listing: the live table's meaning, with handles and counters of the moment. */
    method List(calm: bool) returns (r: Outcome<Json>)
      ensures r.Returned? ==> Semantics(r.value) == Semantics(live)
      ensures calm ==> r.Returned?
    {
      var fault := Tick(calm);
      if fault != Calm { return if fault == Crash then Crashed else Raised; }
      var shown: Json := *;
      var want, got := Semantics(live), Semantics(shown);
      r := Returned(if want == got then shown else live);
    }

    method InstallEmergency(calm: bool) returns (r: Outcome<Digest>)
      modifies this`live
      ensures live == old(live) || Loaded(EmergencyRuleset(), live)
      ensures r.Returned? ==> Semantics(live) == Semantics(EmergencyRuleset()) && r.value == EmergencyDigest()
      ensures r.Returned? ==> Semantics(live).Some? && FirewallPackets.RecoveryOnly(Semantics(live).value)
      ensures calm ==> r.Returned?
    {
      hide FirewallPackets.RecoveryOnly;
      FirewallPackets.EmergencyIsRecovery();
      hide Semantics, EmergencyRuleset, Loaded;
      var emergency := EmergencyRuleset();
      var expected := CanonicalSemantics(emergency);
      EmergencyMeans();
      var loaded := Load(emergency, calm);
      if !loaded.Returned? { return if loaded == Crashed then Crashed else Raised; }
      var listed := List(calm);
      if !listed.Returned? { return if listed == Crashed then Crashed else Raised; }
      var observed := CanonicalSemantics(listed.value);
      if observed != expected { return Raised; }
      r := Returned(RulesSha256(observed.value));
    }

    /** `reason`: what a failure is put down to. */
    method ApplyRuleset(peer: Peer, calm: bool) returns (r: Outcome<()>, reason: string)
      modifies this`live
      ensures r.Returned? ==> Semantics(live) == Semantics(FullRuleset(peer))
      ensures r.Returned? ==> Semantics(live).Some? && FirewallPackets.RecoveryAndCore(Semantics(live).value, peer)
      ensures live == old(live) || Loaded(EmergencyRuleset(), live) || Loaded(FullRuleset(peer), live)
      ensures calm ==> r.Returned?
      ensures r.Raised? ==>
                || reason == "apply_failed"
                || (reason in {"observation_failed", "semantic_mismatch"}
                    && Semantics(live) == Semantics(EmergencyRuleset()))
    {
      hide Semantics, EmergencyRuleset, FullRuleset, Loaded, FirewallPackets.RecoveryAndCore;
      FirewallPackets.FullIsCore(peer);
      var ruleset := FullRuleset(peer);
      var expected := CanonicalSemantics(ruleset);
      FullIsEmergencyAndMore(peer);
      reason := "apply_failed";
      var checked := Tick(calm);
      if checked == Crash { return Crashed, reason; }
      var loaded: Outcome<()> := Raised;
      if checked == Calm { loaded := Load(ruleset, calm); }
      if loaded == Crashed { return Crashed, reason; }
      var observed := None;
      if loaded.Returned? {
        var listed := List(calm);
        if listed == Crashed { return Crashed, reason; }
        if listed.Returned? { observed := CanonicalSemantics(listed.value); }
        reason := if observed.None? then "observation_failed" else "semantic_mismatch";
      }
      if observed.None? || observed != expected {
        var emergency := InstallEmergency(calm);
        // Without the emergency table the failure is that of the whole phase.
        return if emergency == Crashed then Crashed else Raised, if emergency.Returned? then reason else "apply_failed";
      }
      r := Returned(());
    }

    /** Signs and stores a receipt, unless what was observed is not what was rendered. */
    method IssueReceipt(env: Env, inputs: Inputs, observed: Json, calm: bool)
      returns (r: Outcome<()>, ghost issued: Option<Receipt>, ghost acts: set<Act>)
      requires Valid() && Restored(lib, env) == Some(inputs)
      modifies receipts
      ensures Issuing(lib, env, old(receipts.folder), receipts.folder, issued, acts)
      ensures r.Returned? ==>
                && issued == Some(ReceiptFor(env, inputs)) && Replaced in acts && !Shut(acts)
                && Required(receipts.folder, lib.decode) == issued
      ensures issued.Some? ==> Semantics(observed) == Some(FullRules(inputs.peer))
      ensures r.Returned? ==> CanStore(lib, env, old(receipts.folder))
      ensures calm ==> !r.Crashed?
      ensures calm && Semantics(observed) == Some(FullRules(inputs.peer))
              && CanStore(lib, env, old(receipts.folder)) ==>
                r.Returned?
    {
      hide Semantics, FullRuleset;
      issued, acts := None, {};
      var expected := CanonicalSemantics(FullRuleset(inputs.peer));
      var seen := CanonicalSemantics(observed);
      if seen.None? || seen != expected { return Raised, issued, acts; }
      var receipt := Sign(BindingFor(env, inputs, seen.value), env);
      assert receipt == ReceiptFor(env, inputs);
      r, acts := receipts.ReplaceAtomic(lib.encode(receipt), env.temp, calm);
      issued := Some(receipt);
    }

    /** The attempt proper; `known` tells whether a degraded receipt could be signed,
        `reason` which phase it ended in. */
    method Attest(env: Env, calm: bool)
      returns (r: Outcome<()>, known: bool, reason: string,
               ghost issued: Option<Receipt>, ghost acts: set<Act>, ghost cleared: bool)
      requires Valid()
      modifies this`live, receipts, degraded
      ensures Issuing(lib, env, old(receipts.folder), receipts.folder, issued, acts)
      ensures degraded.folder == if cleared then old(degraded.folder).(receipt := None) else old(degraded.folder)
      ensures (r.Returned? ==> cleared) && (r.Raised? ==> !cleared)
      ensures !cleared ==> Tried(lib, env, old(live), live, issued)
      ensures cleared ==> Admits(lib, env, Now()) && issued.Some? && Replaced in acts && !Shut(acts)
      ensures r.Raised? ==> Explains(reason, Restored(lib, env), issued, old(live), live)
      ensures calm ==> !r.Crashed? && known && (r.Returned? <==> CanStore(lib, env, old(receipts.folder)))
    {
      hide Semantics, FullRuleset, EmergencyRuleset, Loaded;
      issued, acts, cleared, known, reason := None, {}, false, false, "preflight_failed";
      var fault := Tick(calm);
      if fault != Calm { return if fault == Crash then Crashed else Raised, known, reason, issued, acts, cleared; }
      known := true;
      fault := Tick(calm);
      if fault != Calm { return if fault == Crash then Crashed else Raised, known, reason, issued, acts, cleared; }
      var restored := Restored(lib, env);
      if restored.None? { return Raised, known, reason, issued, acts, cleared; }
      var inputs := restored.value;
      reason := "neighbor_binding_failed";
      fault := Tick(calm);
      if fault != Calm { return if fault == Crash then Crashed else Raised, known, reason, issued, acts, cleared; }
      r, reason := ApplyRuleset(inputs.peer, calm);
      if !r.Returned? { return; }
      reason := "observation_failed";
      var listed := List(calm);
      if !listed.Returned? {
        return if listed == Crashed then Crashed else Raised, known, reason, issued, acts, cleared;
      }
      reason := "attestation_failed";
      r, issued, acts := IssueReceipt(env, inputs, listed.value, calm);
      if !r.Returned? { return; }
      fault := Tick(calm);
      if fault != Calm { return if fault == Crash then Crashed else Raised, known, reason, issued, acts, cleared; }
      degraded.folder := degraded.folder.(receipt := None);
      cleared := true;
      fault := Tick(calm);
      if fault == Crash { r := Crashed; }
    }

    /** `told`: a degraded receipt was stored. */
    method ApplyForCurrentBoot(env: Env, calm: bool)
      returns (ending: Ending, reason: string, told: bool, ghost call: Call)
      requires Valid()
      modifies this`live, receipts, degraded
      ensures call.Apply? && (call.env, call.calm, call.ending, call.reason) == (env, calm, ending, reason)
      ensures Step(lib, old(Now()), call, Now())
      ensures ending == Refused ==> Explains(reason, Restored(lib, env), call.issued, call.first, call.tried)
      ensures told ==> ending == Refused && Tells(lib, call, degraded.folder)
      ensures calm && ending == Refused ==> (told <==> old(Accepts(degraded.folder, Notice(lib, call), env.temp)))
    {
      hide Semantics, EmergencyRuleset, FullRuleset, Admits, Loaded, Explains, Tried, Tells, EmergencyDigest;
      hide Accepts, CanStore, Publication;
      reason, told, ending := "", false, Died;
      var emergency := InstallEmergency(calm);
      call := Apply(env, calm, ending, {}, reason, None, {}, live, live, false);
      if emergency == Crashed { return; }
      if emergency == Raised { ending := NoEmergency; call := call.(ending := ending); return; }
      var attempt, known;
      ghost var issued, acts, cleared;
      attempt, known, reason, issued, acts, cleared := Attest(env, calm);
      call := call.(reason := reason, issued := issued, acts := acts, tried := live, cleared := cleared);
      if attempt.Returned? { ending := Done; call := call.(ending := ending); return; }
      if attempt == Crashed { return; }
      emergency := InstallEmergency(calm);
      if emergency == Crashed { return; }
      if emergency == Raised { ending := Unretained; call := call.(ending := ending); return; }
      ending := Refused;
      call := call.(ending := ending);
      SilentIsNothing(lib, call, degraded.folder);
      if known { ending, told, call := Tell(call, env, reason, emergency.value, calm); }
    }

    /** Stores the degraded receipt; if that fails the call raises all the same. */
    method Tell(ghost call: Call, env: Env, reason: string, emergency: Digest, calm: bool)
      returns (ending: Ending, told: bool, ghost after: Call)
      requires Valid() && emergency == EmergencyDigest()
      requires call.env == env && reason == if call.Apply? then call.reason else GATE_REASON
      modifies degraded
      ensures ending == Refused || ending == Died
      ensures after == call.(ending := ending, notice := after.notice)
      ensures Degrading(lib, after, old(degraded.folder), degraded.folder)
      ensures told ==> ending == Refused && Tells(lib, after, degraded.folder)
      ensures calm ==> ending == Refused && Told(lib, after, old(degraded.folder), degraded.folder)
      ensures calm ==> (told <==> old(Accepts(degraded.folder, Notice(lib, call), env.temp)))
    {
      hide Semantics, EmergencyRuleset, EmergencyDigest;
      var stored, acts := degraded.ReplaceAtomic(lib.encodeDegraded(reason, emergency, env), env.temp, calm);
      ending, told := if stored == Crashed then Died else Refused, stored.Returned?;
      after := call.(ending := ending, notice := acts);
    }

    /** The checks of the gate; nothing is written. */
    method Check(env: Env, calm: bool) returns (r: Outcome<()>, known: bool, blocked: bool)
      requires Valid()
      ensures r.Returned? ==> Admits(lib, env, Now())
      ensures blocked ==> degraded.folder.receipt.Some?
      ensures calm && degraded.folder.receipt.Some? ==> blocked
      ensures calm ==> !r.Crashed? && known && (r.Returned? <==> Admits(lib, env, Now()))
    {
      hide Semantics, FullRuleset, Required;
      known, blocked := false, false;
      var fault := Tick(calm);
      if fault != Calm { return if fault == Crash then Crashed else Raised, known, blocked; }
      known := true;
      // An unreadable status is a failure like any other, not a degraded receipt.
      fault := Tick(calm);
      if fault != Calm { return if fault == Crash then Crashed else Raised, known, blocked; }
      if degraded.folder.receipt.Some? { return Raised, known, true; }
      fault := Tick(calm);
      if fault != Calm { return if fault == Crash then Crashed else Raised, known, blocked; }
      var restored := Restored(lib, env);
      if restored.None? { return Raised, known, blocked; }
      var inputs := restored.value;
      var listed := List(calm);
      if !listed.Returned? { return if listed == Crashed then Crashed else Raised, known, blocked; }
      var required := receipts.Require(lib.decode, calm);
      if !required.Returned? { return if required == Crashed then Crashed else Raised, known, blocked; }
      var receipt := required.value;
      if !Signed(receipt, env.key) { return Raised, known, blocked; }
      var expected := CanonicalSemantics(FullRuleset(inputs.peer));
      var observed := CanonicalSemantics(listed.value);
      if observed.None? || expected != observed || receipt.binding != BindingFor(env, inputs, observed.value) {
        return Raised, known, blocked;
      }
      r := Returned(());
    }

    method GateCurrentBoot(env: Env, calm: bool) returns (ending: Ending, ghost call: Call)
      requires Valid()
      modifies this`live, degraded
      ensures call.Gate? && (call.env, call.calm, call.ending) == (env, calm, ending)
      ensures Step(lib, old(Now()), call, Now())
      ensures Notice(lib, call) == lib.encodeDegraded("start_gate_failed", EmergencyDigest(), env)
    {
      hide Semantics, EmergencyRuleset, FullRuleset, Admits, Loaded, Tells, EmergencyDigest, Publication, Accepts;
      var checked, known, blocked := Check(env, calm);
      ending := if checked.Returned? then Done else Died;
      call := Gate(env, calm, ending, {});
      if !checked.Raised? { return; }
      var emergency := InstallEmergency(calm);
      ending := if emergency.Returned? then Refused else if emergency == Crashed then Died else NoEmergency;
      call := Gate(env, calm, ending, {});
      SilentIsNothing(lib, call, degraded.folder);
      if emergency.Returned? && known && !blocked {
        var told;
        ending, told, call := Tell(call, env, GATE_REASON, emergency.value, calm);
      }
    }
  }

  function EmergencyDigest(): Digest {
    EmergencyMeans();
    RulesSha256(Semantics(EmergencyRuleset()).value)
  }

  /** A failure is put down to a phase, and the table is as that phase leaves it. */
  ghost predicate Explains(reason: string, restored: Option<Inputs>, issued: Option<Receipt>, was: Json, now: Json) {
    && (restored.None? ==> reason == "preflight_failed")
    && (issued.Some? ==> reason == "attestation_failed")
    && (|| (reason in {"preflight_failed", "neighbor_binding_failed"} && now == was)
        || reason == "apply_failed"
        || (reason in {"observation_failed", "semantic_mismatch"} && Semantics(now) == Semantics(EmergencyRuleset()))
        || (reason in {"observation_failed", "attestation_failed"} && restored.Some?
            && Semantics(now) == Semantics(FullRuleset(restored.value.peer))))
  }

  /** The degraded receipt that keeps every gate shut. */
  ghost predicate Tells(lib: Library, c: Call, f: Folder) {
    f.receipt == Some(File(Notice(lib, c), OWNER_ONLY, true))
  }

  /** The documents restore, and the folder accepts a publication of this boot's receipt. */
  ghost predicate CanStore(lib: Library, env: Env, f: Folder) {
    Restored(lib, env).Some? && Accepts(f, lib.encode(ReceiptFor(env, Restored(lib, env).value)), env.temp)
  }

  // ------------------------------------------------------------ whole runs

  ghost predicate Run(lib: Library, states: seq<State>, calls: seq<Call>) {
    && |states| == |calls| + 1
    && forall k :: 0 <= k < |calls| ==> Step(lib, states[k], calls[k], states[k + 1])
  }

  lemma Prepend(lib: Library, s: State, c: Call, states: seq<State>, calls: seq<Call>)
    requires Run(lib, states, calls) && Step(lib, s, c, states[0])
    ensures Run(lib, [s] + states, [c] + calls)
  {
    hide Step;
    forall k | 0 <= k < |calls| + 1 ensures Step(lib, ([s] + states)[k], ([c] + calls)[k], ([s] + states)[k + 1]) {
      if k > 0 { assert Step(lib, states[k - 1], calls[k - 1], states[k]); }
    }
  }

  ghost predicate Unchanged(states: seq<State>, from: nat, to: nat)
    requires from <= to < |states|
  {
    forall m :: from <= m <= to ==> states[m] == states[from]
  }

  lemma GateKeepsOrShuts(lib: Library, s: State, c: Call, t: State)
    requires Step(lib, s, c, t) && (c.Gate? || c.ending == NoEmergency)
    ensures t == s || NotFull(t.live)
  {
    hide NotFull, Loaded, Semantics, EmergencyRuleset, Admits, Degrading, Issuing;
    if t.live != s.live || c.ending == Refused || c.ending == Died {
      if Loaded(EmergencyRuleset(), t.live) || Semantics(t.live) == Semantics(EmergencyRuleset()) {
        EmergencyIsNotFull(t.live);
      }
    }
    assert c.Apply? ==> t.receipts == s.receipts by { hide *; NothingIssued(lib, s, c, t); }
  }

  lemma NothingIssued(lib: Library, s: State, c: Call, t: State)
    requires Step(lib, s, c, t) && (c.Gate? || c.ending == NoEmergency)
    ensures t.receipts == s.receipts
  {
    hide Loaded, Semantics, EmergencyRuleset, Admits, Degrading, Publication;
  }

  lemma RefusedIsNotFull(lib: Library, s: State, c: Call, t: State)
    requires Step(lib, s, c, t) && c.ending == Refused
    ensures NotFull(t.live)
  {
    hide Semantics, EmergencyRuleset, NotFull, Loaded, Degrading, Issuing, Tried, Admits;
    EmergencyIsNotFull(t.live);
  }

  lemma AdmittedIsFull(lib: Library, env: Env, s: State)
    requires Admits(lib, env, s)
    ensures !NotFull(s.live)
  {
    hide Semantics, FullRuleset, Required;
    var p := Restored(lib, env).value.peer;
    assert Semantics(s.live) == Semantics(FullRuleset(p));
  }

  /** Whenever a call ends refused, the machine does what a machine without a core may do,
      and nothing else ... */
  lemma RefusedTraffic(lib: Library, s: State, c: Call, t: State, hook: string, p: FirewallPackets.Packet)
    requires Step(lib, s, c, t) && c.ending == Refused && hook in {"input", "forward", "output"}
    ensures Semantics(t.live).Some?
    ensures FirewallPackets.Lets(Semantics(t.live).value, hook, p) <==> FirewallPackets.Recovery(hook, p)
  {
    hide Semantics, EmergencyRuleset, Loaded, Degrading, Issuing, Tried, Admits;
    assert Semantics(t.live) == Semantics(EmergencyRuleset());
    FirewallPackets.EmergencyLets(hook, p);
  }

  /** ... and whenever a gate passes, that and the traffic of the core it was told of. */
  lemma AdmittedTraffic(lib: Library, env: Env, s: State, hook: string, p: FirewallPackets.Packet)
    requires Admits(lib, env, s) && hook in {"input", "forward", "output"}
    ensures Restored(lib, env).Some? && Semantics(s.live).Some?
    ensures FirewallPackets.Lets(Semantics(s.live).value, hook, p) <==>
              || FirewallPackets.Recovery(hook, p)
              || FirewallPackets.Core(Restored(lib, env).value.peer, hook, p)
  {
    hide Semantics, FullRuleset, Required;
    var peer := Restored(lib, env).value.peer;
    assert Semantics(s.live) == Semantics(FullRuleset(peer));
    FirewallPackets.FullLets(peer, hook, p);
  }

  /** An apply that took all its steps. */
  predicate Succeeds(c: Call) {
    c.Apply? && c.cleared
  }

  lemma SuccessEnds(lib: Library, s: State, c: Call, t: State)
    requires Step(lib, s, c, t) && c.Apply?
    ensures (c.ending == Done ==> Succeeds(c)) && (Succeeds(c) ==> c.ending == Done || c.ending == Died)
  {
    hide Admits, Installed, Tried, Issuing, Degrading, Told, CanStore;
  }

  /** Two calls in the same boot, with the same key, build, documents and neighbour. */
  ghost predicate Fits(lib: Library, a: Env, b: Env) {
    && (a.bootId, a.key, a.commit, a.neighbor) == (b.bootId, b.key, b.commit, b.neighbor)
    && (a.endpoint, a.network, a.capability) == (b.endpoint, b.network, b.capability)
    && Restored(lib, a) == Restored(lib, b)
  }

  /** What a successful apply leaves is admitted for exactly the calls that fit it. */
  lemma SuccessAdmits(lib: Library, s: State, c: Call, t: State, env: Env)
    requires Step(lib, s, c, t) && Succeeds(c)
    ensures Admits(lib, env, t) <==> Fits(lib, c.env, env)
  {
    hide Semantics, FullRuleset, Required, Issuing, Failed, CanStore, Told;
    if Admits(lib, env, t) {
      RulesDeterminePeer(Restored(lib, c.env).value.peer, Restored(lib, env).value.peer);
    }
  }

  /** Call `k` is an apply that succeeded in the gate's circumstances, or one that was
      cut off in a state the gate lets through; and nothing has changed up to `j`. */
  ghost predicate Stands(lib: Library, states: seq<State>, calls: seq<Call>, env: Env, k: nat, j: nat)
    requires |states| == |calls| + 1 && k < j < |states|
  {
    && calls[k].Apply?
    && Unchanged(states, k + 1, j)
    && if Succeeds(calls[k]) then Fits(lib, calls[k].env, env)
       else calls[k].ending in {Unretained, Died} && Admits(lib, env, states[k + 1])
  }

  /** Once a call has failed with the emergency table in place, a gate lets the edge
      start only in a state that an apply since then has left, and that has not been
      changed after it. */
  lemma {:induction false} NoGateUntilApply(lib: Library, states: seq<State>, calls: seq<Call>, i: nat, j: nat)
    returns (k: nat)
    requires Run(lib, states, calls) && i < j < |calls|
    requires calls[i].ending == Refused && calls[j].Gate? && Admits(lib, calls[j].env, states[j])
    ensures i < k < j && Stands(lib, states, calls, calls[j].env, k, j)
  {
    hide Step, NotFull, Admits;
    RefusedIsNotFull(lib, states[i], calls[i], states[i + 1]);
    AdmittedIsFull(lib, calls[j].env, states[j]);
    k := j;
    while k > i + 1 && states[k - 1] == states[k]
      invariant i < k <= j && Unchanged(states, k, j)
    {
      k := k - 1;
    }
    assert k > i + 1;
    k := k - 1;
    assert states[k + 1] == states[j] && Step(lib, states[k], calls[k], states[k + 1]);
    if calls[k].Apply? { SuccessEnds(lib, states[k], calls[k], states[k + 1]); }
    if calls[k].Gate? || calls[k].ending == NoEmergency {
      GateKeepsOrShuts(lib, states[k], calls[k], states[k + 1]);
    } else if calls[k].ending == Refused {
      RefusedIsNotFull(lib, states[k], calls[k], states[k + 1]);
    } else if Succeeds(calls[k]) {
      SuccessAdmits(lib, states[k], calls[k], states[k + 1], calls[j].env);
    }
  }

  /** For an undisturbed gate that is the exact condition. */
  lemma GateIffApplyStands(lib: Library, states: seq<State>, calls: seq<Call>, i: nat, j: nat)
    requires Run(lib, states, calls) && i < j < |calls|
    requires calls[i].ending == Refused && calls[j].Gate? && calls[j].calm
    ensures calls[j].ending == Done <==> exists k :: i < k < j && Stands(lib, states, calls, calls[j].env, k, j)
  {
    assert Step(lib, states[j], calls[j], states[j + 1]);
    hide Admits, NotFull, Semantics, EmergencyRuleset, Installed, Degrading, Told, ApplyStep, Fits;
    if calls[j].ending == Done {
      var k := NoGateUntilApply(lib, states, calls, i, j);
    }
    if k :| i < k < j && Stands(lib, states, calls, calls[j].env, k, j) {
      assert states[j] == states[k + 1];
      assert Step(lib, states[k], calls[k], states[k + 1]);
      if Succeeds(calls[k]) { SuccessAdmits(lib, states[k], calls[k], states[k + 1], calls[j].env); }
    }
  }

  /** So where no apply in between dies half-way or loses the emergency table, the gate waits
      for one that succeeds in its circumstances. */
  lemma NoGateUntilSuccess(lib: Library, states: seq<State>, calls: seq<Call>, i: nat, j: nat) returns (k: nat)
    requires Run(lib, states, calls) && i < j < |calls|
    requires calls[i].ending == Refused && calls[j].Gate? && calls[j].ending == Done
    requires forall m :: i < m < j && calls[m].Apply? && !Succeeds(calls[m]) ==> calls[m].ending !in {Unretained, Died}
    ensures i < k < j && Succeeds(calls[k]) && Fits(lib, calls[k].env, calls[j].env)
    ensures calls[k].ending == Done || calls[k].ending == Died
    ensures Unchanged(states, k + 1, j)
  {
    assert Step(lib, states[j], calls[j], states[j + 1]);
    hide Admits, Semantics, EmergencyRuleset, Installed, Degrading, Told, Unchanged, Fits;
    k := NoGateUntilApply(lib, states, calls, i, j);
    SuccessEnds(lib, states[k], calls[k], states[k + 1]);
  }

  // ------------------------------------------------------------ the degraded receipt

  /** A call whose own degraded receipt replaced the old one and was then unlinked by
      the last fallback of its publication. */
  predicate LosesNotice(c: Call) {
    c.ending in {Refused, Died} && UnlinkedReceipt in c.notice
  }

  /** Only a success, or such a loss, takes a degraded receipt away. */
  lemma DegradedReceiptStays(lib: Library, s: State, c: Call, t: State)
    requires Step(lib, s, c, t) && s.degraded.receipt.Some?
    requires !Succeeds(c) && !LosesNotice(c)
    ensures t.degraded.receipt.Some?
  {
    hide Admits, Installed, Tried, Issuing, Told, CanStore, Publication, Notice;
    if Degrading(lib, c, s.degraded, t.degraded) { ReceiptStays(s.degraded, t.degraded, Notice(lib, c), c.notice); }
  }

  lemma {:induction false} TakenAway(lib: Library, states: seq<State>, calls: seq<Call>, i: nat, j: nat)
    returns (k: nat)
    requires Run(lib, states, calls) && i <= j < |states|
    requires states[i].degraded.receipt.Some? && states[j].degraded.receipt.None?
    ensures i <= k < j && (Succeeds(calls[k]) || LosesNotice(calls[k]))
    ensures states[k].degraded.receipt.Some? && states[k + 1].degraded.receipt.None?
  {
    hide Step, Succeeds, LosesNotice;
    k := i;
    while states[k + 1].degraded.receipt.Some?
      invariant i <= k < j && states[k].degraded.receipt.Some?
      decreases j - k
    {
      k := k + 1;
    }
    if !Succeeds(calls[k]) && !LosesNotice(calls[k]) {
      DegradedReceiptStays(lib, states[k], calls[k], states[k + 1]);
    }
  }

  /** While a degraded receipt is present, no gate passes: between it and a gate that
      does lies the call that took it away. */
  lemma DegradedReceiptHolds(lib: Library, states: seq<State>, calls: seq<Call>, i: nat, j: nat)
    returns (k: nat)
    requires Run(lib, states, calls) && i <= j < |calls|
    requires states[i].degraded.receipt.Some? && calls[j].Gate? && Admits(lib, calls[j].env, states[j])
    ensures i <= k < j && (Succeeds(calls[k]) || LosesNotice(calls[k]))
    ensures states[k].degraded.receipt.Some? && states[k + 1].degraded.receipt.None?
  {
    assert states[j].degraded.receipt.None?;
    hide Run, Admits, Semantics, FullRuleset;
    k := TakenAway(lib, states, calls, i, j);
  }

  /** So after an undisturbed refusal that can tell, or has no need to, the gate waits
      for an apply that succeeds, unless a call loses its degraded receipt. */
  lemma RefusalHolds(lib: Library, states: seq<State>, calls: seq<Call>, i: nat, j: nat) returns (k: nat)
    requires Run(lib, states, calls) && i < j < |calls|
    requires calls[i].calm && calls[i].ending == Refused
    requires || states[i].degraded.receipt.Some?
             || Accepts(states[i].degraded, Notice(lib, calls[i]), calls[i].env.temp)
    requires calls[j].Gate? && calls[j].ending == Done
    ensures i < k < j && (Succeeds(calls[k]) || LosesNotice(calls[k]))
  {
    hide Admits, Installed, Tried, Issuing, CanStore, Degrading, Accepts;
    assert Step(lib, states[i], calls[i], states[i + 1]);
    assert Step(lib, states[j], calls[j], states[j + 1]);
    k := DegradedReceiptHolds(lib, states, calls, i + 1, j);
  }

  /** A run from `s` in which a gate passes and no apply has succeeded. */
  ghost predicate Early(lib: Library, env: Env, s: State, states: seq<State>, calls: seq<Call>) {
    && Run(lib, states, calls) && states[0] == s && |calls| > 0
    && calls[|calls| - 1].Gate? && calls[|calls| - 1].env == env && calls[|calls| - 1].ending == Done
    && forall k :: 0 <= k < |calls| ==> !Succeeds(calls[k])
  }

  ghost predicate NoticesKept(calls: seq<Call>) {
    forall k :: 0 <= k < |calls| ==> !LosesNotice(calls[k])
  }

  /** Folders that refuse a publication go on refusing until an apply succeeds. */
  lemma RefusingStays(lib: Library, s: State, c: Call, t: State)
    requires Step(lib, s, c, t) && !Succeeds(c)
    ensures !Publishable(s.receipts) ==> !Publishable(t.receipts)
    ensures s.degraded.receipt.Some? && !Publishable(s.degraded) ==>
              t.degraded.receipt.Some? && !Publishable(t.degraded)
  {
    hide Admits, Installed, Tried, Told, CanStore, Publication, Notice;
    if Degrading(lib, c, s.degraded, t.degraded) && !Publishable(s.degraded) {
      RefusingFolder(s.degraded, t.degraded, Notice(lib, c), c.notice);
    }
    if c.Apply? && c.issued.Some? && !Publishable(s.receipts) {
      RefusingFolder(s.receipts, t.receipts, lib.encode(c.issued.value), c.acts);
    }
  }

  lemma {:induction false} RefusingHolds(lib: Library, env: Env, s: State, states: seq<State>, calls: seq<Call>, n: nat)
    requires Early(lib, env, s, states, calls) && n < |calls|
    ensures !Publishable(s.receipts) ==> !Publishable(states[n].receipts)
    ensures s.degraded.receipt.Some? && !Publishable(s.degraded) ==>
              states[n].degraded.receipt.Some? && !Publishable(states[n].degraded)
  {
    hide Step, Publishable;
    if n > 0 {
      RefusingHolds(lib, env, s, states, calls, n - 1);
      RefusingStays(lib, states[n - 1], calls[n - 1], states[n]);
    }
  }

  lemma EarlyNeeds(lib: Library, env: Env, s: State, states: seq<State>, calls: seq<Call>)
    requires Early(lib, env, s, states, calls)
    ensures Restored(lib, env).Some? && Publishable(s.receipts)
    ensures s.degraded.receipt.None? || Publishable(s.degraded)
    ensures NoticesKept(calls) ==> s.degraded.receipt.None?
  {
    var n := |calls| - 1;
    assert Admits(lib, env, states[n]) by { hide Admits; assert Step(lib, states[n], calls[n], states[n + 1]); }
    RefusingHolds(lib, env, s, states, calls, n);
    assert Publishable(states[n].receipts) by { hide Semantics; }
    hide Step, Publishable, Semantics;
    if s.degraded.receipt.Some? {
      var k := DegradedReceiptHolds(lib, states, calls, 0, n);
      assert !Succeeds(calls[k]);
    }
  }

  ghost function Longest(names: set<string>): (n: nat)
    ensures forall name :: name in names ==> |name| <= n
  {
    if names == {} then 0
    else
      var name :| name in names;
      var rest := Longest(names - {name});
      if |name| > rest then |name| else rest
  }

  /** `env` with a temporary name the folder does not hold. */
  ghost function Afresh(env: Env, f: Folder): (other: Env)
    ensures other.temp !in f.temps && other == env.(temp := other.temp)
  {
    env.(temp := seq(Longest(f.temps.Keys) + 1, _ => 't'))
  }

  /** An apply from any state that takes its receipt: the receipt is published although
      the publication raises (the marker was unlinked, the sync after it failed, and so
      did every fallback), and then the emergency table cannot be re-installed. */
  ghost function CutOff(lib: Library, env: Env, inputs: Inputs, s: State): (Call, State) {
    var receipt, full := ReceiptFor(env, inputs), FullRuleset(inputs.peer);
    (Apply(Afresh(env, s.receipts), false, Unretained, {}, "attestation_failed", Some(receipt),
           {MadeMarker, MarkerDurable, Replaced, UnlinkedMarker}, EmergencyRuleset(), full, false),
     State(full, s.receipts.(receipt := Some(File(lib.encode(receipt), OWNER_ONLY, true))), s.degraded))
  }

  lemma CutOffAdmits(lib: Library, env: Env, inputs: Inputs, s: State)
    requires Sound(lib) && Restored(lib, env) == Some(inputs)
    requires |lib.encode(ReceiptFor(env, inputs))| <= RECEIPT_MAX_BYTES && Publishable(s.receipts)
    ensures var (c, t) := CutOff(lib, env, inputs, s);
            Step(lib, s, c, t) && (s.degraded.receipt.None? ==> Admits(lib, env, t))
  {
    hide Semantics, EmergencyRuleset, FullRuleset, Afresh;
    assert ReceiptFor(Afresh(env, s.receipts), inputs) == ReceiptFor(env, inputs);
    ReceiptIsBound(env, inputs);
    hide ReceiptFor, BindingFor;
  }

  /** A gate that cannot read whether there is a degraded receipt: its own one replaces
      what is there and is then unlinked. */
  ghost function Unnoticed(lib: Library, env: Env, s: State): (Call, State) {
    (Gate(Afresh(env, s.degraded), false, Refused,
          {MadeMarker, MarkerDurable, Replaced, UnlinkedMarker, UnlinkedReceipt}),
     State(EmergencyRuleset(), s.receipts, s.degraded.(receipt := None)))
  }

  lemma UnnoticedSteps(lib: Library, env: Env, s: State)
    requires Publishable(s.degraded) && |Notice(lib, Unnoticed(lib, env, s).0)| <= RECEIPT_MAX_BYTES
    ensures Step(lib, s, Unnoticed(lib, env, s).0, Unnoticed(lib, env, s).1)
  {
    hide Semantics, EmergencyRuleset, FullRuleset, EmergencyDigest;
  }

  /** "No gate until a later apply succeeds" is false; this is exactly when.  From a
      state `s` some run lets a gate of `env` pass before any apply has succeeded if and
      only if the documents restore, the receipt folder takes a receipt, and there is no
      degraded receipt, or its folder would take another one and that one is lost. */
  lemma GateBeforeSuccess(lib: Library, env: Env, s: State)
    requires Sound(lib)
    requires Restored(lib, env).Some? ==>
               |lib.encode(ReceiptFor(env, Restored(lib, env).value))| <= RECEIPT_MAX_BYTES
    requires |Notice(lib, Unnoticed(lib, env, s).0)| <= RECEIPT_MAX_BYTES
    ensures (exists states, calls :: Early(lib, env, s, states, calls) && NoticesKept(calls)) <==>
              Restored(lib, env).Some? && Publishable(s.receipts) && s.degraded.receipt.None?
    ensures (exists states, calls :: Early(lib, env, s, states, calls)) <==>
              && Restored(lib, env).Some? && Publishable(s.receipts)
              && (s.degraded.receipt.None? || Publishable(s.degraded))
  {
    hide *;
    forall states, calls | Early(lib, env, s, states, calls)
      ensures Restored(lib, env).Some? && Publishable(s.receipts)
      ensures s.degraded.receipt.None? || Publishable(s.degraded)
      ensures NoticesKept(calls) ==> s.degraded.receipt.None?
    {
      EarlyNeeds(lib, env, s, states, calls);
    }
    if Restored(lib, env).Some? && Publishable(s.receipts) {
      if s.degraded.receipt.None? {
        var states, calls := EarlyRun(lib, env, s);
      } else if Publishable(s.degraded) {
        var states, calls := EarlyRunAfterLoss(lib, env, s);
      }
    }
  }

  lemma CutOffRun(lib: Library, env: Env, inputs: Inputs, s: State)
    requires Sound(lib) && Restored(lib, env) == Some(inputs) && s.degraded.receipt.None?
    requires |lib.encode(ReceiptFor(env, inputs))| <= RECEIPT_MAX_BYTES && Publishable(s.receipts)
    ensures var (c, t) := CutOff(lib, env, inputs, s);
            && c.Apply? && c.ending == Unretained && !c.cleared
            && Run(lib, [s] + [t, t], [c] + [Gate(env, true, Done, {})])
  {
    var (c, t) := CutOff(lib, env, inputs, s);
    CutOffAdmits(lib, env, inputs, s);
    GatePasses(lib, env, t);
    hide CutOff, Run, Step, Admits;
    Prepend(lib, s, c, [t, t], [Gate(env, true, Done, {})]);
  }

  lemma EarlyRun(lib: Library, env: Env, s: State) returns (states: seq<State>, calls: seq<Call>)
    requires Sound(lib) && Restored(lib, env).Some? && Publishable(s.receipts) && s.degraded.receipt.None?
    requires |lib.encode(ReceiptFor(env, Restored(lib, env).value))| <= RECEIPT_MAX_BYTES
    ensures Early(lib, env, s, states, calls) && NoticesKept(calls)
    ensures |calls| == 2 && calls[0] == CutOff(lib, env, Restored(lib, env).value, s).0
    ensures calls[1] == Gate(env, true, Done, {})
  {
    hide CutOff, Run, ReceiptFor, Publishable, Sound;
    var (c, t) := CutOff(lib, env, Restored(lib, env).value, s);
    CutOffRun(lib, env, Restored(lib, env).value, s);
    states, calls := [s] + [t, t], [c] + [Gate(env, true, Done, {})];
  }

  lemma GatePasses(lib: Library, env: Env, s: State)
    requires Admits(lib, env, s)
    ensures Run(lib, [s, s], [Gate(env, true, Done, {})])
  {
    hide Admits;
  }

  lemma EarlyRunAfterLoss(lib: Library, env: Env, s: State) returns (states: seq<State>, calls: seq<Call>)
    requires Sound(lib) && Restored(lib, env).Some? && Publishable(s.receipts) && Publishable(s.degraded)
    requires |lib.encode(ReceiptFor(env, Restored(lib, env).value))| <= RECEIPT_MAX_BYTES
    requires |Notice(lib, Unnoticed(lib, env, s).0)| <= RECEIPT_MAX_BYTES
    ensures Early(lib, env, s, states, calls) && |calls| == 3
    ensures calls[0].Gate? && LosesNotice(calls[0]) && !LosesNotice(calls[1]) && calls[2] == Gate(env, true, Done, {})
  {
    hide Run, Step, EmergencyRuleset, FullRuleset, ReceiptFor, Notice;
    var (c, t) := Unnoticed(lib, env, s);
    UnnoticedSteps(lib, env, s);
    var rest, more := EarlyRun(lib, env, t);
    Prepend(lib, s, c, rest, more);
    states, calls := [s] + rest, [c] + more;
  }

  /** A receipt that can be required was stored by an apply of this run. */
  lemma {:induction false} ReceiptIsFromApply(lib: Library, states: seq<State>, calls: seq<Call>, j: nat)
    returns (k: nat)
    requires Sound(lib) && Run(lib, states, calls) && j <= |calls|
    requires Required(states[j].receipts, lib.decode).Some? && Required(states[0].receipts, lib.decode).None?
    ensures k < j && calls[k].Apply? && Replaced in calls[k].acts
    ensures calls[k].issued == Required(states[j].receipts, lib.decode)
    ensures Restored(lib, calls[k].env).Some?
    ensures calls[k].issued.Some?
    ensures calls[k].issued.value == ReceiptFor(calls[k].env, Restored(lib, calls[k].env).value)
    ensures calls[k].issued.value.issuedAt == calls[k].env.now && calls[k].issued.value.keyId == "firewall-receipt-v1"
  {
    hide Semantics, EmergencyRuleset, FullRuleset, Loaded, ReceiptFor;
    assert j > 0;
    var n := j - 1;
    assert Step(lib, states[n], calls[n], states[n + 1]);
    if calls[n].Apply? && calls[n].issued.Some? && Replaced in calls[n].acts {
      k := n;
      ReceiptIsBound(calls[k].env, Restored(lib, calls[k].env).value);
    } else {
      k := ReceiptIsFromApply(lib, states, calls, n);
    }
  }

  /** A gate that lets the edge start names an apply of this run for the same boot,
      build, configuration and peer, which had observed the peer's full table. */
  lemma GateFollowsApply(lib: Library, states: seq<State>, calls: seq<Call>, j: nat) returns (k: nat)
    requires Sound(lib) && Run(lib, states, calls) && j < |calls|
    requires calls[j].Gate? && calls[j].ending == Done
    requires Required(states[0].receipts, lib.decode).None?
    ensures k < j && calls[k].Apply? && Replaced in calls[k].acts
    ensures var a, b := calls[k].env, calls[j].env;
            && (a.bootId, a.key, a.commit, a.neighbor) == (b.bootId, b.key, b.commit, b.neighbor)
            && (a.endpoint, a.network, a.capability) == (b.endpoint, b.network, b.capability)
            && Restored(lib, a).Some? && Restored(lib, b).Some?
            && Restored(lib, a).value == Restored(lib, b).value
            && Semantics(states[j].live) == Semantics(FullRuleset(Restored(lib, a).value.peer))
  {
    hide Semantics, EmergencyRuleset, FullRuleset, Loaded, Required, Issuing;
    assert Step(lib, states[j], calls[j], states[j + 1]);
    k := ReceiptIsFromApply(lib, states, calls, j);
    var a, b := calls[k].env, calls[j].env;
    var x, y := Restored(lib, a).value, Restored(lib, b).value;
    RulesDeterminePeer(x.peer, y.peer);
  }

  /** Such a run: a gate that cannot read its key refuses without a degraded receipt,
      an apply is cut off, and an undisturbed gate passes. */
  lemma UnretainedApplyOpens(lib: Library, env: Env, inputs: Inputs)
    returns (states: seq<State>, calls: seq<Call>)
    requires Sound(lib) && Restored(lib, env) == Some(inputs)
    requires |lib.encode(ReceiptFor(env, inputs))| <= RECEIPT_MAX_BYTES
    ensures Run(lib, states, calls) && |calls| == 3
    ensures calls[0] == Gate(env, false, Refused, {}) && calls[1].Apply? && calls[1].ending == Unretained
    ensures calls[2] == Gate(env, true, Done, {})
  {
    hide Run, Step, EmergencyRuleset, FullRuleset, ReceiptFor;
    var empty := Folder(None, false, false, map[]);
    var s := State(EmergencyRuleset(), empty, empty);
    var rest, more := EarlyRun(lib, env, s);
    states, calls := [s] + rest, [Gate(env, false, Refused, {})] + more;
    SilentRefusal(lib, env, s);
    Prepend(lib, s, calls[0], rest, more);
  }

  lemma SilentRefusal(lib: Library, env: Env, s: State)
    requires s.live == EmergencyRuleset()
    ensures Step(lib, s, Gate(env, false, Refused, {}), s)
  {
    hide Semantics, EmergencyRuleset;
  }

  lemma ReceiptIsBound(env: Env, inputs: Inputs)
    ensures Signed(ReceiptFor(env, inputs), env.key)
    ensures ReceiptFor(env, inputs).issuedAt == env.now && ReceiptFor(env, inputs).keyId == "firewall-receipt-v1"
    ensures ReceiptFor(env, inputs).binding == BindingFor(env, inputs, FullRules(inputs.peer))
  {
    hide Semantics, FullRuleset;
  }
}
