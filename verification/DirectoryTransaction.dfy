/**
 The crash-safe generated-directory transaction: one output directory, one
 transaction directory beside it, a journalled intent, and the recovery that
 every later run performs first.

 Every method may stop before any of its mutations, either with an error that
 the caller sees (`Raised`) or because the process died (`Crashed`).  A contract
 clause without a condition on the outcome therefore holds at every crash point.
 */
module DirectoryTransaction {
  import opened Faults
  import opened Wrappers

  const MAX_GENERATED_BYTES: nat := 4 * 1024 * 1024

  type Bytes = seq<byte>
  type Rendered = map<string, Bytes>

  /** Permission classes: 0700/0600, the other modes accepted on published
      entries, and the modes that are refused. */
  datatype Mode = Private | Shared(bits: nat) | Unsafe(bits: nat)

  /** `inode` stands for (device, inode) and `stamp` for the two timestamps. */
  datatype File = File(inode: nat, mode: Mode, stamp: nat, raw: Bytes)
  datatype Dir = Dir(inode: nat, mode: Mode, files: map<string, File>)

  /** SHA-256 as a free constructor: distinct messages have distinct digests. */
  datatype Digest = Sha256(message: Bytes)
  datatype EntryId = EntryId(sha256: Digest, mode: Mode, inode: nat, size: nat, stamp: nat)
  datatype TreeDigest = TreeSha256(inode: nat, mode: Mode, entries: map<string, EntryId>)
  datatype Receipt = Receipt(inode: nat, mode: Mode, tree: TreeDigest, entries: map<string, EntryId>)
  datatype Intent = Intent(output: string, names: set<string>, baseline: Option<Receipt>, candidate: Receipt)

  datatype Transaction = Transaction(temp: Option<File>, intent: Option<File>, stage: Option<Dir>)
  datatype Disk = Disk(output: Option<Dir>, txn: Option<Transaction>)

  datatype Label = Absent | Pre | Post

  // ---------------------------------------------------------------- receipts

  function Identify(f: File): EntryId {
    EntryId(Sha256(f.raw), f.mode, f.inode, |f.raw|, f.stamp)
  }

  function Entries(d: Dir): map<string, EntryId> {
    map n | n in d.files :: Identify(d.files[n])
  }

  function Contents(d: Dir): Rendered {
    map n | n in d.files :: d.files[n].raw
  }

  function ReceiptFor(d: Dir): Receipt {
    Receipt(d.inode, d.mode, TreeSha256(d.inode, d.mode, Entries(d)), Entries(d))
  }

  function OptionalReceipt(d: Option<Dir>): Option<Receipt> {
    if d.None? then None else Some(ReceiptFor(d.value))
  }

  predicate ModeOk(mode: Mode, private: bool) {
    if private then mode == Private else !mode.Unsafe?
  }

  /** The directory snapshot succeeds. */
  predicate SnapshotOk(d: Dir, names: set<string>, exact: bool, private: bool) {
    && ModeOk(d.mode, private)
    && d.files.Keys <= names
    && (exact ==> d.files.Keys == names)
    && forall n :: n in d.files ==> ModeOk(d.files[n].mode, private) && |d.files[n].raw| <= MAX_GENERATED_BYTES
  }

  predicate ReceiptMatches(d: Dir, r: Receipt, subset: bool) {
    && d.inode == r.inode
    && d.mode == r.mode
    && (if subset then d.files.Keys <= r.entries.Keys else d.files.Keys == r.entries.Keys)
    && (forall n :: n in d.files ==> Identify(d.files[n]) == r.entries[n])
    && ((subset && |d.files| != |r.entries|) || r.tree == TreeSha256(r.inode, r.mode, Entries(d)))
  }

  /** `d` is what is left of `whole` after some of its entries were unlinked. */
  predicate Remnant(d: Dir, whole: Dir) {
    && d.inode == whole.inode
    && d.mode == whole.mode
    && d.files.Keys <= whole.files.Keys
    && forall n :: n in d.files ==> d.files[n] == whole.files[n]
  }

  /** A receipt taken of a directory is matched exactly by that very directory. */
  lemma ExactReceiptIsIdentity(d: Dir, whole: Dir)
    ensures ReceiptMatches(d, ReceiptFor(whole), false) <==> d == whole
  {
    if ReceiptMatches(d, ReceiptFor(whole), false) {
      forall n | n in d.files ensures n in whole.files && d.files[n] == whole.files[n] {
        assert n in ReceiptFor(whole).entries;
        assert Identify(d.files[n]) == Identify(whole.files[n]);
      }
      assert d.files == whole.files;
    }
  }

  /** ... and up to missing entries by exactly its remnants. */
  lemma SubsetReceiptIsRemnant(d: Dir, whole: Dir)
    ensures ReceiptMatches(d, ReceiptFor(whole), true) <==> Remnant(d, whole)
  {
    var r := ReceiptFor(whole);
    assert r.entries.Keys == whole.files.Keys;
    if ReceiptMatches(d, r, true) {
      forall n | n in d.files ensures n in whole.files && d.files[n] == whole.files[n] {
        assert Identify(d.files[n]) == Identify(whole.files[n]);
      }
    }
    if Remnant(d, whole) && |d.files| == |r.entries| {
      SubsetOfEqualSize(d.files.Keys, whole.files.Keys);
      assert d.files == whole.files;
    }
  }

  lemma SubsetOfEqualSize<T>(a: set<T>, b: set<T>)
    requires a <= b && |a| == |b|
    ensures a == b
  {
    assert b == a + (b - a);
    assert |b| == |a| + |b - a|;
  }

  // ---------------------------------------------------------- classification

  /** Which side of the commit the recovery decides it is on. */
  function Classify(d: Disk, i: Intent): (side: Option<Label>)
    requires d.txn.Some?
  {
    var stage := d.txn.value.stage;
    var baselineOutput :=
      if i.baseline.None? then d.output.None?
      else d.output.Some? && ReceiptMatches(d.output.value, i.baseline.value, false);
    var candidateStage := stage.None? || ReceiptMatches(stage.value, i.candidate, true);
    var candidateOutput := d.output.Some? && ReceiptMatches(d.output.value, i.candidate, false);
    var baselineStage :=
      stage.None? || (i.baseline.Some? && ReceiptMatches(stage.value, i.baseline.value, true));
    if baselineOutput && candidateStage then Some(Pre)
    else if candidateOutput && baselineStage then Some(Post)
    else None
  }

  /** Every entry of `d` is one the receipt records, and if none is missing the receipt
      is that of `d` itself. */
  predicate PartOf(d: Dir, r: Receipt) {
    && d.inode == r.inode && d.mode == r.mode
    && (forall n :: n in d.files ==> n in r.entries && r.entries[n] == Identify(d.files[n]))
    && (d.files.Keys == r.entries.Keys ==> r == ReceiptFor(d))
  }

  /** The two sides of the commit, read off the receipts of an intent. */
  predicate BeforeCommit(d: Disk, i: Intent)
    requires d.txn.Some?
  {
    && OptionalReceipt(d.output) == i.baseline
    && (d.txn.value.stage.Some? ==> PartOf(d.txn.value.stage.value, i.candidate))
  }

  predicate AfterCommit(d: Disk, i: Intent)
    requires d.txn.Some?
  {
    && OptionalReceipt(d.output) == Some(i.candidate)
    && (d.txn.value.stage.Some? ==> i.baseline.Some? && PartOf(d.txn.value.stage.value, i.baseline.value))
  }

  predicate Tidy(d: Dir) {
    && !d.mode.Unsafe?
    && forall n :: n in d.files ==> !d.files[n].mode.Unsafe? && |d.files[n].raw| <= 4_194_304
  }

  /** The recovery may answer `side`: a private intent for this output and these names,
      nothing beside it, tidy directories, and the state of that side of the commit. */
  predicate Recognised(d: Disk, name: string, names: set<string>, decode: Bytes -> Option<Intent>, side: Label)
    requires d.txn.Some? && d.txn.value.intent.Some?
  {
    var t := d.txn.value;
    var decoded := decode(t.intent.value.raw);
    && t.temp.None? && t.intent.value.mode == Private
    && decoded.Some? && decoded.value.output == name && decoded.value.names == names
    && (d.output.Some? ==> Tidy(d.output.value) && d.output.value.files.Keys == names)
    && (t.stage.Some? ==> Tidy(t.stage.value))
    && match side
       case Absent => false
       case Pre => BeforeCommit(d, decoded.value)
       case Post => AfterCommit(d, decoded.value) && !BeforeCommit(d, decoded.value)
  }

  lemma ExactMatch(d: Dir, r: Receipt)
    ensures ReceiptMatches(d, r, false) <==> ReceiptFor(d) == r
  {
    if ReceiptMatches(d, r, false) { assert Entries(d) == r.entries; }
  }

  lemma SubsetMatch(d: Dir, r: Receipt)
    ensures ReceiptMatches(d, r, true) <==> PartOf(d, r)
  {
    if d.files.Keys <= r.entries.Keys && |d.files| == |r.entries| { SubsetOfEqualSize(d.files.Keys, r.entries.Keys); }
    if d.files.Keys == r.entries.Keys {
      assert |d.files| == |d.files.Keys| == |r.entries.Keys| == |r.entries|;
      ExactMatch(d, r);
    }
  }

  /** A state that is neither side of the commit is not classified. */
  lemma ClassifyIsSide(d: Disk, i: Intent)
    requires d.txn.Some?
    ensures Classify(d, i) == if BeforeCommit(d, i) then Some(Pre) else if AfterCommit(d, i) then Some(Post) else None
  {
    hide ReceiptMatches, PartOf, ReceiptFor;
    if d.output.Some? {
      ExactMatch(d.output.value, i.candidate);
      if i.baseline.Some? { ExactMatch(d.output.value, i.baseline.value); }
    }
    if d.txn.value.stage.Some? {
      SubsetMatch(d.txn.value.stage.value, i.candidate);
      if i.baseline.Some? { SubsetMatch(d.txn.value.stage.value, i.baseline.value); }
    }
  }

  /** What the journal records: the two directories the receipts were taken of,
      and whether the commit rename has happened. */
  datatype Journal = Journal(baseline: Option<Dir>, candidate: Dir, committed: bool)

  ghost predicate JournalSides(d: Disk, j: Journal, names: set<string>)
    requires d.txn.Some?
  {
    var stage := d.txn.value.stage;
    && SnapshotOk(j.candidate, names, true, true)
    && (j.baseline.Some? ==> SnapshotOk(j.baseline.value, names, true, false)
                             && j.baseline.value.inode != j.candidate.inode)
    && (if j.committed
        then d.output == Some(j.candidate)
             && (stage.Some? ==> j.baseline.Some? && Remnant(stage.value, j.baseline.value))
        else d.output == j.baseline
             && (stage.Some? ==> Remnant(stage.value, j.candidate)))
  }

  function JournalIntent(name: string, names: set<string>, j: Journal): Intent {
    Intent(name, names, OptionalReceipt(j.baseline), ReceiptFor(j.candidate))
  }

  /** The recovery answers POST exactly when the commit rename has happened. */
  lemma ClassifyIsCommitted(d: Disk, j: Journal, name: string, names: set<string>)
    requires d.txn.Some? && JournalSides(d, j, names)
    ensures Classify(d, JournalIntent(name, names, j)) == Some(if j.committed then Post else Pre)
  {
    if d.output.Some? {
      ExactReceiptIsIdentity(d.output.value, j.candidate);
      if j.baseline.Some? { ExactReceiptIsIdentity(d.output.value, j.baseline.value); }
    }
    var stage := d.txn.value.stage;
    if stage.Some? {
      SubsetReceiptIsRemnant(stage.value, j.candidate);
      if j.baseline.Some? { SubsetReceiptIsRemnant(stage.value, j.baseline.value); }
    }
  }

  ghost predicate Journalled(d: Disk, j: Journal, name: string, names: set<string>, encode: Intent -> Bytes) {
    && d.txn.Some?
    && d.txn.value.intent.Some?
    && d.txn.value.temp.None?
    && d.txn.value.intent.value.mode == Private
    && d.txn.value.intent.value.raw == encode(JournalIntent(name, names, j))
    && JournalSides(d, j, names)
  }

  /** The names the journalled run rendered. */
  function Names(j: Journal): set<string> {
    j.candidate.files.Keys
  }

  /** Every journalled transaction on disk is one the recovery can finish, for the
      names of the run that journalled it. */
  ghost predicate Recoverable(d: Disk, j: Journal, name: string, encode: Intent -> Bytes) {
    d.txn.Some? && d.txn.value.intent.Some? ==> Journalled(d, j, name, Names(j), encode)
  }

  /** A journalled transaction, or what its interrupted cleanup leaves behind. */
  ghost predicate Settling(d: Disk, j: Journal, name: string, names: set<string>, encode: Intent -> Bytes) {
    d.txn.None? || d.txn == Some(Transaction(None, None, None)) || Journalled(d, j, name, names, encode)
  }

  /** The cleanup of an unjournaled transaction goes through exactly on these disks. */
  predicate Unambiguous(d: Disk, name: string, rendered: Rendered, encode: Intent -> Bytes)
    requires d.txn.Some?
  {
    var t := d.txn.value;
    && (t.stage.Some? ==>
          && SnapshotOk(t.stage.value, rendered.Keys, t.temp.Some?, true)
          && forall n :: n in t.stage.value.files ==> t.stage.value.files[n].raw <= rendered[n])
    && (t.temp.Some? ==>
          && t.stage.Some?
          && t.temp.value.mode == Private
          && (d.output.Some? ==> SnapshotOk(d.output.value, rendered.Keys, true, false))
          && t.temp.value.raw
             <= encode(Intent(name, rendered.Keys, OptionalReceipt(d.output), ReceiptFor(t.stage.value))))
  }

  /** The leftovers that the recovery of a run rendering `rendered` removes: none, a
      transaction journalled for the same names, or an unambiguous one. */
  ghost predicate Passes(d: Disk, j: Journal, name: string, rendered: Rendered, encode: Intent -> Bytes) {
    d.txn.Some? ==>
      if d.txn.value.intent.Some? then Names(j) == rendered.Keys else Unambiguous(d, name, rendered, encode)
  }

  class OutputParent {
    const name: string
    /** Canonical JSON of an intent, and the strict parser that accepts nothing else. */
    const encode: Intent -> Bytes
    const decode: Bytes -> Option<Intent>

    var disk: Disk
    ghost var journal: Journal

    ghost predicate Codec() {
      forall raw, i :: decode(raw) == Some(i) <==> encode(i) == raw
    }

    /** Only an empty directory can be removed. */
    method RemoveStage()
      requires disk.txn.Some? && disk.txn.value.stage.Some? && disk.txn.value.stage.value.files == map[]
      modifies this`disk
      ensures disk == old(disk).(txn := Some(old(disk.txn.value).(stage := None)))
    {
      disk := disk.(txn := Some(disk.txn.value.(stage := None)));
    }

    method RemoveTransaction()
      requires disk.txn == Some(Transaction(None, None, None))
      modifies this`disk
      ensures disk == old(disk).(txn := None)
    {
      disk := disk.(txn := None);
    }

    method RemoveReceipted(receipt: Receipt, calm: bool) returns (r: Outcome<()>)
      requires disk.txn.Some? && disk.txn.value.stage.Some?
      modifies this`disk
      ensures disk.output == old(disk.output)
      ensures disk.txn.Some?
      ensures disk.txn.value.(stage := None) == old(disk.txn.value).(stage := None)
      ensures disk.txn.value.stage.Some? ==>
                Remnant(disk.txn.value.stage.value, old(disk.txn.value.stage.value))
      ensures r.Returned? ==> disk.txn.value.stage.None?
      ensures old(!CleanupAuthorised(disk.txn.value.stage.value, receipt)) ==>
                r == Raised && disk == old(disk)
      ensures calm && old(CleanupAuthorised(disk.txn.value.stage.value, receipt)) ==> r.Returned?
      ensures old(!PartOf(disk.txn.value.stage.value, receipt)) ==> r == Raised && disk == old(disk)
      ensures calm && old(PartOf(disk.txn.value.stage.value, receipt) && Tidy(disk.txn.value.stage.value)) ==>
                r.Returned?
    {
      SubsetMatch(disk.txn.value.stage.value, receipt);
      PartIsAuthorised(disk.txn.value.stage.value, receipt);
      hide PartOf, Tidy;
      var stage := disk.txn.value.stage.value;
      if !CleanupAuthorised(stage, receipt) { return Raised; }
      var fault;
      var left := stage;
      while left.files != map[]
        invariant Remnant(left, stage)
        invariant disk.output == old(disk.output) && disk.txn.Some?
        invariant disk.txn.value == old(disk.txn.value).(stage := Some(left))
        decreases left.files.Keys
      {
        fault := Tick(calm);
        if fault != Calm { return if fault == Crash then Crashed else Raised; }
        var n :| n in left.files;
        left := left.(files := left.files - {n});
        disk := disk.(txn := Some(disk.txn.value.(stage := Some(left))));
      }
      fault := Tick(calm);
      if fault != Calm { return if fault == Crash then Crashed else Raised; }
      RemoveStage();
      r := Returned(());
    }

    /** Cleanup of a transaction that never got its intent: it goes through exactly
        on the unambiguous disks, and otherwise touches nothing. */
    method RemoveUnjournaled(rendered: Rendered, calm: bool) returns (r: Outcome<()>)
      requires disk.txn.Some? && disk.txn.value.intent.None?
      modifies this`disk
      ensures disk.output == old(disk.output)
      ensures disk.txn.Some? ==>
                && disk.txn.value.intent.None?
                && (disk.txn.value.temp == old(disk.txn.value.temp) || disk.txn.value.temp.None?)
                && (old(disk.txn.value.stage.None?) ==> disk.txn.value.stage.None?)
      ensures disk.txn.None? ==> old(Unambiguous(disk, name, rendered, encode))
      ensures r.Returned? ==> disk.txn.None?
      ensures old(!Unambiguous(disk, name, rendered, encode)) ==> r == Raised && disk == old(disk)
      ensures old(Unambiguous(disk, name, rendered, encode)) && disk.txn.Some? ==>
                Unambiguous(disk, name, rendered, encode) || Stranded(disk, rendered.Keys)
      ensures calm && old(Unambiguous(disk, name, rendered, encode)) ==> r.Returned?
    {
      if !Unambiguous(disk, name, rendered, encode) { return Raised; }
      var fault;
      ghost var whole := disk.txn.value.stage;
      if disk.txn.value.stage.Some? {
        var left := disk.txn.value.stage.value;
        while left.files != map[]
          invariant disk.output == old(disk.output) && disk.txn.Some?
          invariant disk.txn.value == old(disk.txn.value).(stage := Some(left))
          invariant Remnant(left, whole.value)
          invariant left == whole.value || exists n :: n in whole.value.files && n !in left.files
          decreases left.files.Keys
        {
          fault := Tick(calm);
          if fault != Calm { return if fault == Crash then Crashed else Raised; }
          var n :| n in left.files;
          left := left.(files := left.files - {n});
          disk := disk.(txn := Some(disk.txn.value.(stage := Some(left))));
        }
        fault := Tick(calm);
        if fault != Calm { return if fault == Crash then Crashed else Raised; }
        RemoveStage();
      }
      fault := Tick(calm);
      if fault != Calm { return if fault == Crash then Crashed else Raised; }
      disk := disk.(txn := Some(disk.txn.value.(temp := None)));
      fault := Tick(calm);
      if fault != Calm { return if fault == Crash then Crashed else Raised; }
      RemoveTransaction();
      fault := Tick(calm);
      if fault != Calm { return if fault == Crash then Crashed else Raised; }
      r := Returned(());
    }

    /** Recovery.  It never touches the published directory; a journalled
        transaction is labelled POST exactly when its commit rename happened, stays
        recoverable whatever happens, and is gone after a calm pass.  Whatever run
        left the transaction, a recovery for `rendered` goes through exactly if it
        passes, and otherwise touches nothing. */
    method Reconcile(rendered: Rendered, calm: bool) returns (r: Outcome<Label>)
      requires Codec()
      modifies this`disk
      ensures disk.output == old(disk.output)
      ensures r.Returned? ==> disk.txn.None?
      ensures r == Returned(Absent) <==> old(disk.txn.None?)
      ensures old(disk.txn.Some? && disk.txn.value.intent.None?) && r.Returned? ==> r.value == Pre
      ensures old(Recoverable(disk, journal, name, encode)) ==>
                && Recoverable(disk, journal, name, encode)
                && (calm ==> (r.Returned? <==> old(Passes(disk, journal, name, rendered, encode))))
                && (!old(Passes(disk, journal, name, rendered, encode)) ==> r == Raised && disk == old(disk))
      ensures old(Journalled(disk, journal, name, rendered.Keys, encode)) ==>
                && (r.Returned? ==> r.value == if journal.committed then Post else Pre)
                && (calm ==> r.Returned?)
      ensures old(disk.txn.Some? && disk.txn.value.intent.None?) ==>
                && (calm && old(Unambiguous(disk, name, rendered, encode)) ==> r.Returned?)
                && (!old(Unambiguous(disk, name, rendered, encode)) ==> r == Raised && disk == old(disk))
      ensures old(disk.txn.Some? && disk.txn.value.intent.Some?) ==>
                && (r.Returned? ==> old(Recognised(disk, name, rendered.Keys, decode, r.value)))
                && (calm && old(Recognised(disk, name, rendered.Keys, decode, Pre)) ==> r == Returned(Pre))
                && (calm && old(Recognised(disk, name, rendered.Keys, decode, Post)) ==> r == Returned(Post))
                && ((forall side :: !old(Recognised(disk, name, rendered.Keys, decode, side))) ==>
                      r == Raised && disk == old(disk))
      ensures old(Settling(disk, journal, name, rendered.Keys, encode)) ==>
                && Settling(disk, journal, name, rendered.Keys, encode)
                && (calm ==> r.Returned?)
      ensures old(Retryable(disk, journal, name, rendered, encode)) ==>
                Retryable(disk, journal, name, rendered, encode) || Stranded(disk, rendered.Keys)
    {
      if disk.txn.None? { return Returned(Absent); }
      if disk.txn.value.intent.None? {
        var removed := RemoveUnjournaled(rendered, calm);
        if removed.Crashed? { return Crashed; }
        if removed.Raised? { return Raised; }
        return Returned(Pre);
      }
      r := ReconcileJournaled(rendered.Keys, calm);
    }

    method ReconcileJournaled(names: set<string>, calm: bool) returns (r: Outcome<Label>)
      requires Codec()
      requires disk.txn.Some? && disk.txn.value.intent.Some?
      modifies this`disk
      ensures disk.output == old(disk.output)
      ensures r.Returned? ==> disk.txn.None? && r.value != Absent
      ensures r.Returned? ==> old(Recognised(disk, name, names, decode, r.value))
      ensures calm && old(Recognised(disk, name, names, decode, Pre)) ==> r == Returned(Pre)
      ensures calm && old(Recognised(disk, name, names, decode, Post)) ==> r == Returned(Post)
      ensures !old(Recognised(disk, name, names, decode, Pre)) && !old(Recognised(disk, name, names, decode, Post)) ==>
                r == Raised && disk == old(disk)
      ensures old(Journalled(disk, journal, name, Names(journal), encode)) && names != Names(journal) ==>
                r == Raised && disk == old(disk)
      ensures old(Journalled(disk, journal, name, names, encode)) ==>
                && Recoverable(disk, journal, name, encode)
                && (disk.txn.Some? && disk.txn.value.intent.None? ==> disk.txn.value == Transaction(None, None, None))
                && (r.Returned? ==> r.value == if journal.committed then Post else Pre)
                && (calm ==> r.Returned?)
    {
      var side := Decide(disk, name, names, decode);
      ghost var was := Journalled(disk, journal, name, names, encode);
      if was { JournalledIsDecided(disk, journal, name, names, decode); }
      DecideIsRecognised(disk, name, names, decode);
      if side.None? { return Raised; }
      var receipt := CleanupReceipt(decode(disk.txn.value.intent.value.raw).value, side.value);
      r := FinishJournaled(side.value, receipt, calm);
      if was && disk.txn.Some? { RemnantsStayRemnants(old(disk), disk, journal, names); }
    }

    /** The tail of the recovery: empty the stage under its receipt, drop the intent,
        drop the transaction directory. */
    method FinishJournaled(side: Label, receipt: Option<Receipt>, calm: bool) returns (r: Outcome<Label>)
      requires disk.txn.Some? && disk.txn.value.intent.Some? && disk.txn.value.temp.None?
      requires disk.txn.value.stage.Some? ==> receipt.Some?
      modifies this`disk
      ensures disk.output == old(disk.output)
      ensures r.Returned? ==> disk.txn.None? && r.value == side
      ensures disk.txn.Some? ==>
                && disk.txn.value.temp.None?
                && (disk.txn.value.intent == old(disk.txn.value.intent)
                    || (disk.txn.value.intent.None? && disk.txn.value.stage.None?))
                && (disk.txn.value.stage.Some? ==>
                      && old(disk.txn.value.stage.Some?)
                      && Remnant(disk.txn.value.stage.value, old(disk.txn.value.stage.value)))
      ensures calm
              && old(disk.txn.value.stage.None? || CleanupAuthorised(disk.txn.value.stage.value, receipt.value)) ==>
                r.Returned?
    {
      var fault;
      if disk.txn.value.stage.Some? {
        var removed := RemoveReceipted(receipt.value, calm);
        if removed.Crashed? { return Crashed; }
        if removed.Raised? { return Raised; }
      }
      fault := Tick(calm);
      if fault != Calm { return if fault == Crash then Crashed else Raised; }
      disk := disk.(txn := Some(disk.txn.value.(intent := None)));
      fault := Tick(calm);
      if fault != Calm { return if fault == Crash then Crashed else Raised; }
      RemoveTransaction();
      fault := Tick(calm);
      if fault != Calm { return if fault == Crash then Crashed else Raised; }
      r := Returned(side);
    }

    /** Creates stage entry `n` and writes its bytes piece by piece. */
    method WriteEntry(n: string, rendered: Rendered, calm: bool) returns (r: Outcome<()>)
      requires n in rendered && |rendered[n]| <= MAX_GENERATED_BYTES
      requires Building(disk, rendered) && disk.txn.value.stage.Some?
      modifies this`disk
      ensures Building(disk, rendered)
      ensures disk.output == old(disk.output)
      ensures r.Returned? ==> exists f: File :: f.raw == rendered[n] && disk == PutEntry(old(disk), n, f)
      ensures calm ==> r.Returned?
    {
      var fault := Tick(calm);
      if fault != Calm { return if fault == Crash then Crashed else Raised; }
      var inode: nat, stamp: nat := *, *;
      var f := File(inode, Private, stamp, []);
      PutKeepsBuilding(old(disk), rendered, n, f);
      disk := PutEntry(disk, n, f);
      var offset := 0;
      while offset < |rendered[n]|
        invariant 0 <= offset <= |rendered[n]|
        invariant Building(disk, rendered)
        invariant f.mode == Private && f.raw == rendered[n][..offset] && disk == PutEntry(old(disk), n, f)
      {
        fault := Tick(calm);
        if fault != Calm { return if fault == Crash then Crashed else Raised; }
        var written: int := *;
        if calm { written := |rendered[n]| - offset; }
        if written <= 0 || offset + written > |rendered[n]| { return Raised; }
        offset := offset + written;
        stamp := *;
        f := File(inode, Private, stamp, rendered[n][..offset]);
        PutKeepsBuilding(old(disk), rendered, n, f);
        disk := PutEntry(disk, n, f);
      }
      r := Returned(());
    }

    /** Creates the transaction directory and fills a private stage. */
    method BuildStage(rendered: Rendered, calm: bool) returns (r: Outcome<()>)
      requires disk.txn.None?
      requires forall n :: n in rendered ==> |rendered[n]| <= MAX_GENERATED_BYTES
      modifies this`disk
      ensures disk.output == old(disk.output)
      ensures disk.txn.Some? ==> Building(disk, rendered)
      ensures r.Returned? ==> disk.txn.Some? && Staged(disk, rendered)
      ensures calm ==> r.Returned?
    {
      var fault := Tick(calm);
      if fault != Calm { return if fault == Crash then Crashed else Raised; }
      disk := disk.(txn := Some(Transaction(None, None, None)));
      fault := Tick(calm);
      if fault != Calm { return if fault == Crash then Crashed else Raised; }
      var inode: nat := *;
      if calm { inode := if disk.output.Some? then disk.output.value.inode + 1 else 0; }
      assert disk.txn == Some(Transaction(None, None, None));
      // A live directory cannot share its identity with a new one.
      if disk.output.Some? && disk.output.value.inode == inode { return Raised; }
      disk := disk.(txn := Some(Transaction(None, None, Some(Dir(inode, Private, map[])))));
      var todo := rendered.Keys;
      while todo != {}
        invariant todo <= rendered.Keys
        invariant disk.output == old(disk.output)
        invariant Building(disk, rendered) && disk.txn.value.stage.Some?
        invariant disk.txn.value.stage.value.inode == inode
        invariant disk.txn.value.stage.value.files.Keys == rendered.Keys - todo
        invariant forall m :: m in disk.txn.value.stage.value.files ==>
                    disk.txn.value.stage.value.files[m].raw == rendered[m]
        decreases todo
      {
        var n :| n in todo;
        var wrote := WriteEntry(n, rendered, calm);
        if wrote.Crashed? { return Crashed; }
        if wrote.Raised? { return Raised; }
        todo := todo - {n};
      }
      r := Returned(());
    }

    /** Journals the intent: a temporary file that grows, then one rename. */
    method WriteIntent(rendered: Rendered, calm: bool) returns (r: Outcome<()>)
      requires disk.txn.Some? && Staged(disk, rendered)
      requires disk.output.Some? ==> SnapshotOk(disk.output.value, rendered.Keys, true, false)
      modifies this
      ensures disk.output == old(disk.output)
      ensures disk.txn.Some? && disk.txn.value.stage == old(disk.txn.value.stage)
      ensures disk.txn.value.intent.None? ==> Unambiguous(disk, name, rendered, encode)
      ensures disk.txn.value.intent.Some? ==>
                && Journalled(disk, journal, name, rendered.Keys, encode)
                && journal == Journal(disk.output, disk.txn.value.stage.value, false)
      ensures r.Returned? ==> disk.txn.value.intent.Some?
      ensures calm ==> r.Returned?
    {
      var stage := disk.txn.value.stage.value;
      var raw := encode(Intent(name, rendered.Keys, OptionalReceipt(disk.output), ReceiptFor(stage)));
      var fault := Tick(calm);
      if fault != Calm { return if fault == Crash then Crashed else Raised; }
      var inode: nat, stamp: nat := *, *;
      disk := disk.(txn := Some(Transaction(Some(File(inode, Private, stamp, [])), None, Some(stage))));
      var offset := 0;
      while offset < |raw|
        invariant 0 <= offset <= |raw|
        invariant disk.output == old(disk.output) && disk.txn.Some?
        invariant disk.txn.value.intent.None? && disk.txn.value.stage == Some(stage)
        invariant disk.txn.value.temp == Some(File(inode, Private, stamp, raw[..offset]))
      {
        fault := Tick(calm);
        if fault != Calm { return if fault == Crash then Crashed else Raised; }
        var written: int := *;
        if calm { written := |raw| - offset; }
        if written <= 0 || offset + written > |raw| { return Raised; }
        offset := offset + written;
        stamp := *;
        disk := disk.(txn := Some(Transaction(Some(File(inode, Private, stamp, raw[..offset])), None, Some(stage))));
      }
      assert raw[..offset] == raw;
      fault := Tick(calm);
      if fault != Calm { return if fault == Crash then Crashed else Raised; }
      stamp := *;
      disk := disk.(txn := Some(Transaction(None, Some(File(inode, Private, stamp, raw)), Some(stage))));
      journal := Journal(disk.output, stage, false);
      fault := Tick(calm);
      if fault != Calm { return if fault == Crash then Crashed else Raised; }
      r := Returned(());
    }

    /** The commit: one atomic rename.  An absent baseline is replaced without
        overwriting, a present one is exchanged with the stage. */
    method Commit(names: set<string>)
      requires Journalled(disk, journal, name, names, encode)
      requires !journal.committed && disk.txn.value.stage == Some(journal.candidate)
      modifies this
      ensures Journalled(disk, journal, name, names, encode)
      ensures journal == old(journal).(committed := true)
      ensures disk.output == Some(old(journal.candidate))
      ensures disk.txn == Some(old(disk.txn.value).(stage := old(disk.output)))
    {
      var stage := disk.txn.value.stage;
      if disk.output.None? {
        disk := Disk(stage, Some(disk.txn.value.(stage := None)));
      } else {
        disk := Disk(stage, Some(disk.txn.value.(stage := disk.output)));
      }
      journal := journal.(committed := true);
    }

    /** Stage and journal; the published directory is still the baseline. */
    method Prepare(rendered: Rendered, calm: bool) returns (r: Outcome<()>)
      requires disk.txn.None?
      requires disk.output.Some? ==> SnapshotOk(disk.output.value, rendered.Keys, true, false)
      requires forall n :: n in rendered ==> |rendered[n]| <= MAX_GENERATED_BYTES
      modifies this
      ensures disk.output == old(disk.output)
      ensures Retryable(disk, journal, name, rendered, encode)
      ensures r.Returned? ==>
                && Journalled(disk, journal, name, rendered.Keys, encode)
                && !journal.committed
                && disk.txn.value.stage == Some(journal.candidate)
                && Contents(journal.candidate) == rendered
      ensures calm ==> r.Returned?
    {
      r := BuildStage(rendered, calm);
      if r.Returned? { r := WriteIntent(rendered, calm); }
    }

    /** Commit and clean up; from here on the candidate is published. */
    method Publish(rendered: Rendered, calm: bool) returns (r: Outcome<()>)
      requires Codec()
      requires Journalled(disk, journal, name, rendered.Keys, encode)
      requires !journal.committed && disk.txn.value.stage == Some(journal.candidate)
      modifies this
      ensures disk.output == Some(old(journal.candidate))
      ensures Retryable(disk, journal, name, rendered, encode)
      ensures SnapshotOk(disk.output.value, rendered.Keys, true, false)
      ensures r.Returned? ==> disk.txn.None?
      ensures calm ==> r.Returned?
    {
      // The baseline is read again before publication; under the lock it is unchanged.
      assert disk.output == journal.baseline;
      Commit(rendered.Keys);
      var fault := Tick(calm);
      if fault != Calm { return if fault == Crash then Crashed else Raised; }
      var recovered := Reconcile(rendered, calm);
      if recovered.Crashed? { return Crashed; }
      if recovered.Raised? { return Raised; }
      // A committed transaction reconciles as POST, and what is then read back
      // carries the candidate's receipt.
      assert recovered == Returned(Post);
      assert ReceiptMatches(disk.output.value, ReceiptFor(journal.candidate), false) by {
        ExactReceiptIsIdentity(disk.output.value, journal.candidate);
      }
      r := Returned(());
    }

    /** One run of the writer up to its first error. */
    method Attempt(rendered: Rendered, calm: bool) returns (r: Outcome<()>)
      requires Codec()
      requires forall n :: n in rendered ==> |rendered[n]| <= MAX_GENERATED_BYTES
      modifies this
      ensures old(Recoverable(disk, journal, name, encode)) ==> Recoverable(disk, journal, name, encode)
      ensures old(Retryable(disk, journal, name, rendered, encode)) ==>
                Retryable(disk, journal, name, rendered, encode) || Stranded(disk, rendered.Keys)
      ensures RunStep(old(disk), Wrote(rendered, r.Returned?), disk)
      ensures calm && old(Recoverable(disk, journal, name, encode)) ==>
                (r.Returned? <==> old(Ready(disk, journal, name, rendered, encode)))
      ensures old(Ready(disk, journal, name, rendered, encode)) ==>
                Ready(disk, journal, name, rendered, encode) || Stranded(disk, rendered.Keys)
    {
      var recovered := Reconcile(rendered, calm);
      if recovered.Crashed? { return Crashed; }
      if recovered.Raised? { return Raised; }
      if disk.output.Some? && !SnapshotOk(disk.output.value, rendered.Keys, true, false) { return Raised; }
      var step := Prepare(rendered, calm);
      if step.Crashed? { return Crashed; }
      if step.Raised? { return Raised; }
      r := Publish(rendered, calm);
    }

    /** One whole run: an error is followed by one more recovery, which `after` spares
        disturbances of its own. */
    method Write(rendered: Rendered, calm: bool, after: bool) returns (r: Outcome<()>)
      requires Codec()
      requires forall n :: n in rendered ==> |rendered[n]| <= MAX_GENERATED_BYTES
      modifies this
      ensures old(Recoverable(disk, journal, name, encode)) ==> Recoverable(disk, journal, name, encode)
      ensures old(Retryable(disk, journal, name, rendered, encode)) ==>
                Retryable(disk, journal, name, rendered, encode) || Stranded(disk, rendered.Keys)
      ensures RunStep(old(disk), Wrote(rendered, r.Returned?), disk)
      ensures calm && old(Recoverable(disk, journal, name, encode)) ==>
                (r.Returned? <==> old(Ready(disk, journal, name, rendered, encode)))
      ensures old(Ready(disk, journal, name, rendered, encode)) ==>
                Ready(disk, journal, name, rendered, encode) || Stranded(disk, rendered.Keys)
      ensures after && r.Raised? && old(Retryable(disk, journal, name, rendered, encode)) ==>
                disk.txn.None? || Stranded(disk, rendered.Keys)
    {
      r := Attempt(rendered, calm);
      if r.Raised? {
        var recovered := Reconcile(rendered, calm || after);
        if recovered.Crashed? { r := Crashed; }
      }
    }

    /** A run with one render, finished, failed or killed (`left` is what it leaves), and
        then an undisturbed recovery for another one.  It goes through exactly if the
        leftovers pass for the second render; those of a journalled run do exactly if
        the names agree, and those of a run with the same render unless stranded. */
    method WriteThenRecover(first: Rendered, second: Rendered)
      returns (wrote: Outcome<()>, r: Outcome<Label>, ghost left: Disk)
      requires Codec() && Recoverable(disk, journal, name, encode)
      requires forall n :: n in first ==> |first[n]| <= MAX_GENERATED_BYTES
      modifies this
      ensures RunStep(old(disk), Wrote(first, wrote.Returned?), left)
      ensures disk.output == left.output && Recoverable(left, journal, name, encode)
      ensures r.Returned? <==> Passes(left, journal, name, second, encode)
      ensures if r.Returned? then disk.txn.None? else disk == left
      ensures old(Passes(disk, journal, name, first, encode)) && left.txn.Some? ==>
                if left.txn.value.intent.Some? then r.Returned? <==> first.Keys == second.Keys
                else first == second ==> r.Returned? || Stranded(left, second.Keys)
    {
      wrote := Write(first, false, false);
      left := disk;
      r := Reconcile(second, true);
    }

    /** Recovery is re-entrant: however many recoveries of a journalled transaction
        are killed or fail, the next undisturbed one ends with the same published
        directory and no transaction.  Its label is the first one's unless the
        disturbed passes (`left` is what they left) had already dropped the intent. */
    method RecoverRepeatedly(rendered: Rendered, disturbed: nat) returns (r: Outcome<Label>, ghost left: Disk)
      requires Codec() && Journalled(disk, journal, name, rendered.Keys, encode)
      modifies this`disk
      ensures disk.output == old(disk.output) && disk.txn.None? && r.Returned?
      ensures disk.output == if journal.committed then Some(journal.candidate) else journal.baseline
      ensures left.output == disk.output && Settling(left, journal, name, rendered.Keys, encode)
      ensures disturbed == 0 ==> left == old(disk)
      ensures r.value == if left.txn.None? then Absent
                         else if left.txn.value.intent.Some? && journal.committed then Post
                         else Pre
    {
      for k := 0 to disturbed
        invariant disk.output == old(disk.output)
        invariant Settling(disk, journal, name, rendered.Keys, encode)
        invariant k == 0 ==> disk == old(disk)
      {
        var ignored := Reconcile(rendered, false);
      }
      left := disk;
      r := Reconcile(rendered, true);
    }

    /** A reader under the shared lock. */
    method OpenSnapshot(names: set<string>, calm: bool) returns (r: Outcome<Rendered>)
      ensures r.Returned? ==> RunStep(disk, Read(r.value), disk) && r.value.Keys == names
      ensures calm ==> (r.Returned? <==> disk.txn.None? && disk.output.Some?
                                         && SnapshotOk(disk.output.value, names, true, false))
    {
      var fault := Tick(calm);
      if fault != Calm { return if fault == Crash then Crashed else Raised; }
      if disk.txn.Some? { return Raised; }
      if disk.output.None? { return Raised; }
      if !SnapshotOk(disk.output.value, names, true, false) { return Raised; }
      r := Returned(Contents(disk.output.value));
    }
  }

  // -------------------------------------------------------------- whole runs

  /** A transaction under construction, before its intent is journalled. */
  predicate Building(d: Disk, rendered: Rendered) {
    && d.txn.Some?
    && d.txn.value.temp.None?
    && d.txn.value.intent.None?
    && (d.txn.value.stage.Some? ==>
          var stage := d.txn.value.stage.value;
          && SnapshotOk(stage, rendered.Keys, false, true)
          && forall n :: n in stage.files ==> stage.files[n].raw <= rendered[n])
  }

  predicate Staged(d: Disk, rendered: Rendered)
    requires d.txn.Some?
  {
    && Building(d, rendered)
    && d.txn.value.stage.Some?
    && SnapshotOk(d.txn.value.stage.value, rendered.Keys, true, true)
    && Contents(d.txn.value.stage.value) == rendered
    && (d.output.Some? ==> d.output.value.inode != d.txn.value.stage.value.inode)
  }

  /** The disks whose transaction an undisturbed recovery removes. */
  ghost predicate Retryable(d: Disk, j: Journal, name: string, rendered: Rendered, encode: Intent -> Bytes) {
    Recoverable(d, j, name, encode) && Passes(d, j, name, rendered, encode)
  }

  /** The one way a run can strand a successor with the same render: the cleanup of an
      unjournaled transaction stopped after it began to empty the stage but before it
      dropped the temporary intent. */
  predicate Stranded(d: Disk, names: set<string>) {
    && d.txn.Some?
    && d.txn.value.intent.None?
    && d.txn.value.temp.Some?
    && (d.txn.value.stage.Some? ==> d.txn.value.stage.value.files.Keys != names)
  }

  /** The disks from which an undisturbed run publishes, whatever run came before. */
  ghost predicate Ready(d: Disk, j: Journal, name: string, rendered: Rendered, encode: Intent -> Bytes) {
    && Retryable(d, j, name, rendered, encode)
    && (d.output.Some? ==> SnapshotOk(d.output.value, rendered.Keys, true, false))
  }

  /** A run killed while it writes leaves entries that no other render passes for, as
      long as some entry so far is not a beginning of that render's.  The disk is of the
      shape that `BuildStage` keeps: the transaction directory is made, then a private
      stage, then `n` with its first bytes, and there the run stops. */
  lemma AnotherRenderIsRefused(j: Journal, name: string, encode: Intent -> Bytes, first: Rendered, second: Rendered,
                               n: string, written: Bytes) returns (d: Disk)
    requires n in first && written <= first[n] && |written| <= MAX_GENERATED_BYTES
    requires n in second ==> !(written <= second[n])
    ensures Building(d, first) && Passes(d, j, name, first, encode) && !Passes(d, j, name, second, encode)
  {
    var stage := Dir(0, Private, map[n := File(0, Private, 0, written)]);
    d := Disk(None, Some(Transaction(None, None, Some(stage))));
    assert n in stage.files;
  }

  function PutEntry(d: Disk, n: string, f: File): Disk
    requires d.txn.Some? && d.txn.value.stage.Some?
  {
    var stage := d.txn.value.stage.value;
    d.(txn := Some(d.txn.value.(stage := Some(stage.(files := stage.files[n := f])))))
  }

  lemma PutKeepsBuilding(d: Disk, rendered: Rendered, n: string, f: File)
    requires Building(d, rendered) && d.txn.value.stage.Some?
    requires n in rendered && f.mode == Private && f.raw <= rendered[n] && |f.raw| <= MAX_GENERATED_BYTES
    ensures Building(PutEntry(d, n, f), rendered)
    ensures forall g :: PutEntry(PutEntry(d, n, g), n, f) == PutEntry(d, n, f)
  {
    forall g ensures PutEntry(PutEntry(d, n, g), n, f) == PutEntry(d, n, f) {
      var files := d.txn.value.stage.value.files;
      assert files[n := g][n := f] == files[n := f];
    }
  }

  /** What happens to the disk between two moments at which nobody holds the lock. */
  datatype Event = Wrote(rendered: Rendered, done: bool) | Read(contents: Rendered)

  ghost predicate RunStep(before: Disk, e: Event, after: Disk) {
    match e
    case Wrote(rendered, done) =>
      && (after.output == before.output || (after.output.Some? && Contents(after.output.value) == rendered))
      && (done ==> after.txn.None? && after.output.Some? && Contents(after.output.value) == rendered)
    case Read(contents) =>
      && after == before
      && before.txn.None?
      && before.output.Some?
      && contents == Contents(before.output.value)
  }

  /** The checks between reading the intent and touching anything. */
  function Decide(d: Disk, name: string, names: set<string>, decode: Bytes -> Option<Intent>): (side: Option<Label>)
    requires d.txn.Some? && d.txn.value.intent.Some?
    ensures side.Some? ==>
              && side.value != Absent
              && d.txn.value.temp.None?
              && decode(d.txn.value.intent.value.raw).Some?
              && (d.txn.value.stage.Some? ==>
                    CleanupReceipt(decode(d.txn.value.intent.value.raw).value, side.value).Some?)
  {
    var t := d.txn.value;
    var decoded := decode(t.intent.value.raw);
    if t.intent.value.mode != Private || decoded.None? then None
    else if decoded.value.output != name || decoded.value.names != names then None
    else if t.temp.Some? then None
    else if d.output.Some? && !SnapshotOk(d.output.value, names, true, false) then None
    else if t.stage.Some? && !SnapshotOk(t.stage.value, StageNames(decoded.value), false, false) then None
    else Classify(d, decoded.value)
  }

  function CleanupReceipt(i: Intent, side: Label): Option<Receipt> {
    if side == Post then i.baseline else Some(i.candidate)
  }

  lemma DecideIsRecognised(d: Disk, name: string, names: set<string>, decode: Bytes -> Option<Intent>)
    requires d.txn.Some? && d.txn.value.intent.Some?
    ensures Decide(d, name, names, decode) ==
            if Recognised(d, name, names, decode, Pre) then Some(Pre)
            else if Recognised(d, name, names, decode, Post) then Some(Post) else None
    ensures Decide(d, name, names, decode).Some? && d.txn.value.stage.Some? ==>
              CleanupAuthorised(d.txn.value.stage.value,
                                CleanupReceipt(decode(d.txn.value.intent.value.raw).value,
                                               Decide(d, name, names, decode).value).value)
  {
    hide SnapshotOk, Tidy, PartOf, CleanupAuthorised, Classify, ReceiptFor, BeforeCommit, AfterCommit;
    var decoded, stage := decode(d.txn.value.intent.value.raw), d.txn.value.stage;
    if decoded.Some? {
      var i := decoded.value;
      ClassifyIsSide(d, i);
      if d.output.Some? { TidyIsSnapshot(d.output.value, names, true); }
      if stage.Some? {
        TidyIsSnapshot(stage.value, StageNames(i), false);
        SideIsAuthorised(d, i);
      }
    }
  }

  lemma SideIsAuthorised(d: Disk, i: Intent)
    requires d.txn.Some? && d.txn.value.stage.Some?
    ensures var stage := d.txn.value.stage.value;
            && (BeforeCommit(d, i) || AfterCommit(d, i) ==> stage.files.Keys <= StageNames(i))
            && (BeforeCommit(d, i) && Tidy(stage) ==> CleanupAuthorised(stage, i.candidate))
            && (AfterCommit(d, i) ==> i.baseline.Some? && (Tidy(stage) ==> CleanupAuthorised(stage, i.baseline.value)))
  {
    hide Tidy, PartOf, CleanupAuthorised, OptionalReceipt;
    PartIsAuthorised(d.txn.value.stage.value, i.candidate);
    if i.baseline.Some? { PartIsAuthorised(d.txn.value.stage.value, i.baseline.value); }
  }

  lemma TidyIsSnapshot(d: Dir, names: set<string>, exact: bool)
    ensures SnapshotOk(d, names, exact, false) <==>
              Tidy(d) && (if exact then d.files.Keys == names else d.files.Keys <= names)
  {
  }

  /** What a run that never journalled its intent may leave behind: a private stage of
      beginnings of the rendered files, and with all of them there, a private beginning
      of the intent that would have been journalled. */
  ghost predicate Leftover(d: Disk, name: string, rendered: Rendered, encode: Intent -> Bytes)
    requires d.txn.Some?
  {
    var t := d.txn.value;
    && (t.stage.Some? ==>
          && t.stage.value.mode == Private
          && forall n :: n in t.stage.value.files ==>
               var f := t.stage.value.files[n];
               f.mode == Private && |f.raw| <= 4_194_304 && n in rendered && f.raw <= rendered[n])
    && (t.temp.Some? ==>
          && t.stage.Some? && t.stage.value.files.Keys == rendered.Keys
          && (d.output.Some? ==> Tidy(d.output.value) && d.output.value.files.Keys == rendered.Keys)
          && t.temp.value.mode == Private
          && t.temp.value.raw
             <= encode(Intent(name, rendered.Keys, OptionalReceipt(d.output), ReceiptFor(t.stage.value))))
  }

  lemma UnambiguousExact(d: Disk, name: string, rendered: Rendered, encode: Intent -> Bytes)
    requires d.txn.Some?
    ensures Unambiguous(d, name, rendered, encode) <==> Leftover(d, name, rendered, encode)
  {
    var t := d.txn.value;
    if d.output.Some? { TidyIsSnapshot(d.output.value, rendered.Keys, true); }
    hide ReceiptFor, Tidy;
  }

  lemma PartIsAuthorised(d: Dir, r: Receipt)
    ensures PartOf(d, r) ==> d.files.Keys <= r.entries.Keys && (Tidy(d) ==> CleanupAuthorised(d, r))
  {
    SubsetMatch(d, r);
    if PartOf(d, r) && Tidy(d) {
      TidyIsSnapshot(d, r.entries.Keys, false);
      assert forall n :: n in d.files ==> r.entries[n].mode == d.files[n].mode;
    }
  }

  lemma JournalledIsDecided(d: Disk, j: Journal, name: string, names: set<string>, decode: Bytes -> Option<Intent>)
    requires d.txn.Some? && d.txn.value.intent.Some? && d.txn.value.temp.None?
    requires d.txn.value.intent.value.mode == Private
    requires decode(d.txn.value.intent.value.raw) == Some(JournalIntent(name, names, j))
    requires JournalSides(d, j, names)
    ensures Decide(d, name, names, decode) == Some(if j.committed then Post else Pre)
    ensures d.txn.value.stage.Some? ==>
              CleanupAuthorised(d.txn.value.stage.value,
                                CleanupReceipt(decode(d.txn.value.intent.value.raw).value,
                                               if j.committed then Post else Pre).value)
  {
    ClassifyIsCommitted(d, j, name, names);
    JournalledSnapshots(d, j, name, names);
    hide Classify, SnapshotOk, JournalSides, CleanupAuthorised, StageNames;
  }

  /** Both directories of a journalled transaction pass the snapshot rules, and the
      stage may be cleaned up with the receipt of the side it belongs to. */
  lemma JournalledSnapshots(d: Disk, j: Journal, name: string, names: set<string>)
    requires d.txn.Some? && JournalSides(d, j, names)
    ensures d.output.Some? ==> SnapshotOk(d.output.value, names, true, false)
    ensures d.txn.value.stage.Some? ==>
              && (j.committed ==> j.baseline.Some?)
              && SnapshotOk(d.txn.value.stage.value, StageNames(JournalIntent(name, names, j)), false, false)
              && CleanupAuthorised(d.txn.value.stage.value,
                                   ReceiptFor(if j.committed then j.baseline.value else j.candidate))
  {
    var stage := d.txn.value.stage;
    if stage.Some? {
      var whole := if j.committed then j.baseline.value else j.candidate;
      RemnantsAreAuthorised(stage.value, whole, names);
      assert names <= StageNames(JournalIntent(name, names, j)) by {
        assert ReceiptFor(j.candidate).entries.Keys == names;
      }
    }
  }

  lemma RemnantsAreAuthorised(d: Dir, whole: Dir, names: set<string>)
    requires Remnant(d, whole) && SnapshotOk(whole, names, true, false)
    ensures CleanupAuthorised(d, ReceiptFor(whole))
    ensures SnapshotOk(d, names, false, false)
  {
    SubsetReceiptIsRemnant(d, whole);
    assert forall n :: n in d.files ==> ReceiptFor(whole).entries[n] == Identify(d.files[n]);
  }

  lemma RemnantsStayRemnants(before: Disk, after: Disk, j: Journal, names: set<string>)
    requires before.txn.Some? && JournalSides(before, j, names)
    requires after.txn.Some? && after.output == before.output
    requires after.txn.value.stage.Some? ==>
               before.txn.value.stage.Some? && Remnant(after.txn.value.stage.value, before.txn.value.stage.value)
    ensures JournalSides(after, j, names)
  {
  }

  /** The names a journalled stage may hold: either side's entries. */
  function StageNames(i: Intent): set<string> {
    i.candidate.entries.Keys + if i.baseline.None? then {} else i.baseline.value.entries.Keys
  }

  predicate CleanupAuthorised(d: Dir, receipt: Receipt) {
    SnapshotOk(d, receipt.entries.Keys, false, ReceiptPrivate(receipt)) && ReceiptMatches(d, receipt, true)
  }

  predicate ReceiptPrivate(receipt: Receipt) {
    receipt.mode == Private && forall n :: n in receipt.entries ==> receipt.entries[n].mode == Private
  }

  ghost predicate History(disks: seq<Disk>, events: seq<Event>) {
    && |disks| == |events| + 1
    && forall k :: 0 <= k < |events| ==> RunStep(disks[k], events[k], disks[k + 1])
  }

  /** `contents` is what the directory held at the start, or one writer's whole render. */
  ghost predicate WholeGeneration(contents: Rendered, disks: seq<Disk>, events: seq<Event>, k: nat)
    requires |disks| > 0 && k <= |events|
  {
    || (disks[0].output.Some? && contents == Contents(disks[0].output.value))
    || exists w :: 0 <= w < k && events[w].Wrote? && contents == events[w].rendered
  }

  /** Over any history of runs, finished, failed or killed, what is published is
      never a mixture: it is the initial directory or the whole render of one run. */
  lemma {:induction false} PublishedIsWhole(disks: seq<Disk>, events: seq<Event>, k: nat)
    requires History(disks, events) && k <= |events|
    ensures disks[k].output.Some? ==> WholeGeneration(Contents(disks[k].output.value), disks, events, k)
    ensures disks[k].output.None? ==> disks[0].output.None?
  {
    if k > 0 {
      PublishedIsWhole(disks, events, k - 1);
      assert RunStep(disks[k - 1], events[k - 1], disks[k]);
      if disks[k].output.Some? && disks[k].output == disks[k - 1].output {
        var contents := Contents(disks[k].output.value);
        assert WholeGeneration(contents, disks, events, k - 1);
      }
    }
  }

  /** Every snapshot a reader gets is such a whole generation, and right after a
      finished run it is that run's render. */
  lemma SnapshotsAreWhole(disks: seq<Disk>, events: seq<Event>, k: nat)
    requires History(disks, events) && k < |events| && events[k].Read?
    ensures WholeGeneration(events[k].contents, disks, events, k)
    ensures disks[k].txn.None?
    ensures k > 0 && events[k - 1].Wrote? && events[k - 1].done ==> events[k].contents == events[k - 1].rendered
  {
    PublishedIsWhole(disks, events, k);
    assert RunStep(disks[k], events[k], disks[k + 1]);
    if k > 0 { assert RunStep(disks[k - 1], events[k - 1], disks[k]); }
  }
}
