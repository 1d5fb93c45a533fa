/** Publication of a firewall receipt (deploy/reachy/boot_gate.py).

    A receipt is written to a temporary file and renamed over the old one while a
    marker file stands beside it.  Readers refuse while the marker, or the
    quarantine marker left by a failed publication, exists.  Every step may fail
    or be the last one the process takes.  The directory belongs to this user and
    has one publisher at a time, because the marker is created exclusively. */
module Receipts {
  import opened Faults
  import opened Wrappers

  type Bytes = string

  const RECEIPT_MAX_BYTES: nat := 16_384
  const OWNER_ONLY: nat := 384 // 0o600

  /** `plain`: a regular file of this user with a single link. */
  datatype File = File(raw: Bytes, mode: nat, plain: bool)

  datatype Folder = Folder(receipt: Option<File>, marker: bool, quarantine: bool, temps: map<string, Bytes>)

  /** The steps of one publication that took effect. */
  datatype Act =
    | MadeMarker | MarkerDurable | UnmadeMarker
    | Replaced | UnlinkedMarker
    | RestoredMarker | MadeQuarantine | Disabled | UnlinkedReceipt

  predicate Readable(f: File) {
    f.plain && f.mode == OWNER_ONLY
  }

  /** Nothing can be required from the folder, whatever the receipt says. */
  predicate Blocked(f: Folder) {
    f.marker || f.quarantine || f.receipt.None? || !Readable(f.receipt.value)
  }

  /** What `require` yields. */
  function Required<R>(f: Folder, decode: Bytes -> Option<R>): Option<R> {
    if Blocked(f) || f.receipt.value.raw == [] || |f.receipt.value.raw| > RECEIPT_MAX_BYTES then None
    else decode(f.receipt.value.raw)
  }

  predicate TargetSafe(f: Folder) {
    f.receipt.Some? ==> Readable(f.receipt.value)
  }

  predicate Publishable(f: Folder) {
    !f.marker && !f.quarantine && TargetSafe(f)
  }

  /** What a publication needs of the folder; nothing is replaced without it. */
  predicate Accepts(f: Folder, payload: Bytes, temp: string) {
    Publishable(f) && |payload| <= RECEIPT_MAX_BYTES && temp !in f.temps
  }

  /** The fallbacks, and the unlink whose failure leaves the marker in place. */
  predicate Shut(acts: set<Act>) {
    || UnlinkedMarker !in acts
    || RestoredMarker in acts || MadeQuarantine in acts
    || Disabled in acts || UnlinkedReceipt in acts
  }

  /** The replaced receipt, as far as the last fallback has left it. */
  function Left(payload: Bytes, acts: set<Act>): Option<File> {
    if UnlinkedReceipt in acts then None
    else Some(File(payload, if Disabled in acts then 0 else OWNER_ONLY, true))
  }

  /** What one publication, ended in any way at any step, has done to the folder. */
  ghost predicate Publication(before: Folder, after: Folder, payload: Bytes, acts: set<Act>) {
    if Replaced !in acts then
      && after.receipt == before.receipt
      && after.quarantine == before.quarantine
      && (after.marker <==> before.marker || (MadeMarker in acts && UnmadeMarker !in acts))
      && (UnmadeMarker in acts ==> MarkerDurable !in acts)
      && acts <= {MadeMarker, MarkerDurable, UnmadeMarker}
    else
      && Publishable(before) && |payload| <= RECEIPT_MAX_BYTES
      && after.receipt == Left(payload, acts)
      && (after.marker <==> UnlinkedMarker !in acts || RestoredMarker in acts)
      && (after.quarantine <==> MadeQuarantine in acts)
  }

  /** The same through the temporary file `temp`, which must be a new one. */
  ghost predicate PublicationBy(before: Folder, after: Folder, payload: Bytes, temp: string, acts: set<Act>) {
    && Publication(before, after, payload, acts)
    && (Replaced in acts ==> Accepts(before, payload, temp))
    && after.temps - {temp} == before.temps - {temp}
  }

  /** What can be required, and what can be published, said of the files. */
  lemma FolderExact<R(!new)>(f: Folder, decode: Bytes -> Option<R>, payload: Bytes, temp: string)
    ensures Required(f, decode).Some? <==>
              && !f.marker && !f.quarantine && f.receipt.Some?
              && f.receipt.value.plain && f.receipt.value.mode == 0x180
              && 1 <= |f.receipt.value.raw| <= 16_384 && decode(f.receipt.value.raw).Some?
    ensures Required(f, decode).Some? ==> Required(f, decode) == decode(f.receipt.value.raw)
    ensures Accepts(f, payload, temp) <==>
              && !f.marker && !f.quarantine && temp !in f.temps && |payload| <= 16_384
              && (f.receipt.None? || (f.receipt.value.plain && f.receipt.value.mode == 0x180))
  {
  }

  /** Readers see the old outcome, the new receipt, or a refusal; and which of them
      is decided by the steps that took effect. */
  lemma PublicationIsFailClosed<R(!new)>(before: Folder, after: Folder, payload: Bytes, acts: set<Act>,
                                   decode: Bytes -> Option<R>)
    requires Publication(before, after, payload, acts) && 0 < |payload|
    ensures Replaced !in acts && (MadeMarker !in acts || UnmadeMarker in acts) ==>
              Required(after, decode) == Required(before, decode)
    ensures Replaced !in acts && MadeMarker in acts && UnmadeMarker !in acts ==> Required(after, decode) == None
    ensures Replaced in acts ==> (Blocked(after) <==> Shut(acts))
    ensures Replaced in acts && Shut(acts) ==> Required(after, decode) == None
    ensures Replaced in acts && !Shut(acts) ==> Required(after, decode) == decode(payload)
  {
  }

  /** A receipt is gone only if the last fallback unlinked it. */
  lemma ReceiptStays(before: Folder, after: Folder, payload: Bytes, acts: set<Act>)
    requires Publication(before, after, payload, acts) && before.receipt.Some?
    ensures after.receipt.None? <==> UnlinkedReceipt in acts
  {
  }

  /** A folder that refuses publications is not touched by one. */
  lemma RefusingFolder(before: Folder, after: Folder, payload: Bytes, acts: set<Act>)
    requires Publication(before, after, payload, acts) && !Publishable(before)
    ensures after.receipt == before.receipt && !Publishable(after)
  {
  }

  /** Publications one after another, each ended in its own way. */
  ghost predicate Publications(folders: seq<Folder>, payloads: seq<Bytes>, acts: seq<set<Act>>) {
    && |folders| == |payloads| + 1 == |acts| + 1
    && forall k :: 0 <= k < |acts| ==> Publication(folders[k], folders[k + 1], payloads[k], acts[k])
  }

  /** Whatever can be required after any number of publications is what the last
      replacement wrote, or what was there before the first one. */
  lemma {:induction false} RequiredIsLastReplaced<R(!new)>(
    folders: seq<Folder>, payloads: seq<Bytes>, acts: seq<set<Act>>, decode: Bytes -> Option<R>, last: int)
    requires Publications(folders, payloads, acts)
    requires Required(folders[|acts|], decode).Some?
    requires -1 <= last < |acts| && (last >= 0 ==> Replaced in acts[last])
    requires forall k :: last < k < |acts| ==> Replaced !in acts[k]
    ensures Required(folders[|acts|], decode)
            == if last < 0 then Required(folders[0], decode) else decode(payloads[last])
  {
    if last + 1 < |acts| {
      var n := |acts| - 1;
      assert Publication(folders[n], folders[n + 1], payloads[n], acts[n]);
      assert Required(folders[n + 1], decode) == Required(folders[n], decode);
      RequiredIsLastReplaced(folders[..n + 1], payloads[..n], acts[..n], decode, last);
    }
  }

  class Repository {
    var folder: Folder

    /** Reads in chunks of any size; refuses as soon as the bound is passed. */
    method ReadAtMost(raw: Bytes, calm: bool) returns (r: Outcome<Bytes>)
      ensures r.Returned? ==> r.value == raw && |raw| <= RECEIPT_MAX_BYTES
      ensures calm ==> !r.Crashed? && (r.Returned? <==> |raw| <= RECEIPT_MAX_BYTES)
    {
      var read := 0;
      while read < |raw|
        invariant 0 <= read <= |raw| && read <= RECEIPT_MAX_BYTES
      {
        var fault := Tick(calm);
        if fault != Calm { return if fault == Crash then Crashed else Raised; }
        var size :| 0 < size <= |raw| - read && size <= RECEIPT_MAX_BYTES + 1 - read;
        read := read + size;
        if read > RECEIPT_MAX_BYTES { return Raised; }
      }
      assert raw[..read] == raw;
      r := Returned(raw[..read]);
    }

    method Require<R>(decode: Bytes -> Option<R>, calm: bool) returns (r: Outcome<R>)
      ensures r.Returned? ==> Required(folder, decode) == Some(r.value)
      ensures calm ==> !r.Crashed? && (r.Returned? <==> Required(folder, decode).Some?)
    {
      var fault := Tick(calm);
      if fault != Calm { return if fault == Crash then Crashed else Raised; }
      if folder.marker || folder.quarantine || folder.receipt.None? { return Raised; }
      var file := folder.receipt.value;
      if !file.plain || file.mode != OWNER_ONLY { return Raised; }
      var payload := ReadAtMost(file.raw, calm);
      if !payload.Returned? { return if payload == Crashed then Crashed else Raised; }
      if payload.value == [] { return Raised; }
      var receipt := decode(payload.value);
      if receipt.None? { return Raised; }
      r := Returned(receipt.value);
    }

    /** The temporary file, written in pieces of any size. */
    method WriteTemp(payload: Bytes, temp: string, calm: bool) returns (r: Outcome<()>)
      modifies this
      ensures folder.(temps := map[]) == old(folder.(temps := map[]))
      ensures folder.temps - {temp} == old(folder.temps) - {temp}
      ensures old(temp in folder.temps) ==> !r.Returned? && folder == old(folder)
      ensures r.Returned? ==> folder == old(folder).(temps := old(folder.temps)[temp := payload])
      ensures calm ==> !r.Crashed? && (old(temp !in folder.temps) ==> r.Returned?)
    {
      var fault := Tick(calm);
      if fault != Calm { return if fault == Crash then Crashed else Raised; }
      if temp in folder.temps { return Raised; }
      folder := folder.(temps := folder.temps[temp := []]);
      var offset := 0;
      while offset < |payload|
        invariant 0 <= offset <= |payload|
        invariant folder == old(folder).(temps := old(folder).temps[temp := payload[..offset]])
      {
        fault := Tick(calm);
        if fault != Calm { return if fault == Crash then Crashed else Raised; }
        var written :| 0 < written <= |payload| - offset;
        offset := offset + written;
        folder := folder.(temps := folder.temps[temp := payload[..offset]]);
      }
      assert payload[..offset] == payload;
      fault := Tick(calm);
      if fault != Calm { return if fault == Crash then Crashed else Raised; }
      r := Returned(());
    }

    /** The `finally` part after a failure: drop the temporary file, and the marker
        unless it is already durable. */
    method Abandon(temp: string, drop: bool, calm: bool) returns (r: Outcome<()>, ghost acts: set<Act>)
      modifies this
      ensures !r.Returned? && (calm ==> r.Raised?)
      ensures folder.(temps := map[], marker := false) == old(folder.(temps := map[], marker := false))
      ensures acts <= {UnmadeMarker} && (UnmadeMarker in acts ==> drop)
      ensures folder.marker == (old(folder.marker) && UnmadeMarker !in acts)
      ensures folder.temps == old(folder.temps) || folder.temps == old(folder.temps) - {temp}
      ensures calm ==> temp !in folder.temps && (drop ==> !folder.marker)
    {
      acts := {};
      var fault := Tick(calm);
      if fault != Calm { return if fault == Crash then Crashed else Raised, acts; }
      folder := folder.(temps := folder.temps - {temp});
      if drop {
        fault := Tick(calm);
        if fault != Calm { return if fault == Crash then Crashed else Raised, acts; }
        folder := folder.(marker := false);
        acts := {UnmadeMarker};
      }
      r := Raised;
    }

    /** Puts a marker back; an existing one will do.  False when a step failed, even
        if the file was made. */
    method RestoreMarker(quarantine: bool, calm: bool) returns (r: Outcome<bool>, ghost acts: set<Act>)
      modifies this
      ensures !r.Raised?
      ensures folder.receipt == old(folder.receipt) && folder.temps == old(folder.temps)
      ensures quarantine ==> folder.marker == old(folder.marker) && acts <= {MadeQuarantine}
      ensures !quarantine ==> folder.quarantine == old(folder.quarantine) && acts <= {RestoredMarker}
      ensures folder.marker == (old(folder.marker) || RestoredMarker in acts)
      ensures folder.quarantine == (old(folder.quarantine) || MadeQuarantine in acts)
      ensures r == Returned(true) ==> if quarantine then folder.quarantine else folder.marker
      ensures calm ==> r == Returned(true)
    {
      acts := {};
      var fault := Tick(calm);
      if fault != Calm { return if fault == Crash then Crashed else Returned(false), acts; }
      if quarantine {
        if !folder.quarantine { acts := {MadeQuarantine}; }
        folder := folder.(quarantine := true);
      } else {
        if !folder.marker { acts := {RestoredMarker}; }
        folder := folder.(marker := true);
      }
      fault := Tick(calm);
      if fault != Calm { return if fault == Crash then Crashed else Returned(false), acts; }
      r := Returned(true);
    }

    /** The last fallback: take the mode away and unlink, whichever works. */
    method MakeUnclaimable(calm: bool) returns (r: Outcome<()>, ghost acts: set<Act>)
      requires folder.receipt.Some?
      modifies this
      ensures !r.Raised?
      ensures acts <= {Disabled, UnlinkedReceipt}
      ensures folder.(receipt := None) == old(folder.(receipt := None))
      ensures folder.receipt == (if UnlinkedReceipt in acts then None
                                 else if Disabled in acts then Some(old(folder.receipt.value).(mode := 0))
                                 else old(folder.receipt))
    {
      acts := {};
      var fault := Tick(calm);
      if fault == Crash { return Crashed, acts; }
      if fault == Calm {
        folder := folder.(receipt := Some(folder.receipt.value.(mode := 0)));
        acts := {Disabled};
      }
      fault := Tick(calm);
      if fault == Crash { return Crashed, acts; }
      if fault == Calm {
        folder := folder.(receipt := None);
        acts := acts + {UnlinkedReceipt};
      }
      r := Returned(());
    }

    method FailClosed(calm: bool) returns (r: Outcome<()>, ghost acts: set<Act>)
      requires folder.receipt.Some? && Readable(folder.receipt.value)
      modifies this
      ensures !r.Returned?
      ensures folder.temps == old(folder.temps)
      ensures acts <= {RestoredMarker, MadeQuarantine, Disabled, UnlinkedReceipt}
      ensures Blocked(folder) <==> old(Blocked(folder)) || acts != {}
      ensures folder.receipt == Left(old(folder.receipt.value.raw), acts)
      ensures folder.marker <==> old(folder.marker) || RestoredMarker in acts
      ensures folder.quarantine <==> old(folder.quarantine) || MadeQuarantine in acts
      ensures calm ==> r.Raised? && folder.marker && acts <= {RestoredMarker}
    {
      var restored, first := RestoreMarker(false, calm);
      acts := first;
      if restored != Returned(false) { return if restored == Crashed then Crashed else Raised, acts; }
      var quarantined, second := RestoreMarker(true, calm);
      acts := acts + second;
      if quarantined != Returned(false) { return if quarantined == Crashed then Crashed else Raised, acts; }
      var last, third := MakeUnclaimable(calm);
      acts := acts + third;
      r := if last == Crashed then Crashed else Raised;
    }

    /** With the receipt already replaced: drop the marker, or fail closed. */
    method RemoveMarker(calm: bool) returns (r: Outcome<()>, ghost acts: set<Act>)
      requires folder.marker && !folder.quarantine && folder.receipt.Some? && Readable(folder.receipt.value)
      modifies this
      ensures acts !! {Replaced, MadeMarker, MarkerDurable, UnmadeMarker}
      ensures r.Returned? ==> folder == old(folder).(marker := false)
      ensures folder.temps == old(folder.temps)
      ensures Blocked(folder) <==> Shut(acts)
      ensures folder.receipt == Left(old(folder.receipt.value.raw), acts)
      ensures folder.marker <==> UnlinkedMarker !in acts || RestoredMarker in acts
      ensures folder.quarantine <==> MadeQuarantine in acts
      ensures calm ==> r.Returned?
    {
      acts := {};
      var fault := Tick(calm);
      if fault == Crash { return Crashed, acts; }
      if fault == Error {
        r, acts := FailClosed(calm);
        return;
      }
      folder := folder.(marker := false);
      acts := {UnlinkedMarker};
      fault := Tick(calm);
      if fault == Crash { return Crashed, acts; }
      if fault == Error {
        ghost var more;
        r, more := FailClosed(calm);
        acts := acts + more;
        return;
      }
      r := Returned(());
    }

    /** Everything up to the durable marker. */
    method Prepare(payload: Bytes, temp: string, calm: bool) returns (r: Outcome<()>, ghost acts: set<Act>)
      modifies this
      ensures Publication(old(folder), folder, payload, acts) && Replaced !in acts
      ensures folder.temps - {temp} == old(folder.temps) - {temp}
      ensures r.Returned? ==>
                && old(Accepts(folder, payload, temp))
                && folder == old(folder).(marker := true, temps := old(folder.temps)[temp := payload])
                && acts == {MadeMarker, MarkerDurable}
      ensures !r.Returned? ==> MarkerDurable !in acts
      ensures calm && !r.Returned? && |payload| <= RECEIPT_MAX_BYTES ==> temp !in folder.temps
      ensures calm ==> !r.Crashed? && (old(Accepts(folder, payload, temp)) ==> r.Returned?)
    {
      acts := {};
      if |payload| > RECEIPT_MAX_BYTES { return Raised, acts; }
      var fault := Tick(calm);
      if fault != Calm { return if fault == Crash then Crashed else Raised, acts; }
      if folder.marker || folder.quarantine || !TargetSafe(folder) {
        r, acts := Abandon(temp, false, calm);
        return;
      }
      var wrote := WriteTemp(payload, temp, calm);
      if wrote == Crashed { return Crashed, acts; }
      if wrote == Raised { r, acts := Abandon(temp, false, calm); return; }
      fault := Tick(calm);
      if fault == Crash { return Crashed, acts; }
      if fault == Error { r, acts := Abandon(temp, false, calm); return; }
      folder := folder.(marker := true);
      acts := {MadeMarker};
      fault := Tick(calm);
      if fault == Crash { return Crashed, acts; }
      if fault == Error {
        ghost var more;
        r, more := Abandon(temp, true, calm);
        acts := acts + more;
        return;
      }
      acts := acts + {MarkerDurable};
      r := Returned(());
    }

    method ReplaceAtomic(payload: Bytes, temp: string, calm: bool) returns (r: Outcome<()>, ghost acts: set<Act>)
      modifies this
      ensures PublicationBy(old(folder), folder, payload, temp, acts)
      ensures r.Returned? ==> folder == old(folder).(receipt := Some(File(payload, OWNER_ONLY, true)))
      ensures r.Returned? ==> Replaced in acts && !Shut(acts)
      ensures r.Raised? && Replaced !in acts && MarkerDurable in acts ==> folder.marker
      ensures calm && |payload| <= RECEIPT_MAX_BYTES ==> temp !in folder.temps
      ensures calm ==> !r.Crashed? && (old(Accepts(folder, payload, temp)) ==> r.Returned?)
    {
      r, acts := Prepare(payload, temp, calm);
      if !r.Returned? { return; }
      assert TargetSafe(folder);
      var fault := Tick(calm);
      if fault == Crash { return Crashed, acts; }
      if fault == Error {
        ghost var more;
        r, more := Abandon(temp, false, calm);
        return;
      }
      folder := folder.(receipt := Some(File(folder.temps[temp], OWNER_ONLY, true)), temps := folder.temps - {temp});
      acts := acts + {Replaced};
      fault := Tick(calm);
      if fault == Crash { return Crashed, acts; }
      if fault == Error {
        ghost var more;
        r, more := Abandon(temp, false, calm);
        return;
      }
      ghost var more;
      r, more := RemoveMarker(calm);
      acts := acts + more;
      if r.Raised? { var dropped, none := Abandon(temp, false, calm); r := dropped; }
      assert old(folder).temps - {temp} == old(folder).temps || !r.Returned?;
    }
  }
}
