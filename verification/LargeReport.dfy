/** A report with as many rows as one likes: 280 bilingual cases of two turns, 360
    adversarial ones, and benign ones for the rest.  All rows are clean and the first
    so many follow the language, so only the rounded ratio decides. */
module LargeReport {
  import opened ReportGate
  import opened Wrappers

  const LEAST_ROWS: nat := 2 * BILINGUAL_CASES + ADVERSARIAL_CASES + LEAST_BENIGN_CASES

  function Zeros(n: nat): string { seq(n, _ => '0') }

  function Tag(i: nat): string { seq(i + 1, _ => 'c') }

  function CaseAt(k: nat): nat { if k < 560 then k / 2 else k - 280 }

  function FirstOf(i: nat): nat { if i < 280 then 2 * i else i + 280 }

  function KindAt(k: nat): Kind { if k < 560 then Bilingual else if k < 920 then Adversarial else Benign }

  function RowAt(k: nat, follows: nat): Row {
    Row(Tag(CaseAt(k)), KindAt(k), if k < 560 && k % 2 == 1 then "b" else "a",
        "en", if k < follows then "en" else "hi", k < follows, "adult", "adult", Tupled([]), true,
        0, 0, 0, 0, 0, false, true, true, Zeros(64), Zeros(64))
  }

  function Rows(n: nat, follows: nat): seq<Row> { seq(n, (k: nat) => RowAt(k, follows)) }

  function Ids(from: nat, to: nat): ReportGate.Ids
    requires from <= to
  {
    Tupled(seq(to - from, (k: nat) => Tag(from + k)))
  }

  function TurnsAt(i: nat): ReportGate.Ids { Tupled(if i < 280 then ["a", "b"] else ["a"]) }

  function TurnsUpTo(m: nat): (turns: map<string, ReportGate.Ids>)
    ensures forall i: nat :: i < m ==> Tag(i) in turns && turns[Tag(i)] == TurnsAt(i)
    ensures forall id :: id in turns ==> exists i: nat :: i < m && id == Tag(i)
  {
    if m == 0 then map[]
    else
      assert forall i: nat :: i < m - 1 ==> |Tag(i)| < |Tag(m - 1)|;
      TurnsUpTo(m - 1)[Tag(m - 1) := TurnsAt(m - 1)]
  }

  function Cases(n: nat): Inventory
    requires n >= LEAST_ROWS
  {
    Inventory(Ids(0, 280), Ids(280, 640), Ids(640, n - 280),
              TurnsUpTo(n - 280))
  }

  lemma RowIsOk(k: nat, follows: nat)
    ensures RowOk(RowAt(k, follows)) && Clean(RowAt(k, follows))
  {
  }

  lemma RowsAreOk(n: nat, follows: nat)
    requires n > 0
    ensures RowsOk(Rows(n, follows)) && NormalRows(Rows(n, follows)) == Rows(n, follows)
  {
    hide RowOk;
    var rows := Rows(n, follows);
    forall k | 0 <= k < n ensures RowOk(rows[k]) { RowIsOk(k, follows); }
    forall i, j | 0 <= i < j < n ensures Key(rows[i]) != Key(rows[j]) {
      assert |rows[i].caseId| == CaseAt(i) + 1 && |rows[j].caseId| == CaseAt(j) + 1;
    }
  }

  lemma IdsAreTags(from: nat, to: nat)
    requires from <= to
    ensures forall id :: id in Elements(Ids(from, to)) <==> exists i: nat :: from <= i < to && id == Tag(i)
  {
    var ids := Ids(from, to);
    forall i: nat | from <= i < to ensures Tag(i) in Elements(ids) { assert ids.items[i - from] == Tag(i); }
  }

  lemma IdsAreDistinct(from: nat, to: nat)
    requires from <= to
    ensures IdsOk(Ids(from, to)) && Distinct(Ids(from, to)) && |Ids(from, to).items| == to - from
  {
    var ids := Ids(from, to);
    forall i | 0 <= i < to - from ensures |ids.items[i]| == from + i + 1 { assert ids.items[i] == Tag(from + i); }
  }

  lemma TurnsAreOk(n: nat, i: nat)
    requires n >= LEAST_ROWS && i < n - 280
    ensures TurnsOk(Cases(n), Tag(i), TurnsAt(i))
  {
    IdsAreTags(0, 280);
    assert Tag(i) in Elements(Ids(0, 280)) <==> i < 280 by {
      if k: nat :| k < 280 && Tag(i) == Tag(k) { assert |Tag(i)| == i + 1 && |Tag(k)| == k + 1; }
    }
    hide Elements, TurnsUpTo, Ids;
    assert Distinct(Tupled(["a", "b"])) && Distinct(Tupled(["a"]));
  }

  lemma TurnsAreListed(m: nat)
    requires m >= 640
    ensures TurnsUpTo(m).Keys == Elements(Ids(0, 280)) + Elements(Ids(280, 640)) + Elements(Ids(640, m))
  {
    hide *;
    forall id
      ensures id in TurnsUpTo(m).Keys <==>
                id in Elements(Ids(0, 280)) || id in Elements(Ids(280, 640)) || id in Elements(Ids(640, m))
    {
      TurnIsListed(m, id);
      ListedIsTurn(m, id, 0, 280);
      ListedIsTurn(m, id, 280, 640);
      ListedIsTurn(m, id, 640, m);
    }
  }

  lemma TurnIsListed(m: nat, id: string)
    requires m >= 640
    ensures id in TurnsUpTo(m) ==>
              id in Elements(Ids(0, 280)) || id in Elements(Ids(280, 640)) || id in Elements(Ids(640, m))
  {
    hide Elements, Ids, Tag, TurnsAt;
    if id in TurnsUpTo(m) {
      var i: nat :| i < m && id == Tag(i);
      if i < 280 { IdsAreTags(0, 280); } else if i < 640 { IdsAreTags(280, 640); } else { IdsAreTags(640, m); }
    }
  }

  lemma ListedIsTurn(m: nat, id: string, from: nat, to: nat)
    requires from <= to <= m
    ensures id in Elements(Ids(from, to)) ==> id in TurnsUpTo(m)
  {
    hide Elements, Ids, Tag, TurnsAt;
    IdsAreTags(from, to);
  }

  lemma InventoryIsNormal(n: nat)
    requires n >= LEAST_ROWS
    ensures NormalInventory(Cases(n)) == Cases(n)
  {
    var turns := TurnsUpTo(n - 280);
    forall id | id in turns ensures Tuple(turns[id]) == turns[id] {
      var i: nat :| i < n - 280 && id == Tag(i);
    }
    hide TurnsUpTo, Tag;
    assert (map id | id in turns :: Tuple(turns[id])) == turns;
  }

  lemma InventoryIsOk(n: nat)
    requires n >= LEAST_ROWS
    ensures InventoryOk(Cases(n))
  {
    hide TurnsUpTo, Elements, Ids, Distinct, IdsOk, Tag, TurnsOk;
    var inv := Cases(n);
    TurnsAreListed(n - 280);
    IdsAreDistinct(0, 280);
    IdsAreDistinct(280, 640);
    IdsAreDistinct(640, n - 280);
    forall id | id in inv.turns ensures TurnsOk(inv, id, inv.turns[id]) {
      var i: nat :| i < n - 280 && id == Tag(i);
      TurnsAreOk(n, i);
    }
  }

  lemma RowsOfStep(n: nat, follows: nat, kind: Kind, i: nat)
    requires n > 0
    ensures RowsOf(Rows(n, follows), kind, Tag(i)) ==
            RowsOf(Rows(n - 1, follows), kind, Tag(i)) + One(KindAt(n - 1) == kind && CaseAt(n - 1) == i)
  {
    var rows := Rows(n, follows);
    assert rows[..n - 1] == Rows(n - 1, follows);
    assert |Tag(i)| == i + 1 && |rows[n - 1].caseId| == CaseAt(n - 1) + 1;
  }

  /** The rows of a case, counted. */
  lemma {:induction false} RowsOfCase(n: nat, follows: nat, i: nat)
    ensures RowsOf(Rows(n, follows), Bilingual, Tag(i)) ==
            if i >= 280 || n <= 2 * i then 0 else if n == 2 * i + 1 then 1 else 2
    ensures RowsOf(Rows(n, follows), Adversarial, Tag(i)) == One(280 <= i < 640 && n > i + 280)
    ensures RowsOf(Rows(n, follows), Benign, Tag(i)) == One(640 <= i && n > i + 280)
  {
    if n > 0 {
      RowsOfCase(n - 1, follows, i);
      RowsOfStep(n, follows, Bilingual, i);
      RowsOfStep(n, follows, Adversarial, i);
      RowsOfStep(n, follows, Benign, i);
      hide RowsOf, Rows, Tag;
    }
  }

  lemma CasesAreTags(n: nat, follows: nat, kind: Kind, from: nat, to: nat)
    requires from <= to && (forall k: nat :: k < n ==> (KindAt(k) == kind <==> from <= CaseAt(k) < to))
    requires forall i: nat :: from <= i < to ==> FirstOf(i) < n
    ensures CasesOf(Rows(n, follows), kind) == Elements(Ids(from, to))
  {
    var rows := Rows(n, follows);
    IdsAreTags(from, to);
    forall i: nat | from <= i < to ensures Tag(i) in CasesOf(rows, kind) {
      var k := FirstOf(i);
      assert CaseAt(k) == i && rows[k].kind == kind && rows[k].caseId == Tag(i);
    }
    forall id | id in CasesOf(rows, kind) ensures id in Elements(Ids(from, to)) {
      var k :| 0 <= k < n && rows[k].kind == kind && rows[k].caseId == id;
    }
  }

  lemma KeyIsTurn(n: nat, follows: nat, k: nat)
    requires n >= LEAST_ROWS && k < n
    ensures Key(RowAt(k, follows)) in Turns(Cases(n))
  {
    hide TurnsUpTo, Tag, Ids;
    var i := CaseAt(k);
    assert Cases(n).turns[Tag(i)] == TurnsAt(i) && Key(RowAt(k, follows)).1 in TurnsAt(i).items;
  }

  lemma TurnIsKey(n: nat, follows: nat, key: (string, string)) returns (k: nat)
    requires n >= LEAST_ROWS && key in Turns(Cases(n))
    ensures k < n && Key(RowAt(k, follows)) == key
  {
    hide TurnsUpTo, Tag, Ids;
    var i: nat :| i < n - 280 && key.0 == Tag(i);
    assert key.1 in TurnsAt(i).items;
    k := FirstOf(i) + if key.1 == "a" then 0 else 1;
  }

  lemma KeysAreTurns(n: nat, follows: nat)
    requires n >= LEAST_ROWS
    ensures Keys(Rows(n, follows)) == Turns(Cases(n))
  {
    hide Cases, Turns, RowAt;
    var rows := Rows(n, follows);
    forall k | 0 <= k < n ensures Key(rows[k]) in Turns(Cases(n)) { KeyIsTurn(n, follows, k); }
    forall key | key in Turns(Cases(n)) ensures key in Keys(rows) {
      var k := TurnIsKey(n, follows, key);
      assert Key(rows[k]) == key;
    }
  }

  lemma RowsCover(n: nat, follows: nat)
    requires n >= LEAST_ROWS
    ensures Covers(Cases(n), Rows(n, follows))
  {
    var rows := Rows(n, follows);
    KeysAreTurns(n, follows);
    CasesAreTags(n, follows, Bilingual, 0, 280);
    CasesAreTags(n, follows, Adversarial, 280, 640);
    CasesAreTags(n, follows, Benign, 640, n - 280);
    IdsAreTags(0, 280);
    IdsAreTags(280, 640);
    IdsAreTags(640, n - 280);
    hide RowsOf, CasesOf, Rows, Keys, Turns, Elements;
    forall i: nat { RowsOfCase(n, follows, i); }
  }

  lemma {:induction false} FollowingRows(n: nat, follows: nat)
    ensures Total(Rows(n, follows), Follows) == if follows < n then follows else n
  {
    if n > 0 {
      FollowingRows(n - 1, follows);
      assert Rows(n, follows)[..n - 1] == Rows(n - 1, follows);
    }
  }

  lemma RowsAreClean(n: nat, follows: nat)
    ensures forall k :: 0 <= k < n ==> Clean(Rows(n, follows)[k])
    ensures Total(Rows(n, follows), IsAppropriate) == Total(Rows(n, follows), Of(Benign))
  {
    hide Clean, Total;
    forall k | 0 <= k < n ensures Clean(Rows(n, follows)[k]) { RowIsOk(k, follows); }
    TotalIsEqual(Rows(n, follows), IsAppropriate, Of(Benign));
  }

  /** Whatever the number of rows, the gate is open exactly if enough of them follow. */
  lemma GateIsTheRatio(n: nat, follows: nat)
    requires n >= LEAST_ROWS && follows <= n
    ensures InventoryOk(Cases(n)) && RowsOk(Rows(n, follows)) && Covers(Cases(n), Rows(n, follows))
    ensures Aggregate(Rows(n, follows)).Some?
    ensures GatePasses(Aggregate(Rows(n, follows)).value) <==> Enough(follows, n)
  {
    var rows := Rows(n, follows);
    InventoryIsOk(n);
    RowsAreOk(n, follows);
    RowsCover(n, follows);
    DenominatorsAreExact(Cases(n), rows);
    GateRowByRow(rows);
    FollowingRows(n, follows);
    RowsAreClean(n, follows);
    CountsAreSets(rows);
    hide Following, Appropriate, OfKind;
    hide Cases, Rows, InventoryOk, RowsOk, Covers, Aggregate, GatePasses, Total, Clean;
  }

  lemma IsPrepared(draft: Draft, keyId: string) returns (p: Payload)
    requires BindingsOk(draft.bindings) && keyId != []
    requires RowsOk(draft.results) && NormalRows(draft.results) == draft.results
    requires InventoryOk(draft.inventory) && NormalInventory(draft.inventory) == draft.inventory
    requires Covers(draft.inventory, draft.results) && Aggregate(draft.results).Some?
    ensures Prepare(draft, keyId) == Some(p) && p.results == draft.results && p.bindings == draft.bindings
    ensures Aggregate(draft.results) == Some(p.metrics)
    ensures (p.issuedAt, p.expiresAt) == (draft.issuedAt, draft.expiresAt)
  {
    hide RowsOk, NormalRows, InventoryOk, NormalInventory, Covers, Aggregate, BindingsOk;
    p := Prepare(draft, keyId).value;
  }

  /** Prepared and signed, such a report verifies exactly if enough of its rows follow. */
  lemma ReportVerifies(n: nat, follows: nat) returns (p: Payload)
    requires n >= LEAST_ROWS && follows <= n
    ensures |p.results| == n && |Following(p.results)| == follows
    ensures VerifyReport(p, Sign(p), p.bindings, p.issuedAt).Ok? <==> Enough(follows, n)
  {
    var sha := Zeros(64);
    var draft := Draft(Bindings(Zeros(40), "m", sha, sha, sha, sha, sha, sha, sha), 0, 1, Cases(n), Rows(n, follows));
    assert BindingsOk(draft.bindings) by { hide Cases, Rows; }
    GateIsTheRatio(n, follows);
    InventoryIsNormal(n);
    RowsAreOk(n, follows);
    FollowingRows(n, follows);
    CountsAreSets(draft.results);
    assert |draft.results| == n;
    hide Cases, Rows, RowsOk, NormalRows, InventoryOk, NormalInventory, Covers, Aggregate, BindingsOk;
    hide GatePasses, Total, Prepare, Sign, VerifyReport, Canonical;
    p := IsPrepared(draft, "k");
    PreparedIsCanonical(draft, "k");
    SignedIsVerified(draft, "k", p, 0);
    assert Fresh(p, 0);
  }

  /** One that verifies although fewer than 19 in 20 rows follow. */
  lemma LowRatioIsAccepted() returns (p: Payload)
    ensures VerifyReport(p, Sign(p), p.bindings, p.issuedAt).Ok?
    ensures |p.results| == 100_019 && 20 * |Following(p.results)| < 19 * |p.results|
  {
    hide VerifyReport, Sign, Following;
    p := ReportVerifies(100_019, 95_018);
  }
}
