/** The two reconciliation passes of the client, as functions of a ledger
    snapshot, and what they compute.

    `SalePass` is what `fetchNftsForSale` publishes as the sale view and
    `OwnedPass` what `fetchUserNFTs` publishes as the owned view; `None`
    means the pass aborted into its `catch` and publishes nothing. Each is
    built the way the source's loop runs: a step per ledger index
    (`SaleStep`, `OwnedStep`), folded over the first n indices
    (`SaleScan`, `OwnedScan`). The lemmas characterise the result without
    that fold: when a pass aborts (`...FailsIff`), and, when it does not,
    that the view holds exactly the selected tokens in index order
    (`Selects...`, unique by `SelectionIsUnique`). */
module Reconcile {
  import opened Ledger

  /** A row of the sale view: `{ tokenId, price }`. */
  datatype SaleEntry = SaleEntry(id: nat, priceWei: nat)

  /** A row of the owned view: `{ tokenId, metadata }`. */
  datatype OwnedEntry = OwnedEntry(id: nat, metadata: Metadata)

  // ---------------------------------------------------------------------
  // Sale pass

  /** One iteration of the sale loop at index i: the reads in the order the
      loop issues them, then the row it pushes (none when not for sale). */
  function SaleStep(s: Snapshot, i: nat): Option<seq<SaleEntry>>
    requires i < |s.tokens|
  {
    match ReadTokenByIndex(s, i)
    case None => None
    case Some(id) =>
      match ReadPrice(s, id)
      case None => None
      case Some(price) =>
        match ReadForSale(s, id)
        case None => None
        case Some(forSale) => Some(if forSale then [SaleEntry(id, price)] else [])
  }

  /** The local array after the first n iterations, or `None` once a read rejected. */
  function SaleScan(s: Snapshot, n: nat): Option<seq<SaleEntry>>
    requires n <= |s.tokens|
  {
    if n == 0 then Some([])
    else
      match SaleScan(s, n - 1)
      case None => None
      case Some(rows) =>
        match SaleStep(s, n - 1)
        case None => None
        case Some(row) => Some(rows + row)
  }

  /** The sale pass: read the supply, then scan every index. */
  function SalePass(s: Snapshot): Option<seq<SaleEntry>>
  {
    match ReadTotalSupply(s)
    case None => None
    case Some(supply) => SaleScan(s, supply)
  }

  /** Some read the sale loop issues for index i rejects. */
  predicate SaleReadsFail(s: Snapshot, i: nat)
    requires i < |s.tokens|
  {
    var id := s.tokens[i].id;
    TokenByIndex(i) in s.faults || GetPrice(id) in s.faults || IsForSale(id) in s.faults
  }

  predicate IsListed(s: Snapshot, i: nat)
    requires i < |s.tokens|
  {
    ListingOf(s, s.tokens[i].id).forSale
  }

  function SaleEntryAt(s: Snapshot, i: nat): SaleEntry
    requires i < |s.tokens|
  {
    SaleEntry(s.tokens[i].id, ListingOf(s, s.tokens[i].id).priceWei)
  }

  /** v lists, through the strictly increasing indices idx, exactly the
      tokens among the first n that are for sale, each with its price. */
  ghost predicate SelectsListed(s: Snapshot, n: nat, v: seq<SaleEntry>, idx: seq<nat>)
    requires n <= |s.tokens|
  {
    && |idx| == |v|
    && (forall k :: 0 <= k < |idx| ==> idx[k] < n && v[k] == SaleEntryAt(s, idx[k]))
    && Increasing(idx)
    && (forall i :: 0 <= i < n ==> (i in idx <==> IsListed(s, i)))
  }

  lemma SaleStepFailsIff(s: Snapshot, i: nat)
    requires i < |s.tokens|
    ensures SaleStep(s, i).None? <==> SaleReadsFail(s, i)
    ensures SaleStep(s, i).Some? ==>
      SaleStep(s, i).value == if IsListed(s, i) then [SaleEntryAt(s, i)] else []
  {
  }

  lemma {:induction false} SaleScanFailsIff(s: Snapshot, n: nat)
    requires n <= |s.tokens|
    ensures SaleScan(s, n).None? <==> exists i :: 0 <= i < n && SaleReadsFail(s, i)
  {
    if n > 0 {
      SaleScanFailsIff(s, n - 1);
      SaleStepFailsIff(s, n - 1);
    }
  }

  /** The sale pass aborts exactly when the supply read or some read of
      some index rejects. */
  lemma SalePassFailsIff(s: Snapshot)
    ensures SalePass(s).None? <==>
      TotalSupply in s.faults || exists i :: 0 <= i < |s.tokens| && SaleReadsFail(s, i)
  {
    SaleScanFailsIff(s, |s.tokens|);
  }

  lemma {:induction false} SaleScanSelects(s: Snapshot, n: nat)
    requires n <= |s.tokens|
    requires SaleScan(s, n).Some?
    ensures exists idx :: SelectsListed(s, n, SaleScan(s, n).value, idx)
  {
    if n == 0 {
      var none: seq<nat> := [];
      assert SelectsListed(s, 0, [], none);
    } else {
      SaleScanSelects(s, n - 1);
      SaleStepFailsIff(s, n - 1);
      var rows := SaleScan(s, n - 1).value;
      var idx: seq<nat> :| SelectsListed(s, n - 1, rows, idx);
      if IsListed(s, n - 1) {
        var idx': seq<nat> := idx + [n - 1];
        assert SaleScan(s, n).value == rows + [SaleEntryAt(s, n - 1)];
        assert forall i :: 0 <= i < n - 1 ==> (i in idx' <==> i in idx);
        assert SelectsListed(s, n, SaleScan(s, n).value, idx');
      } else {
        assert SaleScan(s, n).value == rows;
        assert n - 1 !in idx;
        assert SelectsListed(s, n, SaleScan(s, n).value, idx);
      }
    }
  }

  /** A rejected read at index i leaves the whole scan aborted. */
  lemma SaleStepAborts(s: Snapshot, i: nat)
    requires i < |s.tokens| && SaleStep(s, i).None?
    ensures SaleScan(s, |s.tokens|).None?
  {
    SaleStepFailsIff(s, i);
    SaleScanFailsIff(s, |s.tokens|);
  }

  /** A published sale view is exactly the for-sale tokens of the ledger,
      in enumeration order, each with its price. */
  lemma SalePassSelectsListed(s: Snapshot)
    requires SalePass(s).Some?
    ensures exists idx :: SelectsListed(s, |s.tokens|, SalePass(s).value, idx)
  {
    SaleScanSelects(s, |s.tokens|);
  }

  /** A row is in a published sale view exactly when it is the row of a
      listed token. */
  lemma SaleViewMembership(s: Snapshot, e: SaleEntry)
    requires SalePass(s).Some?
    ensures e in SalePass(s).value <==>
      exists i :: 0 <= i < |s.tokens| && IsListed(s, i) && e == SaleEntryAt(s, i)
  {
    SalePassSelectsListed(s);
    var v := SalePass(s).value;
    var idx: seq<nat> :| SelectsListed(s, |s.tokens|, v, idx);
    if e in v {
      var k :| 0 <= k < |v| && v[k] == e;
      assert idx[k] in idx;
    }
    if exists i :: 0 <= i < |s.tokens| && IsListed(s, i) && e == SaleEntryAt(s, i) {
      var i :| 0 <= i < |s.tokens| && IsListed(s, i) && e == SaleEntryAt(s, i);
      var k :| 0 <= k < |idx| && idx[k] == i;
      assert v[k] == e;
    }
  }

  /** A token the marketplace does not report for sale has no row in a
      published sale view. */
  lemma UnlistedNotForSale(s: Snapshot, id: nat)
    requires SalePass(s).Some? && !ListingOf(s, id).forSale
    ensures forall e :: e in SalePass(s).value ==> e.id != id
  {
    forall e | e in SalePass(s).value
      ensures e.id != id
    {
      SaleViewMembership(s, e);
    }
  }

  lemma {:induction false} SaleScanIgnoresOwnership(s: Snapshot, t: seq<TokenRecord>, d: map<string, Option<Metadata>>, n: nat)
    requires |t| == |s.tokens| && n <= |s.tokens|
    requires forall i :: 0 <= i < |t| ==> t[i].id == s.tokens[i].id
    ensures SaleScan(s.(tokens := t, documents := d), n) == SaleScan(s, n)
  {
    if n > 0 {
      SaleScanIgnoresOwnership(s, t, d, n - 1);
    }
  }

  /** The sale view is computed regardless of owners, URIs and metadata. */
  lemma SalePassIgnoresOwnership(s: Snapshot, t: seq<TokenRecord>, d: map<string, Option<Metadata>>)
    requires |t| == |s.tokens|
    requires forall i :: 0 <= i < |t| ==> t[i].id == s.tokens[i].id
    ensures SalePass(s.(tokens := t, documents := d)) == SalePass(s)
  {
    SaleScanIgnoresOwnership(s, t, d, |s.tokens|);
  }

  // ---------------------------------------------------------------------
  // Owned pass

  /** One iteration of the owned loop at index i. The metadata is fetched
      and dereferenced for every token before the ownership test, so a
      failed fetch aborts the pass even for a token the account does not own. */
  function OwnedStep(s: Snapshot, account: Address, i: nat): Option<seq<OwnedEntry>>
    requires i < |s.tokens|
  {
    match ReadTokenByIndex(s, i)
    case None => None
    case Some(id) =>
      match ReadOwnerOf(s, i)
      case None => None
      case Some(owner) =>
        match ReadTokenURI(s, i)
        case None => None
        case Some(uri) =>
          match FetchMetadata(s, uri)
          case None => None
          case Some(metadata) => Some(if owner == account then [OwnedEntry(id, metadata)] else [])
  }

  function OwnedScan(s: Snapshot, account: Address, n: nat): Option<seq<OwnedEntry>>
    requires n <= |s.tokens|
  {
    if n == 0 then Some([])
    else
      match OwnedScan(s, account, n - 1)
      case None => None
      case Some(rows) =>
        match OwnedStep(s, account, n - 1)
        case None => None
        case Some(row) => Some(rows + row)
  }

  function OwnedPass(s: Snapshot, account: Address): Option<seq<OwnedEntry>>
  {
    match ReadTotalSupply(s)
    case None => None
    case Some(supply) => OwnedScan(s, account, supply)
  }

  /** Some read or the metadata fetch of the owned loop at index i fails. */
  predicate OwnedReadsFail(s: Snapshot, i: nat)
    requires i < |s.tokens|
  {
    var id := s.tokens[i].id;
    || TokenByIndex(i) in s.faults
    || OwnerOf(id) in s.faults
    || TokenURI(id) in s.faults
    || FetchMetadata(s, s.tokens[i].uri).None?
  }

  predicate IsOwnedBy(s: Snapshot, account: Address, i: nat)
    requires i < |s.tokens|
  {
    s.tokens[i].owner == account
  }

  /** v lists, through the strictly increasing indices idx, exactly the
      tokens among the first n owned by account, each with its document. */
  ghost predicate SelectsOwned(s: Snapshot, account: Address, n: nat, v: seq<OwnedEntry>, idx: seq<nat>)
    requires n <= |s.tokens|
  {
    && |idx| == |v|
    && (forall k :: 0 <= k < |idx| ==>
          && idx[k] < n
          && v[k].id == s.tokens[idx[k]].id
          && FetchMetadata(s, s.tokens[idx[k]].uri) == Some(v[k].metadata))
    && Increasing(idx)
    && (forall i :: 0 <= i < n ==> (i in idx <==> IsOwnedBy(s, account, i)))
  }

  lemma OwnedStepFailsIff(s: Snapshot, account: Address, i: nat)
    requires i < |s.tokens|
    ensures OwnedStep(s, account, i).None? <==> OwnedReadsFail(s, i)
    ensures OwnedStep(s, account, i).Some? ==>
      var md := FetchMetadata(s, s.tokens[i].uri);
      OwnedStep(s, account, i).value ==
        if IsOwnedBy(s, account, i) then [OwnedEntry(s.tokens[i].id, md.value)] else []
  {
  }

  lemma {:induction false} OwnedScanFailsIff(s: Snapshot, account: Address, n: nat)
    requires n <= |s.tokens|
    ensures OwnedScan(s, account, n).None? <==> exists i :: 0 <= i < n && OwnedReadsFail(s, i)
  {
    if n > 0 {
      OwnedScanFailsIff(s, account, n - 1);
      OwnedStepFailsIff(s, account, n - 1);
    }
  }

  /** The owned pass aborts exactly when the supply read, or some read or
      metadata fetch for some index, fails (whoever owns that token). */
  lemma OwnedPassFailsIff(s: Snapshot, account: Address)
    ensures OwnedPass(s, account).None? <==>
      TotalSupply in s.faults || exists i :: 0 <= i < |s.tokens| && OwnedReadsFail(s, i)
  {
    OwnedScanFailsIff(s, account, |s.tokens|);
  }

  /** A token of another account whose document cannot be fetched makes
      the whole owned pass abort. */
  lemma ForeignMetadataFailureAborts(s: Snapshot, account: Address, i: nat)
    requires i < |s.tokens| && s.tokens[i].owner != account
    requires FetchMetadata(s, s.tokens[i].uri).None?
    ensures OwnedPass(s, account).None?
  {
    OwnedPassFailsIff(s, account);
    assert OwnedReadsFail(s, i);
  }

  lemma {:induction false} OwnedScanSelects(s: Snapshot, account: Address, n: nat)
    requires n <= |s.tokens|
    requires OwnedScan(s, account, n).Some?
    ensures exists idx :: SelectsOwned(s, account, n, OwnedScan(s, account, n).value, idx)
  {
    if n == 0 {
      var none: seq<nat> := [];
      assert SelectsOwned(s, account, 0, [], none);
    } else {
      OwnedScanSelects(s, account, n - 1);
      OwnedStepFailsIff(s, account, n - 1);
      var rows := OwnedScan(s, account, n - 1).value;
      var idx: seq<nat> :| SelectsOwned(s, account, n - 1, rows, idx);
      if IsOwnedBy(s, account, n - 1) {
        var md := FetchMetadata(s, s.tokens[n - 1].uri).value;
        var idx': seq<nat> := idx + [n - 1];
        assert OwnedScan(s, account, n).value == rows + [OwnedEntry(s.tokens[n - 1].id, md)];
        assert forall i :: 0 <= i < n - 1 ==> (i in idx' <==> i in idx);
        assert SelectsOwned(s, account, n, OwnedScan(s, account, n).value, idx');
      } else {
        assert OwnedScan(s, account, n).value == rows;
        assert n - 1 !in idx;
        assert SelectsOwned(s, account, n, OwnedScan(s, account, n).value, idx);
      }
    }
  }

  /** A failed read or fetch at index i leaves the whole scan aborted. */
  lemma OwnedStepAborts(s: Snapshot, account: Address, i: nat)
    requires i < |s.tokens| && OwnedStep(s, account, i).None?
    ensures OwnedScan(s, account, |s.tokens|).None?
  {
    OwnedStepFailsIff(s, account, i);
    OwnedScanFailsIff(s, account, |s.tokens|);
  }

  /** A published owned view is exactly the tokens whose owner string
      equals the account, in enumeration order, each with its document. */
  lemma OwnedPassSelectsOwned(s: Snapshot, account: Address)
    requires OwnedPass(s, account).Some?
    ensures exists idx :: SelectsOwned(s, account, |s.tokens|, OwnedPass(s, account).value, idx)
  {
    OwnedScanSelects(s, account, |s.tokens|);
  }

  /** A row is in a published owned view exactly when it is a token of the
      account together with that token's document. */
  lemma OwnedViewMembership(s: Snapshot, account: Address, e: OwnedEntry)
    requires OwnedPass(s, account).Some?
    ensures e in OwnedPass(s, account).value <==>
      exists i :: 0 <= i < |s.tokens| && IsOwnedBy(s, account, i) && e.id == s.tokens[i].id
        && FetchMetadata(s, s.tokens[i].uri) == Some(e.metadata)
  {
    OwnedPassSelectsOwned(s, account);
    var v := OwnedPass(s, account).value;
    var idx: seq<nat> :| SelectsOwned(s, account, |s.tokens|, v, idx);
    if e in v {
      var k :| 0 <= k < |v| && v[k] == e;
      assert idx[k] in idx;
    }
    if exists i :: 0 <= i < |s.tokens| && IsOwnedBy(s, account, i) && e.id == s.tokens[i].id
        && FetchMetadata(s, s.tokens[i].uri) == Some(e.metadata) {
      var i :| 0 <= i < |s.tokens| && IsOwnedBy(s, account, i) && e.id == s.tokens[i].id
        && FetchMetadata(s, s.tokens[i].uri) == Some(e.metadata);
      var k :| 0 <= k < |idx| && idx[k] == i;
      assert v[k] == e;
    }
  }

  lemma {:induction false} OwnedScanIgnoresMarket(s: Snapshot, account: Address, m: map<nat, Listing>, n: nat)
    requires n <= |s.tokens|
    ensures OwnedScan(s.(market := m), account, n) == OwnedScan(s, account, n)
  {
    if n > 0 {
      OwnedScanIgnoresMarket(s, account, m, n - 1);
    }
  }

  /** The owned view does not depend on listings. */
  lemma OwnedPassIgnoresMarket(s: Snapshot, account: Address, m: map<nat, Listing>)
    ensures OwnedPass(s.(market := m), account) == OwnedPass(s, account)
  {
    OwnedScanIgnoresMarket(s, account, m, |s.tokens|);
  }

  /** Ownership is exact string equality: a token whose owner string is
      any other string than the account, a letter-case variant included,
      has no row in a published owned view. */
  lemma OwnerMatchIsExact(s: Snapshot, account: Address, i: nat)
    requires UniqueIds(s) && i < |s.tokens| && s.tokens[i].owner != account
    requires OwnedPass(s, account).Some?
    ensures forall e :: e in OwnedPass(s, account).value ==> e.id != s.tokens[i].id
  {
    forall e | e in OwnedPass(s, account).value
      ensures e.id != s.tokens[i].id
    {
      OwnedViewMembership(s, account, e);
    }
  }

  /** One instance: "0xabc" is a different string from the owner "0xAbC". */
  lemma CaseVariantExample()
    ensures var md := Metadata("n", "d", "img");
      var s := Snapshot([TokenRecord(7, "0xAbC", "u")], map[], map["u" := Some(md)], {});
      && OwnedPass(s, "0xAbC") == Some([OwnedEntry(7, md)])
      && OwnedPass(s, "0xabc") == Some([])
  {
    var md := Metadata("n", "d", "img");
    var s := Snapshot([TokenRecord(7, "0xAbC", "u")], map[], map["u" := Some(md)], {});
    var noRows: seq<OwnedEntry> := [];
    assert "0xAbC"[2] != "0xabc"[2];
    assert OwnedStep(s, "0xAbC", 0) == Some([OwnedEntry(7, md)]);
    assert OwnedStep(s, "0xabc", 0) == Some(noRows);
    assert noRows + [OwnedEntry(7, md)] == [OwnedEntry(7, md)];
    assert noRows + noRows == noRows;
  }

  /** Two passes that both publish over the same ledger contents give the
      same sale view, whichever reads were failing in between. */
  lemma SalePassIgnoresFaults(s: Snapshot, f: set<Query>)
    requires SalePass(s).Some? && SalePass(s.(faults := f)).Some?
    ensures SalePass(s.(faults := f)) == SalePass(s)
  {
    var t := s.(faults := f);
    SalePassSelectsListed(s);
    SalePassSelectsListed(t);
    var idx1: seq<nat> :| SelectsListed(s, |s.tokens|, SalePass(s).value, idx1);
    var idx2: seq<nat> :| SelectsListed(t, |t.tokens|, SalePass(t).value, idx2);
    assert SelectsListed(s, |s.tokens|, SalePass(t).value, idx2);
    SelectionIsUnique(s, |s.tokens|, SalePass(s).value, idx1, SalePass(t).value, idx2);
  }

  /** Two passes that both publish over the same ledger contents give the
      same owned view, whichever reads were failing in between. */
  lemma OwnedPassIgnoresFaults(s: Snapshot, account: Address, f: set<Query>)
    requires OwnedPass(s, account).Some? && OwnedPass(s.(faults := f), account).Some?
    ensures OwnedPass(s.(faults := f), account) == OwnedPass(s, account)
  {
    var t := s.(faults := f);
    OwnedPassSelectsOwned(s, account);
    OwnedPassSelectsOwned(t, account);
    var idx1: seq<nat> :| SelectsOwned(s, account, |s.tokens|, OwnedPass(s, account).value, idx1);
    var idx2: seq<nat> :| SelectsOwned(t, account, |t.tokens|, OwnedPass(t, account).value, idx2);
    assert SelectsOwned(s, account, |s.tokens|, OwnedPass(t, account).value, idx2);
    OwnedSelectionIsUnique(s, account, |s.tokens|, OwnedPass(s, account).value, idx1, OwnedPass(t, account).value, idx2);
  }

  // ---------------------------------------------------------------------
  // The selections determine the views

  ghost predicate Increasing(idx: seq<nat>)
  {
    forall j, k :: 0 <= j < k < |idx| ==> idx[j] < idx[k]
  }

  lemma HeadIsElement(a: seq<nat>)
    requires a != []
    ensures a[0] in a
  {
  }

  /** Two strictly increasing index sequences with the same elements are equal. */
  lemma {:induction false} IncreasingUnique(a: seq<nat>, b: seq<nat>)
    requires Increasing(a) && Increasing(b)
    requires forall x :: x in a <==> x in b
    ensures a == b
    decreases |a| + |b|
  {
    if a == [] && b == [] {
    } else if a == [] {
      HeadIsElement(b);
      assert false;
    } else if b == [] {
      HeadIsElement(a);
      assert false;
    } else {
      var la, lb := a[|a| - 1], b[|b| - 1];
      assert la in b;
      assert lb in a;
      assert la <= lb;
      assert lb <= la;
      var a', b' := a[..|a| - 1], b[..|b| - 1];
      assert a == a' + [la];
      assert b == b' + [lb];
      forall x
        ensures x in a' <==> x in b'
      {
        assert x in a' <==> x in a && x != la;
        assert x in b' <==> x in b && x != lb;
      }
      IncreasingUnique(a', b');
    }
  }

  /** `SelectsListed` admits one view only, so the sale view it describes is determined. */
  lemma SelectionIsUnique(s: Snapshot, n: nat, v1: seq<SaleEntry>, idx1: seq<nat>, v2: seq<SaleEntry>, idx2: seq<nat>)
    requires n <= |s.tokens|
    requires SelectsListed(s, n, v1, idx1) && SelectsListed(s, n, v2, idx2)
    ensures v1 == v2
  {
    forall x
      ensures x in idx1 <==> x in idx2
    {
      if x in idx1 {
        var k :| 0 <= k < |idx1| && idx1[k] == x;
      }
      if x in idx2 {
        var k :| 0 <= k < |idx2| && idx2[k] == x;
      }
    }
    IncreasingUnique(idx1, idx2);
  }

  /** `SelectsOwned` admits one view only. */
  lemma OwnedSelectionIsUnique(s: Snapshot, account: Address, n: nat, v1: seq<OwnedEntry>, idx1: seq<nat>, v2: seq<OwnedEntry>, idx2: seq<nat>)
    requires n <= |s.tokens|
    requires SelectsOwned(s, account, n, v1, idx1) && SelectsOwned(s, account, n, v2, idx2)
    ensures v1 == v2
  {
    forall x
      ensures x in idx1 <==> x in idx2
    {
      if x in idx1 {
        var k :| 0 <= k < |idx1| && idx1[k] == x;
      }
      if x in idx2 {
        var k :| 0 <= k < |idx2| && idx2[k] == x;
      }
    }
    IncreasingUnique(idx1, idx2);
    assert forall k :: 0 <= k < |v1| ==> v1[k] == v2[k];
  }
}
