/** The marketplace client component: its state, the two reconciliation
    passes as the loops the component runs, the four mutating handlers and
    the wallet connection.

    Remote effects are parameters: a pass reads a ledger `Snapshot`; a
    handler is told the outcome of its submit-then-wait step; the wallet
    prompt is told what the user answered. `submitted` records each
    mutating call the component issues to the ledgers, in order. */
module App {
  import opened Ledger
  import opened Reconcile

  /** How a submitted transaction ends: `wait()` resolves, or the submission
      or its confirmation rejects. */
  datatype TxOutcome = Confirmed | Reverted

  /** The alert a handler raises, if any. */
  datatype Notice = Quiet | Succeeded | Failed

  /** What a reconciliation pass did: returned on its guard, published a
      new view, or aborted into its `catch` (and raised an alert). */
  datatype PassResult = Skipped | Published | Aborted

  /** What the browser wallet answers to a connection request. */
  datatype Wallet = NoProvider | Refused | Authorized(address: Address)

  /** A mutating call on a ledger, with its arguments. */
  datatype Tx =
    | Mint(to: Address, cid: string)
    | List(tokenId: string, priceWei: nat)
    | Delist(id: nat)
    | Buy(id: nat, valueWei: nat)

  /** A string is truthy in the source's tests exactly when it is non-empty. */
  predicate Truthy(s: string)
  {
    s != []
  }

  /** `account` is truthy: connected, with a non-empty address. */
  predicate Present(account: Option<Address>)
  {
    account.Some? && Truthy(account.value)
  }

  class Component {
    var account: Option<Address>
    var nftContract: bool
    var marketContract: bool
    var tokenId: string
    var tokenCID: string
    var price: string
    var nftsForSale: seq<SaleEntry>
    var userNFTs: seq<OwnedEntry>
    var loading: bool
    var submitted: seq<Tx>

    /** Both ledger handles are set together, and only with an account. */
    ghost predicate Valid()
      reads this
    {
      nftContract == marketContract && (nftContract ==> account.Some?)
    }

    constructor ()
      ensures Valid()
      ensures account == None && !nftContract && !marketContract
      ensures tokenId == "" && tokenCID == "" && price == ""
      ensures nftsForSale == [] && userNFTs == [] && !loading && submitted == []
    {
      account := None;
      nftContract, marketContract := false, false;
      tokenId, tokenCID, price := "", "", "";
      nftsForSale, userNFTs := [], [];
      loading := false;
      submitted := [];
    }

    // The guards the passes and handlers test before doing anything.

    predicate CanSyncSale()
      reads this
    {
      marketContract && nftContract
    }

    predicate CanSyncOwned()
      reads this
    {
      nftContract && Present(account)
    }

    predicate CanMint()
      reads this
    {
      nftContract && Truthy(tokenCID)
    }

    predicate CanList()
      reads this
    {
      marketContract && Truthy(tokenId) && Truthy(price)
    }

    predicate CanDelist()
      reads this
    {
      marketContract
    }

    predicate CanBuy()
      reads this
    {
      Present(account) && marketContract && nftContract
    }

    // -------------------------------------------------------------------
    // Session

    /** `connectWallet`: on authorisation, the account and both ledger
        handles are set; without a wallet an alert is raised; a refused
        request changes nothing. */
    method ConnectWallet(w: Wallet) returns (n: Notice)
      requires Valid()
      modifies this`account, this`nftContract, this`marketContract
      ensures Valid()
      ensures w.Authorized? ==> account == Some(w.address) && nftContract && marketContract
      ensures !w.Authorized? ==>
        account == old(account) && nftContract == old(nftContract) && marketContract == old(marketContract)
      ensures n == if w.NoProvider? then Failed else Quiet
    {
      match w
      case NoProvider =>
        n := Failed;
      case Refused =>
        n := Quiet;
      case Authorized(address) =>
        account := Some(address);
        nftContract := true;
        marketContract := true;
        n := Quiet;
    }

    // The input fields' change handlers.

    method SetTokenCID(v: string)
      modifies this`tokenCID
      ensures tokenCID == v
    {
      tokenCID := v;
    }

    method SetTokenId(v: string)
      modifies this`tokenId
      ensures tokenId == v
    {
      tokenId := v;
    }

    method SetPrice(v: string)
      modifies this`price
      ensures price == v
    {
      price := v;
    }

    // -------------------------------------------------------------------
    // Reconciliation passes

    /** `fetchNftsForSale`: rebuild the sale view from empty, publishing it
        only if every read succeeds. */
    method FetchNftsForSale(s: Snapshot) returns (r: PassResult)
      modifies this`nftsForSale
      ensures r == if !CanSyncSale() then Skipped
                   else if SalePass(s).Some? then Published
                   else Aborted
      ensures nftsForSale == if r == Published then SalePass(s).value else old(nftsForSale)
    {
      if !marketContract || !nftContract {
        return Skipped;
      }
      var supply := ReadTotalSupply(s);
      if supply.None? {
        return Aborted;
      }
      var nfts: seq<SaleEntry> := [];
      var i := 0;
      while i < supply.value
        invariant supply.value == |s.tokens|
        invariant 0 <= i <= supply.value
        invariant SaleScan(s, i) == Some(nfts)
      {
        var id := ReadTokenByIndex(s, i);
        if id.None? {
          SaleStepAborts(s, i);
          return Aborted;
        }
        var priceWei := ReadPrice(s, id.value);
        if priceWei.None? {
          SaleStepAborts(s, i);
          return Aborted;
        }
        var isForSale := ReadForSale(s, id.value);
        if isForSale.None? {
          SaleStepAborts(s, i);
          return Aborted;
        }
        assert SaleStep(s, i) == Some(if isForSale.value then [SaleEntry(id.value, priceWei.value)] else []);
        if isForSale.value {
          nfts := nfts + [SaleEntry(id.value, priceWei.value)];
        } else {
          assert nfts + [] == nfts;
        }
        i := i + 1;
      }
      nftsForSale := nfts;
      r := Published;
    }

    /** `fetchUserNFTs`: rebuild the owned view from empty, publishing it
        only if every read and every metadata fetch succeeds. */
    method FetchUserNFTs(s: Snapshot) returns (r: PassResult)
      modifies this`userNFTs
      ensures r == if !CanSyncOwned() then Skipped
                   else if OwnedPass(s, account.value).Some? then Published
                   else Aborted
      ensures userNFTs == if r == Published then OwnedPass(s, account.value).value else old(userNFTs)
    {
      if !nftContract || !Present(account) {
        return Skipped;
      }
      var supply := ReadTotalSupply(s);
      if supply.None? {
        return Aborted;
      }
      var owned: seq<OwnedEntry> := [];
      var i := 0;
      while i < supply.value
        invariant supply.value == |s.tokens|
        invariant 0 <= i <= supply.value
        invariant OwnedScan(s, account.value, i) == Some(owned)
      {
        var id := ReadTokenByIndex(s, i);
        if id.None? {
          OwnedStepAborts(s, account.value, i);
          return Aborted;
        }
        var owner := ReadOwnerOf(s, i);
        if owner.None? {
          OwnedStepAborts(s, account.value, i);
          return Aborted;
        }
        var uri := ReadTokenURI(s, i);
        if uri.None? {
          OwnedStepAborts(s, account.value, i);
          return Aborted;
        }
        var metadata := FetchMetadata(s, uri.value);
        if metadata.None? {
          // `metadata.name` dereferences null
          OwnedStepAborts(s, account.value, i);
          return Aborted;
        }
        assert OwnedStep(s, account.value, i) ==
          Some(if owner.value == account.value then [OwnedEntry(id.value, metadata.value)] else []);
        if owner.value == account.value {
          owned := owned + [OwnedEntry(id.value, metadata.value)];
        } else {
          assert owned + [] == owned;
        }
        i := i + 1;
      }
      userNFTs := owned;
      r := Published;
    }

    /** The two effects, when they fire: the sale pass once there is a
        market handle, the owned pass once there is a handle and an account. */
    method RunEffects(s: Snapshot) returns (sale: Option<PassResult>, owned: Option<PassResult>)
      modifies this`nftsForSale, this`userNFTs
      ensures sale.Some? <==> marketContract
      ensures sale.Some? ==>
        sale.value == if !nftContract then Skipped else if SalePass(s).Some? then Published else Aborted
      ensures owned.Some? <==> CanSyncOwned()
      ensures owned.Some? ==>
        owned.value == if OwnedPass(s, account.value).Some? then Published else Aborted
      ensures nftsForSale ==
        if CanSyncSale() && SalePass(s).Some? then SalePass(s).value else old(nftsForSale)
      ensures userNFTs ==
        if CanSyncOwned() && OwnedPass(s, account.value).Some? then OwnedPass(s, account.value).value
        else old(userNFTs)
    {
      sale, owned := None, None;
      if marketContract {
        var r := FetchNftsForSale(s);
        sale := Some(r);
      }
      if nftContract && Present(account) {
        var r := FetchUserNFTs(s);
        owned := Some(r);
      }
    }

    /** Re-running the sale pass on an unchanged ledger gives the same
        outcome and the same view, order included. */
    method SaleSyncIsIdempotent(s: Snapshot) returns (first: seq<SaleEntry>, r1: PassResult, r2: PassResult)
      modifies this`nftsForSale
      ensures r1 == r2
      ensures first == nftsForSale
    {
      r1 := FetchNftsForSale(s);
      first := nftsForSale;
      r2 := FetchNftsForSale(s);
    }

    /** Re-running the owned pass on an unchanged ledger gives the same
        outcome and the same view, order included. */
    method OwnedSyncIsIdempotent(s: Snapshot) returns (first: seq<OwnedEntry>, r1: PassResult, r2: PassResult)
      modifies this`userNFTs
      ensures r1 == r2
      ensures first == userNFTs
    {
      r1 := FetchUserNFTs(s);
      first := userNFTs;
      r2 := FetchUserNFTs(s);
    }

    // -------------------------------------------------------------------
    // Mutating handlers. None of them tests `loading`; the views are not
    // in the frame of mint, list and delist at all.

    /** `mintNFT`: submit `safeMint(account, tokenCID)` and wait. The guard
        tests only the ownership handle, but by `Valid` that handle is never
        set without an account, so the recipient is always an address. */
    method MintNFT(outcome: TxOutcome) returns (n: Notice)
      requires Valid()
      modifies this`loading, this`submitted
      ensures !CanMint() ==> n == Quiet && loading == old(loading) && submitted == old(submitted)
      ensures CanMint() ==>
        && submitted == old(submitted) + [Mint(account.value, tokenCID)]
        && !loading
        && n == if outcome == Confirmed then Succeeded else Failed
    {
      if !nftContract || !Truthy(tokenCID) {
        return Quiet;
      }
      loading := true;
      submitted := submitted + [Mint(account.value, tokenCID)];
      n := if outcome == Confirmed then Succeeded else Failed;
      loading := false;
    }

    /** `listNFTForSale`: convert the price (`parsedWei` is what the ether
        parser gives for `price`, `None` when it throws), submit the listing
        and wait. A price of "0" is non-empty and passes the guard. */
    method ListNFTForSale(parsedWei: Option<nat>, outcome: TxOutcome) returns (n: Notice)
      modifies this`loading, this`submitted
      ensures !CanList() ==> n == Quiet && loading == old(loading) && submitted == old(submitted)
      ensures CanList() ==>
        && submitted == old(submitted) + (if parsedWei.Some? then [List(tokenId, parsedWei.value)] else [])
        && !loading
        && n == if parsedWei.Some? && outcome == Confirmed then Succeeded else Failed
    {
      if !marketContract || !Truthy(tokenId) || !Truthy(price) {
        return Quiet;
      }
      loading := true;
      if parsedWei.None? {
        n := Failed;
      } else {
        submitted := submitted + [List(tokenId, parsedWei.value)];
        n := if outcome == Confirmed then Succeeded else Failed;
      }
      loading := false;
    }

    /** `delistNFT(id)`: submit the delisting and wait. */
    method DelistNFT(id: nat, outcome: TxOutcome) returns (n: Notice)
      modifies this`loading, this`submitted
      ensures !CanDelist() ==> n == Quiet && loading == old(loading) && submitted == old(submitted)
      ensures CanDelist() ==>
        && submitted == old(submitted) + [Delist(id)]
        && !loading
        && n == if outcome == Confirmed then Succeeded else Failed
    {
      if !marketContract {
        return Quiet;
      }
      loading := true;
      submitted := submitted + [Delist(id)];
      n := if outcome == Confirmed then Succeeded else Failed;
      loading := false;
    }

    /** `buyNFT(id, price)`: pay the price, wait, and on success re-read the
        sale view from `after`, the ledgers as they then are. `resync` is
        the outcome of that re-read, `None` when it is not triggered. */
    method BuyNFT(id: nat, priceWei: nat, outcome: TxOutcome, after: Snapshot)
      returns (n: Notice, resync: Option<PassResult>)
      modifies this`loading, this`submitted, this`nftsForSale
      ensures !CanBuy() ==> n == Quiet && loading == old(loading) && submitted == old(submitted)
      ensures CanBuy() ==>
        && submitted == old(submitted) + [Buy(id, priceWei)]
        && !loading
        && n == if outcome == Confirmed then Succeeded else Failed
      ensures resync ==
        if CanBuy() && outcome == Confirmed
        then Some(if SalePass(after).Some? then Published else Aborted)
        else None
      ensures nftsForSale == if resync == Some(Published) then SalePass(after).value else old(nftsForSale)
      ensures resync == Some(Published) && !ListingOf(after, id).forSale ==>
        forall e :: e in nftsForSale ==> e.id != id
    {
      resync := None;
      if !Present(account) || !marketContract || !nftContract {
        return Quiet, None;
      }
      loading := true;
      submitted := submitted + [Buy(id, priceWei)];
      if outcome == Confirmed {
        n := Succeeded;
        var r := FetchNftsForSale(after);
        resync := Some(r);
        if r == Published && !ListingOf(after, id).forSale {
          UnlistedNotForSale(after, id);
        }
      } else {
        n := Failed;
      }
      loading := false;
    }
  }
}
