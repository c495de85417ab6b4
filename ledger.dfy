/** The two remote ledgers the client reads, as one in-memory snapshot.

    The ownership ledger is the sequence of token records in enumeration
    order (index i is what `tokenByIndex(i)` resolves); the marketplace
    ledger maps token ids to their listing; the metadata source maps a URI
    to its document, `None` standing for a fetch or decode that fails.
    Every remote read can also be rejected: the reads named in `faults` are
    the ones that reject in this snapshot. */
module Ledger {

  datatype Option<T> = None | Some(value: T)

  /** An account address, compared as an exact string. */
  type Address = string

  datatype TokenRecord = TokenRecord(id: nat, owner: Address, uri: string)

  datatype Listing = Listing(priceWei: nat, forSale: bool)

  datatype Metadata = Metadata(name: string, description: string, image: string)

  /** One read call across the gateway, as the contracts name them. */
  datatype Query =
    | TotalSupply
    | TokenByIndex(index: nat)
    | OwnerOf(id: nat)
    | TokenURI(id: nat)
    | GetPrice(id: nat)
    | IsForSale(id: nat)

  datatype Snapshot = Snapshot(
    tokens: seq<TokenRecord>,
    market: map<nat, Listing>,
    documents: map<string, Option<Metadata>>,
    faults: set<Query>)

  /** A token the marketplace has no entry for reads as price 0, not for sale. */
  function ListingOf(s: Snapshot, id: nat): Listing
  {
    if id in s.market then s.market[id] else Listing(0, false)
  }

  /** No two records share a token id, as the ownership ledger guarantees. */
  predicate UniqueIds(s: Snapshot)
  {
    forall i, j :: 0 <= i < j < |s.tokens| ==> s.tokens[i].id != s.tokens[j].id
  }

  // The read calls. `ownerOf` and `tokenURI` asked about the id enumerated
  // at index i answer from record i; this is what the ledger answers when
  // `UniqueIds` holds, and a modelling assumption otherwise.

  function ReadTotalSupply(s: Snapshot): Option<nat>
  {
    if TotalSupply in s.faults then None else Some(|s.tokens|)
  }

  function ReadTokenByIndex(s: Snapshot, i: nat): Option<nat>
    requires i < |s.tokens|
  {
    if TokenByIndex(i) in s.faults then None else Some(s.tokens[i].id)
  }

  function ReadOwnerOf(s: Snapshot, i: nat): Option<Address>
    requires i < |s.tokens|
  {
    if OwnerOf(s.tokens[i].id) in s.faults then None else Some(s.tokens[i].owner)
  }

  function ReadTokenURI(s: Snapshot, i: nat): Option<string>
    requires i < |s.tokens|
  {
    if TokenURI(s.tokens[i].id) in s.faults then None else Some(s.tokens[i].uri)
  }

  function ReadPrice(s: Snapshot, id: nat): Option<nat>
  {
    if GetPrice(id) in s.faults then None else Some(ListingOf(s, id).priceWei)
  }

  function ReadForSale(s: Snapshot, id: nat): Option<bool>
  {
    if IsForSale(id) in s.faults then None else Some(ListingOf(s, id).forSale)
  }

  /** `fetchMetadata`: the document behind `uri`, or `None` (the source's
      null) when the request or its decoding fails; it never throws. */
  function FetchMetadata(s: Snapshot, uri: string): Option<Metadata>
  {
    if uri in s.documents then s.documents[uri] else None
  }
}
