# NFT marketplace client: reconciliation and action guarding

This project models the logic inside the marketplace client component
(`src/App.js`). The component works against two remote ledgers. The
ownership ledger enumerates tokens with their owner and metadata URI. The
marketplace ledger holds each token's price and for-sale flag. The model
covers three things:

- **Reconciliation passes.** `fetchNftsForSale` enumerates the ownership
  ledger and keeps the for-sale tokens with their price. `fetchUserNFTs`
  keeps the tokens whose owner string equals the connected account, with
  their metadata document. Each pass builds a fresh local array in a loop
  and publishes it only if the whole loop completes; any rejected read
  lands in the `catch`, which leaves the view as it was.
- **Mutating handlers.** `mintNFT`, `listNFTForSale`, `delistNFT` and
  `buyNFT` each test a guard and return early if it fails. Otherwise they
  set `loading`, submit a transaction, wait for it, raise an alert and
  clear `loading`. Only a confirmed purchase re-reads the sale view.
- **Session fields.** `connectWallet` sets the account and both ledger
  handles.

Files:

- `ledger.dfy` (module `Ledger`): the remote ledgers as one `Snapshot`.
  It holds the token records in enumeration order, a map from token id to
  `Listing`, and a map from URI to `Option<Metadata>`, where `None` is a
  document that cannot be fetched or decoded. It also holds the set of
  read calls (`Query`) that reject in this snapshot. The gateway reads
  (`ReadTotalSupply`, `ReadTokenByIndex`, `ReadOwnerOf`, `ReadTokenURI`,
  `ReadPrice`, `ReadForSale`) return `None` for a rejected call.
  `FetchMetadata` is the lookup of a URI in that map. It never fails: it
  returns `None` in place of the source's `null`. What that `null` then
  does to the owned pass is stated by `Reconcile.OwnedStepFailsIff` and
  `Reconcile.OwnedPassFailsIff`. `UniqueIds` says no two records share a
  token id.
- `reconcile.dfy` (module `Reconcile`): each pass as a function of a
  snapshot. `SalePass` and `OwnedPass` are built from one step per index,
  in the order the loop issues its reads. The lemmas say when a pass
  aborts. They also say that a published view lists exactly the selected
  tokens, in index order, with the right price or document, and that this
  description fixes the view uniquely.
- `app.dfy` (module `App`): class `Component` holds the component's state:
  `account`, the two handles as booleans, the three input fields, both
  views, `loading`, and `submitted`, a log of the mutating ledger calls
  issued. The passes are `while` loops proved against `SalePass` and
  `OwnedPass`. Each handler's contract states its guard, what it submits,
  the final `loading` and the alert it raises.

Outside inputs are parameters:

- a pass reads a `Snapshot`;
- a handler receives its transaction's outcome (`Confirmed` or `Reverted`);
- the list handler also receives the ether parser's result for `price`;
- `ConnectWallet` receives the wallet's answer.

Behaviour one might expect of such a client, and what the code does
instead (the model follows the code):

- Per-token isolation of metadata failures does not happen. A metadata
  document that cannot be fetched aborts the whole owned pass. This holds
  for every token, owned or not, because `metadata.name` is read before
  the ownership test (`Reconcile.ForeignMetadataFailureAborts`).
- There is no at-most-one-in-flight rule per action. The handlers never
  read `loading`, so nothing in them stops a second submission. Only the
  disabled buttons in the markup do that.
- Views are not re-read after every action. Mint, list and delist re-read
  no view. Only a confirmed buy re-reads the sale view, and nothing
  re-reads the owned view after an action.
- Addresses are compared as exact strings, with no case normalisation
  (`Reconcile.OwnerMatchIsExact`).

## Model

| member | source | states |
|---|---|---|
| `Reconcile.SaleStepFailsIff` | src/App.js:129-142 | one sale iteration aborts exactly when `tokenByIndex`, `getPrice` or `isForSale` rejects; otherwise it pushes the token with its price iff the token is for sale |
| `Reconcile.SalePassFailsIff` | src/App.js:125-149 | the sale pass aborts exactly when `totalSupply` or some read at some index rejects |
| `Reconcile.SalePassSelectsListed` | src/App.js:126-145 | a published sale view lists, over strictly increasing indices, exactly the for-sale tokens, each paired with its price |
| `Reconcile.SelectionIsUnique` | src/App.js:127-145 | only one view satisfies that description, so the published sale view is determined by the ledger |
| `Reconcile.SaleViewMembership` | src/App.js:134-142 | a row is in a published sale view iff it is `(id, price)` of a token the marketplace reports for sale |
| `Reconcile.UnlistedNotForSale` | src/App.js:137-142 | a token that is not for sale has no row in a published sale view |
| `Reconcile.SalePassIgnoresOwnership` | src/App.js:128-143 | the sale view does not depend on owners, URIs or metadata, only on the enumerated ids and the marketplace |
| `Reconcile.OwnedStepFailsIff` | src/App.js:158-186 | one owned iteration aborts exactly when `tokenByIndex`, `ownerOf` or `tokenURI` rejects or the document is missing; otherwise it pushes the token with its document iff the owner equals the account |
| `Reconcile.OwnedPassFailsIff` | src/App.js:171-192 | the owned pass aborts exactly when `totalSupply` fails or some read or metadata fetch fails at some index, whoever owns that token |
| `Reconcile.ForeignMetadataFailureAborts` | src/App.js:180-185 | a missing document for a token of another account aborts the whole owned pass |
| `Reconcile.OwnedPassSelectsOwned` | src/App.js:174-188 | a published owned view lists, over strictly increasing indices, exactly the tokens whose owner equals the account, each with its fetched document |
| `Reconcile.OwnedSelectionIsUnique` | src/App.js:174-188 | only one view satisfies that description |
| `Reconcile.OwnedViewMembership` | src/App.js:184-186 | a row is in a published owned view iff it is an account's token together with that token's document |
| `Reconcile.OwnedPassIgnoresMarket` | src/App.js:175-187 | the owned view does not depend on listings |
| `Reconcile.OwnerMatchIsExact` | src/App.js:184-186 | with unique ids, a token whose owner string differs in any way from the account, a letter-case variant included, has no row in a published owned view |
| `Reconcile.CaseVariantExample` | src/App.js:184 | one instance: owner "0xAbC" gets a row for account "0xAbC" and none for account "0xabc" |
| `Reconcile.SalePassIgnoresFaults` | src/App.js:127-145 | two sale passes that both publish over the same ledger contents give the same view, whichever reads failed in between |
| `Reconcile.OwnedPassIgnoresFaults` | src/App.js:174-188 | two owned passes that both publish over the same ledger contents give the same view, whichever reads or fetches failed in between |
| `App.Component.constructor` | src/App.js:15-24 | the initial state: no account, no handles, empty inputs and views, not loading |
| `App.Component.ConnectWallet` | src/App.js:27-44 | on authorisation the account and both handles are set; without a wallet an alert is raised and nothing changes; a refused request changes nothing; it keeps `Valid`: both handles are set together and only with an account |
| `App.Component.SetTokenCID` | src/App.js:222 | the CID input takes the typed value |
| `App.Component.SetTokenId` | src/App.js:233 | the token id input takes the typed value |
| `App.Component.SetPrice` | src/App.js:239 | the price input takes the typed value |
| `App.Component.FetchNftsForSale` | src/App.js:122-150 | skipped without both handles; otherwise publishes `SalePass` if every read succeeds and otherwise leaves the view unchanged and reports the abort |
| `App.Component.FetchUserNFTs` | src/App.js:165-193 | skipped without the ownership handle and an account; otherwise publishes `OwnedPass` for the account if every read and fetch succeeds, and otherwise leaves the view unchanged |
| `App.Component.RunEffects` | src/App.js:196-207 | the sale pass runs when the market handle is set, the owned pass when the ownership handle and an account are set; each reports whether it skipped, published or aborted, and the views are those the passes publish |
| `App.Component.SaleSyncIsIdempotent` | src/App.js:127-145 | running the sale pass twice on the same ledger gives the same result and the same view, order included |
| `App.Component.OwnedSyncIsIdempotent` | src/App.js:174-188 | running the owned pass twice on the same ledger gives the same result and the same view, order included |
| `App.Component.MintNFT` | src/App.js:47-61 | without the ownership handle or with an empty CID: no call, no alert, `loading` untouched; otherwise exactly one `safeMint(account, cid)` is issued to the connected address (by `Valid`), `loading` ends false, and the alert follows the outcome |
| `App.Component.ListNFTForSale` | src/App.js:64-78 | without the market handle, a token id or a price: no call and `loading` untouched (a price of "0" passes); an unparsable price fails with no call; otherwise one listing at the parsed price; `loading` ends false |
| `App.Component.DelistNFT` | src/App.js:81-95 | without the market handle: no call and `loading` untouched; otherwise one `delistNFT(id)`; `loading` ends false and the alert follows the outcome |
| `App.Component.BuyNFT` | src/App.js:98-120 | without account and both handles: no call and `loading` untouched; otherwise one payment of the price; only a confirmed purchase re-reads the sale view; a reverted one leaves it unchanged; after a published re-read a token no longer for sale has no row |

## Left out

- Wallet access, provider, signer and contract construction are reduced
  to booleans saying whether each handle is present, plus the wallet's
  answer as a parameter.
- Ether parsing and formatting are library code whose source is not part
  of this model. Prices are wei `nat`s. The list handler receives the
  parse result as a parameter. The buy handler receives the wei price the
  sale view holds. The model therefore does not capture the source's
  conversion of the price to an ether string and back.
- The HTTP request and JSON decoding in the metadata fetch are a lookup
  in `documents`. A document that decodes to a non-null value without a
  `name` field does not throw in the source; here it is just a
  `Some(Metadata)`.
- `ownerOf`, `tokenURI`, `getPrice` and `isForSale` are answered from the
  record or listing of the enumerated id. A token absent from the
  marketplace reads as price 0 and not for sale, because the
  marketplace contract's own behaviour is not part of this model.
  `totalSupply.toNumber()` overflow beyond 2^53 is not modelled.
- Rendering, `alert` (kept as the returned `Notice`), `console.log`, and
  the `disabled={loading}` attributes, which are the source's only
  double-submit protection.
- React scheduling and async interleaving. Each handler runs as one step:
  the interval where `loading` is true, and a second action started
  inside it, are not observable in the model. The buy handler does not
  await its sale re-read; the model runs that re-read before `loading` is
  cleared. `RunEffects` is what the two effects do when they fire, not
  when React fires them.
- There is no disconnect handling or per-action pending state in the
  source, so none is modelled.
- The ledgers' own state changes under mint, list, delist and buy are
  not modelled. A handler records the call in `submitted`, and the buy
  handler is given the ledger as it is afterwards.
