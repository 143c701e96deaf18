# Vault client utilities, modelled in Dafny

This project models the helper module of the Mercurial vault TypeScript client
(`ts-client/src/vault/utils/index.ts`). The module prepares requests for an
on-chain vault program on Solana. It has three parts:

- **Address derivation** (`VaultPdas`, in `vault_pdas.dfy`). `getVaultPdas`
  derives three addresses: the vault from `["vault", mint, baseKey]`, where the
  base key defaults to `VAULT_BASE_KEY`; then the token vault and the LP mint
  from `["token_vault", vault]` and `["lp_mint", vault]`.
- **Token-account instructions** (`TokenAccounts`, in `token_accounts.dfy`).
  - `getOrCreateATAInstruction` returns the associated token address. It adds a
    creation instruction only when the account lookup finds nothing. The payer
    is `opt.payer`, or else the owner.
  - `wrapSOLInstruction` returns a lamport transfer followed by a token-program
    `SyncNative` (opcode 17) on the receiving account.
  - `unwrapSOLInstruction` closes the wallet's wrapped-SOL associated token
    account into the wallet.
- **Batched fetching** (`ChunkedFetch`, in `chunked_fetch.dfy`).
  - `chunks` splits an address list into slices of at most `size`.
  - `chunkedGetMultipleAccountInfos` fetches one batch per slice and joins the
    answers in order, keeping missing accounts as nulls in their slots.
  - `chunkedFetchMultipleVaultAccount` does the same and then drops the
    missing accounts.

`Solana` (in `solana.dfy`) holds the library types that these parts share:
addresses, seeds, account metas, instructions, account records, and a
`Result` type for calls that throw.

How external behaviour is modelled:

- Every call into code outside the module is a function-valued parameter:
  - `findProgramAddressSync` is `ProgramAddressFinder`;
  - `getAssociatedTokenAddress(mint, owner, true)` is `AssociatedAddressFinder`;
  - `connection.getAccountInfo` is `AccountReader`;
  - the per-batch `getMultipleAccountsInfo` and `fetchMultiple` are a
    `ChunkFetcher`.
- Each of these returns a `Result`. An `Err` stands for a thrown exception or
  a rejected promise, and it propagates as it does in the source.
- An address is identified by its base58 text.
- A seed is either the UTF-8 bytes of a text literal or the bytes of a key.
- Instructions built by library helpers (`SystemProgram.transfer`,
  `createAssociatedTokenAccountInstruction`, `createCloseAccountInstruction`)
  are kept as the arguments those helpers were given. The `SyncNative`
  instruction that the module builds itself is kept as its exact program id,
  keys and data.

`unwrapSOLInstruction` has a `return null` arm (ts-client/src/vault/utils/index.ts:103-107) that is never
taken. The derived `PublicKey` is an object, and objects are always truthy.
The derivation is awaited without a `catch`, so a failed derivation is rethrown
rather than turned into `null`. `UnwrapSolInstruction` keeps the `Option` in
its result type and proves that the `None` arm is unreachable.

## Model

| member | source | states |
|---|---|---|
| `ChunkedFetch.CeilDiv` | ts-client/src/vault/utils/index.ts:125 | `Math.ceil(n / size)` is the least `k` with `n <= k * size` (so `(k - 1) * size < n`); zero items give zero batches |
| `ChunkedFetch.Chunks` | ts-client/src/vault/utils/index.ts:124-128 | there are `ceil(n / size)` chunks for `n` items, and there are none exactly when the input is empty |
| `ChunkedFetch.ChunkAt` | ts-client/src/vault/utils/index.ts:126 | chunk `i` starts inside the input and equals `a[i*size .. min(i*size + size, n)]` for an input of `n` items |
| `ChunkedFetch.ChunkSizes` | ts-client/src/vault/utils/index.ts:125-126 | every chunk but the last has exactly `size` items; the last has between 1 and `size` |
| `ChunkedFetch.FlattenChunks` | ts-client/src/vault/utils/index.ts:125-127 | joining the chunks in order gives back the input: no element is lost, repeated or reordered |
| `ChunkedFetch.ChunksOf250By100` | ts-client/src/vault/utils/index.ts:125-127 | 250 items in batches of 100 make three batches, of 100, 100 and 50 |
| `ChunkedFetch.FetchAllChunks` | ts-client/src/vault/utils/index.ts:147-149 | `Promise.all` over the batches succeeds exactly when every batch does, and then gives each batch's answer in batch order; on failure the error is that of a failing batch |
| `ChunkedFetch.ChunkedGetMultipleAccountInfos` | ts-client/src/vault/utils/index.ts:142-152 | the batched fetch succeeds exactly when every batch request succeeds, so there are no partial results; a failure carries the error of some failing batch |
| `ChunkedFetch.GetMultipleKeepsLength` | ts-client/src/vault/utils/index.ts:147-151 | if each batch gets one answer per key, the result has one entry per requested address |
| `ChunkedFetch.GetMultipleAt` | ts-client/src/vault/utils/index.ts:147-151 | if each batch request that succeeds gets one answer per key of its batch, even from different chain states, key `k` of batch `b` is `pks[b*size + k]`, and entry `b*size + k` of the result is the answer batch `b` gave for it, so a missing account stays at its address's index |
| `ChunkedFetch.GetMultipleKeepsSlots` | ts-client/src/vault/utils/index.ts:147-151 | if the fetcher answers from one chain state, entry `j` of the result is that state's account at `pks[j]`, with missing accounts kept in place |
| `ChunkedFetch.NoAddressesNoRequests` | ts-client/src/vault/utils/index.ts:130-152 | an empty address list gives an empty result whatever the fetcher does, so no request is made |
| `ChunkedFetch.FilterPresent` | ts-client/src/vault/utils/index.ts:139 | `filter(Boolean)` leaves no missing entry, is no longer than its input, and keeps every found entry and nothing new |
| `ChunkedFetch.FilterPresentIsSubsequence` | ts-client/src/vault/utils/index.ts:139 | the filtered list is a subsequence of the unfiltered one, so order is kept |
| `ChunkedFetch.FilterPresentAppend` | ts-client/src/vault/utils/index.ts:135-139 | filtering the joined batches is joining the filtered batches |
| `ChunkedFetch.ChunkedFetchMultipleVaultAccount` | ts-client/src/vault/utils/index.ts:130-140 | the filtered batched fetch succeeds exactly when every batch does, and then contains no missing entry; a failure carries the error of some failing batch |
| `ChunkedFetch.FetchVaultsLengthBound` | ts-client/src/vault/utils/index.ts:135-139 | if each batch gets one answer per key, even from different chain states, the filtered result is no longer than `pks` |
| `ChunkedFetch.FilteredIsFilteredGet` | ts-client/src/vault/utils/index.ts:135-151 | for every fetcher, the filtered fetch succeeds exactly when the unfiltered one does, and then equals the unfiltered result with missing accounts dropped, as a subsequence in order |
| `ChunkedFetch.FetchVaultsKeepsFoundInOrder` | ts-client/src/vault/utils/index.ts:135-139 | if the fetcher answers from one chain state, the result is exactly the found accounts among `pks`, in order; it is no longer than `pks` and includes every found account |
| `VaultPdas.GetVaultPdas` | ts-client/src/vault/utils/index.ts:60-77 | it succeeds exactly when all three derivations succeed. The vault is derived from `[vault prefix, mint, seedBaseKey ?? VAULT_BASE_KEY]`. The token vault and LP mint are derived from their prefix and the derived vault address |
| `VaultPdas.DefaultBaseKey` | ts-client/src/vault/utils/index.ts:62 | omitting the base key gives the same result as passing `VAULT_BASE_KEY` explicitly |
| `VaultPdas.ExplicitBaseKeyUsed` | ts-client/src/vault/utils/index.ts:62 | a base key that is given is the one the vault seeds use |
| `VaultPdas.JoinedSeedLayout` | ts-client/src/vault/utils/index.ts:61-70 | when every key encodes as 32 bytes, the vault seeds hash as the 5 bytes of `"vault"`, then the mint's bytes, then the base key's bytes (69 bytes); the token vault and LP mint seeds hash as 43 and 39 bytes |
| `VaultPdas.PdasDistinct` | ts-client/src/vault/utils/index.ts:61-70 | if the derivation never maps two different joined seed byte strings of one program to the same address, and every key encodes as 32 bytes, the vault, token vault and LP mint addresses are pairwise distinct, because their seeds join to 69, 43 and 39 bytes |
| `VaultPdas.VaultPerMint` | ts-client/src/vault/utils/index.ts:61-64 | under the same assumptions, two mints whose 32 bytes differ give different vault addresses with the same base key, because bytes 5 to 37 of the vault seeds are the mint |
| `Solana.AssumptionsSatisfiable` | ts-client/src/vault/utils/index.ts:61-70 | the assumptions of `PdasDistinct` and `VaultPerMint` (32-byte keys, a finder collision-free over joined seed bytes) can hold together, with a finder that never fails and two keys whose bytes differ, so neither lemma is vacuous |
| `Solana.SeedBoundariesAreLost` | ts-client/src/vault/utils/index.ts:61-62 | the derivation hashes the seeds joined end to end, so two different seed lists can join to the same bytes (`["ab"]` and `["a", "b"]`); distinctness can only be assumed of the joined bytes |
| `TokenAccounts.GetOrCreateAtaInstruction` | ts-client/src/vault/utils/index.ts:36-58 | it returns the canonical associated token address. It adds a creation instruction exactly when the lookup definitively finds no account, with payer `opt.payer`, else the owner. Errors from the derivation or the lookup are rethrown and never read as "absent" |
| `TokenAccounts.AtaAddressIndependentOfState` | ts-client/src/vault/utils/index.ts:46-52 | the returned address does not depend on whether the account exists |
| `TokenAccounts.OwnerPaysByDefault` | ts-client/src/vault/utils/index.ts:49 | leaving out the payer is the same as naming the owner as payer |
| `TokenAccounts.WrapSolInstruction` | ts-client/src/vault/utils/index.ts:79-98 | below 2^53 it returns exactly two instructions. The first is a transfer of `amount` from `from` to `to`, with 0 included. The second is a token-program instruction with data `[17]` and one key, `to`, writable and not a signer. From 2^53 on it fails, as `BN.toNumber` throws |
| `TokenAccounts.WrapTransfersThenSyncs` | ts-client/src/vault/utils/index.ts:79-98 | the token program reads the second instruction as `SyncNative` on the account that received the lamports; the first is not a sync |
| `TokenAccounts.UnwrapSolInstruction` | ts-client/src/vault/utils/index.ts:100-108 | it gives exactly one close-account instruction on the wallet's wrapped-SOL associated token account, with destination and authority both the wallet. It never gives null, and a failed derivation is rethrown |
| `TokenAccounts.UnwrapClosesResolvedAta` | ts-client/src/vault/utils/index.ts:101-104 | unwrap closes the same account that resolving the wallet's wrapped-SOL associated token account returns |

## Left out

- `getOnchainTime` reads the clock sysvar over the network and casts the parsed data. It is left out because it has no logic beyond a field access.
- `getLpSupply` is a network call plus a `BN` built from a decimal string. It is left out for the same reason.
- `getAssociatedTokenAccount` and `deserializeAccount` are thin wrappers over `@solana/spl-token` functions whose bodies are not part of this model.
- The real address computations are not modelled: SHA-256 hashing, the bump search and the off-curve check inside `findProgramAddressSync` and `getAssociatedTokenAddress`. Both are parameters, so only the seeds fed to them are checked. Collision resistance is an assumption (`CollisionFree`), stated over the joined seed bytes that are hashed, together with a key encoding of 32 bytes per key (`KeyEncoding`). The encoding is not assumed injective, because an address here is its base58 text and there are more texts than 32-byte strings; `VaultPerMint` instead requires the two mints' bytes to differ. These assumptions are used only by `JoinedSeedLayout` and the distinctness lemmas.
- `ts-client/src/vault/constants` is not part of this model.
  - The seed texts `"vault"`, `"token_vault"` and `"lp_mint"` (`SEEDS.VAULT_PREFIX`, `SEEDS.TOKEN_VAULT_PREFIX`, `SEEDS.LP_MINT_PREFIX`) are an assumption about that module. `JoinedSeedLayout` and `PdasDistinct` depend on their lengths of 5, 11 and 7 bytes.
  - `VAULT_BASE_KEY` is a named constant of unspecified value.
- The byte encodings of `SystemProgram.transfer`, `createAssociatedTokenAccountInstruction` and `createCloseAccountInstruction` are library code. Their instructions are kept symbolically, as the arguments passed.
- `Promise.all` concurrency and `async`/`await` are not modelled; batches are fetched one after another, which keeps the same order of answers.
- FetchAllChunks: when several batches fail, the model returns the error of the first failing batch in batch order. `Promise.all` rejects with whichever failure happens first in time, so the contract only promises the error of some failing batch.
- The `console.error` logging before the rethrow in `getOrCreateATAInstruction` is left out.
- WrapSolInstruction: the amount is a `nat`. Negative `BN` amounts are not modelled, and neither is the rest of `BN`; only the 2^53 limit of `toNumber` is.
- Chunks: `Array.apply(0, new Array(k))` (ts-client/src/vault/utils/index.ts:125) throws a `RangeError` when `k` exceeds the JavaScript engine's limit on call arguments. The model has no such limit and never fails there.
- Chunks: the batch size must be positive. A zero, negative or fractional `size` gives JavaScript numeric edge cases (`Math.ceil(n / 0)`) that are outside the model.
- GetMultipleKeepsSlots and FetchVaultsKeepsFoundInOrder: they assume every batch is answered from one chain state. When accounts change between batch requests, the unfiltered fetch is still pinned down entry by entry (`GetMultipleKeepsLength`, `GetMultipleAt`), and the filtered fetch is still the unfiltered result with missing accounts dropped, in order (`FilteredIsFilteredGet`), and no longer than `pks` (`FetchVaultsLengthBound`). That its entries are exactly the found accounts among `pks` is proved only for one chain state. A fetcher is a function of the batch's key list, so two batches with the same keys (a block of `chunkSize` keys repeated in `pks`) always get the same answer; "different chain states" covers only batches whose key lists differ. No proved property depends on this.
- FilterPresent: `filter(Boolean)` also drops other falsy values (`0`, `""`, `false`). The fetched entries are account objects or null, so only missing accounts are dropped.
- `ts-client/src/vault/types/index.ts` holds type declarations only (`VaultImplementation`, `AffiliateInfo`, `ParsedClockState`) and has no behaviour to verify.
