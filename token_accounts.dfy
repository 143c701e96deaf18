/** Token-account instruction builders: resolving (and if need be creating)
    an associated token account, and wrapping / unwrapping native SOL. */
module TokenAccounts {
  import opened Solana

  /** Index of `SyncNative` in the token program's instruction enumeration. */
  const SyncNativeOpcode: Byte := 17

  /** `BN.toNumber` succeeds only below 2^53 (Number.MAX_SAFE_INTEGER + 1). */
  const SafeIntegerBound: nat := 0x20_0000_0000_0000

  /** The account a token-program `SyncNative` instruction brings up to date,
      for instructions in the exact form built here: opcode 17 as the only
      data byte, and exactly one account, writable. `None` for anything
      else, including forms with extra data bytes or extra accounts that the
      token program would still accept as `SyncNative` on the first account. */
  function SyncNativeTarget(ix: Instruction): Option<Address>
  {
    if ix.Raw? && ix.programId == TokenProgramId && ix.data == [SyncNativeOpcode]
       && |ix.keys| == 1 && ix.keys[0].isWritable
    then Some(ix.keys[0].pubkey)
    else None
  }

  /** `getOrCreateATAInstruction(tokenMint, owner, connection, opt?)`: the
      associated token address of `owner` for `tokenMint`, and a creation
      instruction exactly when the lookup says that no account lives there.
      A failure of either call is rethrown. */
  function GetOrCreateAtaInstruction(ataOf: AssociatedAddressFinder, getAccountInfo: AccountReader,
                                     tokenMint: Address, owner: Address, payer: Option<Address>)
    : (r: Result<(Address, Option<Instruction>)>)
    ensures r.Ok? <==> ataOf(tokenMint, owner).Ok? && getAccountInfo(ataOf(tokenMint, owner).value).Ok?
    ensures ataOf(tokenMint, owner).Err? ==> r == Err(ataOf(tokenMint, owner).error)
    ensures ataOf(tokenMint, owner).Ok? && getAccountInfo(ataOf(tokenMint, owner).value).Err? ==>
      r == Err(getAccountInfo(ataOf(tokenMint, owner).value).error)
    ensures r.Ok? ==>
      var ata := ataOf(tokenMint, owner).value;
      && r.value.0 == ata
      && (r.value.1.Some? <==> getAccountInfo(ata).value.None?)
      && (r.value.1.Some? ==>
            r.value.1.value == CreateAssociatedTokenAccount(payer.GetOr(owner), ata, owner, tokenMint))
  {
    match ataOf(tokenMint, owner)
    case Err(e) => Err(e)
    case Ok(toAccount) =>
      match getAccountInfo(toAccount)
      case Err(e) => Err(e)
      case Ok(None) =>
        Ok((toAccount, Some(CreateAssociatedTokenAccount(payer.GetOr(owner), toAccount, owner, tokenMint))))
      case Ok(Some(_)) => Ok((toAccount, None))
  }

  /** The address returned does not depend on whether the account exists:
      two different views of the chain give the same address. */
  lemma AtaAddressIndependentOfState(ataOf: AssociatedAddressFinder, read1: AccountReader, read2: AccountReader,
                                     tokenMint: Address, owner: Address, payer: Option<Address>)
    ensures var r1 := GetOrCreateAtaInstruction(ataOf, read1, tokenMint, owner, payer);
            var r2 := GetOrCreateAtaInstruction(ataOf, read2, tokenMint, owner, payer);
      r1.Ok? && r2.Ok? ==> r1.value.0 == r2.value.0
  {
  }

  /** Leaving out the payer is the same as naming the owner as payer. */
  lemma OwnerPaysByDefault(ataOf: AssociatedAddressFinder, getAccountInfo: AccountReader,
                           tokenMint: Address, owner: Address)
    ensures GetOrCreateAtaInstruction(ataOf, getAccountInfo, tokenMint, owner, None)
         == GetOrCreateAtaInstruction(ataOf, getAccountInfo, tokenMint, owner, Some(owner))
  {
  }

  /** `wrapSOLInstruction(from, to, amount)`: a transfer of `amount` lamports
      from `from` to `to`, then a `SyncNative` on `to`. The amount goes
      through `BN.toNumber`, which throws from 2^53 on. */
  function WrapSolInstruction(from: Address, to: Address, amount: nat): (r: Result<seq<Instruction>>)
    ensures r.Ok? <==> amount < SafeIntegerBound
    ensures r.Err? ==> r.error == UnsafeNumber
    ensures r.Ok? ==>
      && |r.value| == 2
      && r.value[0] == SystemTransfer(from, to, amount)
      && r.value[1] == Raw(TokenProgramId, [AccountMeta(to, false, true)], [SyncNativeOpcode])
  {
    if amount >= SafeIntegerBound then Err(UnsafeNumber)
    else
      Ok([ SystemTransfer(from, to, amount),
           Raw(TokenProgramId, [AccountMeta(to, isSigner := false, isWritable := true)], [SyncNativeOpcode]) ])
  }

  /** The wrap sequence transfers first and syncs second, and the account it
      syncs is the one that received the lamports. */
  lemma WrapTransfersThenSyncs(from: Address, to: Address, amount: nat)
    requires amount < SafeIntegerBound
    ensures var r := WrapSolInstruction(from, to, amount);
      && r.Ok?
      && SyncNativeTarget(r.value[0]) == None
      && r.value[0].SystemTransfer? && r.value[0].to == to && r.value[0].lamports == amount
      && SyncNativeTarget(r.value[1]) == Some(to)
  {
  }

  /** `unwrapSOLInstruction(walletPublicKey)`: close the wallet's wrapped-SOL
      associated token account, sending its lamports back to the wallet,
      which is also the closing authority. The `null` result is kept in the
      type, but a derived address is an object and always truthy, so it is
      never produced; a failed derivation is rethrown. */
  function UnwrapSolInstruction(ataOf: AssociatedAddressFinder, wallet: Address): (r: Result<Option<Instruction>>)
    ensures r.Ok? <==> ataOf(NativeMint, wallet).Ok?
    ensures r.Err? ==> r.error == ataOf(NativeMint, wallet).error
    ensures r.Ok? ==> r.value == Some(CloseAccount(ataOf(NativeMint, wallet).value, wallet, wallet))
  {
    match ataOf(NativeMint, wallet)
    case Err(e) => Err(e)
    case Ok(wSolAta) => Ok(Some(CloseAccount(wSolAta, wallet, wallet)))
  }

  /** Unwrapping closes the very account that resolving the wallet's
      wrapped-SOL associated token account returns. */
  lemma UnwrapClosesResolvedAta(ataOf: AssociatedAddressFinder, getAccountInfo: AccountReader,
                                wallet: Address, payer: Option<Address>)
    ensures var resolved := GetOrCreateAtaInstruction(ataOf, getAccountInfo, NativeMint, wallet, payer);
            var unwrap := UnwrapSolInstruction(ataOf, wallet);
      resolved.Ok? ==> unwrap.Ok? && unwrap.value.Some? && unwrap.value.value.account == resolved.value.0
  {
  }
}
