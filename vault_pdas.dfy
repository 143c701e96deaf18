/** Derivation of a vault's three program-derived addresses from its token
    mint, the vault program and a base key (`getVaultPdas`). */
module VaultPdas {
  import opened Solana

  // The seed prefixes agreed with the on-chain vault program.
  const VaultPrefix := "vault"
  const TokenVaultPrefix := "token_vault"
  const LpMintPrefix := "lp_mint"

  /** The program-wide base key used when the caller passes none; its value
      lives in the constants module, which is not part of this model. */
  const VaultBaseKey: Address

  datatype Pdas = Pdas(vaultPda: Address, tokenVaultPda: Address, lpMintPda: Address)

  function VaultSeeds(tokenMint: Address, baseKey: Address): seq<Seed>
  {
    [Text(VaultPrefix), KeyBytes(tokenMint), KeyBytes(baseKey)]
  }

  function TokenVaultSeeds(vault: Address): seq<Seed>
  {
    [Text(TokenVaultPrefix), KeyBytes(vault)]
  }

  function LpMintSeeds(vault: Address): seq<Seed>
  {
    [Text(LpMintPrefix), KeyBytes(vault)]
  }

  /** `getVaultPdas(tokenMint, programId, seedBaseKey?)`: the vault address
      first, then the token vault and the LP mint, both derived from it. A
      derivation that fails makes the whole call fail. */
  function GetVaultPdas(find: ProgramAddressFinder, tokenMint: Address, programId: Address,
                        seedBaseKey: Option<Address>): (r: Result<Pdas>)
    ensures r.Ok? <==>
      var vault := find(VaultSeeds(tokenMint, seedBaseKey.GetOr(VaultBaseKey)), programId);
      vault.Ok? && find(TokenVaultSeeds(vault.value), programId).Ok?
                && find(LpMintSeeds(vault.value), programId).Ok?
    ensures r.Ok? ==>
      && find(VaultSeeds(tokenMint, seedBaseKey.GetOr(VaultBaseKey)), programId) == Ok(r.value.vaultPda)
      && find(TokenVaultSeeds(r.value.vaultPda), programId) == Ok(r.value.tokenVaultPda)
      && find(LpMintSeeds(r.value.vaultPda), programId) == Ok(r.value.lpMintPda)
  {
    match find(VaultSeeds(tokenMint, seedBaseKey.GetOr(VaultBaseKey)), programId)
    case Err(e) => Err(e)
    case Ok(vault) =>
      match find(TokenVaultSeeds(vault), programId)
      case Err(e) => Err(e)
      case Ok(tokenVault) =>
        match find(LpMintSeeds(vault), programId)
        case Err(e) => Err(e)
        case Ok(lpMint) => Ok(Pdas(vault, tokenVault, lpMint))
  }

  /** Omitting the base key is the same as passing the default explicitly. */
  lemma DefaultBaseKey(find: ProgramAddressFinder, tokenMint: Address, programId: Address)
    ensures GetVaultPdas(find, tokenMint, programId, None)
         == GetVaultPdas(find, tokenMint, programId, Some(VaultBaseKey))
  {
  }

  /** A base key that is given is the one the vault seeds use. */
  lemma ExplicitBaseKeyUsed(find: ProgramAddressFinder, tokenMint: Address, programId: Address, baseKey: Address)
    ensures var r := GetVaultPdas(find, tokenMint, programId, Some(baseKey));
      r.Ok? ==> find(VaultSeeds(tokenMint, baseKey), programId) == Ok(r.value.vaultPda)
  {
  }

  /** An ASCII prefix is hashed as one byte per character. */
  lemma PrefixLength(prefix: string)
    requires prefix in {VaultPrefix, TokenVaultPrefix, LpMintPrefix}
    ensures |Utf8(prefix)| == |prefix|
  {
    assert forall i :: 0 <= i < |prefix| ==> prefix[i] as int < 0x80;
    Utf8AsciiLength(prefix);
  }

  lemma JoinedTwo(keyBytes: Address -> seq<Byte>, s0: Seed, s1: Seed)
    ensures JoinedSeeds(keyBytes, [s0, s1]) == SeedBytes(keyBytes, s0) + SeedBytes(keyBytes, s1)
  {
    assert [s0, s1][1..] == [s1] && [s1][1..] == [];
    assert JoinedSeeds(keyBytes, [s1]) == SeedBytes(keyBytes, s1) + [];
  }

  lemma JoinedThree(keyBytes: Address -> seq<Byte>, s0: Seed, s1: Seed, s2: Seed)
    ensures JoinedSeeds(keyBytes, [s0, s1, s2])
         == SeedBytes(keyBytes, s0) + SeedBytes(keyBytes, s1) + SeedBytes(keyBytes, s2)
  {
    assert [s0, s1, s2][1..] == [s1, s2];
    JoinedTwo(keyBytes, s1, s2);
  }

  /** The bytes each seed list is hashed as: the prefix's 5, 11 or 7 ASCII
      bytes, then 32 bytes per key. */
  lemma JoinedSeedLayout(keyBytes: Address -> seq<Byte>, tokenMint: Address, baseKey: Address, vault: Address)
    requires KeyEncoding(keyBytes)
    ensures JoinedSeeds(keyBytes, VaultSeeds(tokenMint, baseKey))
         == Utf8(VaultPrefix) + keyBytes(tokenMint) + keyBytes(baseKey)
    ensures |Utf8(VaultPrefix)| == 5 && |JoinedSeeds(keyBytes, VaultSeeds(tokenMint, baseKey))| == 69
    ensures |JoinedSeeds(keyBytes, TokenVaultSeeds(vault))| == 43
    ensures |JoinedSeeds(keyBytes, LpMintSeeds(vault))| == 39
  {
    PrefixLength(VaultPrefix);
    PrefixLength(TokenVaultPrefix);
    PrefixLength(LpMintPrefix);
    JoinedThree(keyBytes, Text(VaultPrefix), KeyBytes(tokenMint), KeyBytes(baseKey));
    JoinedTwo(keyBytes, Text(TokenVaultPrefix), KeyBytes(vault));
    JoinedTwo(keyBytes, Text(LpMintPrefix), KeyBytes(vault));
  }

  /** With a finder that is collision-free over the hashed seed bytes, the
      three addresses are pairwise distinct, because their seed lists join
      to 69, 43 and 39 bytes. */
  lemma PdasDistinct(find: ProgramAddressFinder, keyBytes: Address -> seq<Byte>, tokenMint: Address,
                     programId: Address, seedBaseKey: Option<Address>)
    requires KeyEncoding(keyBytes)
    requires CollisionFree(find, keyBytes)
    ensures var r := GetVaultPdas(find, tokenMint, programId, seedBaseKey);
      r.Ok? ==>
        && r.value.vaultPda != r.value.tokenVaultPda
        && r.value.vaultPda != r.value.lpMintPda
        && r.value.tokenVaultPda != r.value.lpMintPda
  {
    var r := GetVaultPdas(find, tokenMint, programId, seedBaseKey);
    if r.Ok? {
      var v := r.value.vaultPda;
      JoinedSeedLayout(keyBytes, tokenMint, seedBaseKey.GetOr(VaultBaseKey), v);
      var vs := VaultSeeds(tokenMint, seedBaseKey.GetOr(VaultBaseKey));
      var ts, ls := TokenVaultSeeds(v), LpMintSeeds(v);
      assert JoinedSeeds(keyBytes, vs) != JoinedSeeds(keyBytes, ts);
      assert JoinedSeeds(keyBytes, vs) != JoinedSeeds(keyBytes, ls);
      assert JoinedSeeds(keyBytes, ts) != JoinedSeeds(keyBytes, ls);
    }
  }

  /** With a finder that is collision-free over the hashed seed bytes,
      vaults of one program that share a base key but not a mint (the two
      mints' 32 bytes differ) have different addresses: bytes 5 to 37 of
      their seeds are the two mints. */
  lemma VaultPerMint(find: ProgramAddressFinder, keyBytes: Address -> seq<Byte>, mint1: Address, mint2: Address,
                     programId: Address, baseKey: Option<Address>)
    requires KeyEncoding(keyBytes)
    requires CollisionFree(find, keyBytes)
    requires keyBytes(mint1) != keyBytes(mint2)
    ensures var r1 := GetVaultPdas(find, mint1, programId, baseKey);
            var r2 := GetVaultPdas(find, mint2, programId, baseKey);
      r1.Ok? && r2.Ok? ==> r1.value.vaultPda != r2.value.vaultPda
  {
    var r1 := GetVaultPdas(find, mint1, programId, baseKey);
    var r2 := GetVaultPdas(find, mint2, programId, baseKey);
    if r1.Ok? && r2.Ok? {
      var b := baseKey.GetOr(VaultBaseKey);
      JoinedSeedLayout(keyBytes, mint1, b, b);
      JoinedSeedLayout(keyBytes, mint2, b, b);
      var j1, j2 := JoinedSeeds(keyBytes, VaultSeeds(mint1, b)), JoinedSeeds(keyBytes, VaultSeeds(mint2, b));
      assert j1[5..37] == keyBytes(mint1) && j2[5..37] == keyBytes(mint2);
      assert j1 != j2;
    }
  }
}
