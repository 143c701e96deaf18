/** The parts of the Solana client libraries (web3.js and spl-token) that the
    vault utilities consume: addresses, seeds, instructions, account records,
    and the error-or-value shape of every call that can throw or reject. */
module Solana {

  /** A value or the reason it could not be produced; an `Err` stands for a
      thrown exception or a rejected promise. */
  datatype Result<+T> = Ok(value: T) | Err(error: Error)

  datatype Option<+T> = None | Some(value: T) {
    /** `opt ?? default` and, for object values, `opt || default`. */
    function GetOr(default: T): (r: T)
      ensures Some? ==> r == value
      ensures None? ==> r == default
    {
      match this
      case Some(v) => v
      case None => default
    }
  }

  datatype Error =
    | DerivationFailure        // no bump seed gives an off-curve program address
    | AccountReadFailure       // transport or RPC error, distinct from "no such account"
    | UnsafeNumber             // BN.toNumber on a value of 53 bits or more

  type Byte = b: int | 0 <= b < 256

  /** A public key, identified by its base58 text form. */
  datatype Address = Address(base58: string)

  const TokenProgramId := Address("TokenkegQfeZyiNwAJbNbGKPFXCWuBvf9Ss623VQ5DA")
  const NativeMint := Address("So11111111111111111111111111111111111111112")

  /** One seed of a program-derived address: a text literal, hashed as its
      UTF-8 bytes (`Buffer.from(text)`), or a key, hashed as its 32 bytes
      (`key.toBuffer()`). */
  datatype Seed = Text(text: string) | KeyBytes(key: Address)

  datatype AccountMeta = AccountMeta(pubkey: Address, isSigner: bool, isWritable: bool)

  /** An unsigned instruction. The first three variants are built by library
      helpers whose encodings are not part of this model and are kept as the
      arguments they were given; `Raw` is a `new TransactionInstruction` whose
      program, keys and data are spelled out by the caller. */
  datatype Instruction =
    | SystemTransfer(from: Address, to: Address, lamports: nat)
    | CreateAssociatedTokenAccount(payer: Address, ata: Address, owner: Address, mint: Address)
    | CloseAccount(account: Address, destination: Address, authority: Address)
    | Raw(programId: Address, keys: seq<AccountMeta>, data: seq<Byte>)

  /** What `connection.getAccountInfo` returns for an existing account. */
  datatype AccountInfo = AccountInfo(owner: Address, lamports: nat, data: seq<Byte>, executable: bool)

  /** `PublicKey.findProgramAddressSync(seeds, programId)[0]`. */
  type ProgramAddressFinder = (seq<Seed>, Address) -> Result<Address>

  /** `getAssociatedTokenAddress(mint, owner, true)`. */
  type AssociatedAddressFinder = (Address, Address) -> Result<Address>

  /** `connection.getAccountInfo(address)`: `Ok(None)` is a definitive "no such account". */
  type AccountReader = Address -> Result<Option<AccountInfo>>

  /** The UTF-8 encoding of one character (a Unicode scalar value). */
  function Utf8Char(c: char): (r: seq<Byte>)
    ensures 1 <= |r| <= 4
    ensures (c as int < 0x80) <==> r == [c as int]
  {
    var n := c as int;
    if n < 0x80 then [n]
    else if n < 0x800 then [0xC0 + n / 0x40, 0x80 + n % 0x40]
    else if n < 0x1_0000 then [0xE0 + n / 0x1000, 0x80 + (n / 0x40) % 0x40, 0x80 + n % 0x40]
    else [0xF0 + n / 0x4_0000, 0x80 + (n / 0x1000) % 0x40, 0x80 + (n / 0x40) % 0x40, 0x80 + n % 0x40]
  }

  /** `Buffer.from(text)`: the UTF-8 bytes of `text`. */
  function Utf8(text: string): seq<Byte>
  {
    if text == [] then [] else Utf8Char(text[0]) + Utf8(text[1..])
  }

  /** A text made only of ASCII characters encodes to one byte per character. */
  lemma {:induction false} Utf8AsciiLength(text: string)
    requires forall i :: 0 <= i < |text| ==> text[i] as int < 0x80
    ensures |Utf8(text)| == |text|
  {
    if text != [] {
      assert text[0] as int < 0x80;
      Utf8AsciiLength(text[1..]);
    }
  }

  /** `key.toBuffer()` for every key: 32 bytes. Injectivity is not assumed:
      an address here is any base58 text, and there are more texts than
      32-byte strings, so a lemma that needs two keys to differ asks it of
      their bytes. */
  ghost predicate KeyEncoding(keyBytes: Address -> seq<Byte>)
  {
    forall a :: |keyBytes(a)| == 32
  }

  function SeedBytes(keyBytes: Address -> seq<Byte>, seed: Seed): seq<Byte>
  {
    match seed
    case Text(text) => Utf8(text)
    case KeyBytes(key) => keyBytes(key)
  }

  /** The seeds' bytes joined end to end, which is what the address
      derivation hashes (before the bump and the program id). */
  function JoinedSeeds(keyBytes: Address -> seq<Byte>, seeds: seq<Seed>): (r: seq<Byte>)
  {
    if seeds == [] then [] else SeedBytes(keyBytes, seeds[0]) + JoinedSeeds(keyBytes, seeds[1..])
  }

  /** Two seed lists that differ only in where one seed ends and the next
      begins join to the same bytes, so collision resistance can only be
      asked of the joined bytes, not of the seed lists. */
  lemma SeedBoundariesAreLost(keyBytes: Address -> seq<Byte>)
    ensures JoinedSeeds(keyBytes, [Text("ab")]) == JoinedSeeds(keyBytes, [Text("a"), Text("b")])
  {
    assert Utf8("ab") == Utf8Char('a') + Utf8("b");
    assert Utf8("a") == Utf8Char('a') + Utf8("");
  }

  /** A finder that never maps two seed lists of one program whose joined
      bytes differ to the same address. The derivation hashes the joined
      seed bytes, then one bump byte, the program id and a fixed marker, so
      this is the collision resistance of that hash. */
  ghost predicate CollisionFree(find: ProgramAddressFinder, keyBytes: Address -> seq<Byte>)
  {
    forall s1, s2, p ::
      find(s1, p).Ok? && find(s2, p).Ok? && find(s1, p).value == find(s2, p).value ==>
        JoinedSeeds(keyBytes, s1) == JoinedSeeds(keyBytes, s2)
  }

  /** Bytes spelled as text, one character per byte. */
  function BytesText(b: seq<Byte>): (r: string)
    ensures |r| == |b| && forall i :: 0 <= i < |b| ==> r[i] as int == b[i]
  {
    seq(|b|, i requires 0 <= i < |b| => b[i] as char)
  }

  /** The assumptions the distinctness lemmas make can hold together with a
      finder that never fails: one that names each address after the joined
      seed bytes, with keys encoded as 32 bytes, two of which differ (as
      `VaultPerMint` asks of its two mints). */
  lemma AssumptionsSatisfiable()
    ensures var kb := (a: Address) => seq(32, i => if a == Address("x") then 1 else 0);
            var find := (seeds: seq<Seed>, p: Address) => Ok(Address(BytesText(JoinedSeeds(kb, seeds))));
      && KeyEncoding(kb)
      && CollisionFree(find, kb)
      && kb(Address("x")) != kb(Address("y"))
      && forall seeds, p :: find(seeds, p).Ok?
  {
    var kb := (a: Address) => seq(32, i => if a == Address("x") then 1 else 0);
    var find := (seeds: seq<Seed>, p: Address) => Ok(Address(BytesText(JoinedSeeds(kb, seeds))));
    forall s1, s2, p | find(s1, p).Ok? && find(s2, p).Ok? && find(s1, p).value == find(s2, p).value
      ensures JoinedSeeds(kb, s1) == JoinedSeeds(kb, s2)
    {
      var b1, b2 := JoinedSeeds(kb, s1), JoinedSeeds(kb, s2);
      assert BytesText(b1) == BytesText(b2);
      assert forall i :: 0 <= i < |b1| ==> b1[i] == BytesText(b1)[i] as int == b2[i];
    }
    assert kb(Address("x"))[0] == 1 && kb(Address("y"))[0] == 0;
  }
}
