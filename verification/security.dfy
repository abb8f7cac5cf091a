/** `SecurityAlgorithm`: the SecurityAccess key is the AES-128-ECB
    decryption of the seed under one of two configurable keys. The block
    cipher itself is foreign code and enters the model as the function
    parameter `decrypt`; what is modelled is which key is used and how
    the seed is brought to one 16-byte block. */
module Security {
  import opened Bits
  import opened Wrappers

  /** One AES block. */
  type Block = s: seq<byte> | |s| == 16 witness [0, 0, 0, 0, 0, 0, 0, 0, 0, 0, 0, 0, 0, 0, 0, 0]

  /** The key decrypting block `b` under `key` (AES, ECB, no padding). */
  type Decryptor = (seq<byte>, Block) -> Block

  const DefaultKeyLevel1: seq<byte> :=
    [0x40, 0xAF, 0x1D, 0x0C, 0x09, 0x97, 0xF9, 0x31, 0x48, 0xF5, 0xB3, 0x65, 0x75, 0xA3, 0x76, 0x1E]

  const DefaultKeyLevel2: seq<byte> :=
    [0x0D, 0x37, 0x4F, 0x3C, 0xC6, 0x91, 0xD3, 0x4B, 0x91, 0x07, 0xF0, 0x78, 0xA6, 0x4E, 0x75, 0x6B]

  /** `Aes.Key` accepts 128-, 192- and 256-bit keys and throws otherwise. */
  predicate ValidAesKeySize(n: nat)
  {
    n == 16 || n == 24 || n == 32
  }

  datatype KeyError = InvalidKeySize

  function Min(a: int, b: int): int
  {
    if a < b then a else b
  }

  /** The cipher input: the seed itself when it is one block, otherwise a
      zeroed block with the seed's first (at most 16) bytes copied in. */
  function NormaliseSeed(seed: seq<byte>): (input: Block)
  {
    if |seed| == 16 then seed
    else
      var n := Min(|seed|, 16);
      seed[..n] + Zeros(16 - n)
  }

  /** The block keeps the seed's first min(|seed|, 16) bytes and is zero
      after them: shorter seeds are padded on the right with zeros,
      longer ones truncated. */
  lemma NormaliseSeedLayout(seed: seq<byte>)
    ensures var input := NormaliseSeed(seed);
      input[..Min(|seed|, 16)] == seed[..Min(|seed|, 16)]
      && forall i :: Min(|seed|, 16) <= i < 16 ==> input[i] == 0
    ensures |seed| >= 16 ==> NormaliseSeed(seed) == seed[..16]
  {
    if |seed| != 16 {
      var n := Min(|seed|, 16);
      assert (seed[..n] + Zeros(16 - n))[..n] == seed[..n];
    } else {
      assert seed[..16] == seed;
    }
  }

  /** Two seeds agreeing on their first 16 bytes, with the shorter padded
      by zeros, give the same block: trailing bytes beyond 16 are lost. */
  lemma NormaliseSeedIgnoresTail(seed: seq<byte>, extra: seq<byte>)
    requires |seed| >= 16
    ensures NormaliseSeed(seed + extra) == NormaliseSeed(seed)
  {
    NormaliseSeedLayout(seed + extra);
    NormaliseSeedLayout(seed);
    assert (seed + extra)[..16] == seed[..16];
  }

  class SecurityAlgorithm {
    var aesKeyLevel1: seq<byte>
    var aesKeyLevel2: seq<byte>

    constructor ()
      ensures aesKeyLevel1 == DefaultKeyLevel1 && aesKeyLevel2 == DefaultKeyLevel2
    {
      aesKeyLevel1 := DefaultKeyLevel1;
      aesKeyLevel2 := DefaultKeyLevel2;
    }

    /** The two property setters. */
    method SetKeys(level1: seq<byte>, level2: seq<byte>)
      modifies this
      ensures aesKeyLevel1 == level1 && aesKeyLevel2 == level2
    {
      aesKeyLevel1 := level1;
      aesKeyLevel2 := level2;
    }

    /** `level == 2 ? AesKeyLevel2 : AesKeyLevel1`. */
    function SelectedKey(level: int): seq<byte>
      reads this
    {
      if level == 2 then aesKeyLevel2 else aesKeyLevel1
    }

    /** `GenerateKey(seed, level)`: the selected key must be a valid AES key
        size; the result is then one decrypted block. */
    function GenerateKey(seed: seq<byte>, level: int, decrypt: Decryptor): (r: Result<Block, KeyError>)
      reads this
      ensures r.Ok? <==> ValidAesKeySize(|SelectedKey(level)|)
      ensures r.Ok? ==> r.value == decrypt(SelectedKey(level), NormaliseSeed(seed))
      ensures |aesKeyLevel1| == 16 && |aesKeyLevel2| == 16 ==> r.Ok?
    {
      var key := SelectedKey(level);
      if !ValidAesKeySize(|key|) then Err(InvalidKeySize)
      else Ok(decrypt(key, NormaliseSeed(seed)))
    }

    /** Only level 2 is special: every other level, 0 and negative ones
        included, behaves exactly as level 1. */
    lemma OtherLevelsUseLevel1(seed: seq<byte>, level: int, decrypt: Decryptor)
      requires level != 2
      ensures GenerateKey(seed, level, decrypt) == GenerateKey(seed, 1, decrypt)
    {
    }

    /** The output depends on nothing but the selected key and the
        normalised seed. */
    lemma GenerateKeyDeterministic(seed1: seq<byte>, level1: int, seed2: seq<byte>, level2: int, decrypt: Decryptor)
      requires NormaliseSeed(seed1) == NormaliseSeed(seed2)
      requires SelectedKey(level1) == SelectedKey(level2)
      ensures GenerateKey(seed1, level1, decrypt) == GenerateKey(seed2, level2, decrypt)
    {
    }
  }
}
