/**
 AES in ECB mode around an abstract block cipher: PKCS padding (section 6.3 of
 RFC 5652), the block loops, and what encryption followed by decryption gives.
 */
module Encryptor {
  import opened Bytes

  const BLOCK: nat := 16

  type Block = b: bytes | |b| == BLOCK witness seq(BLOCK, _ => 0)

  datatype Cipher = Cipher(encrypt: Block -> Block, decrypt: Block -> Block)

  ghost predicate Inverse(c: Cipher) {
    forall b: Block :: c.decrypt(c.encrypt(b)) == b
  }

  datatype CryptError = NilInput | EmptyPayload | BadPadding | Panic

  // ----- padding

  function GetLength(plainLength: nat): nat {
    plainLength + BLOCK - plainLength % BLOCK
  }

  function Pad(data: bytes): bytes {
    var padding: u8 := BLOCK - |data| % BLOCK;
    data + seq(padding, _ => padding)
  }

  function Unpad(data: bytes): Result<bytes, CryptError> {
    if data == [] then Err(Panic)
    else
      var padding := data[|data| - 1];
      if padding > |data| then Err(BadPadding) else Ok(data[..|data| - padding])
  }

  lemma PadLength(data: bytes)
    ensures |Pad(data)| == GetLength(|data|)
    ensures GetLength(|data|) % BLOCK == 0 && |data| < GetLength(|data|) <= |data| + BLOCK
  {
  }

  /** Unpadding undoes padding, on every input. */
  lemma UnpadAfterPad(data: bytes)
    ensures Unpad(Pad(data)) == Ok(data)
  {
    var padded := Pad(data);
    assert padded[..|data|] == data;
  }

  /** The last byte announces how many copies of itself end the data. */
  ghost predicate WellPadded(data: bytes) {
    && data != [] && |data| % BLOCK == 0
    && var padding: int := data[|data| - 1];
    && 1 <= padding <= BLOCK
    && forall i :: |data| - padding <= i < |data| ==> data[i] == padding
  }

  lemma PaddingIsWellPadded(plain: bytes)
    ensures WellPadded(Pad(plain))
  {
    PadLength(plain);
  }

  lemma WellPaddedIsPadding(data: bytes)
    requires WellPadded(data)
    ensures Unpad(data).Ok? && Pad(Unpad(data).value) == data
  {
    var padding: int := data[|data| - 1];
    var plain := data[..|data| - padding];
    assert |plain| % BLOCK == (BLOCK - padding) % BLOCK;
    assert Pad(plain) == data;
  }

  /** Unpadding checks no more than the last byte, so padding undoes it exactly on
      data that is well padded. */
  lemma PadAfterUnpad(data: bytes)
    ensures (Unpad(data).Ok? && Pad(Unpad(data).value) == data) <==> WellPadded(data)
  {
    if Unpad(data).Ok? { PaddingIsWellPadded(Unpad(data).value); }
    if WellPadded(data) { WellPaddedIsPadding(data); }
  }

  // ----- block loops

  function Blocks(f: Block -> Block, src: bytes): (dst: bytes)
    requires |src| % BLOCK == 0
    ensures |dst| == |src|
  {
    if src == [] then [] else f(src[..BLOCK]) + Blocks(f, src[BLOCK..])
  }

  lemma {:induction false} BlocksInverse(c: Cipher, src: bytes)
    requires Inverse(c) && |src| % BLOCK == 0
    ensures Blocks(c.decrypt, Blocks(c.encrypt, src)) == src
  {
    if src != [] {
      var head: Block, rest := src[..BLOCK], src[BLOCK..];
      BlocksInverse(c, rest);
      var out := Blocks(c.encrypt, src);
      assert out[..BLOCK] == c.encrypt(head) && out[BLOCK..] == Blocks(c.encrypt, rest);
    }
  }

  lemma {:induction false} BlocksConcat(f: Block -> Block, a: bytes, b: bytes)
    requires |a| % BLOCK == 0 && |b| % BLOCK == 0
    ensures Blocks(f, a + b) == Blocks(f, a) + Blocks(f, b)
  {
    if a == [] {
      assert a + b == b;
    } else {
      assert (a + b)[..BLOCK] == a[..BLOCK] && (a + b)[BLOCK..] == a[BLOCK..] + b;
      BlocksConcat(f, a[BLOCK..], b);
      ConcatIsAssociative(f(a[..BLOCK]), Blocks(f, a[BLOCK..]), Blocks(f, b));
    }
  }

  /** Both CryptBlocks loops, with the cipher's direction as a parameter. They panic
      on input that is not full blocks and on an output that is too short. */
  method CryptBlocks(f: Block -> Block, dst: array<u8>, src: bytes) returns (panicked: bool)
    modifies dst
    ensures panicked <==> |src| % BLOCK != 0 || dst.Length < |src|
    ensures panicked ==> dst[..] == old(dst[..])
    ensures !panicked ==> dst[..] == Blocks(f, src) + old(dst[|src|..])
  {
    if |src| % BLOCK != 0 || dst.Length < |src| {
      return true;
    }
    ghost var tail := dst[|src|..];
    var i := 0;
    assert src[..0] == [] && Blocks(f, []) == [];
    while i < |src|
      invariant i <= |src| && i % BLOCK == 0
      invariant dst[..i] == Blocks(f, src[..i])
      invariant dst[|src|..] == tail
      decreases |src| - i
    {
      var out := f(src[i..i + BLOCK]);
      ghost var before := dst[..i];
      forall k | 0 <= k < BLOCK {
        dst[i + k] := out[k];
      }
      assert dst[..i] == before;
      assert dst[i..i + BLOCK] == out;
      OneMoreBlock(f, src, i);
      assert dst[..i + BLOCK] == dst[..i] + dst[i..i + BLOCK];
      i := i + BLOCK;
    }
    assert src[..|src|] == src;
    assert dst[..] == dst[..|src|] + dst[|src|..];
    return false;
  }

  lemma OneMoreBlock(f: Block -> Block, src: bytes, i: nat)
    requires i % BLOCK == 0 && i + BLOCK <= |src|
    ensures Blocks(f, src[..i + BLOCK]) == Blocks(f, src[..i]) + f(src[i..i + BLOCK])
  {
    var block := src[i..i + BLOCK];
    assert src[..i + BLOCK] == src[..i] + block;
    BlocksConcat(f, src[..i], block);
    assert block[..BLOCK] == block && block[BLOCK..] == [];
    assert f(block) + [] == f(block);
  }

  // ----- encryption

  function Encrypted(c: Cipher, data: bytes): Result<bytes, CryptError> {
    if data == [] then Err(EmptyPayload)
    else PadLength(data); Ok(Blocks(c.encrypt, Pad(data)))
  }

  /** `None` stands for the nil interface value a message without payload carries. */
  function Decrypted(c: Cipher, input: Option<bytes>): Result<bytes, CryptError> {
    if input.None? then Err(NilInput)
    else if |input.value| % BLOCK != 0 then Err(Panic)
    else Unpad(Blocks(c.decrypt, input.value))
  }

  method Encrypt(c: Cipher, data: bytes) returns (r: Result<bytes, CryptError>)
    ensures r == Encrypted(c, data)
    ensures r.Ok? <==> data != []
    ensures r.Ok? ==> |r.value| == GetLength(|data|)
  {
    if |data| == 0 {
      return Err(EmptyPayload);
    }
    PadLength(data);
    var padded := Pad(data);
    var encrypted := new u8[|padded|];
    var panicked := CryptBlocks(c.encrypt, encrypted, padded);
    assert encrypted[..] == Blocks(c.encrypt, padded);
    return Ok(encrypted[..]);
  }

  method Decrypt(c: Cipher, input: Option<bytes>) returns (r: Result<bytes, CryptError>)
    ensures r == Decrypted(c, input)
  {
    if input.None? {
      return Err(NilInput);
    }
    var origData := new u8[|input.value|];
    var panicked := CryptBlocks(c.decrypt, origData, input.value);
    if panicked {
      return Err(Panic);
    }
    assert origData[..] == Blocks(c.decrypt, input.value);
    return Unpad(origData[..]);
  }

  /** Whatever was encrypted, however long, decrypts to itself, and the length is the
      one that the codec announces beforehand. */
  lemma DecryptAfterEncrypt(c: Cipher, data: bytes)
    requires Inverse(c) && data != []
    ensures Encrypted(c, data).Ok? && |Encrypted(c, data).value| == GetLength(|data|)
    ensures Decrypted(c, Some(Encrypted(c, data).value)) == Ok(data)
  {
    PadLength(data);
    BlocksInverse(c, Pad(data));
    UnpadAfterPad(data);
  }

  // ----- block by block

  lemma {:induction false} BlocksAt(f: Block -> Block, src: bytes, i: nat)
    requires |src| % 16 == 0 && 16 * i < |src|
    ensures Blocks(f, src)[16 * i..16 * i + 16] == f(src[16 * i..16 * i + 16])
  {
    if i > 0 {
      BlocksAt(f, src[16..], i - 1);
      assert src[16..][16 * (i - 1)..16 * (i - 1) + 16] == src[16 * i..16 * i + 16];
    }
  }

  /** `to` is `from`, each of its blocks of 16 bytes put through `f` on its own. */
  ghost predicate EachBlock(f: Block -> Block, from: bytes, to: bytes) {
    && |from| % 16 == 0 && |to| == |from|
    && forall i :: 0 <= 16 * i < |from| ==> to[16 * i..16 * i + 16] == f(from[16 * i..16 * i + 16])
  }

  lemma {:induction false} EachBlockIsBlocks(f: Block -> Block, from: bytes, to: bytes)
    requires |from| % 16 == 0
    ensures EachBlock(f, from, to) <==> to == Blocks(f, from)
  {
    forall i | 0 <= 16 * i < |from|
      ensures Blocks(f, from)[16 * i..16 * i + 16] == f(from[16 * i..16 * i + 16])
    {
      BlocksAt(f, from, i);
    }
    if EachBlock(f, from, to) { SameBlocks(to, Blocks(f, from)); }
  }

  lemma SameBlocks(a: bytes, b: bytes)
    requires |a| == |b| && |a| % 16 == 0
    requires forall i :: 0 <= 16 * i < |a| ==> a[16 * i..16 * i + 16] == b[16 * i..16 * i + 16]
    ensures a == b
  {
    forall k | 0 <= k < |a| ensures a[k] == b[k] {
      var i := k / 16;
      assert a[16 * i..16 * i + 16][k % 16] == b[16 * i..16 * i + 16][k % 16];
    }
  }

  /** Data that is not empty is filled up with 1 to 16 bytes that say how many they are,
      to full blocks, and encrypted block by block. */
  lemma EncryptedIs(c: Cipher, data: bytes, padded: bytes)
    requires data != [] && data <= padded && |padded| == |data| + 16 - |data| % 16
    requires forall i :: |data| <= i < |padded| ==> padded[i] == 16 - |data| % 16
    ensures Encrypted(c, data).Ok? && EachBlock(c.encrypt, padded, Encrypted(c, data).value)
  {
    assert padded == Pad(data);
    PadLength(data);
    EachBlockIsBlocks(c.encrypt, padded, Encrypted(c, data).value);
  }

  /** Full blocks are decrypted block by block, and as many bytes taken off the end as the
      last one says; anything else panics, and so does the empty input. */
  lemma DecryptedIs(c: Cipher, input: bytes, padded: bytes)
    ensures Decrypted(c, None) == Err(NilInput)
    ensures input == [] || |input| % 16 != 0 ==> Decrypted(c, Some(input)) == Err(Panic)
    ensures input != [] && EachBlock(c.decrypt, input, padded) ==>
      var last := padded[|padded| - 1];
      Decrypted(c, Some(input)) == if last > |padded| then Err(BadPadding) else Ok(padded[..|padded| - last])
  {
    if |input| % 16 == 0 { EachBlockIsBlocks(c.decrypt, input, padded); }
    hide EachBlock;
  }
}
