/**
 Cipher block chaining over any number of blocks (section 6.2 of NIST SP 800-38A):
 TransformCBC and InverseTransformCBC of src/base/unverified_aes256.cc.
 */
module AesCbc {
  import opened Aes
  import opened AesKeySchedule
  import opened AesRounds

  predicate WholeBlocks(s: Bytes) {
    |s| % BLOCK_BYTES == 0
  }

  /** Each block is added to the previous ciphertext block, then enciphered. */
  function EncryptCbc(w: Bytes, iv: Bytes, s: Bytes): (c: Bytes)
    requires IsSchedule(w) && IsBlock(iv) && WholeBlocks(s)
    ensures |c| == |s|
    decreases |s|
  {
    hide EncryptBlock, Xor;
    if s == [] then []
    else
      var block := EncryptBlock(w, Xor(s[..BLOCK_BYTES], iv));
      block + EncryptCbc(w, block, s[BLOCK_BYTES..])
  }

  /** Each block is deciphered, then added to the previous ciphertext block. */
  function DecryptCbc(w: Bytes, iv: Bytes, c: Bytes): (s: Bytes)
    requires IsSchedule(w) && IsBlock(iv) && WholeBlocks(c)
    ensures |s| == |c|
    decreases |c|
  {
    hide DecryptBlock, Xor;
    if c == [] then []
    else
      var block := c[..BLOCK_BYTES];
      Xor(DecryptBlock(w, block), iv) + DecryptCbc(w, block, c[BLOCK_BYTES..])
  }

  lemma {:induction false} DecryptUndoesEncryptCbc(w: Bytes, iv: Bytes, s: Bytes)
    requires IsSchedule(w) && IsBlock(iv) && WholeBlocks(s)
    ensures DecryptCbc(w, iv, EncryptCbc(w, iv, s)) == s
    decreases |s|
  {
    hide EncryptBlock, DecryptBlock, Xor;
    if s != [] {
      var block := EncryptBlock(w, Xor(s[..BLOCK_BYTES], iv));
      var rest := EncryptCbc(w, block, s[BLOCK_BYTES..]);
      assert (block + rest)[..BLOCK_BYTES] == block && (block + rest)[BLOCK_BYTES..] == rest;
      DecryptUndoesEncrypt(w, Xor(s[..BLOCK_BYTES], iv));
      XorTwice(s[..BLOCK_BYTES], iv);
      DecryptUndoesEncryptCbc(w, block, s[BLOCK_BYTES..]);
    }
  }

  lemma {:induction false} EncryptUndoesDecryptCbc(w: Bytes, iv: Bytes, c: Bytes)
    requires IsSchedule(w) && IsBlock(iv) && WholeBlocks(c)
    ensures EncryptCbc(w, iv, DecryptCbc(w, iv, c)) == c
    decreases |c|
  {
    hide EncryptBlock, DecryptBlock, Xor;
    if c != [] {
      var block := c[..BLOCK_BYTES];
      var first := Xor(DecryptBlock(w, block), iv);
      var rest := DecryptCbc(w, block, c[BLOCK_BYTES..]);
      assert (first + rest)[..BLOCK_BYTES] == first && (first + rest)[BLOCK_BYTES..] == rest;
      XorTwice(DecryptBlock(w, block), iv);
      EncryptUndoesDecrypt(w, block);
      EncryptUndoesDecryptCbc(w, block, c[BLOCK_BYTES..]);
    }
  }

  /** Block `i` of 16 bytes. */
  function BlockOf(s: Bytes, i: nat): Bytes
    requires 16 * i + 16 <= |s|
  {
    s[16 * i..16 * i + 16]
  }

  /** Section 6.2 of NIST SP 800-38A, block by block: each is added to the ciphertext block before it and enciphered. */
  lemma {:induction false} EncryptCbcBlock(w: Bytes, iv: Bytes, s: Bytes, i: nat)
    requires IsSchedule(w) && IsBlock(iv) && WholeBlocks(s) && 16 * i + 16 <= |s|
    ensures hide EncryptBlock, Xor;
            var c := EncryptCbc(w, iv, s);
            BlockOf(c, i) == EncryptBlock(w, Xor(BlockOf(s, i), if i == 0 then iv else BlockOf(c, i - 1)))
    decreases i
  {
    hide EncryptBlock, Xor;
    var first := EncryptBlock(w, Xor(s[..16], iv));
    var rest := EncryptCbc(w, first, s[16..]);
    var c := EncryptCbc(w, iv, s);
    assert c == first + rest;
    if i > 0 {
      EncryptCbcBlock(w, first, s[16..], i - 1);
      assert BlockOf(rest, i - 1) == BlockOf(c, i) && BlockOf(s[16..], i - 1) == BlockOf(s, i);
      assert i > 1 ==> BlockOf(rest, i - 2) == BlockOf(c, i - 1);
      assert i == 1 ==> first == BlockOf(c, 0);
    } else {
      assert s[..16] == BlockOf(s, 0) && first == BlockOf(c, 0);
    }
  }

  /** Each block is deciphered and added to the ciphertext block before it. */
  lemma {:induction false} DecryptCbcBlock(w: Bytes, iv: Bytes, c: Bytes, i: nat)
    requires IsSchedule(w) && IsBlock(iv) && WholeBlocks(c) && 16 * i + 16 <= |c|
    ensures hide DecryptBlock, Xor;
            BlockOf(DecryptCbc(w, iv, c), i)
            == Xor(DecryptBlock(w, BlockOf(c, i)), if i == 0 then iv else BlockOf(c, i - 1))
    decreases i
  {
    hide DecryptBlock, Xor;
    var block := c[..16];
    var rest := DecryptCbc(w, block, c[16..]);
    var s := DecryptCbc(w, iv, c);
    assert s == Xor(DecryptBlock(w, block), iv) + rest;
    if i > 0 {
      DecryptCbcBlock(w, block, c[16..], i - 1);
      assert BlockOf(rest, i - 1) == BlockOf(s, i) && BlockOf(c[16..], i - 1) == BlockOf(c, i);
      assert i > 1 ==> BlockOf(c[16..], i - 2) == BlockOf(c, i - 1);
      assert i == 1 ==> block == BlockOf(c, 0);
    } else {
      assert block == BlockOf(c, 0);
    }
  }

  /** What is not yet processed is still the input. */
  lemma OldBlock(buf: Bytes, was: Bytes, off: nat, end: nat)
    requires |buf| == |was| && off + BLOCK_BYTES <= end <= |buf| && buf[off..] == was[off..]
    ensures buf[off..off + BLOCK_BYTES] == was[..end][off..off + BLOCK_BYTES]
    ensures buf[off + BLOCK_BYTES..] == was[off + BLOCK_BYTES..]
  {
    assert buf[off..off + BLOCK_BYTES] == buf[off..][..BLOCK_BYTES];
    assert was[..end][off..off + BLOCK_BYTES] == was[off..][..BLOCK_BYTES];
    assert buf[off + BLOCK_BYTES..] == buf[off..][BLOCK_BYTES..];
    assert was[off + BLOCK_BYTES..] == was[off..][BLOCK_BYTES..];
  }

  /** One more block of EncryptCbc, after `done`. */
  lemma EncryptCbcStep(w: Bytes, total: Bytes, done: Bytes, iv: Bytes, block: Bytes, c: Bytes, rest: Bytes)
    requires IsSchedule(w) && IsBlock(iv) && IsBlock(block) && WholeBlocks(rest)
    requires hide EncryptBlock, Xor; c == EncryptBlock(w, Xor(block, iv))
    requires total == done + EncryptCbc(w, iv, block + rest)
    ensures total == (done + c) + EncryptCbc(w, c, rest)
  {
    hide EncryptBlock, Xor;
    assert (block + rest)[..BLOCK_BYTES] == block && (block + rest)[BLOCK_BYTES..] == rest;
  }

  method TransformCBC(key: Bytes, iv: Bytes, buf: array<bv8>, blockCount: nat)
    requires |key| == KEY_BYTES && IsBlock(iv) && BLOCK_BYTES * blockCount <= buf.Length
    modifies buf
    ensures var end := BLOCK_BYTES * blockCount;
            buf[..end] == EncryptCbc(KeySchedule(key), iv, old(buf[..end])) && buf[end..] == old(buf[end..])
  {
    hide EncryptCbc, EncryptBlock, KeySchedule, Xor;
    var w := new bv8[KEY_SCHEDULE_BYTES];
    MakeKeySchedule(key, w);
    var vec := iv;
    ghost var end := BLOCK_BYTES * blockCount;
    ghost var s, total := buf[..end], EncryptCbc(w[..], iv, buf[..end]);
    for i := 0 to blockCount
      invariant IsBlock(vec) && w[..] == KeySchedule(key)
      invariant total == buf[..BLOCK_BYTES * i] + EncryptCbc(w[..], vec, s[BLOCK_BYTES * i..])
      invariant buf[BLOCK_BYTES * i..] == old(buf[BLOCK_BYTES * i..])
    {
      var off := BLOCK_BYTES * i;
      ghost var done, prev, block := buf[..off], vec, BlockAt(buf, off);
      OldBlock(buf[..], old(buf[..]), off, end);
      XorBlock(buf, off, vec);
      TransformECB(w, buf, off);
      vec := buf[off..off + BLOCK_BYTES];
      assert buf[..off + BLOCK_BYTES] == done + vec;
      assert s[off..] == block + s[off + BLOCK_BYTES..];
      EncryptCbcStep(w[..], total, done, prev, block, vec, s[off + BLOCK_BYTES..]);
    }
    assert s[BLOCK_BYTES * blockCount..] == [];
  }

  /** One more block of DecryptCbc, after `done`. */
  lemma DecryptCbcStep(w: Bytes, total: Bytes, done: Bytes, iv: Bytes, block: Bytes, p: Bytes, rest: Bytes)
    requires IsSchedule(w) && IsBlock(iv) && IsBlock(block) && WholeBlocks(rest)
    requires hide DecryptBlock, Xor; p == Xor(DecryptBlock(w, block), iv)
    requires total == done + DecryptCbc(w, iv, block + rest)
    ensures total == (done + p) + DecryptCbc(w, block, rest)
  {
    hide DecryptBlock, Xor;
    assert (block + rest)[..BLOCK_BYTES] == block && (block + rest)[BLOCK_BYTES..] == rest;
  }

  method InverseTransformCBC(key: Bytes, iv: Bytes, buf: array<bv8>, blockCount: nat)
    requires |key| == KEY_BYTES && IsBlock(iv) && BLOCK_BYTES * blockCount <= buf.Length
    modifies buf
    ensures var end := BLOCK_BYTES * blockCount;
            buf[..end] == DecryptCbc(KeySchedule(key), iv, old(buf[..end])) && buf[end..] == old(buf[end..])
  {
    hide DecryptCbc, DecryptBlock, KeySchedule, Xor;
    var w := new bv8[KEY_SCHEDULE_BYTES];
    MakeKeySchedule(key, w);
    var prevBlock := iv;
    ghost var end := BLOCK_BYTES * blockCount;
    ghost var c, total := buf[..end], DecryptCbc(w[..], iv, buf[..end]);
    for i := 0 to blockCount
      invariant IsBlock(prevBlock) && w[..] == KeySchedule(key)
      invariant total == buf[..BLOCK_BYTES * i] + DecryptCbc(w[..], prevBlock, c[BLOCK_BYTES * i..])
      invariant buf[BLOCK_BYTES * i..] == old(buf[BLOCK_BYTES * i..])
    {
      var off := BLOCK_BYTES * i;
      ghost var done, prev := buf[..off], prevBlock;
      OldBlock(buf[..], old(buf[..]), off, end);
      var originalBlock := buf[off..off + BLOCK_BYTES];
      InverseTransformECB(w, buf, off);
      XorBlock(buf, off, prevBlock);
      prevBlock := originalBlock;
      assert buf[..off + BLOCK_BYTES] == done + BlockAt(buf, off);
      assert c[off..] == originalBlock + c[off + BLOCK_BYTES..];
      DecryptCbcStep(w[..], total, done, prev, originalBlock, BlockAt(buf, off), c[off + BLOCK_BYTES..]);
    }
    assert c[BLOCK_BYTES * blockCount..] == [];
  }
}
