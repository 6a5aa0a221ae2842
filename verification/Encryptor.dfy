/**
 PKCS#5 padding and the public operations of src/base/encryptor.cc.
 */
module Encryptor {
  import opened AesCbc
  import opened AesKeySchedule
  import opened AesRounds
  import opened Options

  /** Encryptor::Key once its bytes are set, or not yet. */
  datatype Key = Key(bytes: Bytes, iv: Bytes, available: bool) {
    ghost predicate Valid() {
      |bytes| == KEY_BYTES && IsBlock(iv)
    }
  }

  /** GetEncryptedSize: a whole number of blocks, and always more than `size`. */
  function EncryptedSize(size: nat): (r: nat)
    ensures r % BLOCK_BYTES == 0 && size < r <= size + BLOCK_BYTES
  {
    (size / BLOCK_BYTES + 1) * BLOCK_BYTES
  }

  /** Section 6.3 of RFC 5652: k bytes of value k, up to the next block boundary. */
  function Pad(p: Bytes): (s: Bytes)
    ensures |s| == EncryptedSize(|p|) && WholeBlocks(s)
  {
    var n := EncryptedSize(|p|) - |p|;
    p + seq(n, _ => n as bv8)
  }

  /** The checks DecryptArray makes on a deciphered buffer. */
  function Unpad(s: Bytes): (p: Option<Bytes>)
    requires s != []
  {
    var value := s[|s| - 1];
    var n := value as nat;
    if value == 0 || n > BLOCK_BYTES then None
    else if |s| <= n then None
    else if exists i | |s| - n <= i < |s| :: s[i] != value then None
    else Some(s[..|s| - n])
  }

  /** Padding is unique: exactly the padded non-empty messages are accepted, each as its own message. */
  lemma UnpadIffPad(s: Bytes, p: Bytes)
    requires s != [] && WholeBlocks(s)
    ensures Unpad(s) == Some(p) <==> p != [] && s == Pad(p)
  {
    if p != [] && s == Pad(p) {
      UnpadOfPad(p);
    }
    if Unpad(s) == Some(p) {
      PadOfUnpad(s, p);
    }
  }

  /** The padded message is the message, then k bytes of value k, where k fills up the last block of 16. */
  lemma PadBytes(p: Bytes, i: nat)
    requires i < |Pad(p)|
    ensures var k := 16 - |p| % 16; |Pad(p)| == |p| + k && Pad(p)[i] == if i < |p| then p[i] else k as bv8
  {}

  lemma PadOfUnpad(s: Bytes, p: Bytes)
    requires s != [] && WholeBlocks(s) && Unpad(s) == Some(p)
    ensures p != [] && s == Pad(p)
  {
    var n := s[|s| - 1] as nat;
    SizeOfPadded(|s|, n);
    assert p == s[..|s| - n] && n as bv8 == s[|s| - 1];
    var tail := s[|s| - n..];
    assert s == p + tail;
    forall i | 0 <= i < n
      ensures tail[i] == n as bv8
    {
      assert tail[i] == s[|s| - n + i];
    }
    assert tail == seq(n, _ => n as bv8);
  }

  lemma SizeOfPadded(size: nat, n: nat)
    requires size % BLOCK_BYTES == 0 && 1 <= n <= BLOCK_BYTES && n <= size
    ensures EncryptedSize(size - n) == size
  {}

  lemma UnpadOfPad(p: Bytes)
    requires p != []
    ensures Unpad(Pad(p)) == Some(p)
  {
    var s := Pad(p);
    var n := EncryptedSize(|p|) - |p|;
    assert s[|s| - 1] == n as bv8;
    assert forall i | |s| - n <= i < |s| :: s[i] == n as bv8;
  }

  function EncryptBytes(key: Key, p: Bytes): (c: Bytes)
    requires key.Valid()
    ensures |c| == EncryptedSize(|p|)
  {
    EncryptCbc(KeySchedule(key.bytes), key.iv, Pad(p))
  }

  function DecryptBytes(key: Key, c: Bytes): (p: Option<Bytes>)
    requires key.Valid() && c != [] && WholeBlocks(c)
  {
    Unpad(DecryptCbc(KeySchedule(key.bytes), key.iv, c))
  }

  /** A ciphertext opens to `p` exactly when it is what `p` encrypts to. */
  lemma DecryptIffEncrypt(key: Key, c: Bytes, p: Bytes)
    requires key.Valid() && c != [] && WholeBlocks(c)
    ensures DecryptBytes(key, c) == Some(p) <==> p != [] && c == EncryptBytes(key, p)
  {
    hide Unpad, Pad, EncryptCbc, DecryptCbc, KeySchedule;
    var w := KeySchedule(key.bytes);
    UnpadIffPad(DecryptCbc(w, key.iv, c), p);
    EncryptUndoesDecryptCbc(w, key.iv, c);
    DecryptUndoesEncryptCbc(w, key.iv, Pad(p));
  }

  /**
   The ciphertext, block by block: the padded message, chained from the key's initial vector and
   enciphered under the key's schedule.
   */
  lemma CiphertextBlock(key: Key, p: Bytes, i: nat)
    requires key.Valid() && i < |p| / 16 + 1
    ensures hide Pad, EncryptBlock, KeySchedule, EncryptCbc, Xor;
            var c := EncryptBytes(key, p);
            && |c| == |Pad(p)| == 16 * (|p| / 16 + 1)
            && BlockOf(c, i) ==
               EncryptBlock(KeySchedule(key.bytes), Xor(BlockOf(Pad(p), i), if i == 0 then key.iv else BlockOf(c, i - 1)))
  {
    hide Pad, EncryptBlock, KeySchedule, EncryptCbc, Xor;
    EncryptCbcBlock(KeySchedule(key.bytes), key.iv, Pad(p), i);
  }

  /** What a call did to the caller's string, and whether it reported success. */
  datatype Outcome = Outcome(ok: bool, data: Bytes)

  /** EncryptString. The string has grown already when an unavailable key makes it fail. */
  function EncryptedString(key: Key, data: Bytes): Outcome
    requires key.Valid()
  {
    if data == [] then Outcome(false, data)
    else if !key.available then Outcome(false, data + seq(EncryptedSize(|data|) - |data|, _ => 0))
    else Outcome(true, EncryptBytes(key, data))
  }

  /** DecryptString. A string with bad padding is left deciphered. */
  function DecryptedString(key: Key, data: Bytes): Outcome
    requires key.Valid()
  {
    if data == [] || !key.available || |data| % BLOCK_BYTES != 0 then Outcome(false, data)
    else
      match DecryptBytes(key, data)
      case Some(p) => Outcome(true, p)
      case None => Outcome(false, DecryptCbc(KeySchedule(key.bytes), key.iv, data))
  }

  /** What was encrypted under an available key comes back, byte for byte. */
  lemma DecryptUndoesEncryptString(key: Key, data: Bytes)
    requires key.Valid() && key.available && data != []
    ensures EncryptedString(key, data).ok
    ensures DecryptedString(key, EncryptedString(key, data).data) == Outcome(true, data)
  {
    hide EncryptBytes, DecryptBytes, KeySchedule;
    DecryptIffEncrypt(key, EncryptBytes(key, data), data);
  }

  /** Encryption succeeds exactly with an available key and something to encrypt; a failed call keeps the text in front. */
  lemma EncryptsIff(key: Key, data: Bytes)
    requires key.Valid()
    ensures EncryptedString(key, data).ok <==> key.available && data != []
    ensures EncryptedString(key, data).ok ==> EncryptedString(key, data).data == EncryptBytes(key, data)
    ensures !EncryptedString(key, data).ok ==> data <= EncryptedString(key, data).data
  {
    hide EncryptBytes;
  }

  /** Decryption succeeds with `p` exactly on what `p` encrypts to, under an available key. */
  lemma DecryptsIff(key: Key, c: Bytes, p: Bytes)
    requires key.Valid()
    ensures DecryptedString(key, c) == Outcome(true, p) <==> key.available && p != [] && c == EncryptBytes(key, p)
  {
    hide EncryptBytes, DecryptBytes, DecryptCbc, KeySchedule;
    if c != [] && WholeBlocks(c) {
      DecryptIffEncrypt(key, c, p);
    }
  }

  /** A failed decryption leaves the string as it was, or deciphered when only the padding was wrong. */
  lemma FailedDecryption(key: Key, c: Bytes)
    requires key.Valid() && !DecryptedString(key, c).ok
    ensures hide EncryptCbc, KeySchedule;
            var data := DecryptedString(key, c).data;
            if key.available && c != [] && |c| % 16 == 0
            then WholeBlocks(data) && EncryptCbc(KeySchedule(key.bytes), key.iv, data) == c
            else data == c
  {
    hide EncryptCbc, DecryptCbc, KeySchedule, Unpad;
    if key.available && c != [] && |c| % 16 == 0 {
      EncryptUndoesDecryptCbc(KeySchedule(key.bytes), key.iv, c);
    }
  }

  /** Only encryptions are accepted: whatever opens re-encrypts to the same ciphertext. */
  lemma EncryptUndoesDecryptString(key: Key, c: Bytes)
    requires key.Valid() && DecryptedString(key, c).ok
    ensures EncryptedString(key, DecryptedString(key, c).data) == Outcome(true, c)
  {
    hide EncryptBytes, DecryptBytes, KeySchedule;
    DecryptIffEncrypt(key, c, DecryptedString(key, c).data);
  }

  method EncryptArray(key: Key, buf: array<bv8>, bufSize: nat) returns (ok: bool, newSize: nat)
    requires key.Valid() && EncryptedSize(bufSize) <= buf.Length
    modifies buf
    ensures ok == (key.available && bufSize != 0)
    ensures ok ==> newSize == EncryptedSize(bufSize) && buf[newSize..] == old(buf[newSize..])
    ensures ok ==> buf[..newSize] == EncryptBytes(key, old(buf[..bufSize]))
    ensures !ok ==> newSize == bufSize && buf[..] == old(buf[..])
  {
    hide EncryptCbc, KeySchedule;
    if !key.available || bufSize == 0 {
      return false, bufSize;
    }
    var encSize := EncryptedSize(bufSize);
    var paddingSize := encSize - bufSize;
    var paddingValue := paddingSize as bv8;
    for i := bufSize to encSize
      invariant buf[..bufSize] == old(buf[..bufSize]) && buf[encSize..] == old(buf[encSize..])
      invariant forall j | bufSize <= j < i :: buf[j] == paddingValue
    {
      buf[i] := paddingValue;
    }
    assert buf[..encSize] == Pad(old(buf[..bufSize]));
    TransformCBC(key.bytes, key.iv, buf, encSize / BLOCK_BYTES);
    return true, encSize;
  }

  method DecryptArray(key: Key, buf: array<bv8>, bufSize: nat) returns (ok: bool, newSize: nat)
    requires key.Valid() && bufSize <= buf.Length
    modifies buf
    ensures var was := old(buf[..bufSize]);
            if key.available && was != [] && WholeBlocks(was) then
              && buf[..bufSize] == DecryptCbc(KeySchedule(key.bytes), key.iv, was)
              && ok == DecryptBytes(key, was).Some?
              && (if ok then newSize <= bufSize && buf[..newSize] == DecryptBytes(key, was).value else newSize == bufSize)
            else !ok && newSize == bufSize && buf[..bufSize] == was
    ensures buf[bufSize..] == old(buf[bufSize..])
  {
    hide DecryptCbc, KeySchedule;
    if !key.available || bufSize == 0 {
      return false, bufSize;
    }
    if bufSize < BLOCK_BYTES || bufSize % BLOCK_BYTES != 0 {
      return false, bufSize;
    }
    InverseTransformCBC(key.bytes, key.iv, buf, bufSize / BLOCK_BYTES);
    assert BLOCK_BYTES * (bufSize / BLOCK_BYTES) == bufSize;
    ghost var s := buf[..bufSize];
    var paddingValue := buf[bufSize - 1];
    var paddingSize := paddingValue as nat;
    if paddingValue == 0 || paddingSize > BLOCK_BYTES {
      return false, bufSize;
    }
    if bufSize <= paddingSize {
      return false, bufSize;
    }
    for i := bufSize - paddingSize to bufSize
      invariant forall j | bufSize - paddingSize <= j < i :: s[j] == paddingValue
    {
      if buf[i] != paddingValue {
        assert s[i] != paddingValue;
        return false, bufSize;
      }
    }
    return true, bufSize - paddingSize;
  }

  method EncryptString(key: Key, data: Bytes) returns (r: Outcome)
    requires key.Valid()
    ensures r == EncryptedString(key, data)
  {
    hide EncryptBytes;
    if data == [] {
      return Outcome(false, data);
    }
    var size := EncryptedSize(|data|);
    var buf := new bv8[size](i requires 0 <= i < size => if i < |data| then data[i] else 0);
    assert buf[..|data|] == data;
    var ok, newSize := EncryptArray(key, buf, |data|);
    return Outcome(ok, buf[..]);
  }

  method DecryptString(key: Key, data: Bytes) returns (r: Outcome)
    requires key.Valid()
    ensures r == DecryptedString(key, data)
  {
    hide DecryptBytes, DecryptCbc, KeySchedule;
    if data == [] {
      return Outcome(false, data);
    }
    var buf := new bv8[|data|](i requires 0 <= i < |data| => data[i]);
    assert buf[..|data|] == data;
    var ok, newSize := DecryptArray(key, buf, |data|);
    if !ok {
      return Outcome(false, buf[..]);
    }
    return Outcome(true, buf[..newSize]);
  }
}
