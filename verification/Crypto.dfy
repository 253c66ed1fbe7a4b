/** The cipher constructions MEGA builds from AES (core/crypto.py), over an abstract block cipher. */
module Crypto {
  import opened Basics
  import opened BigEndian

  type Octets = seq<bv8>
  type Block = b: Octets | |b| == 16 witness seq(16, _ => 0)
  type Words = seq<bv32>
  type Key = k: Octets | |k| == 16 witness seq(16, _ => 0)
  type Nonce = n: Octets | |n| == 8 witness seq(8, _ => 0)
  type MacIv = w: Words | |w| == 2 witness [0, 0]

  datatype CryptoError = UnalignedKeyWrap | BadKeyLength | BadNonceLength | UnalignedOffset | BadFileKey | BadMacLength

  /** One-block encryption and decryption, key first. */
  datatype Aes = Aes(enc: (Octets, Block) -> Block, dec: (Octets, Block) -> Block)

  /** For every key AES is a permutation of 16-byte blocks, and `dec` is its inverse. */
  ghost predicate Lawful(aes: Aes) {
    && (forall k, b :: aes.dec(k, aes.enc(k, b)) == b)
    && (forall k, b :: aes.enc(k, aes.dec(k, b)) == b)
  }

  const ZERO_BLOCK: Block := Zeros(16)

  function Zeros(n: nat): (z: Octets)
    ensures |z| == n
  {
    seq(n, _ => 0)
  }

  /** Bytewise exclusive or of two strings of one length. */
  function Xor(a: Octets, b: Octets): (r: Octets)
    requires |a| <= |b|
    ensures |r| == |a| && forall i :: 0 <= i < |a| ==> r[i] == a[i] ^ b[i]
  {
    seq(|a|, i requires 0 <= i < |a| => a[i] ^ b[i])
  }

  lemma XorTwice(a: Octets, b: Octets)
    requires |a| <= |b|
    ensures Xor(Xor(a, b), b) == a
  {
    forall i | 0 <= i < |a| ensures (a[i] ^ b[i]) ^ b[i] == a[i] {}
  }

  lemma XorInjective(s: Octets, a: Octets, b: Octets)
    requires |s| == |a| == |b| && a != b
    ensures Xor(s, a) != Xor(s, b)
  {
    if Xor(s, a) == Xor(s, b) {
      forall i | 0 <= i < |a| ensures a[i] == b[i] {
        assert Xor(s, a)[i] == s[i] ^ a[i] && Xor(s, b)[i] == s[i] ^ b[i];
        assert s[i] ^ (s[i] ^ a[i]) == a[i] && s[i] ^ (s[i] ^ b[i]) == b[i];
      }
    }
  }

  // ---- Words of 32 bits, most significant byte first

  function Word(b: Octets): bv32
    requires |b| == 4
  {
    ((b[0] as bv32) << 24) | ((b[1] as bv32) << 16) | ((b[2] as bv32) << 8) | (b[3] as bv32)
  }

  function WordBytes(w: bv32): (b: Octets)
    ensures |b| == 4
  {
    [((w >> 24) & 0xff) as bv8, ((w >> 16) & 0xff) as bv8, ((w >> 8) & 0xff) as bv8, (w & 0xff) as bv8]
  }

  /** `bytes_to_a32`, for a string already padded to whole words. */
  function WholeWords(data: Octets): (r: Words)
    requires |data| % 4 == 0
    ensures |r| == |data| / 4
  {
    if data == [] then [] else [Word(data[..4])] + WholeWords(data[4..])
  }

  /** `bytes_to_a32`: pad with zero bytes, then split into words. */
  function BytesToA32(data: Octets): (r: Words)
    ensures |r| == (|data| + 3) / 4
  {
    WholeWords(data + Zeros((4 - |data| % 4) % 4))
  }

  function A32ToBytes(words: Words): (r: Octets)
    ensures |r| == 4 * |words|
  {
    if words == [] then [] else WordBytes(words[0]) + A32ToBytes(words[1..])
  }

  lemma WordOfBytes(w: bv32, b: Octets)
    requires |b| == 4
    ensures Word(WordBytes(w)) == w && WordBytes(Word(b)) == b
  {
  }

  lemma {:induction false} WordsOfBytes(words: Words)
    ensures BytesToA32(A32ToBytes(words)) == words
  {
    var data := A32ToBytes(words);
    assert data + [] == data;
    if words != [] {
      WordOfBytes(words[0], data[..4]);
      WordsOfBytes(words[1..]);
      assert data[..4] == WordBytes(words[0]) && data[4..] == A32ToBytes(words[1..]);
      assert data[4..] + [] == data[4..];
    }
  }

  /** Words and bytes are the same thing up to the zero padding of the last word. */
  lemma {:induction false} BytesOfWords(data: Octets)
    requires |data| % 4 == 0
    ensures A32ToBytes(BytesToA32(data)) == data
  {
    assert data + [] == data;
    if data != [] {
      WordOfBytes(0, data[..4]);
      BytesOfWords(data[4..]);
      assert data[4..] + [] == data[4..];
      assert data == data[..4] + data[4..];
    }
  }

  // ---- Cipher block chaining

  predicate AesKey(key: Octets) { |key| == 16 || |key| == 24 || |key| == 32 }

  function Cbc(aes: Aes, key: Octets, iv: Block, data: Octets): (r: Octets)
    requires |data| % 16 == 0
    ensures |r| == |data|
    decreases |data|
  {
    if data == [] then []
    else
      var c := aes.enc(key, Xor(data[..16], iv));
      c + Cbc(aes, key, c, data[16..])
  }

  function CbcDecrypt(aes: Aes, key: Octets, iv: Block, data: Octets): (r: Octets)
    requires |data| % 16 == 0
    ensures |r| == |data|
    decreases |data|
  {
    if data == [] then []
    else Xor(aes.dec(key, data[..16]), iv) + CbcDecrypt(aes, key, data[..16], data[16..])
  }

  lemma {:induction false} CbcInverse(aes: Aes, key: Octets, iv: Block, data: Octets)
    requires Lawful(aes) && |data| % 16 == 0
    ensures CbcDecrypt(aes, key, iv, Cbc(aes, key, iv, data)) == data
    ensures Cbc(aes, key, iv, CbcDecrypt(aes, key, iv, data)) == data
    decreases |data|
  {
    if data != [] {
      var block: Block := data[..16];
      var c: Block := aes.enc(key, Xor(block, iv));
      var e := Cbc(aes, key, iv, data);
      assert e[..16] == c && e[16..] == Cbc(aes, key, c, data[16..]);
      XorTwice(block, iv);
      CbcInverse(aes, key, c, data[16..]);
      var p: Block := Xor(aes.dec(key, block), iv);
      var d := CbcDecrypt(aes, key, iv, data);
      assert d[..16] == p && d[16..] == CbcDecrypt(aes, key, block, data[16..]);
      XorTwice(aes.dec(key, block), iv);
      CbcInverse(aes, key, block, data[16..]);
      assert data == data[..16] + data[16..];
    }
  }

  // ---- Key wrap: every 16-byte block on its own

  function Wrapped(aes: Aes, key: Octets, data: Octets): (r: Octets)
    requires |data| % 16 == 0
    ensures |r| == |data|
  {
    if data == [] then []
    else Wrapped(aes, key, data[..|data| - 16]) + Cbc(aes, key, ZERO_BLOCK, data[|data| - 16..])
  }

  function Unwrapped(aes: Aes, key: Octets, data: Octets): (r: Octets)
    requires |data| % 16 == 0
    ensures |r| == |data|
  {
    if data == [] then []
    else Unwrapped(aes, key, data[..|data| - 16]) + CbcDecrypt(aes, key, ZERO_BLOCK, data[|data| - 16..])
  }

  /** `aes_key_wrap_decrypt` undoes `aes_key_wrap_encrypt`, and the other way round. */
  lemma {:induction false} KeyWrapInverse(aes: Aes, key: Octets, data: Octets)
    requires Lawful(aes) && |data| % 16 == 0
    ensures Unwrapped(aes, key, Wrapped(aes, key, data)) == data
    ensures Wrapped(aes, key, Unwrapped(aes, key, data)) == data
  {
    if data != [] {
      var n := |data| - 16;
      var w, u := Wrapped(aes, key, data), Unwrapped(aes, key, data);
      assert w[..n] == Wrapped(aes, key, data[..n]) && w[n..] == Cbc(aes, key, ZERO_BLOCK, data[n..]);
      assert u[..n] == Unwrapped(aes, key, data[..n]) && u[n..] == CbcDecrypt(aes, key, ZERO_BLOCK, data[n..]);
      KeyWrapInverse(aes, key, data[..n]);
      CbcInverse(aes, key, ZERO_BLOCK, data[n..]);
      assert data == data[..n] + data[n..];
    }
  }

  /** One iteration of either wrap loop. */
  lemma NextBlock(aes: Aes, key: Octets, data: Octets, i: nat)
    requires i % 16 == 0 && i + 16 <= |data|
    ensures (i + 16) % 16 == 0
    ensures Wrapped(aes, key, data[..i + 16]) == Wrapped(aes, key, data[..i]) + Cbc(aes, key, ZERO_BLOCK, data[i..i + 16])
    ensures Unwrapped(aes, key, data[..i + 16]) == Unwrapped(aes, key, data[..i]) + CbcDecrypt(aes, key, ZERO_BLOCK, data[i..i + 16])
  {
    var d := data[..i + 16];
    assert d[..|d| - 16] == data[..i] && d[|d| - 16..] == data[i..i + 16];
  }

  /** `aes_key_wrap_encrypt`. */
  method KeyWrapEncrypt(aes: Aes, data: Octets, key: Octets) returns (r: Result<Octets, CryptoError>)
    ensures r == if |data| % 16 != 0 then Err(UnalignedKeyWrap)
                 else if data != [] && !AesKey(key) then Err(BadKeyLength)
                 else Ok(Wrapped(aes, key, data))
  {
    if |data| % 16 != 0 { return Err(UnalignedKeyWrap); }
    var out := [];
    var i := 0;
    while i < |data|
      invariant i <= |data| && i % 16 == 0 && out == Wrapped(aes, key, data[..i]) && (i > 0 ==> AesKey(key))
    {
      if !AesKey(key) { return Err(BadKeyLength); }
      NextBlock(aes, key, data, i);
      out := out + Cbc(aes, key, ZERO_BLOCK, data[i..i + 16]);
      i := i + 16;
    }
    assert data[..i] == data;
    r := Ok(out);
  }

  /** `aes_key_wrap_decrypt`. */
  method KeyWrapDecrypt(aes: Aes, data: Octets, key: Octets) returns (r: Result<Octets, CryptoError>)
    ensures r == if |data| % 16 != 0 then Err(UnalignedKeyWrap)
                 else if data != [] && !AesKey(key) then Err(BadKeyLength)
                 else Ok(Unwrapped(aes, key, data))
  {
    if |data| % 16 != 0 { return Err(UnalignedKeyWrap); }
    var out := [];
    var i := 0;
    while i < |data|
      invariant i <= |data| && i % 16 == 0 && out == Unwrapped(aes, key, data[..i]) && (i > 0 ==> AesKey(key))
    {
      if !AesKey(key) { return Err(BadKeyLength); }
      NextBlock(aes, key, data, i);
      out := out + CbcDecrypt(aes, key, ZERO_BLOCK, data[i..i + 16]);
      i := i + 16;
    }
    assert data[..i] == data;
    r := Ok(out);
  }

  // ---- Counter mode (section 6.5 of NIST SP 800-38A): 64-bit nonce, 64-bit block counter

  function CounterBlock(nonce: Nonce, counter: nat): Block
  {
    nonce + seq(8, i requires 0 <= i < 8 => Be(counter, 8)[i] as bv8)
  }

  /** Encryption and decryption alike: consecutive blocks use consecutive counters. */
  function Ctr(aes: Aes, key: Octets, nonce: Nonce, counter: nat, data: Octets): (r: Octets)
    ensures |r| == |data|
    decreases |data|
  {
    if data == [] then []
    else
      var n := Min(16, |data|);
      Xor(data[..n], aes.enc(key, CounterBlock(nonce, counter))) + Ctr(aes, key, nonce, counter + 1, data[n..])
  }

  /** Decrypting what was encrypted at the same counter gives it back. */
  lemma {:induction false} CtrTwice(aes: Aes, key: Octets, nonce: Nonce, counter: nat, data: Octets)
    ensures Ctr(aes, key, nonce, counter, Ctr(aes, key, nonce, counter, data)) == data
    decreases |data|
  {
    if data != [] {
      var n, stream: Block := Min(16, |data|), aes.enc(key, CounterBlock(nonce, counter));
      XorTwice(data[..n], stream);
      var e := Ctr(aes, key, nonce, counter, data);
      assert e[..n] == Xor(data[..n], stream) && e[n..] == Ctr(aes, key, nonce, counter + 1, data[n..]);
      CtrTwice(aes, key, nonce, counter + 1, data[n..]);
      assert data == data[..n] + data[n..];
    }
  }

  lemma CtrFirst(aes: Aes, key: Octets, nonce: Nonce, counter: nat, data: Octets)
    requires |data| >= 16
    ensures Ctr(aes, key, nonce, counter, data)
         == Xor(data[..16], aes.enc(key, CounterBlock(nonce, counter))) + Ctr(aes, key, nonce, counter + 1, data[16..])
  {
  }

  lemma DropFirst(a: Octets, b: Octets)
    requires |a| >= 16
    ensures (a + b)[..16] == a[..16] && (a + b)[16..] == a[16..] + b
  {
  }

  lemma RestAfterFirst(whole: Octets, head: Octets, first: Octets, tail: Octets, more: Octets, rest: Octets)
    requires whole == first + more && more == tail + rest && head == first + tail
    ensures whole == head + rest
  {
  }

  /** One block in front of a stream that splits. */
  lemma CtrSplitStep(aes: Aes, key: Octets, nonce: Nonce, counter: nat, a: Octets, b: Octets, rest: Octets)
    requires |a| >= 16 && Ctr(aes, key, nonce, counter + 1, a[16..] + b) == Ctr(aes, key, nonce, counter + 1, a[16..]) + rest
    ensures Ctr(aes, key, nonce, counter, a + b) == Ctr(aes, key, nonce, counter, a) + rest
  {
    CtrFirst(aes, key, nonce, counter, a);
    CtrFirst(aes, key, nonce, counter, a + b);
    DropFirst(a, b);
    RestAfterFirst(Ctr(aes, key, nonce, counter, a + b), Ctr(aes, key, nonce, counter, a),
                   Xor(a[..16], aes.enc(key, CounterBlock(nonce, counter))), Ctr(aes, key, nonce, counter + 1, a[16..]),
                   Ctr(aes, key, nonce, counter + 1, a[16..] + b), rest);
  }

  lemma {:induction false} CtrSplitBlocks(aes: Aes, key: Octets, nonce: Nonce, counter: nat, blocks: nat, a: Octets, b: Octets)
    requires |a| == 16 * blocks
    ensures Ctr(aes, key, nonce, counter, a + b) == Ctr(aes, key, nonce, counter, a) + Ctr(aes, key, nonce, counter + blocks, b)
    decreases blocks
  {
    if blocks == 0 {
      assert a == [] && a + b == b;
    } else {
      CtrSplitBlocks(aes, key, nonce, counter + 1, blocks - 1, a[16..], b);
      assert counter + 1 + (blocks - 1) == counter + blocks;
      CtrSplitStep(aes, key, nonce, counter, a, b, Ctr(aes, key, nonce, counter + blocks, b));
    }
  }

  /** The stream can be restarted at any block boundary with the counter advanced to match. */
  lemma CtrSplit(aes: Aes, key: Octets, nonce: Nonce, counter: nat, a: Octets, b: Octets)
    requires |a| % 16 == 0
    ensures Ctr(aes, key, nonce, counter, a + b)
         == Ctr(aes, key, nonce, counter, a) + Ctr(aes, key, nonce, counter + |a| / 16, b)
  {
    CtrSplitBlocks(aes, key, nonce, counter, |a| / 16, a, b);
  }

  /** `make_ctr_cipher` applied to data: the two length checks, then the stream from `initial`. */
  function CtrCipher(aes: Aes, key: Octets, nonce: Octets, initial: nat, data: Octets): Result<Octets, CryptoError> {
    if |key| != 16 then Err(BadKeyLength)
    else if |nonce| != 8 then Err(BadNonceLength)
    else Ok(Ctr(aes, key, nonce, initial, data))
  }

  /** `ctr_offset_to_counter`. */
  function CounterOfOffset(offset: nat): Result<nat, CryptoError> {
    if offset % 16 != 0 then Err(UnalignedOffset) else Ok(offset / 16)
  }

  /**
   * Chunked counter mode is whole-file counter mode: ciphering the bytes [from, to) at the counter of
   * their offset gives exactly those bytes of the whole file's ciphertext.
   */
  lemma ChunkedEqualsWhole(aes: Aes, key: Key, nonce: Nonce, file: Octets, from: nat, to: nat)
    requires from <= to <= |file| && from % 16 == 0
    ensures CounterOfOffset(from).Ok?
    ensures CtrCipher(aes, key, nonce, CounterOfOffset(from).value, file[from..to])
         == Ok(Ctr(aes, key, nonce, 0, file)[from..to])
  {
    var whole, rest := Ctr(aes, key, nonce, 0, file), file[from..];
    assert file == file[..from] + rest && file[from..to] == rest[..to - from];
    CtrSplit(aes, key, nonce, 0, file[..from], rest);
    CtrPrefix(aes, key, nonce, from / 16, rest, to - from);
    assert whole[from..to] == Ctr(aes, key, nonce, from / 16, rest)[..to - from];
  }

  lemma {:induction false} CtrPrefix(aes: Aes, key: Octets, nonce: Nonce, counter: nat, data: Octets, n: nat)
    requires n <= |data|
    ensures Ctr(aes, key, nonce, counter, data[..n]) == Ctr(aes, key, nonce, counter, data)[..n]
    decreases n
  {
    if n > 16 {
      assert data[..n][..16] == data[..16] && data[..n][16..] == data[16..][..n - 16];
      CtrPrefix(aes, key, nonce, counter + 1, data[16..], n - 16);
    } else if n > 0 {
      assert data[..n][..n] == data[..n] && data[..n][n..] == [];
    }
  }

  // ---- The 256-bit file key

  datatype FileKey = FileKey(aesKey: Octets, nonce: Octets, macIv: Words)

  /** `unpack_file_key`. */
  function UnpackFileKey(a: Words): Result<FileKey, CryptoError> {
    if |a| != 8 then Err(BadFileKey)
    else Ok(FileKey(A32ToBytes([a[0] ^ a[4], a[1] ^ a[5], a[2] ^ a[6], a[3] ^ a[7]]), A32ToBytes(a[4..6]), a[6..8]))
  }

  /** `pack_file_key`. */
  function PackFileKey(aesKey: Key, nonce: Nonce, macIv: MacIv): (r: Words)
    ensures |r| == 8
  {
    var k, n := BytesToA32(aesKey), BytesToA32(nonce);
    [k[0] ^ n[0], k[1] ^ n[1], k[2] ^ macIv[0], k[3] ^ macIv[1], n[0], n[1], macIv[0], macIv[1]]
  }

  function XorWords(a: Words, b: Words): (r: Words)
    requires |a| == |b|
    ensures |r| == |a| && forall i :: 0 <= i < |a| ==> r[i] == a[i] ^ b[i]
  {
    seq(|a|, i requires 0 <= i < |a| => a[i] ^ b[i])
  }

  lemma XorWordsTwice(a: Words, b: Words)
    requires |a| == |b|
    ensures XorWords(XorWords(a, b), b) == a
  {
    forall i | 0 <= i < |a| ensures (a[i] ^ b[i]) ^ b[i] == a[i] {}
  }

  /** How the eight words split again, for a masked key followed by its mask. */
  lemma MaskedParts(masked: Words, n: Words, m: Words)
    requires |masked| == 4 && |n| == 2 && |m| == 2
    ensures var a := masked + (n + m); a[..4] == masked && a[4..] == n + m && a[4..6] == n && a[6..8] == m
  {
  }

  /** The packed key is the AES key masked by the nonce and MAC words, followed by those words. */
  lemma PackShape(aesKey: Key, nonce: Nonce, macIv: MacIv)
    ensures var mask := BytesToA32(nonce) + macIv;
      PackFileKey(aesKey, nonce, macIv) == XorWords(BytesToA32(aesKey), mask) + mask
  {
  }

  lemma UnpackShape(a: Words)
    requires |a| == 8
    ensures UnpackFileKey(a) == Ok(FileKey(A32ToBytes(XorWords(a[..4], a[4..])), A32ToBytes(a[4..6]), a[6..8]))
  {
    assert XorWords(a[..4], a[4..]) == [a[0] ^ a[4], a[1] ^ a[5], a[2] ^ a[6], a[3] ^ a[7]];
  }

  /** Unpacking a packed key gives back its three parts. */
  lemma UnpackPacked(aesKey: Key, nonce: Nonce, macIv: MacIv)
    ensures UnpackFileKey(PackFileKey(aesKey, nonce, macIv)) == Ok(FileKey(aesKey, nonce, macIv))
  {
    var k, mask, a := BytesToA32(aesKey), BytesToA32(nonce) + macIv, PackFileKey(aesKey, nonce, macIv);
    PackShape(aesKey, nonce, macIv);
    UnpackShape(a);
    XorWordsTwice(k, mask);
    MaskedParts(XorWords(k, mask), BytesToA32(nonce), macIv);
    BytesOfWords(aesKey);
    BytesOfWords(nonce);
  }

  lemma UnpackedParts(a: Words)
    requires |a| == 8
    ensures var k := UnpackFileKey(a).value;
      && |k.aesKey| == 16 && |k.nonce| == 8 && k.macIv == a[6..8]
      && BytesToA32(k.aesKey) == XorWords(a[..4], a[4..]) && BytesToA32(k.nonce) == a[4..6]
  {
    UnpackShape(a);
    WordsOfBytes(XorWords(a[..4], a[4..]));
    WordsOfBytes(a[4..6]);
  }

  lemma EightWords(a: Words)
    requires |a| == 8
    ensures a[4..6] + a[6..8] == a[4..] && a[..4] + a[4..] == a
  {
  }

  /** Packing an unpacked key gives back its eight words: the packing is one-to-one and onto. */
  lemma PackUnpacked(a: Words)
    requires |a| == 8
    ensures var k := UnpackFileKey(a).value;
      |k.aesKey| == 16 && |k.nonce| == 8 && |k.macIv| == 2 && PackFileKey(k.aesKey, k.nonce, k.macIv) == a
  {
    var k := UnpackFileKey(a).value;
    UnpackedParts(a);
    EightWords(a);
    PackShape(k.aesKey, k.nonce, k.macIv);
    XorWordsTwice(a[..4], a[4..]);
  }
}
