/** The loops of core/crypter.py over real file cursors, proved against the functions of module Crypter. */
module CrypterFiles {
  import opened Basics
  import opened BigEndian
  import opened Crypter

  /** An input file opened for binary reading. */
  class Reader {
    const data: Bytes
    var pos: nat

    ghost predicate Valid()
      reads this
    {
      pos <= |data|
    }

    ghost function Rest(): Bytes
      reads this
      requires Valid()
    {
      data[pos..]
    }

    constructor (data: Bytes)
      ensures Valid() && this.data == data && pos == 0
    {
      this.data := data;
      pos := 0;
    }

    /** `fin.read(n)`: up to n bytes, fewer only at the end of the file. */
    method Read(n: nat) returns (bytes: Bytes)
      requires Valid()
      modifies this
      ensures Valid() && bytes + Rest() == old(Rest()) && |bytes| == Min(n, |old(Rest())|)
    {
      var end := Min(pos + n, |data|);
      bytes := data[pos..end];
      pos := end;
    }

    /** `_read_exact`. */
    method ReadExact(n: nat) returns (r: Result<Bytes, CrypterError>)
      requires Valid()
      modifies this
      ensures Valid() && (r.Err? <==> |old(Rest())| < n)
      ensures r.Err? ==> r.error == Truncated
      ensures r.Ok? ==> |r.value| == n && r.value + Rest() == old(Rest())
    {
      var bytes := Read(n);
      r := if |bytes| < n then Err(Truncated) else Ok(bytes);
    }
  }

  /** The file an operation produces; None when it does not exist. Only the final rename changes it. */
  class Destination {
    var contents: Option<Bytes>

    constructor (contents: Option<Bytes>)
      ensures this.contents == contents
    {
      this.contents := contents;
    }
  }

  // ---- Encryption

  /** The call `encrypt_file` makes when the i-th nonce drawn is draw(i). */
  function Call(passphrase: string, salt: Bytes, chunkSize: nat, plaintext: Bytes, draw: nat -> Bytes): (e: Encryption)
    requires chunkSize > 0
    ensures |e.nonces| == |Pieces(plaintext, chunkSize)|
  {
    Encryption(passphrase, salt, chunkSize, plaintext, seq(|Pieces(plaintext, chunkSize)|, i requires 0 <= i => draw(i)))
  }

  /** The read-ahead loop holds piece i in `prev`, with `done` written before it and `rest` still unread. */
  ghost predicate Ahead(plaintext: Bytes, chunkSize: nat, i: nat, done: Bytes, prev: Bytes, rest: Bytes) {
    && plaintext == done + prev + rest && |done| == i * chunkSize
    && |prev| <= chunkSize && (rest != [] ==> |prev| == chunkSize) && (i > 0 ==> prev != [])
  }

  lemma {:induction false} PiecesFrom(plaintext: Bytes, chunkSize: nat, i: nat, done: Bytes, prev: Bytes, rest: Bytes)
    requires chunkSize > 0 && Ahead(plaintext, chunkSize, i, done, prev, rest)
    ensures var pieces := Pieces(plaintext, chunkSize); i < |pieces| && pieces[i] == prev && (i == |pieces| - 1 <==> rest == [])
    decreases i
  {
    var pieces := Pieces(plaintext, chunkSize);
    if i == 0 {
      assert rest == [] ==> plaintext == prev;
      assert rest != [] ==> plaintext[..chunkSize] == prev;
    } else {
      assert |done| == (i - 1) * chunkSize + chunkSize;
      assert plaintext[chunkSize..] == done[chunkSize..] + prev + rest;
      PiecesFrom(plaintext[chunkSize..], chunkSize, i - 1, done[chunkSize..], prev, rest);
      assert pieces[1..] == Pieces(plaintext[chunkSize..], chunkSize);
    }
  }

  lemma OneAhead(plaintext: Bytes, chunkSize: nat, i: nat, done: Bytes, prev: Bytes, rest: Bytes, next: Bytes, rest': Bytes)
    requires chunkSize > 0 && Ahead(plaintext, chunkSize, i, done, prev, rest)
    requires rest == next + rest' && next != [] && |next| == Min(chunkSize, |rest|)
    ensures Ahead(plaintext, chunkSize, i + 1, done + prev, next, rest')
  {
    assert |done + prev| == i * chunkSize + chunkSize == (i + 1) * chunkSize;
    assert done + prev + rest == done + prev + next + rest';
  }

  /** `_write_chunk`: the bytes one chunk adds to the output. */
  function WriteChunk(p: Primitives, key: Bytes, header: Bytes, index: nat, final: bool, plaintext: Bytes, nonce: Bytes): Bytes {
    var block := nonce + p.seal(key, nonce, plaintext, Aad(header, index, FlagByte(final)));
    [FlagByte(final)] + Be(|block|, 4) + block
  }

  /** Writing chunk i's frame turns "output so far plus frames from i" into "plus frames from i + 1". */
  lemma FrameWritten(p: Primitives, e: Encryption, i: nat, fout: Bytes)
    requires e.chunkSize > 0 && |e.nonces| == Last(e) + 1 && i <= Last(e)
    ensures var piece := Pieces(e.plaintext, e.chunkSize)[i];
      var frame := WriteChunk(p, KeyOf(p, e), HeaderOf(e), i, i == Last(e), piece, e.nonces[i]);
      fout + FramesFrom(p, e, i) == fout + frame + if i == Last(e) then [] else FramesFrom(p, e, i + 1)
  {
    assert WriteChunk(p, KeyOf(p, e), HeaderOf(e), i, i == Last(e), Pieces(e.plaintext, e.chunkSize)[i], e.nonces[i]) == Frame(p, e, i);
  }

  /** The read-ahead loop of `encrypt_file`, which learns from the next read whether a chunk is the last one. */
  method WriteChunks(p: Primitives, src: Reader, key: Bytes, header: Bytes, chunkSize: nat, draw: nat -> Bytes, ghost e: Encryption)
    returns (fout: Bytes)
    requires src.Valid() && src.pos == 0 && chunkSize > 0
    requires e == Call(e.passphrase, e.salt, chunkSize, src.data, draw) && key == KeyOf(p, e) && header == HeaderOf(e)
    modifies src
    ensures fout == Output(p, e)
  {
    fout := header;
    var index := 0;
    ghost var done: Bytes := [];
    var prev := src.Read(chunkSize);
    assert src.data == done + prev + src.Rest();
    PiecesFrom(src.data, chunkSize, 0, done, prev, src.Rest());
    if prev == [] {
      FrameWritten(p, e, 0, fout);
      return fout + WriteChunk(p, key, header, 0, true, [], draw(0));
    }
    while true
      invariant src.Valid() && Ahead(src.data, chunkSize, index, done, prev, src.Rest()) && prev != []
      invariant index <= Last(e) && fout + FramesFrom(p, e, index) == Output(p, e)
      decreases |src.Rest()|
    {
      ghost var rest := src.Rest();
      PiecesFrom(src.data, chunkSize, index, done, prev, rest);
      FrameWritten(p, e, index, fout);
      var next := src.Read(chunkSize);
      var final := next == [];
      fout := fout + WriteChunk(p, key, header, index, final, prev, draw(index));
      if final {
        return;
      }
      OneAhead(src.data, chunkSize, index, done, prev, rest, next, src.Rest());
      done := done + prev;
      index := index + 1;
      prev := next;
    }
  }

  /** `encrypt_file`: the destination is replaced once, by the whole container. */
  method EncryptFile(p: Primitives, src: Reader, dst: Destination, passphrase: string, chunkSize: int, salt: Bytes, draw: nat -> Bytes)
    returns (r: Result<(), CrypterError>)
    requires src.Valid() && src.pos == 0
    modifies src, dst
    ensures r == if chunkSize <= 0 || chunkSize > MAX_CHUNK_SIZE then Err(BadChunkSize) else Ok(())
    ensures r.Err? ==> dst.contents == old(dst.contents)
    ensures r.Ok? ==> dst.contents == Some(Output(p, Call(passphrase, salt, chunkSize, src.data, draw)))
  {
    if chunkSize <= 0 || chunkSize > MAX_CHUNK_SIZE {
      return Err(BadChunkSize);
    }
    var key := p.kdf(passphrase, salt);
    var fout := WriteChunks(p, src, key, Header(salt, chunkSize, |src.data|), chunkSize, draw,
                            Call(passphrase, salt, chunkSize, src.data, draw));
    dst.contents := Some(fout);
    r := Ok(());
  }

  // ---- Decryption

  /** The header's fields behind the prefix, read one after the other. */
  method ReadHeader(src: Reader, prefix: Bytes) returns (r: Result<(Bytes, Bytes, Bytes), CrypterError>)
    requires src.Valid() && |prefix| == 5 && prefix + src.Rest() == src.data
    modifies src
    ensures src.Valid()
    ensures r.Err? ==> r.error == Truncated && |src.data| < HEADER_LEN
    ensures r.Ok? ==> var (salt, size, length) := r.value;
      && |salt| == SALT_LEN && |size| == 4 && |length| == 8
      && src.data == prefix + salt + size + length + src.Rest()
  {
    var salt := src.ReadExact(SALT_LEN);
    if salt.Err? { return Err(salt.error); }
    assert src.data == prefix + salt.value + src.Rest();
    var size := src.ReadExact(4);
    if size.Err? { return Err(size.error); }
    assert src.data == prefix + salt.value + size.value + src.Rest();
    var length := src.ReadExact(8);
    if length.Err? { return Err(length.error); }
    assert src.data == prefix + salt.value + size.value + length.value + src.Rest();
    r := Ok((salt.value, size.value, length.value));
  }

  /** `_decrypt_v2` after the prefix: nothing reaches the destination unless every check passed. */
  method DecryptV2(p: Primitives, src: Reader, dst: Destination, passphrase: string, prefix: Bytes)
    returns (r: Result<(), CrypterError>)
    requires src.Valid() && |prefix| == 5 && prefix + src.Rest() == src.data && prefix == MAGIC + [VERSION]
    modifies src, dst
    ensures var want := Decrypt(p, passphrase, src.data);
      && r == (match want case Err(error) => Err(error) case Ok(_) => Ok(()))
      && dst.contents == if want.Ok? then Some(want.value) else old(dst.contents)
  {
    assert src.data[..4] == MAGIC && src.data[4] == VERSION;
    var fields := ReadHeader(src, prefix);
    if fields.Err? { return Err(fields.error); }
    var (salt, size, length) := fields.value;
    var header := prefix + salt + size + length;
    HeaderSlices(src.data, prefix, salt, size, length, src.Rest());
    var chunkSize, originalLength := FromBe(size), FromBe(length);
    if chunkSize <= 0 || chunkSize > MAX_CHUNK_SIZE { return Err(BadChunkSize); }
    if originalLength > |src.data| { return Err(LengthTooLarge); }
    var key := p.kdf(passphrase, salt);
    var plaintext := ReadAllFrames(p, src, key, header, chunkSize);
    if plaintext.Err? { return Err(plaintext.error); }
    var trailing := src.Read(1);
    if trailing != [] { return Err(TrailingData); }
    if |plaintext.value| != originalLength { return Err(LengthMismatch); }
    dst.contents := Some(plaintext.value);
    r := Ok(());
  }

  lemma HeaderSlices(data: Bytes, prefix: Bytes, salt: Bytes, size: Bytes, length: Bytes, body: Bytes)
    requires |prefix| == 5 && |salt| == 16 && |size| == 4 && |length| == 8
    requires data == prefix + salt + size + length + body
    ensures |data| >= HEADER_LEN && data[..5] == prefix && data[5..21] == salt && data[21..25] == size
    ensures data[25..33] == length && data[..33] == prefix + salt + size + length && data[33..] == body
  {
  }

  /** One round of the loop: the source's reads, in order, are the cuts `ReadFrame` makes. */
  method NextFrame(p: Primitives, src: Reader, key: Bytes, header: Bytes, chunkSize: nat, index: nat)
    returns (r: Result<(Byte, Bytes), CrypterError>)
    requires src.Valid()
    modifies src
    ensures src.Valid()
    ensures match ReadFrame(p, key, header, chunkSize, old(src.Rest()), index)
      case Err(error) => r == Err(error)
      case Ok((flag, piece, tail)) => r == Ok((flag, piece)) && src.Rest() == tail
  {
    ghost var rest := src.Rest();
    var flagByte := src.Read(1);
    if flagByte == [] { return Err(Truncated); }
    var flag := flagByte[0];
    if flag != 0 && flag != 1 { return Err(BadFlag); }
    ghost var afterFlag := src.Rest();
    var prefix := src.ReadExact(4);
    if prefix.Err? { return Err(prefix.error); }
    assert rest[1..] == afterFlag && rest[1..5] == prefix.value;
    var blen := FromBe(prefix.value);
    if blen < NONCE_LEN + TAG_LEN { return Err(BadChunkLength); }
    if blen > NONCE_LEN + chunkSize + TAG_LEN { return Err(BadChunkLength); }
    var block := src.ReadExact(blen);
    if block.Err? { return Err(block.error); }
    FrameSlices(rest, flag, prefix.value, block.value, src.Rest());
    var piece := p.open(key, block.value[..NONCE_LEN], block.value[NONCE_LEN..], Aad(header, index, flag));
    r := if piece.None? then Err(NotAuthentic) else Ok((flag, piece.value));
  }

  /** The frame loop: what it accumulates and leaves unread is what `ReadFrames` says. */
  method ReadAllFrames(p: Primitives, src: Reader, key: Bytes, header: Bytes, chunkSize: nat)
    returns (r: Result<Bytes, CrypterError>)
    requires src.Valid()
    modifies src
    ensures src.Valid()
    ensures match ReadFrames(p, key, header, chunkSize, old(src.Rest()), 0)
      case Err(error) => r == Err(error)
      case Ok((plaintext, tail)) => r == Ok(plaintext) && src.Rest() == tail
  {
    ghost var want := ReadFrames(p, key, header, chunkSize, src.Rest(), 0);
    PrependTwice([], [], want);
    var decrypted: Bytes := [];
    var index := 0;
    while true
      invariant src.Valid()
      invariant want == Prepend(decrypted, ReadFrames(p, key, header, chunkSize, src.Rest(), index))
      decreases |src.Rest()|
    {
      var frame := NextFrame(p, src, key, header, chunkSize, index);
      if frame.Err? { return Err(frame.error); }
      var (flag, piece) := frame.value;
      PrependTwice(decrypted, piece, ReadFrames(p, key, header, chunkSize, src.Rest(), index + 1));
      decrypted := decrypted + piece;
      index := index + 1;
      if flag == 1 {
        return Ok(decrypted);
      }
    }
  }

  lemma FrameSlices(rest: Bytes, flag: Byte, prefix: Bytes, block: Bytes, tail: Bytes)
    requires |prefix| == 4 && |block| >= NONCE_LEN && rest == [flag] + prefix + (block + tail)
    ensures |rest| >= 5 + |block| && rest[5..17] == block[..NONCE_LEN]
    ensures rest[17..5 + |block|] == block[NONCE_LEN..] && rest[5 + |block|..] == tail
  {
  }

  lemma PrependTwice(a: Bytes, b: Bytes, r: Result<(Bytes, Bytes), CrypterError>)
    ensures Prepend([], r) == r && Prepend(a, Prepend(b, r)) == Prepend(a + b, r)
  {
    if r.Ok? {
      assert [] + r.value.0 == r.value.0 && a + (b + r.value.0) == a + b + r.value.0;
    }
  }

  /** `decrypt_file`; the version-1 branch is outside the model and returns Legacy. */
  method DecryptFile(p: Primitives, src: Reader, dst: Destination, passphrase: string) returns (r: Result<(), CrypterError>)
    requires src.Valid() && src.pos == 0
    modifies src, dst
    ensures var want := Decrypt(p, passphrase, src.data);
      && r == (match want case Err(error) => Err(error) case Ok(_) => Ok(()))
      && dst.contents == if want.Ok? then Some(want.value) else old(dst.contents)
  {
    var prefix := src.Read(5);
    if |prefix| < 5 { return Err(TooShort); }
    assert src.data == prefix + src.Rest();
    assert prefix == src.data[..5] && prefix[..4] == src.data[..4] && prefix[4] == src.data[4];
    if prefix[..4] != MAGIC { return Err(BadMagic); }
    if prefix[4] == VERSION_LEGACY { return Err(Legacy); }
    if prefix[4] != VERSION { return Err(BadVersion); }
    assert prefix == prefix[..4] + [prefix[4]];
    r := DecryptV2(p, src, dst, passphrase, prefix);
  }
}
