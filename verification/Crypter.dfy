/** The version-2 Crypter container (core/crypter.py): a framed, authenticated file format. */
module Crypter {
  import opened Basics
  import opened BigEndian

  const MAGIC: Bytes := [77, 66, 67, 82]
  const VERSION: Byte := 2
  const VERSION_LEGACY: Byte := 1
  const SALT_LEN := 16
  const NONCE_LEN := 12
  const TAG_LEN := 16
  const MAX_CHUNK_SIZE := 0x100_0000
  const HEADER_LEN := 33

  /** AES-256-GCM and scrypt, as functions of their inputs. */
  datatype Primitives = Primitives(
    kdf: (string, Bytes) -> Bytes,
    seal: (Bytes, Bytes, Bytes, Bytes) -> Bytes,          // key, nonce, plaintext, associated data
    open: (Bytes, Bytes, Bytes, Bytes) -> Option<Bytes>)  // key, nonce, ciphertext, associated data

  /** One `encrypt_file` call: its inputs and the random values it drew. */
  datatype Encryption = Encryption(passphrase: string, salt: Bytes, chunkSize: nat, plaintext: Bytes, nonces: seq<Bytes>)

  // ---- The writer's output

  /** The plaintext cut into full chunks, the last one possibly shorter; an empty file is one empty piece. */
  function Pieces(plaintext: Bytes, chunkSize: nat): (r: seq<Bytes>)
    requires chunkSize > 0
    ensures |r| > 0
    decreases |plaintext|
  {
    if |plaintext| <= chunkSize then [plaintext]
    else [plaintext[..chunkSize]] + Pieces(plaintext[chunkSize..], chunkSize)
  }

  ghost predicate Valid(e: Encryption) {
    && |e.salt| == SALT_LEN && 1 <= e.chunkSize <= MAX_CHUNK_SIZE && |e.plaintext| < Pow256(8)
    && |e.nonces| == |Pieces(e.plaintext, e.chunkSize)|
    && forall i :: 0 <= i < |e.nonces| ==> |e.nonces[i]| == NONCE_LEN
  }

  function Header(salt: Bytes, chunkSize: nat, length: nat): Bytes {
    MAGIC + [VERSION] + salt + Be(chunkSize, 4) + Be(length, 8)
  }

  function HeaderOf(e: Encryption): Bytes { Header(e.salt, e.chunkSize, |e.plaintext|) }

  function FlagByte(final: bool): Byte { if final then 1 else 0 }

  function Aad(header: Bytes, index: nat, flag: Byte): Bytes { header + Be(index, 8) + [flag] }

  function KeyOf(p: Primitives, e: Encryption): Bytes { p.kdf(e.passphrase, e.salt) }

  function Last(e: Encryption): nat
    requires e.chunkSize > 0
  {
    |Pieces(e.plaintext, e.chunkSize)| - 1
  }

  function Sealed(p: Primitives, e: Encryption, i: nat): Bytes
    requires e.chunkSize > 0 && i <= Last(e) && i < |e.nonces|
  {
    p.seal(KeyOf(p, e), e.nonces[i], Pieces(e.plaintext, e.chunkSize)[i], Aad(HeaderOf(e), i, FlagByte(i == Last(e))))
  }

  function FrameBytes(flag: Byte, nonce: Bytes, sealed: Bytes): Bytes {
    [flag] + Be(|nonce + sealed|, 4) + (nonce + sealed)
  }

  function Frame(p: Primitives, e: Encryption, i: nat): Bytes
    requires e.chunkSize > 0 && i <= Last(e) && i < |e.nonces|
  {
    FrameBytes(FlagByte(i == Last(e)), e.nonces[i], Sealed(p, e, i))
  }

  /** The frames of chunks i, i + 1, ..., last. */
  function FramesFrom(p: Primitives, e: Encryption, i: nat): Bytes
    requires e.chunkSize > 0 && |e.nonces| == Last(e) + 1 && i <= Last(e)
    decreases Last(e) - i
  {
    Frame(p, e, i) + if i == Last(e) then [] else FramesFrom(p, e, i + 1)
  }

  function Output(p: Primitives, e: Encryption): Bytes
    requires e.chunkSize > 0 && |e.nonces| == Last(e) + 1
  {
    HeaderOf(e) + FramesFrom(p, e, 0)
  }

  // ---- The reader

  datatype CrypterError =
    | TooShort | BadMagic | BadVersion | Legacy | Truncated | BadChunkSize | LengthTooLarge
    | BadFlag | BadChunkLength | NotAuthentic | TrailingData | LengthMismatch

  /** One round of the loop of `_decrypt_v2`: the frame's flag and plaintext, and the bytes after it. */
  function ReadFrame(p: Primitives, key: Bytes, header: Bytes, chunkSize: nat, rest: Bytes, index: nat)
    : (r: Result<(Byte, Bytes, Bytes), CrypterError>)
    ensures r.Ok? ==> |r.value.2| < |rest|
  {
    if rest == [] then Err(Truncated)
    else if rest[0] != 0 && rest[0] != 1 then Err(BadFlag)
    else if |rest| < 5 then Err(Truncated)
    else
      var blen := FromBe(rest[1..5]);
      if blen < NONCE_LEN + TAG_LEN then Err(BadChunkLength)
      else if blen > NONCE_LEN + chunkSize + TAG_LEN then Err(BadChunkLength)
      else if |rest| < 5 + blen then Err(Truncated)
      else match p.open(key, rest[5..17], rest[17..5 + blen], Aad(header, index, rest[0]))
        case None => Err(NotAuthentic)
        case Some(piece) => Ok((rest[0], piece, rest[5 + blen..]))
  }

  /** Puts plaintext already decrypted in front of the rest of the reader's outcome. */
  function Prepend(done: Bytes, r: Result<(Bytes, Bytes), CrypterError>): Result<(Bytes, Bytes), CrypterError> {
    match r
    case Err(error) => Err(error)
    case Ok((more, tail)) => Ok((done + more, tail))
  }

  /** The whole loop from a frame on: the plaintext up to the final frame, and what follows it. */
  function ReadFrames(p: Primitives, key: Bytes, header: Bytes, chunkSize: nat, rest: Bytes, index: nat)
    : Result<(Bytes, Bytes), CrypterError>
    decreases |rest|
  {
    match ReadFrame(p, key, header, chunkSize, rest, index)
    case Err(error) => Err(error)
    case Ok((flag, piece, tail)) =>
      if flag == 1 then Ok((piece, tail))
      else Prepend(piece, ReadFrames(p, key, header, chunkSize, tail, index + 1))
  }

  /** `decrypt_file` on a whole stream, for the version-2 format. */
  function Decrypt(p: Primitives, passphrase: string, stream: Bytes): Result<Bytes, CrypterError> {
    if |stream| < 5 then Err(TooShort)
    else if stream[..4] != MAGIC then Err(BadMagic)
    else if stream[4] == VERSION_LEGACY then Err(Legacy)
    else if stream[4] != VERSION then Err(BadVersion)
    else if |stream| < HEADER_LEN then Err(Truncated)
    else
      var salt, chunkSize, length := stream[5..21], FromBe(stream[21..25]), FromBe(stream[25..33]);
      if chunkSize <= 0 || chunkSize > MAX_CHUNK_SIZE then Err(BadChunkSize)
      else if length > |stream| then Err(LengthTooLarge)
      else match ReadFrames(p, p.kdf(passphrase, salt), stream[..HEADER_LEN], chunkSize, stream[HEADER_LEN..], 0)
        case Err(e) => Err(e)
        case Ok((plaintext, tail)) =>
          if tail != [] then Err(TrailingData)
          else if |plaintext| != length then Err(LengthMismatch)
          else Ok(plaintext)
  }

  // ---- An ideal AEAD

  /** Something `encrypt_file` sealed: chunk i of encryption e. */
  ghost predicate SealedAs(p: Primitives, e: Encryption, i: nat, key: Bytes, nonce: Bytes, sealed: Bytes, aad: Bytes, piece: Bytes) {
    && Valid(e) && i <= Last(e)
    && key == KeyOf(p, e) && nonce == e.nonces[i] && sealed == Sealed(p, e, i)
    && aad == Aad(HeaderOf(e), i, FlagByte(i == Last(e))) && piece == Pieces(e.plaintext, e.chunkSize)[i]
  }

  /**
   * The AEAD opens exactly what was sealed by the encryptions in the log, tags are 16 bytes, and no
   * two encryptions drew the same salt.
   */
  ghost predicate Ideal(p: Primitives, log: set<Encryption>) {
    && (forall k, n, x, a :: |p.seal(k, n, x, a)| == |x| + TAG_LEN)
    && (forall k, n, c, a, x :: p.open(k, n, c, a) == Some(x) <==> exists e, i: nat :: e in log && SealedAs(p, e, i, k, n, c, a, x))
    && (forall e :: e in log ==> Valid(e))
    && (forall e, f :: e in log && f in log && e.salt == f.salt ==> e == f)
  }

  // ---- Associated data names one chunk of one encryption

  lemma {:induction false} PieceCount(plaintext: Bytes, chunkSize: nat)
    requires chunkSize > 0
    ensures |Pieces(plaintext, chunkSize)| <= Max(1, |plaintext|)
    decreases |plaintext|
  {
    if |plaintext| > chunkSize {
      PieceCount(plaintext[chunkSize..], chunkSize);
    }
  }

  /** Headers have one length, so their fields can be read back off them. */
  lemma HeaderFields(salt: Bytes, chunkSize: nat, length: nat)
    requires |salt| == SALT_LEN && chunkSize <= MAX_CHUNK_SIZE && length < Pow256(8)
    ensures var h := Header(salt, chunkSize, length);
      && |h| == HEADER_LEN && h[..4] == MAGIC && h[4] == VERSION && h[5..21] == salt
      && FromBe(h[21..25]) == chunkSize && FromBe(h[25..33]) == length
  {
    var h := Header(salt, chunkSize, length);
    Widths();
    UnpackPack(chunkSize, 4);
    UnpackPack(length, 8);
    assert h[21..25] == Be(chunkSize, 4);
    assert h[25..33] == Be(length, 8);
  }

  lemma AadParts(h: Bytes, i: nat, flag: Byte, h': Bytes, i': nat, flag': Byte)
    requires |h| == |h'| && i < Pow256(8) && i' < Pow256(8) && Aad(h, i, flag) == Aad(h', i', flag')
    ensures h == h' && i == i' && flag == flag'
  {
    var a := Aad(h, i, flag);
    assert a[..|h|] == h && a[|h|..|h| + 8] == Be(i, 8) && a[|h| + 8] == flag;
    assert a[..|h|] == h' && a[|h|..|h| + 8] == Be(i', 8) && a[|h| + 8] == flag';
    PackInjective(i, i', 8);
  }

  /** With distinct salts, an authenticated (header, index, flag) belongs to one chunk only. */
  lemma ChunkOfAad(e: Encryption, i: nat, f: Encryption, j: nat, flag: Byte, flag': Byte)
    requires Valid(e) && Valid(f) && (e.salt == f.salt ==> e == f)
    requires i <= Last(e) && j <= Last(f) && Aad(HeaderOf(e), i, flag) == Aad(HeaderOf(f), j, flag')
    ensures e == f && i == j && flag == flag'
  {
    PieceCount(e.plaintext, e.chunkSize);
    PieceCount(f.plaintext, f.chunkSize);
    Widths();
    HeaderFields(e.salt, e.chunkSize, |e.plaintext|);
    HeaderFields(f.salt, f.chunkSize, |f.plaintext|);
    AadParts(HeaderOf(e), i, flag, HeaderOf(f), j, flag');
  }

  /** Any cipher with 16-byte tags has such an `open`: the laws above do not contradict each other. */
  lemma IdealIsPossible(p: Primitives, log: set<Encryption>)
    requires forall k, n, x, a :: |p.seal(k, n, x, a)| == |x| + TAG_LEN
    requires forall e :: e in log ==> Valid(e)
    requires forall e, f :: e in log && f in log && e.salt == f.salt ==> e == f
    ensures exists q: Primitives :: q.kdf == p.kdf && q.seal == p.seal && Ideal(q, log)
  {
    var q := p.(open := (k, n, c, a) => Unseal(p, log, k, n, c, a));
    forall k, n, c, a, x
      ensures q.open(k, n, c, a) == Some(x) <==> exists e, i: nat :: e in log && SealedAs(q, e, i, k, n, c, a, x)
    {
      forall e, i: nat | e in log && SealedAs(q, e, i, k, n, c, a, x)
        ensures q.open(k, n, c, a) == Some(x)
      {
        assert SealedAs(p, e, i, k, n, c, a, x);
        var y := Unseal(p, log, k, n, c, a).value;
        var f, j: nat :| f in log && SealedAs(p, f, j, k, n, c, a, y);
        ChunkOfAad(e, i, f, j, FlagByte(i == Last(e)), FlagByte(j == Last(f)));
      }
      if q.open(k, n, c, a) == Some(x) {
        var e, i: nat :| e in log && SealedAs(p, e, i, k, n, c, a, x);
        assert SealedAs(q, e, i, k, n, c, a, x);
      }
    }
    assert Ideal(q, log);
  }

  ghost function Unseal(p: Primitives, log: set<Encryption>, k: Bytes, n: Bytes, c: Bytes, a: Bytes): (r: Option<Bytes>)
    ensures r.Some? ==> exists e, i: nat :: e in log && SealedAs(p, e, i, k, n, c, a, r.value)
    ensures r.None? ==> !exists x, e, i: nat :: e in log && SealedAs(p, e, i, k, n, c, a, x)
  {
    if x, e, i: nat :| e in log && SealedAs(p, e, i, k, n, c, a, x) then Some(x) else None
  }

  // ---- What the writer wrote is read back

  function Join(pieces: seq<Bytes>): Bytes {
    if pieces == [] then [] else pieces[0] + Join(pieces[1..])
  }

  lemma {:induction false} JoinPieces(plaintext: Bytes, chunkSize: nat)
    requires chunkSize > 0
    ensures Join(Pieces(plaintext, chunkSize)) == plaintext
    ensures forall i :: 0 <= i < |Pieces(plaintext, chunkSize)| ==> |Pieces(plaintext, chunkSize)[i]| <= chunkSize
    decreases |plaintext|
  {
    var pieces := Pieces(plaintext, chunkSize);
    if |plaintext| <= chunkSize {
      assert pieces[1..] == [];
    } else {
      JoinPieces(plaintext[chunkSize..], chunkSize);
      assert pieces[1..] == Pieces(plaintext[chunkSize..], chunkSize);
    }
  }

  /** The fields `_decrypt_v2` cuts out of a stream that starts with a frame. */
  lemma FrameFields(flag: Byte, nonce: Bytes, sealed: Bytes, tail: Bytes)
    requires |nonce| == NONCE_LEN && |nonce + sealed| < Pow256(4)
    ensures var r, b := FrameBytes(flag, nonce, sealed) + tail, |nonce + sealed|;
      && |r| == 5 + b + |tail| && r[0] == flag && FromBe(r[1..5]) == b
      && r[5..17] == nonce && r[17..5 + b] == sealed && r[5 + b..] == tail
  {
    var r := FrameBytes(flag, nonce, sealed) + tail;
    assert r[1..5] == Be(|nonce + sealed|, 4);
    UnpackPack(|nonce + sealed|, 4);
  }

  /** The AEAD opens chunk i of a logged encryption. */
  lemma OpensSealed(p: Primitives, log: set<Encryption>, e: Encryption, i: nat)
    requires Ideal(p, log) && e in log && i <= Last(e)
    ensures var piece := Pieces(e.plaintext, e.chunkSize)[i];
      && p.open(KeyOf(p, e), e.nonces[i], Sealed(p, e, i), Aad(HeaderOf(e), i, FlagByte(i == Last(e)))) == Some(piece)
      && |Sealed(p, e, i)| == |piece| + TAG_LEN && |piece| <= e.chunkSize
  {
    var piece := Pieces(e.plaintext, e.chunkSize)[i];
    JoinPieces(e.plaintext, e.chunkSize);
    assert SealedAs(p, e, i, KeyOf(p, e), e.nonces[i], Sealed(p, e, i), Aad(HeaderOf(e), i, FlagByte(i == Last(e))), piece);
  }

  /** One frame read off a stream, given what the AEAD says of it. */
  lemma FrameIsRead(p: Primitives, key: Bytes, header: Bytes, chunkSize: nat, flag: Byte, nonce: Bytes, sealed: Bytes,
                    tail: Bytes, index: nat, piece: Bytes)
    requires flag <= 1 && |nonce| == NONCE_LEN && TAG_LEN <= |sealed| <= chunkSize + TAG_LEN && chunkSize <= MAX_CHUNK_SIZE
    requires p.open(key, nonce, sealed, Aad(header, index, flag)) == Some(piece)
    ensures ReadFrames(p, key, header, chunkSize, FrameBytes(flag, nonce, sealed) + tail, index)
      == if flag == 1 then Ok((piece, tail)) else Prepend(piece, ReadFrames(p, key, header, chunkSize, tail, index + 1))
  {
    Widths();
    FrameFields(flag, nonce, sealed, tail);
  }

  /** A writer's frame is read as its piece, and the reader goes on behind it exactly when it is not the last. */
  ghost predicate FirstOf(p: Primitives, e: Encryption, i: nat, tail: Bytes)
    requires Valid(e) && i <= Last(e)
  {
    var piece := Pieces(e.plaintext, e.chunkSize)[i];
    ReadFrames(p, KeyOf(p, e), HeaderOf(e), e.chunkSize, Frame(p, e, i) + tail, i)
    == if i == Last(e) then Ok((piece, tail))
       else Prepend(piece, ReadFrames(p, KeyOf(p, e), HeaderOf(e), e.chunkSize, tail, i + 1))
  }

  /** Accepted frames from i on are the writer's, in order; what follows them is left unread. */
  ghost predicate OnlyWritten(p: Primitives, e: Encryption, i: nat, rest: Bytes)
    requires Valid(e) && i <= Last(e)
  {
    var r := ReadFrames(p, KeyOf(p, e), HeaderOf(e), e.chunkSize, rest, i);
    r.Ok? ==> rest == FramesFrom(p, e, i) + r.value.1
  }

  /** One frame of a logged encryption read, whatever follows it. */
  lemma ReadOneFrame(p: Primitives, log: set<Encryption>, e: Encryption, i: nat, tail: Bytes)
    requires Ideal(p, log) && e in log && i <= Last(e)
    ensures FirstOf(p, e, i, tail)
  {
    OpensSealed(p, log, e, i);
    FrameIsRead(p, KeyOf(p, e), HeaderOf(e), e.chunkSize, FlagByte(i == Last(e)), e.nonces[i], Sealed(p, e, i),
                tail, i, Pieces(e.plaintext, e.chunkSize)[i]);
  }

  lemma {:induction false} ReadBack(p: Primitives, log: set<Encryption>, e: Encryption, i: nat)
    requires Ideal(p, log) && e in log && i <= Last(e)
    ensures ReadFrames(p, KeyOf(p, e), HeaderOf(e), e.chunkSize, FramesFrom(p, e, i), i)
      == Ok((Join(Pieces(e.plaintext, e.chunkSize)[i..]), []))
    decreases Last(e) - i
  {
    var pieces := Pieces(e.plaintext, e.chunkSize);
    assert pieces[i..][1..] == pieces[i + 1..];
    if i == Last(e) {
      ReadOneFrame(p, log, e, i, []);
      assert Frame(p, e, i) + [] == FramesFrom(p, e, i) && pieces[i + 1..] == [];
      assert Join(pieces[i..]) == pieces[i];
    } else {
      ReadOneFrame(p, log, e, i, FramesFrom(p, e, i + 1));
      ReadBack(p, log, e, i + 1);
    }
  }

  /** A container is never shorter than its plaintext, so the declared-length guard spares it. */
  lemma {:induction false} OutputIsLonger(p: Primitives, log: set<Encryption>, e: Encryption, i: nat)
    requires Ideal(p, log) && e in log && i <= Last(e)
    ensures |FramesFrom(p, e, i)| >= |Join(Pieces(e.plaintext, e.chunkSize)[i..])|
    decreases Last(e) - i
  {
    var pieces := Pieces(e.plaintext, e.chunkSize);
    assert pieces[i..][1..] == pieces[i + 1..];
    assert |Frame(p, e, i)| >= |pieces[i]|;
    if i < Last(e) {
      OutputIsLonger(p, log, e, i + 1);
    } else {
      assert pieces[i + 1..] == [];
    }
  }

  // ---- Only what the writer wrote is accepted

  /** Whatever opens was sealed by a logged encryption, under the same header and index. */
  lemma OpensOnlySealed(p: Primitives, log: set<Encryption>, key: Bytes, nonce: Bytes, sealed: Bytes, header: Bytes, index: nat, flag: Byte)
    returns (e: Encryption, i: nat)
    requires Ideal(p, log) && |header| == HEADER_LEN && index < Pow256(8)
    requires p.open(key, nonce, sealed, Aad(header, index, flag)).Some?
    ensures e in log && Valid(e) && i <= Last(e) && key == KeyOf(p, e) && header == HeaderOf(e) && index == i
    ensures flag == FlagByte(i == Last(e)) && nonce == e.nonces[i] && sealed == Sealed(p, e, i)
  {
    var piece := p.open(key, nonce, sealed, Aad(header, index, flag)).value;
    assert p.open(key, nonce, sealed, Aad(header, index, flag)) == Some(piece);
    e, i :| e in log && SealedAs(p, e, i, key, nonce, sealed, Aad(header, index, flag), piece);
    PieceCount(e.plaintext, e.chunkSize);
    Widths();
    HeaderFields(e.salt, e.chunkSize, |e.plaintext|);
    AadParts(header, index, flag, HeaderOf(e), i, FlagByte(i == Last(e)));
  }

  /** An accepted stream starts with well-formed bytes of one frame. */
  lemma CutFrame(p: Primitives, key: Bytes, header: Bytes, chunkSize: nat, rest: Bytes, index: nat)
    returns (flag: Byte, nonce: Bytes, sealed: Bytes)
    requires ReadFrame(p, key, header, chunkSize, rest, index).Ok?
    ensures p.open(key, nonce, sealed, Aad(header, index, flag)).Some?
    ensures FrameBytes(flag, nonce, sealed) <= rest
  {
    var blen := FromBe(rest[1..5]);
    flag, nonce, sealed := rest[0], rest[5..17], rest[17..5 + blen];
    PackUnpack(rest[1..5]);
    assert nonce + sealed == rest[5..5 + blen];
    assert rest[..5 + blen] == [flag] + rest[1..5] + rest[5..5 + blen];
  }

  /** What the first frame of an accepted stream must be. */
  lemma FirstFrameIsGenuine(p: Primitives, log: set<Encryption>, key: Bytes, header: Bytes, chunkSize: nat, rest: Bytes, index: nat)
    returns (e: Encryption, i: nat)
    requires Ideal(p, log) && |header| == HEADER_LEN && index < Pow256(8)
    requires ReadFrame(p, key, header, chunkSize, rest, index).Ok?
    ensures e in log && i <= Last(e) && key == KeyOf(p, e) && header == HeaderOf(e) && index == i
    ensures Frame(p, e, i) <= rest
  {
    var flag, nonce, sealed := CutFrame(p, key, header, chunkSize, rest, index);
    e, i := OpensOnlySealed(p, log, key, nonce, sealed, header, index, flag);
  }

  /** Under the key and header of a logged encryption, an accepted frame i is its frame i. */
  lemma GenuineHead(p: Primitives, log: set<Encryption>, e: Encryption, i: nat, rest: Bytes) returns (tail: Bytes)
    requires Ideal(p, log) && e in log && i <= Last(e)
    requires ReadFrame(p, KeyOf(p, e), HeaderOf(e), e.chunkSize, rest, i).Ok?
    ensures rest == Frame(p, e, i) + tail
    ensures Valid(e) && FirstOf(p, e, i, tail)
  {
    PieceCount(e.plaintext, e.chunkSize);
    Widths();
    HeaderFields(e.salt, e.chunkSize, |e.plaintext|);
    var f, j := FirstFrameIsGenuine(p, log, KeyOf(p, e), HeaderOf(e), e.chunkSize, rest, i);
    HeaderFields(f.salt, f.chunkSize, |f.plaintext|);
    assert f == e;
    tail := rest[|Frame(p, e, i)|..];
    ReadOneFrame(p, log, e, i, tail);
  }

  lemma AcceptedStep(p: Primitives, e: Encryption, i: nat, tail: Bytes)
    requires Valid(e) && i <= Last(e) && FirstOf(p, e, i, tail)
    requires i < Last(e) ==> OnlyWritten(p, e, i + 1, tail)
    ensures OnlyWritten(p, e, i, Frame(p, e, i) + tail)
  {
  }

  lemma {:induction false} AcceptedIsGenuine(p: Primitives, log: set<Encryption>, e: Encryption, i: nat, rest: Bytes)
    requires Ideal(p, log) && e in log && i <= Last(e)
    ensures OnlyWritten(p, e, i, rest)
    decreases Last(e) - i
  {
    if ReadFrame(p, KeyOf(p, e), HeaderOf(e), e.chunkSize, rest, i).Ok? {
      var tail := GenuineHead(p, log, e, i, rest);
      if i < Last(e) {
        AcceptedIsGenuine(p, log, e, i + 1, tail);
      }
      AcceptedStep(p, e, i, tail);
    }
  }

  // ---- Main results

  /** The stream is the output of the logged encryption e, opened with a passphrase that yields its key. */
  ghost predicate Wrote(p: Primitives, log: set<Encryption>, e: Encryption, passphrase: string, stream: Bytes) {
    e in log && Valid(e) && stream == Output(p, e) && p.kdf(passphrase, e.salt) == KeyOf(p, e)
  }

  /** The header fields `decrypt_file` cuts out of a container. */
  lemma OutputFields(e: Encryption, stream: Bytes, frames: Bytes)
    requires Valid(e) && stream == HeaderOf(e) + frames
    ensures |stream| >= HEADER_LEN && stream[..4] == MAGIC && stream[4] == VERSION && stream[5..21] == e.salt
    ensures FromBe(stream[21..25]) == e.chunkSize && FromBe(stream[25..33]) == |e.plaintext|
    ensures stream[..HEADER_LEN] == HeaderOf(e) && stream[HEADER_LEN..] == frames
  {
    var h := HeaderOf(e);
    HeaderFields(e.salt, e.chunkSize, |e.plaintext|);
    assert stream[..4] == h[..4] && stream[4] == h[4] && stream[5..21] == h[5..21];
    assert stream[21..25] == h[21..25] && stream[25..33] == h[25..33];
  }

  lemma GenuineIsAccepted(p: Primitives, log: set<Encryption>, e: Encryption, passphrase: string)
    requires Ideal(p, log) && e in log && p.kdf(passphrase, e.salt) == KeyOf(p, e)
    ensures Decrypt(p, passphrase, Output(p, e)) == Ok(e.plaintext)
  {
    OutputFields(e, Output(p, e), FramesFrom(p, e, 0));
    ReadBack(p, log, e, 0);
    OutputIsLonger(p, log, e, 0);
    JoinPieces(e.plaintext, e.chunkSize);
    var pieces := Pieces(e.plaintext, e.chunkSize);
    assert pieces[0..] == pieces;
  }

  lemma AcceptedWasWritten(p: Primitives, log: set<Encryption>, passphrase: string, stream: Bytes) returns (e: Encryption)
    requires Ideal(p, log) && Decrypt(p, passphrase, stream).Ok?
    ensures Wrote(p, log, e, passphrase, stream) && stream[5..21] == e.salt
  {
    var header, rest := stream[..HEADER_LEN], stream[HEADER_LEN..];
    var salt, chunkSize := stream[5..21], FromBe(stream[21..25]);
    var key := p.kdf(passphrase, salt);
    var i;
    Widths();
    e, i := FirstFrameIsGenuine(p, log, key, header, chunkSize, rest, 0);
    HeaderFields(e.salt, e.chunkSize, |e.plaintext|);
    assert salt == header[5..21] && stream[21..25] == header[21..25];
    AcceptedIsGenuine(p, log, e, 0, rest);
    assert stream == header + rest;
  }

  /**
   * The container accepts a stream exactly when it is, byte for byte, what `encrypt_file` wrote, and then
   * returns the plaintext that went in: every length, every chunk size, every stream.
   */
  lemma AcceptsExactlyItsOutputs(p: Primitives, log: set<Encryption>, passphrase: string, stream: Bytes, plaintext: Bytes)
    requires Ideal(p, log)
    ensures Decrypt(p, passphrase, stream) == Ok(plaintext)
      <==> exists e :: Wrote(p, log, e, passphrase, stream) && plaintext == e.plaintext
  {
    if Decrypt(p, passphrase, stream).Ok? {
      var e := AcceptedWasWritten(p, log, passphrase, stream);
      GenuineIsAccepted(p, log, e, passphrase);
    }
    forall e | Wrote(p, log, e, passphrase, stream)
      ensures Decrypt(p, passphrase, stream) == Ok(e.plaintext)
    {
      GenuineIsAccepted(p, log, e, passphrase);
    }
  }

  /**
   * No edit survives: two accepted streams with the same salt field are the same stream. So truncating,
   * reordering, duplicating, splicing in, appending or editing anything but the salt of an accepted
   * stream makes it rejected.
   */
  lemma EditsAreRejected(p: Primitives, log: set<Encryption>, passphrase: string, stream: Bytes, passphrase': string, edited: Bytes)
    requires Ideal(p, log)
    requires edited != stream && |edited| >= 21 && |stream| >= 21 && edited[5..21] == stream[5..21]
    ensures Decrypt(p, passphrase, stream).Ok? ==> Decrypt(p, passphrase', edited).Err?
  {
    if Decrypt(p, passphrase, stream).Ok? && Decrypt(p, passphrase', edited).Ok? {
      var e := AcceptedWasWritten(p, log, passphrase, stream);
      var f := AcceptedWasWritten(p, log, passphrase', edited);
    }
  }
}
