/** Serving a byte range of an encrypted file (streaming/server.py). */
module Streaming {
  import opened Basics
  import opened Crypto

  // ---- Range parsing (byte ranges, section 14.1.2 of RFC 9110)

  datatype RangeError = Malformed | Unsatisfiable

  datatype Range = Range(start: int, end: int, partial: bool)

  /** The position of the first '-', or the length. */
  function Dash(s: string): (k: nat)
    ensures k <= |s| && '-' !in s[..k] && (k < |s| ==> s[k] == '-')
  {
    if s == [] || s[0] == '-' then 0
    else
      var k := Dash(s[1..]);
      assert s[..k + 1] == [s[0]] + s[1..][..k];
      k + 1
  }

  const UNIT: string := "bytes="

  /** `_parse_range`, for whatever strings the language's integer parser accepts. */
  function ParseRange(header: string, size: int, toInt: string -> Option<int>): Result<Range, RangeError> {
    if header == "" then Ok(Range(0, size - 1, false))
    else if !(UNIT <= header) then Err(Malformed)
    else
      var spec := header[|UNIT|..];
      var dash := Dash(spec);
      if ',' in spec then Err(Malformed)
      else if dash == |spec| then Err(Malformed)
      else
        var left, right := spec[..dash], spec[dash + 1..];
        if left != "" then
          if toInt(left).None? || (right != "" && toInt(right).None?) then Err(Malformed)
          else CheckRange(toInt(left).value, if right != "" then toInt(right).value else size - 1, size)
        else if toInt(right).None? then Err(Malformed)
        else if toInt(right).value <= 0 then Err(Unsatisfiable)
        else CheckRange(Max(0, size - toInt(right).value), size - 1, size)
  }

  function CheckRange(start: int, end: int, size: int): Result<Range, RangeError> {
    if start < 0 || end < start || start >= size then Err(Unsatisfiable) else Ok(Range(start, Min(end, size - 1), true))
  }

  /** Every accepted header, of a non-empty file, names bytes that exist. */
  lemma AcceptedRangeExists(header: string, size: int, toInt: string -> Option<int>)
    requires size > 0 && ParseRange(header, size, toInt).Ok?
    ensures var r := ParseRange(header, size, toInt).value; 0 <= r.start <= r.end < size
  {
    if header != "" {
      var spec := header[|UNIT|..];
      var dash := Dash(spec);
      var left, right := spec[..dash], spec[dash + 1..];
      assert left != "" ==> toInt(left).Some?;
    }
  }

  function Digit(d: nat): char
    requires d < 10
  {
    '0' + d as char
  }

  function Decimal(n: nat): (s: string)
    ensures s != "" && '-' !in s && ',' !in s
  {
    if n < 10 then [Digit(n)] else Decimal(n / 10) + [Digit(n % 10)]
  }

  ghost predicate ReadsDecimals(toInt: string -> Option<int>) { forall n: nat :: toInt(Decimal(n)) == Some(n) }

  /** What the header asks for, as the standard defines its three forms. */
  datatype Spec = Closed(first: nat, last: nat) | Open(first: nat) | Suffix(length: nat)

  function Print(s: Spec): string {
    UNIT + match s
      case Closed(first, last) => Decimal(first) + "-" + Decimal(last)
      case Open(first) => Decimal(first) + "-" + ""
      case Suffix(length) => "" + "-" + Decimal(length)
  }

  /** The bytes of the file the standard says a range selects. */
  predicate Selects(s: Spec, size: nat, b: nat) {
    b < size && match s
      case Closed(first, last) => first <= b <= last
      case Open(first) => first <= b
      case Suffix(length) => b >= size - length
  }

  lemma {:induction false} SplitAtDash(left: string, right: string)
    requires '-' !in left
    ensures var spec := left + "-" + right; Dash(spec) == |left| && spec[..|left|] == left && spec[|left| + 1..] == right
  {
    var spec := left + "-" + right;
    if left != "" {
      SplitAtDash(left[1..], right);
      assert spec[1..] == left[1..] + "-" + right;
    }
  }

  lemma HeaderParts(left: string, right: string)
    requires '-' !in left && ',' !in left && ',' !in right
    ensures var header := UNIT + (left + "-" + right); var spec := header[|UNIT|..];
      && header != "" && UNIT <= header && ',' !in spec
      && Dash(spec) == |left| < |spec| && spec[..|left|] == left && spec[|left| + 1..] == right
  {
    var header := UNIT + (left + "-" + right);
    assert header[|UNIT|..] == left + "-" + right;
    SplitAtDash(left, right);
  }

  /** Each of the three forms is parsed to exactly the bytes it selects, and refused when it selects none. */
  lemma RangeMeansWhatItSays(s: Spec, size: nat, toInt: string -> Option<int>, b: nat)
    requires size > 0 && ReadsDecimals(toInt)
    ensures var r := ParseRange(Print(s), size, toInt);
      if r.Ok? then r.value.partial && (r.value.start <= b <= r.value.end <==> Selects(s, size, b))
      else r == Err(Unsatisfiable) && !Selects(s, size, b)
  {
    match s
    case Closed(first, last) => HeaderParts(Decimal(first), Decimal(last));
    case Open(first) => HeaderParts(Decimal(first), "");
    case Suffix(length) => HeaderParts("", Decimal(length));
  }

  // ---- The body

  /** The keystream byte at a byte position of the file. */
  function KeyByte(aes: Aes, key: Octets, nonce: Nonce, position: nat): bv8
  {
    aes.enc(key, CounterBlock(nonce, position / 16))[position % 16]
  }

  /** Counter mode, byte by byte. */
  lemma {:induction false} CtrAt(aes: Aes, key: Octets, nonce: Nonce, counter: nat, data: Octets, i: nat)
    requires i < |data|
    ensures Ctr(aes, key, nonce, counter, data)[i] == data[i] ^ KeyByte(aes, key, nonce, 16 * counter + i)
    decreases |data|
  {
    if i < 16 {
      assert (16 * counter + i) / 16 == counter && (16 * counter + i) % 16 == i;
    } else {
      CtrAt(aes, key, nonce, counter + 1, data[16..], i - 16);
      assert 16 * (counter + 1) + (i - 16) == 16 * counter + i;
    }
  }

  /** A stateful counter-mode cipher: each call goes on where the last one stopped, at any byte. */
  class CtrStream {
    const aes: Aes
    const key: Octets
    const nonce: Nonce
    var position: nat

    constructor (aes: Aes, key: Octets, nonce: Nonce, initial: nat)
      ensures this.aes == aes && this.key == key && this.nonce == nonce && position == 16 * initial
    {
      this.aes, this.key, this.nonce := aes, key, nonce;
      position := 16 * initial;
    }

    method Decrypt(block: Octets) returns (plain: Octets)
      modifies this
      ensures position == old(position) + |block| && |plain| == |block|
      ensures forall i :: 0 <= i < |block| ==> plain[i] == block[i] ^ KeyByte(aes, key, nonce, old(position) + i)
    {
      var from := position;
      plain := seq(|block|, i requires 0 <= i < |block| => block[i] ^ KeyByte(aes, key, nonce, from + i));
      position := position + |block|;
    }
  }

  /** The client's end of the connection. */
  class Client {
    var received: Octets

    constructor ()
      ensures received == []
    {
      received := [];
    }

    method Write(bytes: Octets)
      modifies this
      ensures received == old(received) + bytes
    {
      received := received + bytes;
    }
  }

  function Concat(blocks: seq<Octets>): Octets {
    if blocks == [] then [] else Concat(blocks[..|blocks| - 1]) + blocks[|blocks| - 1]
  }

  lemma {:induction false} ConcatGrows(blocks: seq<Octets>, k: nat)
    requires k <= |blocks|
    ensures Concat(blocks[..k]) <= Concat(blocks)
  {
    if k < |blocks| {
      ConcatGrows(blocks[..|blocks| - 1], k);
      assert blocks[..|blocks| - 1][..k] == blocks[..k];
    } else {
      assert blocks[..k] == blocks;
    }
  }

  /** The bytes owed to the client out of the decrypted body: the skip dropped, at most `length` kept. */
  function Due(plain: Octets, skip: nat, length: nat): Octets {
    if |plain| <= skip then [] else plain[skip..Min(|plain|, skip + length)]
  }

  lemma DueStep(plain: Octets, more: Octets, skip: nat, length: nat)
    ensures Due(plain + more, skip, length)
         == Due(plain, skip, length)
            + var kept := more[Min(Max(skip - |plain|, 0), |more|)..]; kept[..Min(|kept|, length - |Due(plain, skip, length)|)]
  {
    var all, drop := plain + more, Min(Max(skip - |plain|, 0), |more|);
    var kept := more[drop..];
    if |all| > skip {
      if |plain| <= skip {
        assert all[skip..] == kept;
        assert Due(all, skip, length) == all[skip..][..Min(|kept|, length)];
      } else {
        assert kept == more;
        assert all[skip..] == plain[skip..] + more;
        assert Due(all, skip, length) == all[skip..][..Min(|all| - skip, length)];
        assert Due(plain, skip, length) == plain[skip..][..Min(|plain| - skip, length)];
      }
    }
  }

  /** The two cuts `_pump` makes in a decrypted block: the rest of the skip, then anything past the length. */
  method Trim(block: Octets, skip: nat, room: nat) returns (out: Octets, left: nat)
    ensures left == skip - Min(skip, |block|)
    ensures var kept := block[Min(skip, |block|)..]; out == kept[..Min(|kept|, room)]
  {
    out, left := block, skip;
    if left > 0 {
      var take := Min(left, |out|);
      out := out[take..];
      left := left - take;
    }
    if |out| > room {
      out := out[..room];
    }
  }

  lemma ConcatNext(blocks: seq<Octets>, k: nat)
    requires 0 < k <= |blocks|
    ensures Concat(blocks[..k]) == Concat(blocks[..k - 1]) + blocks[k - 1]
    ensures blocks[k - 1] == [] ==> Concat(blocks[..k]) == Concat(blocks[..k - 1])
  {
    assert blocks[..k][..k - 1] == blocks[..k - 1];
  }

  /** After some of the body: where the cipher stands, how much skip is left, and what the client got. */
  ghost predicate Pumped(aes: Aes, key: Octets, nonce: Nonce, counter: nat, body: Octets, blockSkip: nat, length: nat,
                         position: nat, skip: nat, got: Octets)
  {
    && position == 16 * counter + |body| && skip == Max(blockSkip - |body|, 0)
    && got == Due(Ctr(aes, key, nonce, counter, body), blockSkip, length)
  }

  lemma PumpedStep(aes: Aes, key: Octets, nonce: Nonce, counter: nat, body: Octets, blockSkip: nat, length: nat,
                   position: nat, skip: nat, got: Octets, block: Octets, decrypted: Octets)
    requires |decrypted| == |block|
    requires Pumped(aes, key, nonce, counter, body, blockSkip, length, position, skip, got) && |got| <= length
    requires forall i :: 0 <= i < |block| ==> decrypted[i] == block[i] ^ KeyByte(aes, key, nonce, position + i)
    ensures var kept := decrypted[Min(skip, |decrypted|)..];
      Pumped(aes, key, nonce, counter, body + block, blockSkip, length, position + |block|, skip - Min(skip, |block|),
             got + kept[..Min(|kept|, length - |got|)])
  {
    CtrGrows(aes, key, nonce, counter, body, block, decrypted);
    DueStep(Ctr(aes, key, nonce, counter, body), decrypted, blockSkip, length);
  }

  /** What one more block adds to the decrypted body. */
  lemma CtrGrows(aes: Aes, key: Octets, nonce: Nonce, counter: nat, body: Octets, block: Octets, out: Octets)
    requires |out| == |block|
    requires forall i :: 0 <= i < |block| ==> out[i] == block[i] ^ KeyByte(aes, key, nonce, 16 * counter + |body| + i)
    ensures Ctr(aes, key, nonce, counter, body + block) == Ctr(aes, key, nonce, counter, body) + out
  {
    var whole := body + block;
    forall i | 0 <= i < |whole|
      ensures Ctr(aes, key, nonce, counter, whole)[i] == (Ctr(aes, key, nonce, counter, body) + out)[i]
    {
      CtrAt(aes, key, nonce, counter, whole, i);
      if i < |body| { CtrAt(aes, key, nonce, counter, body, i); }
    }
  }

  /** Once everything due was sent, the blocks not read add nothing. */
  lemma RestIsNotDue(aes: Aes, key: Octets, nonce: Nonce, counter: nat, blocks: seq<Octets>, used: nat, skip: nat, length: nat)
    requires used <= |blocks|
    ensures var some, all := Ctr(aes, key, nonce, counter, Concat(blocks[..used])), Ctr(aes, key, nonce, counter, Concat(blocks));
      && |some| <= |all| && (|Due(some, skip, length)| == length > 0 ==> Due(all, skip, length) == Due(some, skip, length))
  {
    ConcatGrows(blocks, used);
    var all := Concat(blocks);
    var n := |Concat(blocks[..used])|;
    assert all[..n] == Concat(blocks[..used]);
    CtrPrefix(aes, key, nonce, counter, all, n);
    var plain := Ctr(aes, key, nonce, counter, all);
    if |Due(plain[..n], skip, length)| == length > 0 { FullIsFull(plain, n, skip, length); }
  }

  lemma PumpEnds(aes: Aes, key: Octets, nonce: Nonce, counter: nat, blocks: seq<Octets>, used: nat, blockSkip: nat, length: nat,
                 position: nat, skip: nat, got: Octets)
    requires used <= |blocks| && length > 0
    requires Pumped(aes, key, nonce, counter, Concat(blocks[..used]), blockSkip, length, position, skip, got)
    requires used == |blocks| || |got| == length
    ensures var plain := Ctr(aes, key, nonce, counter, Concat(blocks));
      got == Due(plain, blockSkip, length) && (|got| == length <==> |plain| >= blockSkip + length)
  {
    if used == |blocks| { assert blocks[..used] == blocks; }
    RestIsNotDue(aes, key, nonce, counter, blocks, used, blockSkip, length);
  }

  lemma FullIsFull(all: Octets, n: nat, skip: nat, length: nat)
    requires n <= |all| && |Due(all[..n], skip, length)| == length > 0
    ensures Due(all, skip, length) == Due(all[..n], skip, length)
  {
  }

  /** The body of the loop of `_pump`, for a non-empty block: decrypt, trim, write. */
  method PumpBlock(block: Octets, cipher: CtrStream, client: Client, skip: nat, sent: nat, length: nat,
                   ghost counter: nat, ghost body: Octets, ghost blockSkip: nat, ghost got: Octets)
    returns (left: nat, total: nat, ghost more: Octets)
    requires sent == |got| <= length
    requires Pumped(cipher.aes, cipher.key, cipher.nonce, counter, body, blockSkip, length, cipher.position, skip, got)
    modifies cipher, client
    ensures client.received == old(client.received) + more && total == |got + more| <= length
    ensures Pumped(cipher.aes, cipher.key, cipher.nonce, counter, body + block, blockSkip, length, cipher.position, left, got + more)
  {
    ghost var position := cipher.position;
    var decrypted := cipher.Decrypt(block);
    PumpedStep(cipher.aes, cipher.key, cipher.nonce, counter, body, blockSkip, length, position, skip, got, block, decrypted);
    var out;
    out, left := Trim(decrypted, skip, length - sent);
    more := out;
    total := sent + |out|;
    if out != [] {
      client.Write(out);
    }
  }

  /**
   * `_pump`: whatever the fragmentation, empty blocks and blocks shorter than the skip included, the
   * client gets what is due of the decrypted body, and the call succeeds exactly when that is all of it.
   */
  method Pump(blocks: seq<Octets>, cipher: CtrStream, client: Client, blockSkip: nat, length: nat) returns (ok: bool)
    requires cipher.position % 16 == 0 && length > 0
    modifies cipher, client
    ensures var plain := Ctr(cipher.aes, cipher.key, cipher.nonce, old(cipher.position) / 16, Concat(blocks));
      && client.received == old(client.received) + Due(plain, blockSkip, length)
      && (ok <==> |plain| >= blockSkip + length)
  {
    ghost var a, key, nonce, counter := cipher.aes, cipher.key, cipher.nonce, cipher.position / 16;
    ghost var got: Octets := [];
    var sent, skip, k := 0, blockSkip, 0;
    while k < |blocks|
      invariant k <= |blocks| && sent == |got| < length && client.received == old(client.received) + got
      invariant Pumped(a, key, nonce, counter, Concat(blocks[..k]), blockSkip, length, cipher.position, skip, got)
    {
      var block := blocks[k];
      ghost var body := Concat(blocks[..k]);
      k := k + 1;
      ConcatNext(blocks, k);
      if block == [] { continue; }
      ghost var more;
      skip, sent, more := PumpBlock(block, cipher, client, skip, sent, length, counter, body, blockSkip, got);
      got := got + more;
      if sent >= length { break; }
    }
    ok := sent == length;
    PumpEnds(a, key, nonce, counter, blocks, k, blockSkip, length, cipher.position, skip, got);
  }

  // ---- Main result

  /**
   * Streaming a range does not depend on fragmentation. For every accepted header of a non-empty file, and
   * for every way an honest upstream's body, from the aligned offset on, may be cut into blocks, end early
   * or run on, the client receives a prefix of exactly the plaintext range, and all of it unless the body
   * was short, in which case the call fails.
   */
  method ServeRange(aes: Aes, key: Key, nonce: Nonce, ghost plaintext: Octets, header: string, toInt: string -> Option<int>,
                    size: nat, upstream: nat -> seq<Octets>, client: Client)
    returns (r: Result<bool, RangeError>, ghost sent: Octets)
    requires size == |plaintext| > 0
    requires forall from: nat :: from <= size ==> HonestFrom(aes, key, nonce, plaintext, from, Concat(upstream(from)))
    modifies client
    ensures r.Err? <==> ParseRange(header, size, toInt).Err?
    ensures client.received == old(client.received) + sent && (r.Err? ==> sent == [])
    ensures r.Ok? ==> var range := ParseRange(header, size, toInt).value;
      && 0 <= range.start <= range.end < size
      && sent <= plaintext[range.start..range.end + 1]
      && (r.value <==> sent == plaintext[range.start..range.end + 1])
  {
    var parsed := ParseRange(header, size, toInt);
    sent := [];
    if parsed.Err? { return Err(parsed.error), sent; }
    AcceptedRangeExists(header, size, toInt);
    var start, end := parsed.value.start, parsed.value.end;
    var blockStart := start / 16 * 16;
    AlignedDown(start);
    var ok;
    ok, sent := ServeFrom(aes, key, nonce, plaintext, blockStart, upstream(blockStart), client, start - blockStart, end - start + 1);
    r := Ok(ok);
  }

  /** The second half of `do_GET`: the cipher positioned at the aligned offset, and the body pumped through it. */
  method ServeFrom(aes: Aes, key: Key, nonce: Nonce, ghost plaintext: Octets, blockStart: nat, blocks: seq<Octets>, client: Client,
                   blockSkip: nat, length: nat)
    returns (ok: bool, ghost sent: Octets)
    requires blockStart % 16 == 0 && length > 0 && blockStart + blockSkip + length <= |plaintext|
    requires HonestFrom(aes, key, nonce, plaintext, blockStart, Concat(blocks))
    modifies client
    ensures client.received == old(client.received) + sent
    ensures var range := plaintext[blockStart + blockSkip..blockStart + blockSkip + length]; sent <= range && (ok <==> sent == range)
  {
    var counter := blockStart / 16;
    var cipher := new CtrStream(aes, key, nonce, counter);
    assert cipher.position / 16 == counter;
    ok := Pump(blocks, cipher, client, blockSkip, length);
    sent := Due(Ctr(aes, key, nonce, counter, Concat(blocks)), blockSkip, length);
    HonestBody(aes, key, nonce, plaintext, blockStart, Concat(blocks), blockSkip, length);
  }

  lemma AlignedDown(start: nat)
    ensures var b := start / 16 * 16; b % 16 == 0 && b <= start < b + 16
  {
  }

  /** The body is a prefix of the file's ciphertext from the offset on, or has all of that as a prefix. */
  ghost predicate HonestFrom(aes: Aes, key: Octets, nonce: Nonce, plaintext: Octets, from: nat, body: Octets)
    requires from <= |plaintext|
  {
    var wanted := Ctr(aes, key, nonce, 0, plaintext)[from..];
    body <= wanted || wanted <= body
  }

  lemma HonestBody(aes: Aes, key: Key, nonce: Nonce, plaintext: Octets, from: nat, body: Octets, skip: nat, length: nat)
    requires from % 16 == 0 && from + skip + length <= |plaintext| && length > 0
    requires HonestFrom(aes, key, nonce, plaintext, from, body)
    ensures var plain := Ctr(aes, key, nonce, from / 16, body);
      var due := Due(plain, skip, length);
      due <= plaintext[from + skip..from + skip + length] && (|plain| >= skip + length <==> due == plaintext[from + skip..from + skip + length])
  {
    var n := Min(|body|, |plaintext| - from);
    HonestPrefix(aes, key, nonce, plaintext, from, body, n);
    DueIsRange(Ctr(aes, key, nonce, from / 16, body), plaintext, from, n, skip, length);
  }

  lemma SamePrefix(body: Octets, cipher: Octets, from: nat, n: nat)
    requires from <= |cipher| && n == Min(|body|, |cipher| - from) && (body <= cipher[from..] || cipher[from..] <= body)
    ensures body[..n] == cipher[from..from + n]
  {
  }

  /** Deciphering an aligned slice of the file's ciphertext gives that slice of the file. */
  lemma DecryptedSlice(aes: Aes, key: Key, nonce: Nonce, plaintext: Octets, from: nat, to: nat)
    requires from % 16 == 0 && from <= to <= |plaintext|
    ensures Ctr(aes, key, nonce, from / 16, Ctr(aes, key, nonce, 0, plaintext)[from..to]) == plaintext[from..to]
  {
    CtrTwice(aes, key, nonce, 0, plaintext);
    ChunkedEqualsWhole(aes, key, nonce, Ctr(aes, key, nonce, 0, plaintext), from, to);
  }

  /** What of the body lies inside the file decrypts to the file's bytes from the offset on. */
  lemma HonestPrefix(aes: Aes, key: Key, nonce: Nonce, plaintext: Octets, from: nat, body: Octets, n: nat)
    requires from % 16 == 0 && from <= |plaintext|
    requires HonestFrom(aes, key, nonce, plaintext, from, body) && n == Min(|body|, |plaintext| - from)
    ensures Ctr(aes, key, nonce, from / 16, body)[..n] == plaintext[from..from + n]
  {
    var cipher := Ctr(aes, key, nonce, 0, plaintext);
    SamePrefix(body, cipher, from, n);
    DecryptedSlice(aes, key, nonce, plaintext, from, from + n);
    CtrPrefix(aes, key, nonce, from / 16, body, n);
  }

  lemma DueIsRange(plain: Octets, file: Octets, from: nat, n: nat, skip: nat, length: nat)
    requires from + skip + length <= |file| && n == Min(|plain|, |file| - from) && plain[..n] == file[from..from + n]
    ensures var range, due := file[from + skip..from + skip + length], Due(plain, skip, length);
      due <= range && (|plain| >= skip + length || length == 0 <==> due == range)
  {
    var due := Due(plain, skip, length);
    forall i | 0 <= i < |due| ensures due[i] == file[from + skip + i] {
      assert due[i] == plain[skip + i] == plain[..n][skip + i];
    }
  }
}
