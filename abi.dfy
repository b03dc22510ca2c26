/**
 * Contract-ABI encoding of the `EvmAdvance` call that the driver hands to the
 * machine as its first input (src/lib.rs:188-212).
 *
 * The call is
 *   EvmAdvance(uint256 chainId, address appContract, address msgSender,
 *              uint256 blockNumber, uint256 blockTimestamp, uint256 prevRandao,
 *              uint256 index, bytes payload)
 * and its encoding follows the "Function Selector" and "Formal Specification of
 * the Encoding" sections of the Solidity Contract ABI Specification: the 4-byte
 * selector, one 32-byte head word per argument (the seven static values, then
 * the offset of the dynamic `payload`), and the tail holding the payload's
 * length word and its bytes right-padded with zeros to a whole word.
 */
module Abi {
  import opened Wrappers

  newtype byte = x: int | 0 <= x < 256

  /*
   * Sizes are written as numerals: 32-byte words, a 4-byte selector, 20-byte
   * addresses, eight head words (seven static arguments and the payload offset)
   * followed by the first tail word, the payload length; these nine words are
   * handled together. The length word therefore starts at byte 260 and the
   * payload at byte 292.
   */

  /** The `payload` tail starts after the eight head words of the argument block. */
  const PAYLOAD_OFFSET: nat := 0x100

  /**
   * First four bytes of the Keccak-256 digest of the canonical signature
   * `EvmAdvance(uint256,address,address,uint256,uint256,uint256,uint256,bytes)`.
   * The digest is not computed here; only the constant is used.
   */
  const EVM_ADVANCE_SELECTOR: seq<byte> := [0x41, 0x5b, 0xf3, 0x63]

  /** 256 to the power k: the number of values k big-endian bytes can hold. */
  function Pow256(k: nat): (r: nat)
    ensures r >= 1
  {
    if k == 0 then 1 else 256 * Pow256(k - 1)
  }

  /** A value that fits a `uint256` word. */
  predicate IsU256(n: nat) {
    n < Pow256(32)
  }

  function Zeros(n: nat): (r: seq<byte>)
    ensures |r| == n && forall i | 0 <= i < n :: r[i] == 0
  {
    seq(n, _ => 0 as byte)
  }

  /** Number of zero bytes that right-pad n bytes to a whole number of words. */
  function PadLen(n: nat): (r: nat)
    ensures r < 32
  {
    (32 - n % 32) % 32
  }

  /** Padding by PadLen(n) rounds n up to the next multiple of the word size. */
  lemma PadLenRoundsUp(n: nat)
    ensures (n + PadLen(n)) % 32 == 0
    ensures n + PadLen(n) == 32 * ((n + 32 - 1) / 32)
  {
  }

  lemma DivBound(n: nat, p: nat)
    requires n < 256 * p
    ensures n / 256 < p
  {
  }

  /** The len-byte big-endian representation of n. */
  function ToBigEndian(n: nat, len: nat): (r: seq<byte>)
    requires n < Pow256(len)
    ensures |r| == len
  {
    if len == 0 then []
    else
      DivBound(n, Pow256(len - 1));
      ToBigEndian(n / 256, len - 1) + [(n % 256) as byte]
  }

  /** The value of a big-endian byte string. */
  function FromBigEndian(s: seq<byte>): (n: nat)
    ensures n < Pow256(|s|)
  {
    if s == [] then 0
    else
      var hi := FromBigEndian(s[..|s| - 1]);
      assert hi * 256 + s[|s| - 1] as nat <= (Pow256(|s| - 1) - 1) * 256 + 255;
      hi * 256 + s[|s| - 1] as nat
  }

  lemma {:induction false} FromToBigEndian(n: nat, len: nat)
    requires n < Pow256(len)
    ensures FromBigEndian(ToBigEndian(n, len)) == n
  {
    if len > 0 {
      DivBound(n, Pow256(len - 1));
      var s := ToBigEndian(n, len);
      assert s[..len - 1] == ToBigEndian(n / 256, len - 1);
      FromToBigEndian(n / 256, len - 1);
    }
  }

  lemma {:induction false} ToFromBigEndian(s: seq<byte>)
    ensures ToBigEndian(FromBigEndian(s), |s|) == s
  {
    if s != [] {
      var init, last := s[..|s| - 1], s[|s| - 1];
      var n := FromBigEndian(s);
      assert n == FromBigEndian(init) * 256 + last as nat;
      assert n / 256 == FromBigEndian(init) && n % 256 == last as nat;
      ToFromBigEndian(init);
      assert s == init + [last];
    }
  }

  lemma {:induction false} ZeroBigEndian(len: nat)
    ensures ToBigEndian(0, len) == Zeros(len)
  {
    if len > 0 {
      ZeroBigEndian(len - 1);
    }
  }

  /** A `uint256` head word. */
  function Word(n: nat): (r: seq<byte>)
    requires IsU256(n)
    ensures |r| == 32
  {
    ToBigEndian(n, 32)
  }

  /** An `address` head word: the 20 address bytes left-padded with zeros. */
  function AddressWord(a: seq<byte>): (r: seq<byte>)
    requires |a| == 20
    ensures |r| == 32
  {
    Zeros(32 - 20) + a
  }

  predicate AllWords(ws: seq<seq<byte>>) {
    forall k | 0 <= k < |ws| :: |ws[k]| == 32
  }

  /** The words of ws laid end to end. */
  function Flatten(ws: seq<seq<byte>>): (r: seq<byte>)
    ensures AllWords(ws) ==> |r| == 32 * |ws|
  {
    if ws == [] then [] else ws[0] + Flatten(ws[1..])
  }

  /** s cut into consecutive words. */
  function Chunks(s: seq<byte>): (ws: seq<seq<byte>>)
    requires |s| % 32 == 0
    ensures AllWords(ws) && 32 * |ws| == |s|
    decreases |s|
  {
    if s == [] then [] else [s[..32]] + Chunks(s[32..])
  }

  lemma {:induction false} ChunksOfFlatten(ws: seq<seq<byte>>)
    requires AllWords(ws)
    ensures Chunks(Flatten(ws)) == ws
  {
    if ws != [] {
      var f := Flatten(ws);
      assert f == ws[0] + Flatten(ws[1..]);
      assert f[..32] == ws[0] && f[32..] == Flatten(ws[1..]);
      ChunksOfFlatten(ws[1..]);
      assert ws == [ws[0]] + ws[1..];
    }
  }

  lemma {:induction false} FlattenOfChunks(s: seq<byte>)
    requires |s| % 32 == 0
    ensures Flatten(Chunks(s)) == s
    decreases |s|
  {
    if s != [] {
      var ws := Chunks(s);
      assert ws[0] == s[..32] && ws[1..] == Chunks(s[32..]);
      FlattenOfChunks(s[32..]);
      assert s == s[..32] + s[32..];
    }
  }

  lemma {:induction false} FlattenAppend(a: seq<seq<byte>>, b: seq<seq<byte>>)
    ensures Flatten(a + b) == Flatten(a) + Flatten(b)
  {
    if a != [] {
      assert (a + b)[1..] == a[1..] + b;
      FlattenAppend(a[1..], b);
    } else {
      assert a + b == b;
    }
  }

  lemma {:induction false} FlattenZeroWords(k: nat)
    ensures Flatten(seq(k, _ => Zeros(32))) == Zeros(32 * k)
  {
    var ws := seq(k, _ => Zeros(32));
    if k > 0 {
      assert ws[1..] == seq(k - 1, _ => Zeros(32));
      FlattenZeroWords(k - 1);
      assert Flatten(ws) == Zeros(32) + Zeros(32 * (k - 1));
    }
  }

  /** The arguments of one `EvmAdvance` call. */
  datatype EvmAdvanceCall = EvmAdvanceCall(
    chainId: nat,
    appContract: seq<byte>,
    msgSender: seq<byte>,
    blockNumber: nat,
    blockTimestamp: nat,
    prevRandao: nat,
    index: nat,
    payload: seq<byte>)

  /** Every argument fits its ABI type; the payload's length fits its length word. */
  predicate WellTyped(c: EvmAdvanceCall) {
    && IsU256(c.chainId) && |c.appContract| == 20 && |c.msgSender| == 20
    && IsU256(c.blockNumber) && IsU256(c.blockTimestamp) && IsU256(c.prevRandao)
    && IsU256(c.index) && IsU256(|c.payload|)
  }

  lemma PayloadOffsetIsU256()
    ensures IsU256(PAYLOAD_OFFSET)
  {
    assert Pow256(2) == 65536;
    PowMonotone(2, 32);
  }

  lemma {:induction false} PowMonotone(i: nat, j: nat)
    requires i <= j
    ensures Pow256(i) <= Pow256(j)
    decreases j
  {
    if i < j {
      PowMonotone(i, j - 1);
    }
  }

  /** The head words in argument order, followed by the length word of the tail. */
  function FixedWords(c: EvmAdvanceCall): (ws: seq<seq<byte>>)
    requires WellTyped(c)
    ensures |ws| == 9 && AllWords(ws)
  {
    PayloadOffsetIsU256();
    [ Word(c.chainId), AddressWord(c.appContract), AddressWord(c.msgSender),
      Word(c.blockNumber), Word(c.blockTimestamp), Word(c.prevRandao), Word(c.index),
      Word(PAYLOAD_OFFSET), Word(|c.payload|) ]
  }

  /** Call data for `c`: selector, head, then the tail (length word and padded payload). */
  function AbiEncode(c: EvmAdvanceCall): (r: seq<byte>)
    requires WellTyped(c)
    ensures |r| == 292 + |c.payload| + PadLen(|c.payload|)
  {
    EVM_ADVANCE_SELECTOR + Flatten(FixedWords(c)) + c.payload + Zeros(PadLen(|c.payload|))
  }

  /**
   * The strict inverse of AbiEncode: accepts exactly the canonical encodings
   * (zero address padding, offset 0x100, zero right padding, no trailing bytes).
   */
  function AbiDecode(d: seq<byte>): (r: Option<EvmAdvanceCall>)
    ensures r.Some? ==> WellTyped(r.value)
  {
    if |d| < 292 || d[..4] != EVM_ADVANCE_SELECTOR then None
    else DecodeBody(Chunks(d[4..292]), d[292..])
  }

  /** Decodes the eight head words and the length word, and the bytes after them (padded payload). */
  function DecodeBody(ws: seq<seq<byte>>, rest: seq<byte>): (r: Option<EvmAdvanceCall>)
    requires |ws| == 9 && AllWords(ws)
    ensures r.Some? ==> WellTyped(r.value)
  {
    var pad := 32 - 20;
    var len := FromBigEndian(ws[8]);
    if ws[1][..pad] != Zeros(pad) || ws[2][..pad] != Zeros(pad) then None
    else if FromBigEndian(ws[7]) != PAYLOAD_OFFSET then None
    else if |rest| != len + PadLen(len) then None
    else if rest[len..] != Zeros(PadLen(len)) then None
    else
      Some(EvmAdvanceCall(
        FromBigEndian(ws[0]), ws[1][pad..], ws[2][pad..],
        FromBigEndian(ws[3]), FromBigEndian(ws[4]), FromBigEndian(ws[5]), FromBigEndian(ws[6]),
        rest[..len]))
  }

  lemma SplitFour(a: seq<byte>, b: seq<byte>, c: seq<byte>, d: seq<byte>)
    ensures var s := a + b + c + d;
      && s[..|a|] == a
      && s[|a|..|a| + |b|] == b
      && s[|a| + |b|..|a| + |b| + |c|] == c
      && s[|a| + |b| + |c|..] == d
  {
    var s := a + b + c + d;
    assert s[..|a|] == a;
  }

  /** Decoding an encoding gives back the call. */
  lemma DecodeEncode(c: EvmAdvanceCall)
    requires WellTyped(c)
    ensures AbiDecode(AbiEncode(c)) == Some(c)
  {
    var d := AbiEncode(c);
    var fixed := FixedWords(c);
    var rest := c.payload + Zeros(PadLen(|c.payload|));
    assert d == EVM_ADVANCE_SELECTOR + Flatten(fixed) + rest;
    assert d[..4] == EVM_ADVANCE_SELECTOR;
    assert d[4..292] == Flatten(fixed);
    assert d[292..] == rest;
    ChunksOfFlatten(fixed);
    DecodeBodyOfFixed(c);
  }

  lemma DecodeBodyOfFixed(c: EvmAdvanceCall)
    requires WellTyped(c)
    ensures DecodeBody(FixedWords(c), c.payload + Zeros(PadLen(|c.payload|))) == Some(c)
  {
    var len := |c.payload|;
    var rest := c.payload + Zeros(PadLen(len));
    FixedWordsRead(c);
    assert rest[..len] == c.payload && rest[len..] == Zeros(PadLen(len));
  }

  /** Each head word reads back as the field it encodes. */
  lemma FixedWordsRead(c: EvmAdvanceCall)
    requires WellTyped(c)
    ensures var ws := FixedWords(c);
      && FromBigEndian(ws[0]) == c.chainId
      && ws[1][..32 - 20] == Zeros(32 - 20)
      && ws[1][32 - 20..] == c.appContract
      && ws[2][..32 - 20] == Zeros(32 - 20)
      && ws[2][32 - 20..] == c.msgSender
      && FromBigEndian(ws[3]) == c.blockNumber && FromBigEndian(ws[4]) == c.blockTimestamp
      && FromBigEndian(ws[5]) == c.prevRandao && FromBigEndian(ws[6]) == c.index
      && FromBigEndian(ws[7]) == PAYLOAD_OFFSET && FromBigEndian(ws[8]) == |c.payload|
  {
    var ws := FixedWords(c);
    WordRead(c.chainId);
    WordRead(c.blockNumber);
    WordRead(c.blockTimestamp);
    WordRead(c.prevRandao);
    WordRead(c.index);
    PayloadOffsetIsU256();
    WordRead(PAYLOAD_OFFSET);
    WordRead(|c.payload|);
  }

  lemma WordRead(n: nat)
    requires IsU256(n)
    ensures FromBigEndian(Word(n)) == n
  {
    FromToBigEndian(n, 32);
  }

  /** Only canonical encodings decode: whatever decodes is re-encoded byte for byte. */
  lemma EncodeDecode(d: seq<byte>)
    requires AbiDecode(d).Some?
    ensures AbiEncode(AbiDecode(d).value) == d
  {
    var head, rest := AbiDecodeSplit(d);
    var ws := Chunks(head);
    DecodedFixedWords(ws, rest);
    FlattenOfChunks(head);
  }

  /** A decodable input is the selector, the eight head words and the length word, and the rest. */
  lemma AbiDecodeSplit(d: seq<byte>) returns (head: seq<byte>, rest: seq<byte>)
    requires AbiDecode(d).Some?
    ensures |head| == 292 - 4 && d == EVM_ADVANCE_SELECTOR + head + rest
    ensures DecodeBody(Chunks(head), rest) == AbiDecode(d)
  {
    head := d[4..292];
    rest := d[292..];
    assert d[..4] + head == d[..292];
    assert d[..292] + rest == d;
  }

  /** The head words of a decoded call re-encode to the words they were read from. */
  lemma DecodedFixedWords(ws: seq<seq<byte>>, rest: seq<byte>)
    requires |ws| == 9 && AllWords(ws)
    requires DecodeBody(ws, rest).Some?
    ensures var c := DecodeBody(ws, rest).value;
      FixedWords(c) == ws && rest == c.payload + Zeros(PadLen(|c.payload|))
  {
    var c := DecodeBody(ws, rest).value;
    var len := |c.payload|;
    assert rest == rest[..len] + rest[len..];
    WordsReadBack(ws);
  }

  /** The head and length words, with zero address padding, are the words of what they decode to. */
  lemma WordsReadBack(ws: seq<seq<byte>>)
    requires |ws| == 9 && AllWords(ws)
    requires ws[1][..32 - 20] == Zeros(32 - 20)
    requires ws[2][..32 - 20] == Zeros(32 - 20)
    ensures ws == [ Word(FromBigEndian(ws[0])),
                    AddressWord(ws[1][32 - 20..]), AddressWord(ws[2][32 - 20..]),
                    Word(FromBigEndian(ws[3])), Word(FromBigEndian(ws[4])), Word(FromBigEndian(ws[5])),
                    Word(FromBigEndian(ws[6])), Word(FromBigEndian(ws[7])), Word(FromBigEndian(ws[8])) ]
  {
    WordOfRead(ws[0]);
    AddressWordOfRead(ws[1]);
    AddressWordOfRead(ws[2]);
    WordOfRead(ws[3]);
    WordOfRead(ws[4]);
    WordOfRead(ws[5]);
    WordOfRead(ws[6]);
    WordOfRead(ws[7]);
    WordOfRead(ws[8]);
  }

  lemma AddressWordOfRead(w: seq<byte>)
    requires |w| == 32
    requires w[..32 - 20] == Zeros(32 - 20)
    ensures AddressWord(w[32 - 20..]) == w
  {
    assert w == w[..32 - 20] + w[32 - 20..];
  }

  lemma WordOfRead(w: seq<byte>)
    requires |w| == 32
    ensures IsU256(FromBigEndian(w)) && Word(FromBigEndian(w)) == w
  {
    ToFromBigEndian(w);
  }

  /** An encoding determines its call. */
  lemma EncodeInjective(c1: EvmAdvanceCall, c2: EvmAdvanceCall)
    requires WellTyped(c1) && WellTyped(c2)
    requires AbiEncode(c1) == AbiEncode(c2)
    ensures c1 == c2
  {
    DecodeEncode(c1);
    DecodeEncode(c2);
  }

  /** The zero address that `address!()` denotes. */
  const ZERO_ADDRESS: seq<byte> := Zeros(20)

  /** The call built by src/lib.rs:201-210: every context field is zero. */
  function EvmAdvanceFields(payload: seq<byte>): EvmAdvanceCall {
    EvmAdvanceCall(0, ZERO_ADDRESS, ZERO_ADDRESS, 0, 0, 0, 0, payload)
  }

  /** encode_evm_advance: the call data delivered with the first `Advance` response. */
  function EncodeEvmAdvance(payload: seq<byte>): (r: seq<byte>)
    requires IsU256(|payload|)
    ensures |r| == 292 + |payload| + PadLen(|payload|)
  {
    AbiEncode(EvmAdvanceFields(payload))
  }

  /** The call data is the prefix plus the payload rounded up to whole words. */
  lemma EvmAdvanceLength(payload: seq<byte>)
    requires IsU256(|payload|)
    ensures |EncodeEvmAdvance(payload)| == 292 + 32 * ((|payload| + 32 - 1) / 32)
  {
    PadLenRoundsUp(|payload|);
  }

  /** Recovers the payload of an `EvmAdvance` call whose context fields are all zero. */
  function DecodeEvmAdvance(d: seq<byte>): (r: Option<seq<byte>>)
    ensures r.Some? ==> IsU256(|r.value|)
  {
    match AbiDecode(d)
    case Some(c) => if c == EvmAdvanceFields(c.payload) then Some(c.payload) else None
    case None => None
  }

  /**
   * The layout of encode_evm_advance's output: selector, seven zero words, the
   * offset word 0x100, the length word, the payload, zero padding to a word.
   */
  lemma EvmAdvanceLayout(payload: seq<byte>)
    requires IsU256(|payload|)
    ensures EncodeEvmAdvance(payload)
      == EVM_ADVANCE_SELECTOR + Zeros(7 * 32) + Word(PAYLOAD_OFFSET) + Word(|payload|)
         + payload + Zeros(PadLen(|payload|))
  {
    var f := Flatten(FixedWords(EvmAdvanceFields(payload)));
    ZeroContextHead(payload);
    assert EVM_ADVANCE_SELECTOR + f
        == EVM_ADVANCE_SELECTOR + Zeros(7 * 32) + Word(PAYLOAD_OFFSET) + Word(|payload|);
  }

  /** The flattened head words of encode_evm_advance. */
  lemma ZeroContextHead(payload: seq<byte>)
    requires IsU256(|payload|)
    ensures Flatten(FixedWords(EvmAdvanceFields(payload)))
      == Zeros(7 * 32) + (Word(PAYLOAD_OFFSET) + Word(|payload|))
  {
    var zs := seq(7, _ => Zeros(32));
    var tail := [Word(PAYLOAD_OFFSET), Word(|payload|)];
    ZeroContextWords(payload);
    FlattenAppend(zs, tail);
    FlattenZeroWords(7);
    assert Flatten([Word(|payload|)]) == Word(|payload|);
  }

  /** The head words of encode_evm_advance: seven zero words, the offset, the length. */
  lemma ZeroContextWords(payload: seq<byte>)
    requires IsU256(|payload|)
    ensures FixedWords(EvmAdvanceFields(payload))
      == seq(7, _ => Zeros(32)) + [Word(PAYLOAD_OFFSET), Word(|payload|)]
  {
    ZeroBigEndian(32);
    assert AddressWord(ZERO_ADDRESS) == Zeros(32);
  }

  /** Everything before the length word is the same whatever the payload. */
  lemma EvmAdvanceHeadIndependent(p: seq<byte>, q: seq<byte>)
    requires IsU256(|p|) && IsU256(|q|)
    ensures EncodeEvmAdvance(p)[..260] == EncodeEvmAdvance(q)[..260]
  {
    PayloadOffsetIsU256();
    var head := EVM_ADVANCE_SELECTOR + Zeros(7 * 32) + Word(PAYLOAD_OFFSET);
    assert |head| == 260;
    EvmAdvanceLayout(p);
    EvmAdvanceLayout(q);
    assert EncodeEvmAdvance(p)[..260] == head;
    assert EncodeEvmAdvance(q)[..260] == head;
  }

  /** The length word holds |payload| and the payload follows it. */
  lemma EvmAdvanceTail(payload: seq<byte>)
    requires IsU256(|payload|)
    ensures var d := EncodeEvmAdvance(payload);
      && FromBigEndian(d[260..292]) == |payload|
      && d[292..292 + |payload|] == payload
      && d[292 + |payload|..] == Zeros(PadLen(|payload|))
  {
    PayloadOffsetIsU256();
    var d := EncodeEvmAdvance(payload);
    var head := EVM_ADVANCE_SELECTOR + Zeros(7 * 32) + Word(PAYLOAD_OFFSET);
    EvmAdvanceLayout(payload);
    SplitFour(head, Word(|payload|), payload, Zeros(PadLen(|payload|)));
    FromToBigEndian(|payload|, 32);
  }

  /** Decoding the call data of encode_evm_advance gives back the payload. */
  lemma EvmAdvanceRoundTrip(payload: seq<byte>)
    requires IsU256(|payload|)
    ensures DecodeEvmAdvance(EncodeEvmAdvance(payload)) == Some(payload)
  {
    DecodeEncode(EvmAdvanceFields(payload));
  }

  /** Whatever DecodeEvmAdvance accepts is exactly encode_evm_advance of the payload it returns. */
  lemma EvmAdvanceCanonical(d: seq<byte>)
    requires DecodeEvmAdvance(d).Some?
    ensures EncodeEvmAdvance(DecodeEvmAdvance(d).value) == d
  {
    EncodeDecode(d);
  }

  /** Different payloads give different call data. */
  lemma EvmAdvanceInjective(p: seq<byte>, q: seq<byte>)
    requires IsU256(|p|) && IsU256(|q|)
    requires EncodeEvmAdvance(p) == EncodeEvmAdvance(q)
    ensures p == q
  {
    EvmAdvanceRoundTrip(p);
    EvmAdvanceRoundTrip(q);
  }
}
