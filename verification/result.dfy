/**
 The `Result` half of the engine's one-byte wire protocol: the battle outcome
 from Player 1's perspective in bits 0-3, and the choice type each player must
 make next in bits 4-5 (Player 1) and 6-7 (Player 2).
 */
module ResultCodec {
  import opened Wrappers
  import opened ChoiceCodec
  import opened Bits

  /** The defined outcomes; an absent outcome (`undefined`) means the battle goes on. */
  datatype ResultType = Win | Lose | Tie | Error

  /** The result of the battle after one update. */
  datatype Result = Result(kind: Option<ResultType>, p1: ChoiceType, p2: ChoiceType)

  /** A result read back from a byte: any field whose bits index past its table is absent. */
  datatype DecodedResult = DecodedResult(kind: Option<ResultType>, p1: Option<ChoiceType>, p2: Option<ChoiceType>)

  /** `Result.Types`: index 0 is `undefined`, then the outcomes in encoding order. */
  const Types: seq<Option<ResultType>> := [None, Some(Win), Some(Lose), Some(Tie), Some(Error)]

  /** `Result.Encoding`: the nibble of each defined outcome; `Types` is its inverse. */
  function Encoding(t: ResultType): (code: nat)
    ensures 1 <= code < |Types| && Types[code] == Some(t)
  {
    match t
    case Win => 1
    case Lose => 2
    case Tie => 3
    case Error => 4
  }

  /** `Result.Types[i]`, which is `undefined` both at index 0 and past the end. */
  function TypeAt(i: nat): (r: Option<ResultType>)
    ensures r.Some? <==> 1 <= i <= 4
    ensures r.Some? ==> Encoding(r.value) == i
  {
    if i < |Types| then Types[i] else None
  }

  /** The low nibble an outcome is written to: its encoding, or 0 when there is none. */
  function Code(kind: Option<ResultType>): (code: nat)
    ensures code < |Types| && Types[code] == kind
  {
    match kind
    case None => 0
    case Some(t) => Encoding(t)
  }

  /** `byte & 0b1111`: the outcome nibble. */
  function OutcomeBits(b: Byte): (r: nat)
    ensures r == b % 16
  {
    Mask4(ToBits(b));
    (ToBits(b) & 15) as nat
  }

  /** `(byte >> 4) & 0b11`: Player 1's choice tag. */
  function P1Bits(b: Byte): (r: nat)
    ensures r == (b / 16) % 4
  {
    Shift4Mask2(ToBits(b));
    ((ToBits(b) >> 4) & 3) as nat
  }

  /**
   `byte >> 6`: Player 2's choice tag. The source does not mask this shift;
   for a byte it is already below four, so the result equals the masked one.
   */
  function P2Bits(b: Byte): (r: nat)
    ensures r == b / 64 && r == (b / 64) % 4
  {
    Shift6(ToBits(b));
    (ToBits(b) >> 6) as nat
  }

  /** The byte `code | p1 << 4 | p2 << 6`, built with 8-bit operations. */
  function Pack(code: nat, p1: nat, p2: nat): (r: Byte)
    requires code < 16 && p1 < 4 && p2 < 4
    ensures r == code + 16 * p1 + 64 * p2
  {
    PackFields(Nibble(code), Crumb(p1), Crumb(p2));
    (Nibble(code) | (Crumb(p1) << 4) | (Crumb(p2) << 6)) as nat
  }

  /** `Result.encode(result)`: outcome in bits 0-3, Player 1's tag in bits 4-5, Player 2's in bits 6-7. */
  function Encode(r: Result): (b: Byte)
    ensures b % 16 == Code(r.kind) && b % 16 <= 4
    ensures (b / 16) % 4 == ChoiceCodec.Encoding(r.p1)
    ensures b / 64 == ChoiceCodec.Encoding(r.p2)
  {
    FieldsOfPacked(Code(r.kind), ChoiceCodec.Encoding(r.p1), ChoiceCodec.Encoding(r.p2));
    Pack(Code(r.kind), ChoiceCodec.Encoding(r.p1), ChoiceCodec.Encoding(r.p2))
  }

  /**
   `Result.decode(byte)`: each field looked up in its table by its bits; a
   nibble of 0 or 5-15 reads as no outcome, and a tag of 3 as no choice type.
   */
  function Decode(b: Byte): (r: DecodedResult)
    ensures r.kind.Some? <==> 1 <= b % 16 <= 4
    ensures r.kind.Some? ==> Encoding(r.kind.value) == b % 16
    ensures r.p1.None? <==> (b / 16) % 4 == 3
    ensures r.p1.Some? ==> ChoiceCodec.Encoding(r.p1.value) == (b / 16) % 4
    ensures r.p2.None? <==> b / 64 == 3
    ensures r.p2.Some? ==> ChoiceCodec.Encoding(r.p2.value) == b / 64
  {
    DecodedResult(TypeAt(OutcomeBits(b)), ChoiceCodec.TypeAt(P1Bits(b)), ChoiceCodec.TypeAt(P2Bits(b)))
  }

  /** A result seen as a decoded byte, with both choice types present. */
  function Lift(r: Result): DecodedResult
  {
    DecodedResult(r.kind, Some(r.p1), Some(r.p2))
  }

  /** Every result (5 outcomes by 3 by 3 choice types) survives a byte round trip. */
  lemma DecodeEncode(r: Result)
    ensures Decode(Encode(r)) == Lift(r)
  {
    var b := Encode(r);
    var d := Decode(b);
    assert d.kind == Types[Code(r.kind)];
    assert d.p1 == Some(ChoiceCodec.Types[ChoiceCodec.Encoding(r.p1)]);
    assert d.p2 == Some(ChoiceCodec.Types[ChoiceCodec.Encoding(r.p2)]);
  }

  /** The bytes `encode` can produce: outcome nibble 0-4 and no choice tag 3. */
  predicate Legal(b: Byte)
  {
    b % 16 <= 4 && (b / 16) % 4 != 3 && b / 64 != 3
  }

  /** Every legal byte is the encoding of the result it decodes to; `encode` produces only legal bytes. */
  lemma EncodeDecode(b: Byte)
    requires Legal(b)
    ensures Decode(b).p1.Some? && Decode(b).p2.Some?
    ensures Encode(Result(Decode(b).kind, Decode(b).p1.value, Decode(b).p2.value)) == b
  {
    var d := Decode(b);
    var e := Encode(Result(d.kind, d.p1.value, d.p2.value));
    assert Code(d.kind) == b % 16;
    assert ChoiceCodec.Encoding(d.p1.value) == (b / 16) % 4;
    assert ChoiceCodec.Encoding(d.p2.value) == b / 64;
    ByteFields(b);
  }

  /** Encoding is injective, so the 45 results occupy 45 distinct bytes. */
  lemma EncodeInjective(r: Result, r': Result)
    requires Encode(r) == Encode(r')
    ensures r == r'
  {
    DecodeEncode(r);
    DecodeEncode(r');
  }

  /** Every encoded result is a legal byte. */
  lemma EncodeLegal(r: Result)
    ensures Legal(Encode(r))
  {
  }

  /** The worked examples of the result byte layout. */
  lemma EncodingExamples()
    ensures Decode(0x50) == DecodedResult(None, Some(Move), Some(Move))
    ensures Decode(0x80) == DecodedResult(None, Some(Pass), Some(Switch))
    ensures Encode(Result(None, Move, Move)) == 0x50
    ensures Encode(Result(None, Pass, Switch)) == 0x80
    ensures Encode(Result(Some(Win), Pass, Pass)) == 0x01
  {
  }
}
