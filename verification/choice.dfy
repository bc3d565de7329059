/**
 The `Choice` half of the engine's one-byte wire protocol: a player's decision
 (`pass`, `move n` or `switch n`) packed as `data << 2 | tag`, together with
 the Pokémon Showdown text syntax for choices.
 */
module ChoiceCodec {
  import opened Wrappers
  import opened Strings
  import opened Bits

  /** The choice type: `'pass' | 'move' | 'switch'`. */
  datatype ChoiceType = Pass | Move | Switch

  /** A choice made by a player during battle. */
  datatype Choice = Choice(kind: ChoiceType, data: nat)

  /** A choice read back from a byte: the type is absent when the tag has no entry in `Types`. */
  datatype DecodedChoice = DecodedChoice(kind: Option<ChoiceType>, data: nat)

  /** `Choice.Types`: the keys of `Choice.Encoding` in declaration order. */
  const Types: seq<ChoiceType> := [Pass, Move, Switch]

  /** `Choice.Encoding`: the two-bit tag of each choice type; `Types` is its inverse. */
  function Encoding(t: ChoiceType): (tag: nat)
    ensures tag < |Types| && Types[tag] == t
  {
    match t
    case Pass => 0
    case Move => 1
    case Switch => 2
  }

  /** `Choice.Types[i]`, which is `undefined` past the end of the array. */
  function TypeAt(i: nat): (r: Option<ChoiceType>)
    ensures r.None? <==> i >= |Types|
    ensures r.Some? ==> Encoding(r.value) == i
  {
    if i < |Types| then Some(Types[i]) else None
  }

  /** The string literal naming a choice type. */
  function TypeName(t: ChoiceType): string
  {
    match t
    case Pass => "pass"
    case Move => "move"
    case Switch => "switch"
  }

  /** The documented data ranges: 0 for pass, 0-4 for move, 2-6 for switch. */
  predicate Valid(c: Choice)
  {
    match c.kind
    case Pass => c.data == 0
    case Move => c.data <= 4
    case Switch => 2 <= c.data <= 6
  }

  /** `Choice.pass`, the canonical pass choice. */
  function PassChoice(): (c: Choice)
    ensures Valid(c) && c.kind == Pass
  {
    Choice(Pass, 0)
  }

  /** `Choice.move(data)`, whose parameter type admits only 0-4. */
  function MoveChoice(data: nat): (c: Choice)
    requires data <= 4
    ensures Valid(c) && c.kind == Move && c.data == data
  {
    Choice(Move, data)
  }

  /** `Choice.switch(data)`, whose parameter type admits only 2-6. */
  function SwitchChoice(data: nat): (c: Choice)
    requires 2 <= data <= 6
    ensures Valid(c) && c.kind == Switch && c.data == data
  {
    Choice(Switch, data)
  }

  /**
   JavaScript's ToInt32 applied to a non-negative integer: the value modulo
   2^32, read as a two's-complement 32-bit integer. `<<` produces this.
   */
  function ToInt32(x: nat): (r: int)
    ensures -0x8000_0000 <= r < 0x8000_0000
    ensures x < 0x8000_0000 ==> r == x
  {
    var m := x % 0x1_0000_0000;
    if m < 0x8000_0000 then m else m - 0x1_0000_0000
  }

  /**
   `Choice.encode(choice?)`: `data << 2 | tag`, and 0 when no choice is given.
   `data << 2` is the 32-bit value ToInt32(4 * data), a multiple of four, so
   or-ing in a tag below four is the same as adding it.
   */
  function Encode(c: Option<Choice>): (r: int)
    ensures c.None? ==> r == 0
    ensures c.Some? && c.value.data < 0x2000_0000 ==>
              0 <= r && r % 4 == Encoding(c.value.kind) && r / 4 == c.value.data
    ensures c.Some? && Valid(c.value) ==> 0 <= r <= 26
  {
    match c
    case None => 0
    case Some(ch) => ToInt32(ch.data * 4) + Encoding(ch.kind)
  }

  /** `byte & 0b11`: the two low bits of a byte. */
  function TagBits(b: Byte): (r: nat)
    ensures r == b % 4
  {
    Mask2(ToBits(b));
    (ToBits(b) & 3) as nat
  }

  /** `byte >> 2`: the six high bits of a byte. */
  function DataBits(b: Byte): (r: nat)
    ensures r == b / 4
  {
    Shift2(ToBits(b));
    (ToBits(b) >> 2) as nat
  }

  /** `Choice.decode(byte)`: the type from `byte & 0b11`, the data from `byte >> 2`. */
  function Decode(b: Byte): (r: DecodedChoice)
    ensures r.kind.None? <==> b % 4 == 3
    ensures r.kind.Some? ==> Encoding(r.kind.value) == b % 4
    ensures r.data == b / 4 && r.data < 64
  {
    DecodedChoice(TypeAt(TagBits(b)), DataBits(b))
  }

  /** Encoding without a choice is encoding the canonical pass. */
  lemma EncodeUndefinedIsPass()
    ensures Encode(None) == 0 == Encode(Some(PassChoice()))
  {
  }

  /** Every choice whose data fits in six bits, valid ones included, survives a byte round trip. */
  lemma DecodeEncode(c: Choice)
    requires c.data < 64
    ensures 0 <= Encode(Some(c)) < 256
    ensures Decode(Encode(Some(c)) as Byte) == DecodedChoice(Some(c.kind), c.data)
  {
    var e := Encode(Some(c));
    assert e == 4 * c.data + Encoding(c.kind);
  }

  /** Every byte whose tag names a type is the encoding of the choice it decodes to. */
  lemma EncodeDecode(b: Byte)
    requires b % 4 != 3
    ensures Decode(b).kind.Some?
    ensures Encode(Some(Choice(Decode(b).kind.value, Decode(b).data))) == b
  {
    var d := Decode(b);
    var e := Encode(Some(Choice(d.kind.value, d.data)));
    assert e == 4 * (b / 4) + b % 4;
  }

  /** Encoding is injective on choices whose data fits in six bits. */
  lemma EncodeInjective(c: Choice, c': Choice)
    requires c.data < 64 && c'.data < 64
    requires Encode(Some(c)) == Encode(Some(c'))
    ensures c == c'
  {
    DecodeEncode(c);
    DecodeEncode(c');
  }

  /**
   The 32-bit shift discards data bits from bit 30 upwards, so data that
   differ by 2^30 encode alike; no valid choice comes near this.
   */
  lemma EncodeWraps(k: ChoiceType, d: nat)
    ensures Encode(Some(Choice(k, d + 0x4000_0000))) == Encode(Some(Choice(k, d)))
  {
    var x := d * 4;
    assert (d + 0x4000_0000) * 4 == x + 0x1_0000_0000;
    assert (x + 0x1_0000_0000) % 0x1_0000_0000 == x % 0x1_0000_0000;
  }

  /** The worked examples: `move 4` is 0b0001_0001 and `switch 5` is 0b0001_0110. */
  lemma EncodingExamples()
    ensures Decode(0x11) == DecodedChoice(Some(Move), 4)
    ensures Decode(0x16) == DecodedChoice(Some(Switch), 5)
    ensures Encode(Some(MoveChoice(4))) == 0x11
    ensures Encode(Some(SwitchChoice(5))) == 0x16
  {
  }

  /** The message of the error `parse` throws for a rejected string. */
  function InvalidChoice(s: string): string
  {
    "Invalid choice: '" + s + "'"
  }

  /**
   `Choice.format(choice)`: the type name, followed by a space and the data
   in decimal unless the type is pass.
   */
  function Format(c: Choice): (r: string)
    ensures TypeName(c.kind) <= r
    ensures |r| == |TypeName(c.kind)| <==> c.kind == Pass
  {
    if c.kind == Pass then TypeName(c.kind)
    else TypeName(c.kind) + " " + Decimal(c.data)
  }

  /**
   `Choice.parse(choice)`: the whole string must match
   `^(?:(pass)|((move) ([0-4]))|((switch) ([2-6])))$`; the data is the digit
   after the space, or 0 for pass. Anything else is an error naming the input.
   */
  function Parse(s: string): (r: Thrown<Choice>)
    ensures r.Ok? ==> Valid(r.value) && Format(r.value) == s
    ensures r.Err? ==> r.message == InvalidChoice(s)
  {
    if s == "pass" then Ok(Choice(Pass, 0))
    else if |s| == 6 && s[..5] == "move " && '0' <= s[5] <= '4' then
      Ok(Choice(Move, s[5] as int - '0' as int))
    else if |s| == 8 && s[..7] == "switch " && '2' <= s[7] <= '6' then
      Ok(Choice(Switch, s[7] as int - '0' as int))
    else Err(InvalidChoice(s))
  }

  /** Formatting a valid choice yields a string that parses back to it. */
  lemma ParseFormat(c: Choice)
    requires Valid(c)
    ensures Parse(Format(c)) == Ok(c)
  {
    var f := Format(c);
    if c.kind == Move {
      assert f == "move " + [Digit(c.data)];
      assert f[..5] == "move ";
    } else if c.kind == Switch {
      assert f == "switch " + [Digit(c.data)];
      assert f[..7] == "switch ";
    }
  }

  /** `parse` accepts exactly the formats of valid choices, and formats what it accepts back to the input. */
  lemma ParseAcceptsExactlyFormats(s: string)
    ensures Parse(s).Ok? <==> exists c :: Valid(c) && Format(c) == s
    ensures Parse(s).Ok? ==> Format(Parse(s).value) == s
  {
    if c :| Valid(c) && Format(c) == s {
      ParseFormat(c);
    }
  }

  /** Strings the source's tests name as rejected. */
  lemma ParseRejections()
    ensures Parse("foo") == Err("Invalid choice: 'foo'")
    ensures Parse("pass 2").Err?
    ensures Parse("move 5").Err?
    ensures Parse("switch 1").Err?
  {
    assert "pass 2"[0] != "move "[0];
  }
}
