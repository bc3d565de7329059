/**
 The text helpers of the debug display: they turn decoded log records (a list
 of positional arguments and a keyword-argument mapping) into the canonical
 `|`-separated protocol text, and render a player's choice.
 */
module DisplayUtil {
  import opened Wrappers
  import opened Strings
  import ChoiceCodec

  /** A keyword argument's value: a boolean flag, or anything else rendered as text. */
  datatype KwValue = Flag(flag: bool) | Text(text: string)

  /** One keyword argument; a record's arguments are kept in `Object.keys` order. */
  datatype KwArg = KwArg(key: string, value: KwValue)

  /** A decoded log record: positional arguments and keyword arguments. */
  datatype ParsedLine = ParsedLine(args: seq<string>, kwArgs: seq<KwArg>)

  /** `format(kwVal)`: nothing for a boolean, a space and the value otherwise. */
  function Format(v: KwValue): (r: string)
    ensures r == "" <==> v.Flag?
    ensures v.Text? ==> r[0] == ' ' && r[1..] == v.text
  {
    match v
    case Flag(_) => ""
    case Text(t) => " " + t
  }

  /**
   The rendering of one keyword argument: `[key]`, then the formatted value.
   A key without `]` is delimited by the first `]`, which is what lets the
   field be read back (`ReadKwArg`, `ReadRender`).
   */
  function Render(kw: KwArg): (r: string)
    ensures |r| == |kw.key| + 2 + |Format(kw.value)| && r[0] == '['
    ensures r[1..|kw.key| + 1] == kw.key && r[|kw.key| + 1] == ']'
    ensures ']' !in kw.key ==> IndexOf(r[1..], ']') == |kw.key|
    ensures r[|kw.key| + 2..] == Format(kw.value)
  {
    var r := "[" + kw.key + "]" + Format(kw.value);
    assert r[1..] == kw.key + "]" + Format(kw.value);
    assert ']' !in kw.key ==> IndexOf(r[1..], ']') == |kw.key| by {
      if ']' !in kw.key {
        IndexOfAfter(kw.key, ']', Format(kw.value));
      }
    }
    r
  }

  /** A rendered keyword argument has no `|` when neither its key nor its text has one. */
  lemma RenderNoBar(kw: KwArg)
    requires '|' !in kw.key
    requires kw.value.Text? ==> '|' !in kw.value.text
    ensures '|' !in Render(kw)
  {
  }

  /**
   `trim(args)`: pop trailing empty strings. The result is the shortest prefix
   of `args` past which only empty strings remain, so it is empty or ends in a
   non-empty string.
   */
  function Trim(args: seq<string>): (r: seq<string>)
    ensures r <= args
    ensures |r| == 0 || r[|r| - 1] != ""
    ensures forall i :: |r| <= i < |args| ==> args[i] == ""
  {
    if |args| > 0 && args[|args| - 1] == "" then Trim(args[..|args| - 1]) else args
  }

  /** The fields of a compacted record: the trimmed arguments, then each keyword argument rendered. */
  function Fields(line: ParsedLine): (r: seq<string>)
    ensures |r| == |Trim(line.args)| + |line.kwArgs|
    ensures r[..|Trim(line.args)|] == Trim(line.args)
    ensures forall i :: 0 <= i < |line.kwArgs| ==> r[|Trim(line.args)| + i] == Render(line.kwArgs[i])
  {
    Trim(line.args) + seq(|line.kwArgs|, i requires 0 <= i < |line.kwArgs| => Render(line.kwArgs[i]))
  }

  /** `compact(line)`: the fields joined by `|`; the record itself is left as it is. */
  function Compact(line: ParsedLine): (r: string)
    ensures |Fields(line)| == 0 <==> line.kwArgs == [] && Trim(line.args) == []
    ensures |Fields(line)| == 0 ==> r == ""
  {
    Join(Fields(line), "|")
  }

  /** The compacted record of every record, in order. */
  function CompactAll(parsed: seq<ParsedLine>): (r: seq<string>)
    ensures |r| == |parsed|
    ensures forall i :: 0 <= i < |parsed| ==> r[i] == Compact(parsed[i])
  {
    seq(|parsed|, i requires 0 <= i < |parsed| => Compact(parsed[i]))
  }

  /** `toText(parsed)`: `|`, then the compacted records joined by a newline and `|`. */
  function ToText(parsed: seq<ParsedLine>): (r: string)
    ensures |r| >= 1 && r[0] == '|'
    ensures parsed == [] ==> r == "|"
  {
    "|" + Join(CompactAll(parsed), "\n|")
  }

  /** `pretty(choice?)`: `???` without a choice, otherwise the type and, unless it is a pass, the data. */
  function Pretty(choice: Option<ChoiceCodec.Choice>): (r: string)
    ensures choice.None? ==> r == "???"
    ensures choice.Some? ==> r == ChoiceCodec.Format(choice.value)
  {
    match choice
    case None => "???"
    case Some(c) =>
      if c.kind == ChoiceCodec.Pass then ChoiceCodec.TypeName(c.kind)
      else ChoiceCodec.TypeName(c.kind) + " " + Decimal(c.data)
  }

  /** Trimming is idempotent. */
  lemma TrimIdempotent(args: seq<string>)
    ensures Trim(Trim(args)) == Trim(args)
  {
  }

  /** A list whose last element is non-empty is left as it is. */
  lemma TrimKeepsNonEmptyEnd(args: seq<string>)
    requires |args| > 0 && args[|args| - 1] != ""
    ensures Trim(args) == args
  {
  }

  /** `trim` is the only prefix that ends in a non-empty string and drops only empty strings. */
  lemma TrimUnique(args: seq<string>, r: seq<string>)
    requires r <= args
    requires |r| == 0 || r[|r| - 1] != ""
    requires forall i :: |r| <= i < |args| ==> args[i] == ""
    ensures r == Trim(args)
  {
  }

  /** Trailing empty arguments do not change the compacted record. */
  lemma CompactIgnoresTrailingEmpty(args: seq<string>, kwArgs: seq<KwArg>)
    ensures Compact(ParsedLine(args + [""], kwArgs)) == Compact(ParsedLine(args, kwArgs))
  {
    assert (args + [""])[..|args|] == args;
  }

  /** Splitting a compacted record at `|` gives back its fields when none contains `|`. */
  lemma CompactSplits(line: ParsedLine)
    requires |Fields(line)| > 0
    requires forall i :: 0 <= i < |Fields(line)| ==> '|' !in Fields(line)[i]
    ensures Split(Compact(line), '|') == Fields(line)
  {
    JoinSplit(Fields(line), '|');
  }

  /**
   A keyword argument whose field can be read back once the record is split
   at `|`: no `|` anywhere in it, no `]` in its key, and not a false flag.
   */
  predicate ReadableKwArg(kw: KwArg)
  {
    '|' !in kw.key && ']' !in kw.key && kw.value != Flag(false)
    && (kw.value.Text? ==> '|' !in kw.value.text)
  }

  /** A record none of whose arguments contains `|` and all of whose keyword arguments are readable. */
  predicate Readable(line: ParsedLine)
  {
    (forall i :: 0 <= i < |line.args| ==> '|' !in line.args[i])
    && (forall i :: 0 <= i < |line.kwArgs| ==> ReadableKwArg(line.kwArgs[i]))
  }

  /**
   The compacted text of a readable record reads back field by field: one
   piece per field (a single empty piece when there is none), the trimmed
   arguments first and then each keyword argument in order.
   */
  lemma CompactReadBack(line: ParsedLine)
    requires Readable(line)
    ensures |Split(Compact(line), '|')| ==
              if line.kwArgs == [] && Trim(line.args) == [] then 1
              else |Trim(line.args)| + |line.kwArgs|
    ensures Split(Compact(line), '|')[..|Trim(line.args)|] == Trim(line.args)
    ensures forall i :: 0 <= i < |line.kwArgs| ==>
              ReadKwArg(Split(Compact(line), '|')[|Trim(line.args)| + i]) == Some(line.kwArgs[i])
  {
    var fs := Fields(line);
    var t := Trim(line.args);
    if |fs| > 0 {
      forall i | 0 <= i < |fs|
        ensures '|' !in fs[i]
      {
        if i < |t| {
          assert fs[i] == t[i] == line.args[i];
        } else {
          assert fs[i] == Render(line.kwArgs[i - |t|]);
          RenderNoBar(line.kwArgs[i - |t|]);
        }
      }
      CompactSplits(line);
      forall i | 0 <= i < |line.kwArgs|
        ensures ReadKwArg(fs[|t| + i]) == Some(line.kwArgs[i])
      {
        ReadRender(line.kwArgs[i]);
      }
    }
  }

  /** Splitting the text at newlines gives one `|`-prefixed compacted record per line. */
  lemma ToTextLines(parsed: seq<ParsedLine>)
    requires |parsed| > 0
    requires forall i :: 0 <= i < |parsed| ==> '\n' !in Compact(parsed[i])
    ensures Split(ToText(parsed), '\n') == Prefixed(CompactAll(parsed), "|")
  {
    var lines := CompactAll(parsed);
    assert "\n|" == ['\n'] + "|";
    JoinPrefixed(lines, "|", '\n');
    var prefixed := Prefixed(lines, "|");
    forall i | 0 <= i < |prefixed|
      ensures '\n' !in prefixed[i]
    {
      assert prefixed[i] == "|" + Compact(parsed[i]);
    }
    JoinSplit(prefixed, '\n');
  }

  /** Compacting a list with one more record adds that record's compacted form at the end. */
  lemma CompactAllAppend(parsed: seq<ParsedLine>, line: ParsedLine)
    ensures CompactAll(parsed + [line]) == CompactAll(parsed) + [Compact(line)]
  {
    var lines := CompactAll(parsed);
    var all := CompactAll(parsed + [line]);
    forall i | 0 <= i < |lines|
      ensures all[i] == lines[i]
    {
      assert (parsed + [line])[i] == parsed[i];
    }
  }

  /** Appending a record appends a newline, `|` and its compacted form. */
  lemma ToTextAppend(parsed: seq<ParsedLine>, line: ParsedLine)
    requires |parsed| > 0
    ensures ToText(parsed + [line]) == ToText(parsed) + "\n|" + Compact(line)
  {
    CompactAllAppend(parsed, line);
    PrefixedJoinAppend("|", CompactAll(parsed), Compact(line), "\n|");
  }

  /** Reads a formatted value back: nothing is a true flag, a space and text is that text. */
  function ReadValue(rest: string): (r: Option<KwValue>)
    ensures r.Some? ==> Format(r.value) == rest
  {
    if rest == "" then Some(Flag(true))
    else if rest[0] == ' ' then Some(Text(rest[1..]))
    else None
  }

  /**
   Reads a rendered keyword argument back: `[key]` is a true flag and
   `[key] value` is text; the key ends at the first `]`.
   */
  function ReadKwArg(field: string): (r: Option<KwArg>)
    ensures r.Some? ==> Render(r.value) == field
  {
    if |field| == 0 || field[0] != '[' then None
    else
      var j := 1 + IndexOf(field[1..], ']');
      if j >= |field| then None
      else
        var key := field[1..j];
        var rest := field[j + 1..];
        assert field == "[" + key + "]" + rest;
        match ReadValue(rest)
        case None => None
        case Some(v) => Some(KwArg(key, v))
  }

  /** A keyword argument whose key has no `]` renders to a field that reads back to it, unless it is a false flag. */
  lemma ReadRender(kw: KwArg)
    requires ']' !in kw.key
    requires kw.value != Flag(false)
    ensures ReadKwArg(Render(kw)) == Some(kw)
  {
  }

  /** Both booleans render alike: a false flag is indistinguishable from a true one. */
  lemma FlagsRenderAlike(key: string)
    ensures Render(KwArg(key, Flag(false))) == Render(KwArg(key, Flag(true))) == "[" + key + "]"
  {
  }
}
