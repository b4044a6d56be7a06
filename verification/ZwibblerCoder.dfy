/**
 The loops of server/utils/zwibblerDecoder.ts, proved against the functions of
 ZwibblerCodec, and the debugging decoder decodeAdvanced.
 */
module ZwibblerCoder {
  import opened Basics
  import opened Doubles
  import opened ZwibblerCodec

  /** The growing byte list `m` of encode. */
  class Buffer {
    var m: seq<byte>

    constructor ()
      ensures m == []
    {
      m := [];
    }

    /** Pushes the most significant byte first; the original loop runs at least once. */
    method WriteUint(n: int, size: nat)
      requires size >= 1
      modifies this
      ensures m == old(m) + Digits(n, size)
    {
      var left := size;
      while left > 0
        invariant left <= size
        invariant m == old(m) + Digits(n, size)[..size - left]
      {
        left := left - 1;
        DigitAt(n, size, size - 1 - left);
        m := m + [n / Pow256(left) % 256];
      }
    }

    method WriteString(bytes: seq<byte>)
      modifies this
      ensures m == old(m) + bytes
    {
      for i := 0 to |bytes|
        invariant m == old(m) + bytes[..i]
      {
        m := m + [bytes[i]];
      }
    }
  }

  lemma {:induction false} PrintAppend(fields: seq<Field>, f: Field, js: Message)
    requires Names(fields) <= js.Keys && f.name in js
    ensures Names(fields + [f]) <= js.Keys
    ensures Print(fields + [f], js) == Print(fields, js) + FieldBytes(f, js[f.name])
  {
    NamesOfAppend(fields, f);
    if fields == [] {
      assert ([] + [f])[1..] == [];
    } else {
      assert fields == [fields[0]] + fields[1..];
      PrintAppend(fields[1..], f, js);
      assert (fields + [f])[1..] == fields[1..] + [f];
    }
  }

  lemma NamesOfAppend(fields: seq<Field>, f: Field)
    ensures Names(fields + [f]) == Names(fields) + {f.name}
  {
  }

  lemma {:induction false} MissingAt(fields: seq<Field>, js: Message, i: nat)
    requires i < |fields| && Names(fields[..i]) <= js.Keys && fields[i].name !in js
    ensures FirstMissing(fields, js) == Some(fields[i].name)
  {
    if i > 0 {
      assert fields[..i][0] == fields[0];
      assert Names(fields[1..][..i - 1]) <= js.Keys by {
        assert fields[..i][1..] == fields[1..][..i - 1];
      }
      MissingAt(fields[1..], js, i - 1);
    }
  }

  method EncodeMessage(js: Message) returns (r: EncodeResult)
    requires WellTyped(js)
    ensures r == Encode(js)
  {
    var decoder := DescriptorsFor(js);
    if decoder.None? {
      return NoEncoder;
    }
    TablesAreProper(js[MessageType].n);
    NoneMissing(decoder.value, js);
    r := EncodeFields(decoder.value, js);
  }

  method EncodeFields(fields: seq<Field>, js: Message) returns (r: EncodeResult)
    requires WellTyped(js) && forall f <- fields :: ProperField(f)
    ensures r == if Names(fields) <= js.Keys then Encoded(Print(fields, js))
                 else MissingField(FirstMissing(fields, js).GetOr(MessageType))
  {
    var buffer := new Buffer();
    for i := 0 to |fields|
      invariant Names(fields[..i]) <= js.Keys
      invariant buffer.m == Print(fields[..i], js)
      invariant fresh(buffer)
    {
      var field := fields[i];
      assert field in fields;
      if field.name !in js {
        MissingAt(fields, js, i);
        assert field.name in Names(fields);
        return MissingField(field.name);
      }
      assert fields[..i + 1] == fields[..i] + [field];
      PrintAppend(fields[..i], field, js);
      var value := js[field.name];
      assert ProperField(field) && value.Text? == field.name.HoldsText();
      if field.NumberField? {
        buffer.WriteUint(if value.Num? then value.n else 0, field.width);
      } else {
        buffer.WriteString(value.bytes);
      }
    }
    assert fields[..|fields|] == fields;
    return Encoded(buffer.m);
  }

  /** NaN as soon as one byte is missing. */
  method ReadUint(m: seq<byte>, at: nat, size: nat) returns (ret: FieldValue)
    requires size >= 1
    ensures ret == if at + size <= |m| then Num(ReadNumber(m[at..at + size])) else NaN
  {
    ret := Num(0);
    var left, here := size, at;
    while left > 0
      invariant left <= size && here == at + size - left
      invariant ret == if here <= |m| || left == size then Num(NumberAt(m, at, here)) else NaN
    {
      if ret.Num? && here < |m| {
        assert m[at..here + 1][..here - at] == m[at..here];
        ret := Num(Round(ret.n * 256 + m[here]));
      } else {
        ret := NaN;
      }
      left, here := left - 1, here + 1;
    }
  }

  function NumberAt(m: seq<byte>, at: nat, here: nat): nat
    requires at <= here
  {
    if here <= |m| then ReadNumber(m[at..here]) else 0
  }

  /** m.slice(at, at + length), which stops at the end of m. */
  function Slice(m: seq<byte>, at: nat, length: nat): seq<byte> {
    if at >= |m| then [] else if at + length <= |m| then m[at..at + length] else m[at..]
  }

  function From(m: seq<byte>, pos: nat): seq<byte> {
    if pos <= |m| then m[pos..] else []
  }

  lemma {:induction false} ParsesNumberAt(m: seq<byte>, pos: nat, width: nat, name: FieldName, last: nat)
    ensures ParseField(NumberField(width, name), From(m, pos), last)
         == if pos + width <= |m|
            then (Num(ReadNumber(m[pos..pos + width])), From(m, pos + width), ReadNumber(m[pos..pos + width]))
            else if width == 0 then (Num(0), [], 0) else (NaN, From(m, pos + width), 0)
  {
    var rest := From(m, pos);
    if pos + width <= |m| {
      assert rest[..width] == m[pos..pos + width] && rest[width..] == From(m, pos + width);
    } else {
      assert rest[..0] == [];
    }
  }

  lemma SliceOfFrom(m: seq<byte>, pos: nat, length: nat)
    ensures var rest := From(m, pos);
            var n := if length < |rest| then length else |rest|;
            Slice(m, pos, length) == rest[..n] && From(m, pos + length) == rest[n..]
  {
  }

  lemma ParsesTextAt(m: seq<byte>, pos: nat, f: Field, last: nat)
    requires !f.NumberField?
    ensures var length := if f.CountedField? then last else |From(m, pos)|;
            ParseField(f, From(m, pos), last) == (Text(Slice(m, pos, length)), From(m, pos + length), last)
  {
    SliceOfFrom(m, pos, if f.CountedField? then last else |From(m, pos)|);
    assert f.RestField? ==> From(m, pos)[..|From(m, pos)|] == From(m, pos);
  }

  lemma ParseStep(fields: seq<Field>, i: nat, rest: seq<byte>, last: nat)
    requires i < |fields|
    ensures var (value, rest', last') := ParseField(fields[i], rest, last);
            Parse(fields[i..], rest, last) == map[fields[i].name := value] + Parse(fields[i + 1..], rest', last')
  {
    assert fields[i..][1..] == fields[i + 1..];
  }

  lemma MergeStep(js: Message, name: FieldName, value: FieldValue, tail: Message)
    ensures js + (map[name := value] + tail) == js[name := value] + tail
  {
  }

  predicate HasWidths(fields: seq<Field>) {
    forall f <- fields :: f.NumberField? ==> f.width >= 1
  }

  /** One turn of the decoding loops: the value of a field, and where the next one starts. */
  method ReadField(m: seq<byte>, field: Field, pos: nat, lastValue: nat)
    returns (value: FieldValue, pos': nat, lastValue': nat)
    requires field.NumberField? ==> field.width >= 1
    ensures (value, From(m, pos'), lastValue') == ParseField(field, From(m, pos), lastValue)
    ensures pos' >= pos
  {
    if field.NumberField? {
      value := ReadUint(m, pos, field.width);
      ParsesNumberAt(m, pos, field.width, field.name, lastValue);
      // A NaN count only arises past the end of m, where every string is empty.
      lastValue' := if value.Num? then value.n else 0;
      pos' := pos + field.width;
    } else {
      var length := if field.CountedField? then lastValue else if pos <= |m| then |m| - pos else 0;
      ParsesTextAt(m, pos, field, lastValue);
      value := Text(Slice(m, pos, length));
      pos' := pos + length;
      lastValue' := lastValue;
    }
  }

  method DecodeMessage(m: seq<byte>) returns (r: Option<Message>)
    ensures r == Decode(m)
  {
    if m == [] {
      return None;
    }
    var decoder := Descriptors(m[0]);
    if decoder.None? {
      return None;
    }
    TablesAreProper(m[0]);
    var js := DecodeFields(decoder.value, m);
    return Some(js);
  }

  method DecodeFields(fields: seq<Field>, m: seq<byte>) returns (js: Message)
    requires HasWidths(fields)
    ensures js == Parse(fields, m, 0)
  {
    js := map[];
    var lastValue: nat, pos: nat := 0, 0;
    for i := 0 to |fields|
      invariant js + Parse(fields[i..], From(m, pos), lastValue) == Parse(fields, m, 0)
    {
      var field := fields[i];
      ParseStep(fields, i, From(m, pos), lastValue);
      ghost var before := js;
      var value;
      value, pos, lastValue := ReadField(m, field, pos, lastValue);
      js := js[field.name := value];
      MergeStep(before, field.name, value, Parse(fields[i + 1..], From(m, pos), lastValue));
    }
    assert js + map[] == js;
  }

  // ----- decodeAdvanced -----

  datatype Chunk = Chunk(raw: seq<byte>, fieldName: FieldName, decoded: FieldValue)

  /** An unknown first byte is shown with the table of continuations. */
  function TableToShow(m: seq<byte>): seq<Field> {
    var known := if m == [] then None else Descriptors(m[0]);
    if known.Some? then known.value else Descriptors(0xff).value
  }

  function Chunks(fields: seq<Field>, rest: seq<byte>, last: nat): seq<Chunk> {
    if fields == [] || rest == [] then []
    else
      var (value, rest', last') := ParseField(fields[0], rest, last);
      [Chunk(rest[..|rest| - |rest'|], fields[0].name, value)] + Chunks(fields[1..], rest', last')
  }

  function Raw(chunks: seq<Chunk>): seq<byte> {
    if chunks == [] then [] else chunks[0].raw + Raw(chunks[1..])
  }

  /** What is left of the message after the last field. */
  function Leftover(fields: seq<Field>, rest: seq<byte>, last: nat): seq<byte> {
    if fields == [] || rest == [] then rest
    else
      var (_, rest', last') := ParseField(fields[0], rest, last);
      Leftover(fields[1..], rest', last')
  }

  lemma ParseFieldTakesPrefix(f: Field, rest: seq<byte>, last: nat)
    ensures var rest' := ParseField(f, rest, last).1;
            |rest'| <= |rest| && rest == rest[..|rest| - |rest'|] + rest'
  {
  }

  /** The raw slices shown, put together, are the message up to what no field covers. */
  lemma {:induction false} RawChunksArePrefix(fields: seq<Field>, rest: seq<byte>, last: nat)
    ensures Raw(Chunks(fields, rest, last)) + Leftover(fields, rest, last) == rest
  {
    if fields != [] && rest != [] {
      var (value, rest', last') := ParseField(fields[0], rest, last);
      ParseFieldTakesPrefix(fields[0], rest, last);
      RawChunksArePrefix(fields[1..], rest', last');
      var tail := Chunks(fields[1..], rest', last');
      var head := Chunk(rest[..|rest| - |rest'|], fields[0].name, value);
      assert Chunks(fields, rest, last) == [head] + tail;
      assert Raw([head] + tail) == head.raw + Raw(tail);
    }
  }

  /** Every value shown is the one decode returns for that field. */
  lemma {:induction false} ChunksAgreeWithParse(fields: seq<Field>, rest: seq<byte>, last: nat, k: nat)
    requires ProperTable(fields) && k < |Chunks(fields, rest, last)|
    ensures var c := Chunks(fields, rest, last)[k];
            c.fieldName in Names(fields) && Parse(fields, rest, last)[c.fieldName] == c.decoded
  {
    TailOf(fields);
    var (value, rest', last') := ParseField(fields[0], rest, last);
    if k > 0 {
      ChunksAgreeWithParse(fields[1..], rest', last', k - 1);
    }
  }

  lemma ChunksStep(fields: seq<Field>, i: nat, rest: seq<byte>, last: nat)
    requires i < |fields| && rest != []
    ensures var (value, rest', last') := ParseField(fields[i], rest, last);
            && |rest'| <= |rest|
            && Chunks(fields[i..], rest, last)
               == [Chunk(rest[..|rest| - |rest'|], fields[i].name, value)] + Chunks(fields[i + 1..], rest', last')
  {
    ParseFieldTakesPrefix(fields[i], rest, last);
    assert fields[i..][1..] == fields[i + 1..];
  }

  lemma {:induction false} TableToShowIsProper(m: seq<byte>)
    ensures ProperTable(TableToShow(m))
  {
    TablesAreProper(0xff);
    if m != [] && Descriptors(m[0]).Some? {
      TablesAreProper(m[0]);
    }
  }

  method DecodeAdvanced(m: seq<byte>) returns (chunks: seq<Chunk>)
    ensures chunks == Chunks(TableToShow(m), m, 0)
  {
    TableToShowIsProper(m);
    chunks := ShowFields(TableToShow(m), m);
  }

  lemma AppendStep(chunks: seq<Chunk>, chunk: Chunk, tail: seq<Chunk>)
    ensures chunks + ([chunk] + tail) == (chunks + [chunk]) + tail
  {
  }

  method ShowFields(fields: seq<Field>, m: seq<byte>) returns (chunks: seq<Chunk>)
    requires HasWidths(fields)
    ensures chunks == Chunks(fields, m, 0)
  {
    chunks := [];
    var lastValue: nat, pos: nat, i := 0, 0, 0;
    while i < |fields|
      invariant i <= |fields|
      invariant chunks + Chunks(fields[i..], From(m, pos), lastValue) == Chunks(fields, m, 0)
    {
      if pos >= |m| {
        break;
      }
      var chunk, next, last := ReadChunk(fields, i, m, pos, lastValue);
      AppendStep(chunks, chunk, Chunks(fields[i + 1..], From(m, next), last));
      chunks := chunks + [chunk];
      pos, lastValue, i := next, last, i + 1;
    }
  }

  method ReadChunk(fields: seq<Field>, i: nat, m: seq<byte>, pos: nat, lastValue: nat)
    returns (chunk: Chunk, next: nat, last: nat)
    requires HasWidths(fields) && i < |fields| && pos < |m|
    ensures Chunks(fields[i..], From(m, pos), lastValue) == [chunk] + Chunks(fields[i + 1..], From(m, next), last)
  {
    var value;
    value, next, last := ReadField(m, fields[i], pos, lastValue);
    chunk := Chunk(Slice(m, pos, next - pos), fields[i].name, value);
    ChunksStep(fields, i, From(m, pos), lastValue);
    SliceOfFrom(m, pos, next - pos);
  }
}
