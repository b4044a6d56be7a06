/**
 Where the fields of each whiteboard message stand (server/utils/zwibblerDecoder.ts),
     and what the detailed decoder shows
 of a message.
 */
module ZwibblerLayout {
  import opened Basics
  import opened ZwibblerCodec
  import opened ZwibblerCoder

  // ----- The bytes of a message -----

  /** A number, big-endian in its width. */
  function N(js: Message, name: FieldName, width: nat): seq<byte> {
    if name in js && js[name].Num? then Digits(js[name].n, width) else Digits(0, width)
  }

  /** A string. */
  function T(js: Message, name: FieldName): seq<byte> {
    if name in js && js[name].Text? then js[name].bytes else []
  }

  predicate Encodes(js: Message, messageType: int) {
    MessageType in js && js[MessageType] == Num(messageType) && Encode(js).Encoded?
  }

  function Part(js: Message, f: Field): seq<byte> {
    if f.NumberField? then N(js, f.name, f.width) else T(js, f.name)
  }

  ghost function PrintedFrom(fields: seq<Field>, js: Message, i: nat): seq<byte>
    requires i <= |fields|
  {
    if Names(fields[i..]) <= js.Keys then Print(fields[i..], js) else []
  }

  lemma PrintSteps(fields: seq<Field>, js: Message)
    requires Names(fields) <= js.Keys
    ensures forall i :: 0 <= i < |fields| ==>
              PrintedFrom(fields, js, i) == Part(js, fields[i]) + PrintedFrom(fields, js, i + 1)
  {
    forall i | 0 <= i < |fields|
      ensures PrintedFrom(fields, js, i) == Part(js, fields[i]) + PrintedFrom(fields, js, i + 1)
    {
      assert forall f <- fields[i..] :: f in fields;
      assert forall f <- fields[i + 1..] :: f in fields;
      assert forall f <- fields :: f.name in Names(fields);
      assert fields[i] in fields && fields[i..][1..] == fields[i + 1..];
    }
  }

  lemma PrintedAll(js: Message, messageType: int)
    requires Encodes(js, messageType)
    ensures var fields := Descriptors(messageType);
            && fields.Some? && Names(fields.value) <= js.Keys
            && Encode(js).bytes == PrintedFrom(fields.value, js, 0)
            && PrintedFrom(fields.value, js, |fields.value|) == []
  {
    EncodeFailures(js);
    var fields := Descriptors(messageType).value;
    assert fields[0..] == fields && fields[|fields|..] == [];
  }

  // The nine messages, field by field.

  lemma InitialConnectionTable()
    ensures Descriptors(0x01).Some?
    ensures var fields := Descriptors(0x01).value;
            && |fields| == 9 && fields[0] == NumberField(1, MessageType)
            && fields[1] == NumberField(1, More) && fields[2] == NumberField(2, ProtocolVersion)
            && fields[3] == NumberField(4, MaxSize) && fields[4] == NumberField(1, CreationMode)
            && fields[5] == NumberField(8, Offset) && fields[6] == NumberField(1, DocIdLength)
            && fields[7] == CountedField(DocId) && fields[8] == RestField(Data)
  {
  }

  lemma InitialConnectionLayout(js: Message)
    requires Encodes(js, 0x01)
    ensures Encode(js).bytes
         == N(js, MessageType, 1) + (N(js, More, 1) + (N(js, ProtocolVersion, 2) + (N(js, MaxSize, 4) +
            (N(js, CreationMode, 1) + (N(js, Offset, 8) + (N(js, DocIdLength, 1) + (T(js, DocId) +
            (T(js, Data)))))))))
  {
    hide Descriptors, PrintedFrom, Names, N, T, Encodes, Encode;
    InitialConnectionTable();
    PrintedAll(js, 0x01);
    var fields := Descriptors(0x01).value;
    PrintSteps(fields, js);
    assert T(js, Data) + [] == T(js, Data);
  }

  lemma AppendTable()
    ensures Descriptors(0x02).Some?
    ensures var fields := Descriptors(0x02).value;
            && |fields| == 4 && fields[0] == NumberField(1, MessageType)
            && fields[1] == NumberField(1, More) && fields[2] == NumberField(8, Offset)
            && fields[3] == RestField(Data)
  {
  }

  lemma AppendLayout(js: Message)
    requires Encodes(js, 0x02)
    ensures Encode(js).bytes
         == N(js, MessageType, 1) + (N(js, More, 1) + (N(js, Offset, 8) + (T(js, Data))))
  {
    hide Descriptors, PrintedFrom, Names, N, T, Encodes, Encode;
    AppendTable();
    PrintedAll(js, 0x02);
    var fields := Descriptors(0x02).value;
    PrintSteps(fields, js);
    assert T(js, Data) + [] == T(js, Data);
  }

  lemma SetKeyTable()
    ensures Descriptors(0x03).Some?
    ensures var fields := Descriptors(0x03).value;
            && |fields| == 10 && fields[0] == NumberField(1, MessageType)
            && fields[1] == NumberField(1, More) && fields[2] == NumberField(2, RequestId)
            && fields[3] == NumberField(1, Lifetime) && fields[4] == NumberField(4, OldVersion)
            && fields[5] == NumberField(4, NewVersion) && fields[6] == NumberField(4, NameLength)
            && fields[7] == CountedField(Name) && fields[8] == NumberField(4, ValueLength)
            && fields[9] == CountedField(Value)
  {
  }

  lemma SetKeyLayout(js: Message)
    requires Encodes(js, 0x03)
    ensures Encode(js).bytes
         == N(js, MessageType, 1) + (N(js, More, 1) + (N(js, RequestId, 2) + (N(js, Lifetime, 1) +
            (N(js, OldVersion, 4) + (N(js, NewVersion, 4) + (N(js, NameLength, 4) + (T(js, Name) +
            (N(js, ValueLength, 4) + (T(js, Value))))))))))
  {
    hide Descriptors, PrintedFrom, Names, N, T, Encodes, Encode;
    SetKeyTable();
    PrintedAll(js, 0x03);
    var fields := Descriptors(0x03).value;
    PrintSteps(fields, js);
    assert T(js, Value) + [] == T(js, Value);
  }

  lemma BroadcastTable()
    ensures Descriptors(0x04).Some?
    ensures var fields := Descriptors(0x04).value;
            && |fields| == 4 && fields[0] == NumberField(1, MessageType)
            && fields[1] == NumberField(1, More) && fields[2] == NumberField(4, DataLength)
            && fields[3] == CountedField(Data)
  {
  }

  lemma BroadcastLayout(js: Message)
    requires Encodes(js, 0x04)
    ensures Encode(js).bytes
         == N(js, MessageType, 1) + (N(js, More, 1) + (N(js, DataLength, 4) + (T(js, Data))))
  {
    hide Descriptors, PrintedFrom, Names, N, T, Encodes, Encode;
    BroadcastTable();
    PrintedAll(js, 0x04);
    var fields := Descriptors(0x04).value;
    PrintSteps(fields, js);
    assert T(js, Data) + [] == T(js, Data);
  }

  lemma ErrorTable()
    ensures Descriptors(0x80).Some?
    ensures var fields := Descriptors(0x80).value;
            && |fields| == 4 && fields[0] == NumberField(1, MessageType)
            && fields[1] == NumberField(1, More) && fields[2] == NumberField(2, ErrorCode)
            && fields[3] == RestField(Description)
  {
  }

  lemma ErrorLayout(js: Message)
    requires Encodes(js, 0x80)
    ensures Encode(js).bytes
         == N(js, MessageType, 1) + (N(js, More, 1) + (N(js, ErrorCode, 2) + (T(js, Description))))
  {
    hide Descriptors, PrintedFrom, Names, N, T, Encodes, Encode;
    ErrorTable();
    PrintedAll(js, 0x80);
    var fields := Descriptors(0x80).value;
    PrintSteps(fields, js);
    assert T(js, Description) + [] == T(js, Description);
  }

  lemma AckNackTable()
    ensures Descriptors(0x81).Some?
    ensures var fields := Descriptors(0x81).value;
            && |fields| == 4 && fields[0] == NumberField(1, MessageType)
            && fields[1] == NumberField(1, More) && fields[2] == NumberField(2, Ack)
            && fields[3] == NumberField(8, Offset)
  {
  }

  lemma AckNackLayout(js: Message)
    requires Encodes(js, 0x81)
    ensures Encode(js).bytes
         == N(js, MessageType, 1) + (N(js, More, 1) + (N(js, Ack, 2) + (N(js, Offset, 8))))
  {
    hide Descriptors, PrintedFrom, Names, N, T, Encodes, Encode;
    AckNackTable();
    PrintedAll(js, 0x81);
    var fields := Descriptors(0x81).value;
    PrintSteps(fields, js);
    assert N(js, Offset, 8) + [] == N(js, Offset, 8);
  }

  lemma KeyInformationTable()
    ensures Descriptors(0x82).Some?
    ensures var fields := Descriptors(0x82).value;
            && |fields| == 7 && fields[0] == NumberField(1, MessageType)
            && fields[1] == NumberField(1, More) && fields[2] == NumberField(4, Version)
            && fields[3] == NumberField(4, NameLength) && fields[4] == CountedField(Name)
            && fields[5] == NumberField(4, ValueLength) && fields[6] == CountedField(Value)
  {
  }

  lemma KeyInformationLayout(js: Message)
    requires Encodes(js, 0x82)
    ensures Encode(js).bytes
         == N(js, MessageType, 1) + (N(js, More, 1) + (N(js, Version, 4) + (N(js, NameLength, 4) +
            (T(js, Name) + (N(js, ValueLength, 4) + (T(js, Value)))))))
  {
    hide Descriptors, PrintedFrom, Names, N, T, Encodes, Encode;
    KeyInformationTable();
    PrintedAll(js, 0x82);
    var fields := Descriptors(0x82).value;
    PrintSteps(fields, js);
    assert T(js, Value) + [] == T(js, Value);
  }

  lemma SetKeyAckTable()
    ensures Descriptors(0x83).Some?
    ensures var fields := Descriptors(0x83).value;
            && |fields| == 4 && fields[0] == NumberField(1, MessageType)
            && fields[1] == NumberField(1, More) && fields[2] == NumberField(2, Ack)
            && fields[3] == NumberField(2, RequestId)
  {
  }

  lemma SetKeyAckLayout(js: Message)
    requires Encodes(js, 0x83)
    ensures Encode(js).bytes
         == N(js, MessageType, 1) + (N(js, More, 1) + (N(js, Ack, 2) + (N(js, RequestId, 2))))
  {
    hide Descriptors, PrintedFrom, Names, N, T, Encodes, Encode;
    SetKeyAckTable();
    PrintedAll(js, 0x83);
    var fields := Descriptors(0x83).value;
    PrintSteps(fields, js);
    assert N(js, RequestId, 2) + [] == N(js, RequestId, 2);
  }

  lemma ContinuationTable()
    ensures Descriptors(0xff).Some?
    ensures var fields := Descriptors(0xff).value;
            && |fields| == 3 && fields[0] == NumberField(1, MessageType)
            && fields[1] == NumberField(1, More) && fields[2] == RestField(Data)
  {
  }

  lemma ContinuationLayout(js: Message)
    requires Encodes(js, 0xff)
    ensures Encode(js).bytes
         == N(js, MessageType, 1) + (N(js, More, 1) + (T(js, Data)))
  {
    hide Descriptors, PrintedFrom, Names, N, T, Encodes, Encode;
    ContinuationTable();
    PrintedAll(js, 0xff);
    var fields := Descriptors(0xff).value;
    PrintSteps(fields, js);
    assert T(js, Data) + [] == T(js, Data);
  }

  // ----- What the detailed decoder shows -----

  /** The fields are shown in the order of the table, and only the end of the message stops it. */
  lemma {:induction false} ChunksFollowTable(fields: seq<Field>, rest: seq<byte>, last: nat)
    ensures var chunks := Chunks(fields, rest, last);
            && |chunks| <= |fields|
            && (forall k :: 0 <= k < |chunks| ==> chunks[k].fieldName == fields[k].name)
            && (|chunks| < |fields| ==> Raw(chunks) == rest)
  {
    if fields != [] && rest != [] {
      var (_, rest', last') := ParseField(fields[0], rest, last);
      ParseFieldTakesPrefix(fields[0], rest, last);
      ChunksFollowTable(fields[1..], rest', last');
    }
  }

  /** What decode reads where nothing is left. */
  predicate ReadPastEnd(v: FieldValue) {
    v == NaN || v == Text([])
  }

  predicate IsShown(chunks: seq<Chunk>, name: FieldName, v: FieldValue) {
    exists c <- chunks :: c.fieldName == name && c.decoded == v
  }

  lemma {:induction false} PastEnd(fields: seq<Field>, last: nat)
    requires HasWidths(fields)
    ensures forall name <- Parse(fields, [], last) :: ReadPastEnd(Parse(fields, [], last)[name])
  {
    if fields != [] {
      var (_, rest', last') := ParseField(fields[0], [], last);
      PastEnd(fields[1..], last');
    }
  }

  /** Every field that decode returns is shown, with the value it returns, but for those read past the end of the
      message. */
  lemma {:induction false} ShownUnlessPastEnd(fields: seq<Field>, rest: seq<byte>, last: nat, name: FieldName)
    requires ProperTable(fields) && HasWidths(fields) && name in Names(fields)
    ensures var chunks, js := Chunks(fields, rest, last), Parse(fields, rest, last);
            IsShown(chunks, name, js[name]) || ReadPastEnd(js[name])
  {
    if rest == [] {
      PastEnd(fields, last);
    } else {
      TailOf(fields);
      var (value, rest', last') := ParseField(fields[0], rest, last);
      var tail := Chunks(fields[1..], rest', last');
      ChunksStep(fields, 0, rest, last);
      assert fields[0..] == fields;
      var head := Chunks(fields, rest, last)[0];
      assert Chunks(fields, rest, last) == [head] + tail;
      assert forall c :: c in [head] + tail <==> c == head || c in tail;
      if name != fields[0].name {
        ShownUnlessPastEnd(fields[1..], rest', last', name);
      }
    }
  }

  /** A message of a known type: what is shown and what decode returns are the same, in the order of the type's
      table, but for fields past the end of the message. */
  lemma AdvancedShowsDecoded(m: seq<byte>)
    requires Decode(m).Some?
    ensures var chunks, js, fields := Chunks(TableToShow(m), m, 0), Decode(m).value, Descriptors(m[0]).value;
            && (forall k :: 0 <= k < |chunks| ==>
                  k < |fields| && chunks[k].fieldName == fields[k].name
                  && chunks[k].fieldName in js && js[chunks[k].fieldName] == chunks[k].decoded)
            && (forall name <- js ::
                  IsShown(chunks, name, js[name]) || ReadPastEnd(js[name]))
            && (|chunks| == |fields| || Raw(chunks) == m)
  {
    var fields := Descriptors(m[0]).value;
    var chunks := Chunks(fields, m, 0);
    TablesAreProper(m[0]);
    ChunksFollowTable(fields, m, 0);
    forall k | 0 <= k < |chunks|
      ensures chunks[k].fieldName in Decode(m).value && Decode(m).value[chunks[k].fieldName] == chunks[k].decoded
    {
      ChunksAgreeWithParse(fields, m, 0, k);
    }
    forall name | name in Decode(m).value
      ensures IsShown(chunks, name, Decode(m).value[name]) || ReadPastEnd(Decode(m).value[name])
    {
      ShownUnlessPastEnd(fields, m, 0, name);
    }
  }

  /** A message of an unknown type is shown as a type, a continuation flag and data, as far as it goes. */
  lemma AdvancedShowsUnknown(m: seq<byte>)
    requires Decode(m).None?
    ensures Chunks(TableToShow(m), m, 0)
         == (if m == [] then [] else [Chunk(m[..1], MessageType, Num(m[0]))])
            + (if |m| < 2 then [] else [Chunk(m[1..2], More, Num(m[1]))])
            + (if |m| < 3 then [] else [Chunk(m[2..], Data, Text(m[2..]))])
  {
    hide *;
    TableOfUnknown(m);
    NoChunks();
    var more, data := [NumberField(1, More), RestField(Data)], [RestField(Data)];
    if m != [] {
      assert ([NumberField(1, MessageType)] + more)[1..] == more;
      ByteShown([NumberField(1, MessageType)] + more, MessageType, m, 0);
      assert |m| == 1 ==> m[1..] == [];
      if |m| >= 2 {
        assert more[1..] == data && (|m| == 2 ==> m[2..] == []);
        ByteShown(more, More, m[1..], m[0]);
        assert m[1..][..1] == m[1..2] && m[1..][1..] == m[2..];
        if |m| >= 3 {
          RestShown(data, m[2..], m[1]);
        }
      }
    }
  }

  lemma TableOfUnknown(m: seq<byte>)
    requires Decode(m).None?
    ensures TableToShow(m) == [NumberField(1, MessageType)] + [NumberField(1, More), RestField(Data)]
  {
    ContinuationTable();
  }

  lemma ByteShown(fields: seq<Field>, name: FieldName, rest: seq<byte>, last: nat)
    requires fields != [] && fields[0] == NumberField(1, name) && rest != []
    ensures Chunks(fields, rest, last)
         == [Chunk(rest[..1], name, Num(rest[0]))] + Chunks(fields[1..], rest[1..], rest[0])
  {
    OneByte(rest[0]);
    assert rest[..1] == [rest[0]] && fields[0..] == fields;
    ChunksStep(fields, 0, rest, last);
  }

  lemma RestShown(fields: seq<Field>, rest: seq<byte>, last: nat)
    requires fields == [RestField(Data)] && rest != []
    ensures Chunks(fields, rest, last) == [Chunk(rest, Data, Text(rest))]
  {
    ChunksStep(fields, 0, rest, last);
    assert fields[0..] == fields && fields[1..] == [] && rest[..|rest|] == rest;
  }

  lemma NoChunks()
    ensures forall fields, last :: Chunks(fields, [], last) == []
    ensures forall rest, last :: Chunks([], rest, last) == []
  {
  }

  lemma OneByte(b: byte)
    ensures ReadNumber([b]) == b
  {
    assert [b][..0] == [];
    assert Unsigned([b]) == b;
    ReadsSmallExactly([b]);
  }
}
