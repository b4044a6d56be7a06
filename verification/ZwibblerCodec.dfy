/**
 The whiteboard wire format of server/utils/zwibblerDecoder.ts: nine field
 tables, a printer and a parser driven by them. Strings are byte sequences.
 */
module ZwibblerCodec {
  import opened Basics
  import opened Doubles

  type byte = b: int | 0 <= b < 256

  datatype FieldName =
    | MessageType | More | ProtocolVersion | MaxSize | CreationMode | Offset | DocIdLength | DocId | Data
    | RequestId | Lifetime | OldVersion | NewVersion | NameLength | Name | ValueLength | Value
    | DataLength | ErrorCode | Description | Ack | Version
  {
    predicate HoldsText() {
      DocId? || Data? || Name? || Value? || Description?
    }
  }

  /** A number of fixed width, a string counted by the last number, or the rest of the message. */
  datatype Field =
    | NumberField(width: nat, name: FieldName)
    | CountedField(name: FieldName)
    | RestField(name: FieldName)

  /** NaN is what the parser reads where the message is cut short. */
  datatype FieldValue = Num(n: int) | NaN | Text(bytes: seq<byte>)

  type Message = map<FieldName, FieldValue>

  datatype EncodeResult = Encoded(bytes: seq<byte>) | NoEncoder | MissingField(name: FieldName)

  function Descriptors(messageType: int): Option<seq<Field>> {
    match messageType
    case 0x01 => Some([NumberField(1, MessageType), NumberField(1, More), NumberField(2, ProtocolVersion),
                       NumberField(4, MaxSize), NumberField(1, CreationMode), NumberField(8, Offset),
                       NumberField(1, DocIdLength), CountedField(DocId), RestField(Data)])
    case 0x02 => Some([NumberField(1, MessageType), NumberField(1, More), NumberField(8, Offset), RestField(Data)])
    case 0x03 => Some([NumberField(1, MessageType), NumberField(1, More), NumberField(2, RequestId),
                       NumberField(1, Lifetime), NumberField(4, OldVersion), NumberField(4, NewVersion),
                       NumberField(4, NameLength), CountedField(Name), NumberField(4, ValueLength),
                       CountedField(Value)])
    case 0x04 => Some([NumberField(1, MessageType), NumberField(1, More), NumberField(4, DataLength),
                       CountedField(Data)])
    case 0x80 => Some([NumberField(1, MessageType), NumberField(1, More), NumberField(2, ErrorCode),
                       RestField(Description)])
    case 0x81 => Some([NumberField(1, MessageType), NumberField(1, More), NumberField(2, Ack),
                       NumberField(8, Offset)])
    case 0x82 => Some([NumberField(1, MessageType), NumberField(1, More), NumberField(4, Version),
                       NumberField(4, NameLength), CountedField(Name), NumberField(4, ValueLength),
                       CountedField(Value)])
    case 0x83 => Some([NumberField(1, MessageType), NumberField(1, More), NumberField(2, Ack),
                       NumberField(2, RequestId)])
    case 0xff => Some([NumberField(1, MessageType), NumberField(1, More), RestField(Data)])
    case _ => None
  }

  function Names(fields: seq<Field>): set<FieldName> {
    set f | f in fields :: f.name
  }

  ghost predicate DistinctNames(fields: seq<Field>) {
    forall i, j :: 0 <= i < j < |fields| ==> fields[i].name != fields[j].name
  }

  ghost predicate ProperField(f: Field) {
    f.NumberField? != f.name.HoldsText() && (f.NumberField? ==> f.width in {1, 2, 4, 8})
  }

  /** What every table satisfies: see TablesAreProper. */
  ghost predicate ProperTable(fields: seq<Field>) {
    && DistinctNames(fields)
    && (forall i :: 0 <= i < |fields| ==> ProperField(fields[i]))
    && (forall i :: 0 <= i < |fields| - 1 ==> !fields[i].RestField?)
  }

  lemma DistinctRequestNames(messageType: int)
    requires messageType in {0x01, 0x02, 0x03, 0x04}
    ensures DistinctNames(Descriptors(messageType).value)
  {
  }

  lemma DistinctReplyNames(messageType: int)
    requires messageType in {0x80, 0x81, 0x82, 0x83, 0xff}
    ensures DistinctNames(Descriptors(messageType).value)
  {
  }

  lemma RequestFieldsAreProper(messageType: int)
    requires messageType in {0x01, 0x02, 0x03, 0x04}
    ensures var fields := Descriptors(messageType).value;
            && (forall i :: 0 <= i < |fields| ==> ProperField(fields[i]))
            && (forall i :: 0 <= i < |fields| - 1 ==> !fields[i].RestField?)
  {
  }

  lemma ReplyFieldsAreProper(messageType: int)
    requires messageType in {0x80, 0x81, 0x82, 0x83, 0xff}
    ensures var fields := Descriptors(messageType).value;
            && (forall i :: 0 <= i < |fields| ==> ProperField(fields[i]))
            && (forall i :: 0 <= i < |fields| - 1 ==> !fields[i].RestField?)
  {
  }

  lemma {:induction false} TablesAreProper(messageType: int)
    requires Descriptors(messageType).Some?
    ensures var fields := Descriptors(messageType).value;
            ProperTable(fields) && |fields| > 0 && fields[0] == NumberField(1, MessageType)
  {
    if messageType in {0x01, 0x02, 0x03, 0x04} {
      DistinctRequestNames(messageType);
      RequestFieldsAreProper(messageType);
    } else {
      DistinctReplyNames(messageType);
      ReplyFieldsAreProper(messageType);
    }
  }

  /** The value types the Message interface declares. */
  ghost predicate WellTyped(js: Message) {
    forall name <- js :: js[name].Text? == name.HoldsText()
  }

  // ----- Big-endian integers -----

  function Pow256(k: nat): (p: nat)
    ensures p >= 1
  {
    if k == 0 then 1 else 256 * Pow256(k - 1)
  }

  /** The low `size` base-256 digits of n, most significant first (two's complement when n < 0). */
  function Digits(n: int, size: nat): (bytes: seq<byte>)
    ensures |bytes| == size
    decreases size
  {
    if size == 0 then [] else Digits(n / 256, size - 1) + [n % 256]
  }

  function Unsigned(bytes: seq<byte>): nat {
    if bytes == [] then 0 else Unsigned(bytes[..|bytes| - 1]) * 256 + bytes[|bytes| - 1]
  }

  /** The number the parser computes: every partial sum is rounded to a double. */
  function ReadNumber(bytes: seq<byte>): nat {
    if bytes == [] then 0 else Round(ReadNumber(bytes[..|bytes| - 1]) * 256 + bytes[|bytes| - 1])
  }

  lemma {:induction false} DigitsOfValue(bytes: seq<byte>)
    ensures Digits(Unsigned(bytes), |bytes|) == bytes
  {
    if bytes != [] {
      var init := bytes[..|bytes| - 1];
      DigitsOfValue(init);
      assert Unsigned(bytes) / 256 == Unsigned(init) && Unsigned(bytes) % 256 == bytes[|bytes| - 1];
    }
  }

  lemma {:induction false} ValueBound(bytes: seq<byte>)
    ensures Unsigned(bytes) < Pow256(|bytes|)
  {
    if bytes != [] {
      ValueBound(bytes[..|bytes| - 1]);
    }
  }

  /** The digits hold n modulo 256^size. */
  lemma {:induction false} ValueOfDigits(n: int, size: nat) returns (k: int)
    ensures n == Unsigned(Digits(n, size)) + k * Pow256(size)
    decreases size
  {
    if size == 0 {
      k := n;
    } else {
      k := ValueOfDigits(n / 256, size - 1);
      var bytes, p := Digits(n, size), Pow256(size - 1);
      assert bytes[..size - 1] == Digits(n / 256, size - 1);
      assert k * (256 * p) == 256 * (k * p);
    }
  }

  lemma {:induction false} DigitAt(n: int, size: nat, j: nat)
    requires j < size
    ensures Digits(n, size)[j] == n / Pow256(size - 1 - j) % 256
    decreases size
  {
    if j < size - 1 {
      DigitAt(n / 256, size - 1, j);
      DivideTwice(n, Pow256(size - 2 - j));
    }
  }

  lemma {:induction false} DivideTwice(n: int, p: nat)
    requires p >= 1
    ensures n / 256 / p == n / (256 * p)
  {
    var q := n / 256 / p;
    var a, b := n % 256, n / 256 % p;
    assert n == 256 * (p * q + b) + a;
    assert n == (256 * p) * q + (256 * b + a);
    assert 0 <= 256 * b + a < 256 * p;
    DivisionIsUnique(n, 256 * p, q, 256 * b + a);
  }

  lemma {:induction false} DivisionIsUnique(n: int, d: nat, q: int, r: nat)
    requires d >= 1 && n == d * q + r && r < d
    ensures n / d == q
  {
    var q' := n / d;
    var m := n % d;
    assert n == d * q' + m && 0 <= m < d;
    Multiples(d, q - q', m - r);
  }

  /** A multiple of d strictly between -d and d is zero. */
  lemma Multiples(d: int, k: int, x: int)
    requires d * k == x && -d < x < d
    ensures k == 0
  {
    assert k >= 1 ==> d * k >= d;
    assert k <= -1 ==> d * k <= -d;
  }

  /** The digits determine n up to a multiple of 256^size. */
  lemma DigitsWrap(n: int, size: nat)
    ensures var v, p := Unsigned(Digits(n, size)), Pow256(size);
            0 <= v < p && (n == v || n >= v + p || n <= v - p)
  {
    var k := ValueOfDigits(n, size);
    ValueBound(Digits(n, size));
    var v, p := Unsigned(Digits(n, size)), Pow256(size);
    if -p < n - v < p {
      Multiples(p, k, n - v);
    }
  }

  /** Reading is exact below 2^53. */
  lemma {:induction false} ReadsSmallExactly(bytes: seq<byte>)
    requires Unsigned(bytes) < SAFE
    ensures ReadNumber(bytes) == Unsigned(bytes)
  {
    if bytes != [] {
      ReadsSmallExactly(bytes[..|bytes| - 1]);
    }
  }

  lemma {:induction false} ReadIsDouble(bytes: seq<byte>)
    ensures IsDouble(ReadNumber(bytes))
  {
    if bytes != [] {
      RoundIsDouble(ReadNumber(bytes[..|bytes| - 1]) * 256 + bytes[|bytes| - 1]);
    }
  }

  /** At any width a double is read exactly, although it is assembled from its leading bytes. */
  lemma {:induction false} ReadsDoublesExactly(bytes: seq<byte>)
    requires IsDouble(Unsigned(bytes))
    ensures ReadNumber(bytes) == Unsigned(bytes)
  {
    if bytes != [] {
      var init := bytes[..|bytes| - 1];
      HighPartIsDouble(Unsigned(init), bytes[|bytes| - 1]);
      ReadsDoublesExactly(init);
      RoundKeepsDoubles(Unsigned(bytes));
    }
  }

  /** Up to eight bytes, rounding cannot carry a number by a whole 256^size. */
  lemma ReadErrorIsSmall(bytes: seq<byte>)
    requires |bytes| <= 8
    ensures ReadNumber(bytes) < Unsigned(bytes) + Pow256(|bytes|)
    ensures Unsigned(bytes) < ReadNumber(bytes) + Pow256(|bytes|)
  {
    ValueBound(bytes);
    if Unsigned(bytes) < SAFE {
      ReadsSmallExactly(bytes);
    } else {
      Powers();
      if |bytes| <= 6 {
        Pow256Monotone(|bytes|, 6);
        assert false;
      } else if |bytes| == 7 {
        SevenBytes(bytes);
      } else {
        SevenBytes(bytes[..7]);
        RoundClose(ReadNumber(bytes[..7]) * 256 + bytes[7]);
      }
    }
  }

  lemma Powers()
    ensures Pow256(6) == 0x1_0000_0000_0000
    ensures Pow256(7) == 0x100_0000_0000_0000
    ensures Pow256(8) == 0x1_0000_0000_0000_0000
  {
    assert Pow256(4) == 0x1_0000_0000;
  }

  lemma {:induction false} SevenBytes(bytes: seq<byte>)
    requires |bytes| == 7
    ensures ReadNumber(bytes) <= Unsigned(bytes) + 0x4000 && Unsigned(bytes) <= ReadNumber(bytes) + 0x4000
    ensures Unsigned(bytes) < 0x100_0000_0000_0000
  {
    var init := bytes[..6];
    Powers();
    ValueBound(init);
    ReadsSmallExactly(init);
    RoundClose(Unsigned(init) * 256 + bytes[6]);
  }

  lemma {:induction false} Pow256Monotone(a: nat, b: nat)
    requires a <= b
    ensures Pow256(a) <= Pow256(b)
  {
    if a < b {
      Pow256Monotone(a, b - 1);
    }
  }

  lemma RoundClose(n: nat)
    requires n < 0x4_0000_0000_0000_0000
    ensures Round(n) <= n + 0x4000 && n <= Round(n) + 0x4000
  {
    RoundWithinUlp(n);
    if n >= SAFE {
      UlpIsSmall(n);
    }
  }

  /** A number survives printing and parsing exactly when it fits its width and is a double. */
  lemma {:induction false} NumberRoundTrip(n: int, width: nat)
    requires 1 <= width <= 8
    ensures ReadNumber(Digits(n, width)) == n <==> 0 <= n < Pow256(width) && IsDouble(n)
  {
    var bytes := Digits(n, width);
    DigitsWrap(n, width);
    ReadErrorIsSmall(bytes);
    ReadIsDouble(bytes);
    if Unsigned(bytes) == n && IsDouble(n) {
      ReadsDoublesExactly(bytes);
    }
  }

  /** Bytes survive parsing and printing exactly when the number they spell is a double. */
  lemma {:induction false} BytesRoundTrip(bytes: seq<byte>)
    requires |bytes| <= 8
    ensures Digits(ReadNumber(bytes), |bytes|) == bytes <==> IsDouble(Unsigned(bytes))
  {
    var size, r, v := |bytes|, ReadNumber(bytes), Unsigned(bytes);
    DigitsOfValue(bytes);
    ReadIsDouble(bytes);
    if IsDouble(v) {
      ReadsDoublesExactly(bytes);
    } else if Digits(r, size) == bytes {
      DigitsWrap(r, size);
      ReadErrorIsSmall(bytes);
      assert false;
    }
  }

  // ----- Printing -----

  function FieldBytes(f: Field, v: FieldValue): seq<byte> {
    match f
    case NumberField(width, _) => Digits(if v.Num? then v.n else 0, width)
    case _ => if v.Text? then v.bytes else []
  }

  function Print(fields: seq<Field>, js: Message): seq<byte>
    requires Names(fields) <= js.Keys
  {
    if fields == [] then [] else FieldBytes(fields[0], js[fields[0].name]) + Print(fields[1..], js)
  }

  function FirstMissing(fields: seq<Field>, js: Message): Option<FieldName> {
    if fields == [] then None
    else if fields[0].name !in js then Some(fields[0].name)
    else FirstMissing(fields[1..], js)
  }

  function DescriptorsFor(js: Message): Option<seq<Field>> {
    if MessageType in js && js[MessageType].Num? then Descriptors(js[MessageType].n) else None
  }

  lemma {:induction false} NoneMissing(fields: seq<Field>, js: Message)
    ensures FirstMissing(fields, js).None? <==> Names(fields) <= js.Keys
  {
    if fields != [] {
      NoneMissing(fields[1..], js);
      assert fields == [fields[0]] + fields[1..];
      assert Names(fields) == {fields[0].name} + Names(fields[1..]);
    }
  }

  function Encode(js: Message): EncodeResult {
    match DescriptorsFor(js)
    case None => NoEncoder
    case Some(fields) =>
      NoneMissing(fields, js);
      match FirstMissing(fields, js)
      case Some(name) => MissingField(name)
      case None => Encoded(Print(fields, js))
  }

  // ----- Parsing -----

  /** One field read from the front of `rest`: its value, what follows it, and the last number read.
      A cut-short number is NaN and leaves nothing to read; a string takes what there is of it. */
  function ParseField(f: Field, rest: seq<byte>, last: nat): (FieldValue, seq<byte>, nat) {
    match f
    case NumberField(width, _) =>
      if |rest| < width then (NaN, [], 0)
      else var n := ReadNumber(rest[..width]); (Num(n), rest[width..], n)
    case CountedField(_) =>
      var n := if last < |rest| then last else |rest|;
      (Text(rest[..n]), rest[n..], last)
    case RestField(_) => (Text(rest), [], last)
  }

  function Parse(fields: seq<Field>, rest: seq<byte>, last: nat): (js: Message)
    ensures js.Keys == Names(fields)
  {
    if fields == [] then map[]
    else
      var (value, rest', last') := ParseField(fields[0], rest, last);
      assert fields == [fields[0]] + fields[1..];
      map[fields[0].name := value] + Parse(fields[1..], rest', last')
  }

  function Decode(m: seq<byte>): Option<Message> {
    if m == [] then None
    else match Descriptors(m[0])
      case None => None
      case Some(fields) => Some(Parse(fields, m, 0))
  }

  // ----- decode undoes encode -----

  /** A number fits its width and is a double; a counted string has the length its count says.
      A count too large does no harm when no byte follows the string. */
  predicate FaithfulField(f: Field, v: FieldValue, after: seq<byte>, last: nat) {
    match f
    case NumberField(width, _) => v.Num? && 0 <= v.n < Pow256(width) && IsDouble(v.n)
    case CountedField(_) => v.Text? && (|v.bytes| == last || (|v.bytes| < last && after == []))
    case RestField(_) => v.Text?
  }

  predicate Faithful(fields: seq<Field>, js: Message, last: nat)
    requires Names(fields) <= js.Keys
  {
    fields == [] ||
    var f, v := fields[0], js[fields[0].name];
    && FaithfulField(f, v, Print(fields[1..], js), last)
    && Faithful(fields[1..], js, if f.NumberField? then v.n else last)
  }

  lemma FieldRoundTrip(f: Field, v: FieldValue, after: seq<byte>, last: nat)
    requires f.NumberField? ==> 1 <= f.width <= 8
    requires v.Text? != f.NumberField?
    requires f.RestField? ==> after == []
    ensures var (value, rest', last') := ParseField(f, FieldBytes(f, v) + after, last);
            && (value == v <==> FaithfulField(f, v, after, last))
            && (value == v ==> rest' == after && last' == if f.NumberField? then v.n else last)
  {
    var rest := FieldBytes(f, v) + after;
    match f
    case NumberField(width, _) =>
      assert rest[..width] == FieldBytes(f, v) && rest[width..] == after;
      if v.Num? {
        NumberRoundTrip(v.n, width);
      }
    case CountedField(_) =>
      assert rest[..|v.bytes|] == v.bytes && rest[|v.bytes|..] == after;
    case RestField(_) =>
  }

  ghost function Restrict(js: Message, fields: seq<Field>): (r: Message)
    requires Names(fields) <= js.Keys
    ensures r.Keys == Names(fields)
  {
    map name | name in Names(fields) :: js[name]
  }

  lemma TailOf(fields: seq<Field>)
    requires ProperTable(fields) && fields != []
    ensures ProperTable(fields[1..])
    ensures Names(fields) == {fields[0].name} + Names(fields[1..])
    ensures fields[0].name !in Names(fields[1..])
    ensures fields[0].RestField? ==> fields[1..] == []
  {
    var rest := fields[1..];
    assert fields == [fields[0]] + rest;
    assert forall i :: 0 <= i < |rest| ==> rest[i] == fields[i + 1];
  }

  lemma {:induction false} ParseOfPrint(fields: seq<Field>, js: Message, last: nat)
    requires ProperTable(fields) && Names(fields) <= js.Keys && WellTyped(js)
    ensures Parse(fields, Print(fields, js), last) == Restrict(js, fields) <==> Faithful(fields, js, last)
  {
    if fields != [] {
      TailOf(fields);
      var f, v, after := fields[0], js[fields[0].name], Print(fields[1..], js);
      FieldRoundTrip(f, v, after, last);
      var (value, rest', last') := ParseField(f, FieldBytes(f, v) + after, last);
      SplitEquality(fields, js, value, Parse(fields[1..], rest', last'));
      if value == v {
        ParseOfPrint(fields[1..], js, last');
      }
    }
  }

  lemma SplitEquality(fields: seq<Field>, js: Message, value: FieldValue, tail: Message)
    requires ProperTable(fields) && fields != [] && Names(fields) <= js.Keys
    requires tail.Keys == Names(fields[1..])
    ensures Names(fields[1..]) <= Names(fields)
    ensures map[fields[0].name := value] + tail == Restrict(js, fields)
       <==> value == js[fields[0].name] && tail == Restrict(js, fields[1..])
  {
    TailOf(fields);
    ConsEquality(fields[0].name, value, tail, js[fields[0].name], Restrict(js, fields[1..]));
    assert Restrict(js, fields) == map[fields[0].name := js[fields[0].name]] + Restrict(js, fields[1..]);
  }

  lemma ConsEquality(name: FieldName, v: FieldValue, a: Message, w: FieldValue, b: Message)
    requires name !in a && name !in b
    ensures map[name := v] + a == map[name := w] + b <==> v == w && a == b
  {
    var left, right := map[name := v] + a, map[name := w] + b;
    assert left[name] == v && right[name] == w;
    assert left - {name} == a && right - {name} == b;
  }

  lemma FirstByte(fields: seq<Field>, js: Message)
    requires fields != [] && Names(fields) <= js.Keys
    requires fields[0] == NumberField(1, MessageType) && js[MessageType].Num?
    ensures Print(fields, js) != [] && Print(fields, js)[0] == js[MessageType].n % 256
  {
    var t := js[MessageType].n;
    assert Digits(t, 1) == Digits(t / 256, 0) + [t % 256];
  }

  /** Exactly when decode gives back the message that was encoded. */
  lemma {:induction false} DecodeOfEncode(js: Message, fields: seq<Field>)
    requires WellTyped(js) && DescriptorsFor(js) == Some(fields) && Names(fields) <= js.Keys
    ensures Encode(js) == Encoded(Print(fields, js))
    ensures Decode(Print(fields, js)) == Some(js) <==> js.Keys == Names(fields) && Faithful(fields, js, 0)
  {
    TablesAreProper(js[MessageType].n);
    NoneMissing(fields, js);
    DecodeFindsTable(fields, js);
    ParseOfPrint(fields, js, 0);
    RestrictToAll(js, fields);
  }

  lemma RestrictToAll(js: Message, fields: seq<Field>)
    requires Names(fields) <= js.Keys
    ensures Restrict(js, fields) == js <==> js.Keys == Names(fields)
  {
    if js.Keys == Names(fields) {
      assert Restrict(js, fields) == js;
    }
  }

  /** encode fails exactly on an unknown type or an absent field. */
  lemma EncodeFailures(js: Message)
    ensures Encode(js).Encoded? <==> DescriptorsFor(js).Some? && Names(DescriptorsFor(js).value) <= js.Keys
  {
    if DescriptorsFor(js).Some? {
      NoneMissing(DescriptorsFor(js).value, js);
    }
  }

  lemma {:induction false} DecodeFindsTable(fields: seq<Field>, js: Message)
    requires DescriptorsFor(js) == Some(fields) && Names(fields) <= js.Keys
    requires fields != [] && fields[0] == NumberField(1, MessageType)
    ensures Decode(Print(fields, js)) == Some(Parse(fields, Print(fields, js), 0))
  {
    FirstByte(fields, js);
    MessageTypesAreBytes(js[MessageType].n);
  }

  lemma MessageTypesAreBytes(messageType: int)
    requires Descriptors(messageType).Some?
    ensures messageType % 256 == messageType
  {
  }

  /** The messages that the round trip gives back: of a known type, with just the fields of its table, each number a
      double that fits its width, each counted string of the length its count says. */
  ghost predicate Survives(js: Message) {
    && WellTyped(js) && DescriptorsFor(js).Some?
    && js.Keys == Names(DescriptorsFor(js).value) && Faithful(DescriptorsFor(js).value, js, 0)
  }

  /** Two such messages never share an encoding. */
  lemma {:induction false} EncodeIsInjective(a: Message, b: Message)
    ensures Survives(a) && Survives(b) && Encode(a) == Encode(b) ==> a == b
  {
    if Survives(a) && Survives(b) && Encode(a) == Encode(b) {
      DecodeOfEncode(a, DescriptorsFor(a).value);
      DecodeOfEncode(b, DescriptorsFor(b).value);
    }
  }

  // ----- encode undoes decode -----

  /** No number is cut short, every number is a double, and nothing is left over. */
  predicate Covers(fields: seq<Field>, rest: seq<byte>, last: nat) {
    if fields == [] then rest == []
    else
      var (_, rest', last') := ParseField(fields[0], rest, last);
      && (fields[0].NumberField? ==> |rest| >= fields[0].width && IsDouble(Unsigned(rest[..fields[0].width])))
      && Covers(fields[1..], rest', last')
  }

  lemma {:induction false} PrintFrame(fields: seq<Field>, js: Message, name: FieldName, v: FieldValue)
    requires Names(fields) <= js.Keys && name !in Names(fields)
    ensures Print(fields, map[name := v] + js) == Print(fields, js)
  {
    if fields != [] {
      assert fields == [fields[0]] + fields[1..];
      PrintFrame(fields[1..], js, name, v);
    }
  }

  lemma {:induction false} PrintOfParse(fields: seq<Field>, rest: seq<byte>, last: nat)
    requires ProperTable(fields)
    ensures Print(fields, Parse(fields, rest, last)) == rest <==> Covers(fields, rest, last)
  {
    if fields != [] {
      TailOf(fields);
      var f := fields[0];
      var (value, rest', last') := ParseField(f, rest, last);
      var tail := Parse(fields[1..], rest', last');
      PrintFrame(fields[1..], tail, f.name, value);
      PrintOfParse(fields[1..], rest', last');
      var printed := FieldBytes(f, value) + Print(fields[1..], tail);
      match f {
        case NumberField(width, _) =>
          if |rest| >= width {
            BytesRoundTrip(rest[..width]);
            ConcatEquality(FieldBytes(f, value), Print(fields[1..], tail), rest, width);
          }
        case CountedField(_) =>
          ConcatEquality(FieldBytes(f, value), Print(fields[1..], tail), rest, |value.bytes|);
        case RestField(_) =>
      }
    }
  }

  lemma ConcatEquality(a: seq<byte>, b: seq<byte>, c: seq<byte>, n: nat)
    requires |a| == n <= |c|
    ensures a + b == c <==> a == c[..n] && b == c[n..]
  {
    assert (a + b)[..n] == a && (a + b)[n..] == b;
    assert c == c[..n] + c[n..];
  }

  /** Exactly when encode gives back the bytes that were decoded. */
  lemma {:induction false} EncodeOfDecode(m: seq<byte>)
    requires Decode(m).Some?
    ensures Encode(Decode(m).value) == Encoded(m) <==> Covers(Descriptors(m[0]).value, m, 0)
  {
    var fields, js := Descriptors(m[0]).value, Decode(m).value;
    TablesAreProper(m[0]);
    TailOf(fields);
    assert ReadNumber(m[..1]) == m[0] by {
      assert m[..1][..0] == [];
    }
    assert js[MessageType] == Num(m[0]);
    NoneMissing(fields, js);
    PrintOfParse(fields, m, 0);
  }
}
