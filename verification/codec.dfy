/** The binary format of changes and messages: what is written, what is read back, and what a
    signature covers. */
module Codec {
  import opened ByteArrays
  import opened Rows

  /** Qt distinguishes a null value from an empty one. */
  datatype Nullable<+T> = Null | Value(value: T)

  /** The character and JSON codecs.  `fromJson` fails on anything but an object. */
  datatype Texts = Texts(
    toUtf8: string -> Bytes,
    fromUtf8: Bytes -> string,
    toJson: Json -> Bytes,
    fromJson: Bytes -> Option<Json>)

  /** Byte arrays are shorter than two gigabytes; the length field has one value to spare. */
  const MAX_LENGTH := 0x8000_0000

  const NULL_LENGTH := 0xFFFF_FFFF

  datatype Read<+T> = Got(value: T, rest: Bytes) | Failed

  // ---- numbers, big-endian

  function Power(n: nat): (p: nat)
    ensures p > 0
  {
    if n == 0 then 1 else 256 * Power(n - 1)
  }

  function Big(n: nat, x: nat): (b: Bytes)
    requires x < Power(n)
    ensures |b| == n
  {
    if n == 0 then [] else Big(n - 1, x / 256) + [x % 256]
  }

  function FromBig(b: Bytes): (x: nat)
    ensures x < Power(|b|)
  {
    if b == [] then 0 else 256 * FromBig(b[..|b| - 1]) + b[|b| - 1]
  }

  lemma {:induction false} BigInverse(n: nat, x: nat)
    requires x < Power(n)
    ensures FromBig(Big(n, x)) == x
  {
    if n > 0 {
      assert Big(n, x)[..n - 1] == Big(n - 1, x / 256);
      BigInverse(n - 1, x / 256);
    }
  }

  lemma {:induction false} FromBigInverse(b: Bytes)
    ensures Big(|b|, FromBig(b)) == b
  {
    if b != [] {
      var high, low := FromBig(b[..|b| - 1]), b[|b| - 1];
      FromBigInverse(b[..|b| - 1]);
      assert (256 * high + low) / 256 == high && (256 * high + low) % 256 == low;
      assert b == b[..|b| - 1] + [low];
    }
  }

  // ---- writing

  function WriteNumber(n: nat, x: nat): Bytes
    requires x < Power(n)
  {
    Big(n, x)
  }

  ghost predicate Fits(b: Nullable<Bytes>) {
    b.Value? ==> |b.value| < MAX_LENGTH
  }

  lemma LengthsFit()
    ensures Power(4) == 0x1_0000_0000 && MAX_LENGTH < NULL_LENGTH < Power(4)
  {
    assert Power(1) == 256 * Power(0) && Power(2) == 256 * Power(1) && Power(3) == 256 * Power(2);
  }

  function WriteBytes(b: Nullable<Bytes>): Bytes
    requires Fits(b)
  {
    LengthsFit();
    match b
    case Null => WriteNumber(4, NULL_LENGTH)
    case Value(bytes) => WriteNumber(4, |bytes|) + bytes
  }

  function Utf8Of(t: Texts, s: Nullable<string>): Nullable<Bytes> {
    match s
    case Null => Null
    case Value(text) => Value(t.toUtf8(text))
  }

  function StringOf(t: Texts, b: Nullable<Bytes>): Nullable<string> {
    match b
    case Null => Null
    case Value(bytes) => Value(t.fromUtf8(bytes))
  }

  // ---- reading

  function ReadNumber(n: nat, d: Bytes): Read<nat> {
    if |d| < n then Failed else Got(FromBig(d[..n]), d[n..])
  }

  function ReadBytes(d: Bytes): Read<Nullable<Bytes>> {
    match ReadNumber(4, d)
    case Failed => Failed
    case Got(length, rest) =>
      if length == NULL_LENGTH then Got(Null, rest)
      else if |rest| < length || length >= MAX_LENGTH then Failed
      else Got(Value(rest[..length]), rest[length..])
  }

  /** A string must be what its bytes decode to, and encode to these bytes again. */
  function ReadUtf8(t: Texts, d: Bytes): Read<Nullable<string>> {
    match ReadBytes(d)
    case Failed => Failed
    case Got(b, rest) => if Utf8Of(t, StringOf(t, b)) == b then Got(StringOf(t, b), rest) else Failed
  }

  // ---- fields in any order

  /** A flag is a number, an identifier or a tuple several fields in a row, and a list a number of
      records of one kind. */
  datatype Field =
    | Number(size: nat, x: nat)
    | ByteArray(b: Nullable<Bytes>)
    | Text(s: Nullable<string>)
    | List(item: seq<Kind>, records: seq<Record>)

  datatype Record = Record(fields: seq<Field>)

  datatype Kind = NumberKind(size: nat) | ByteArrayKind | TextKind | ListKind(item: seq<Kind>)

  function KindOf(f: Field): Kind {
    match f
    case Number(size, _) => NumberKind(size)
    case ByteArray(_) => ByteArrayKind
    case Text(_) => TextKind
    case List(item, _) => ListKind(item)
  }

  function KindsOf(fields: seq<Field>): seq<Kind> {
    if fields == [] then [] else [KindOf(fields[0])] + KindsOf(fields[1..])
  }

  lemma {:induction false} KindsAt(fields: seq<Field>)
    ensures |KindsOf(fields)| == |fields| && forall i :: 0 <= i < |fields| ==> KindsOf(fields)[i] == KindOf(fields[i])
  {
    if fields != [] { KindsAt(fields[1..]); }
  }

  /** A value that the format can hold: numbers of their size, texts without lone surrogates. */
  ghost predicate Writable(t: Texts, f: Field)
    decreases f
  {
    match f
    case Number(size, x) => x < Power(size)
    case ByteArray(b) => Fits(b)
    case Text(s) => Fits(Utf8Of(t, s)) && StringOf(t, Utf8Of(t, s)) == s
    case List(item, records) => |records| < Power(4) && AreRecords(t, item, records)
  }

  ghost predicate AllWritable(t: Texts, fields: seq<Field>)
    decreases fields
  {
    forall i :: 0 <= i < |fields| ==> Writable(t, fields[i])
  }

  ghost predicate AreRecords(t: Texts, item: seq<Kind>, records: seq<Record>)
    decreases records
  {
    forall i :: 0 <= i < |records| ==> KindsOf(records[i].fields) == item && AllWritable(t, records[i].fields)
  }

  ghost function Write(t: Texts, f: Field): Bytes
    requires Writable(t, f)
    decreases f
  {
    match f
    case Number(size, x) => WriteNumber(size, x)
    case ByteArray(b) => WriteBytes(b)
    case Text(s) => WriteBytes(Utf8Of(t, s))
    case List(item, records) => WriteNumber(4, |records|) + WriteRecords(t, item, records)
  }

  ghost function WriteRecords(t: Texts, item: seq<Kind>, records: seq<Record>): Bytes
    requires AreRecords(t, item, records)
    decreases records
  {
    if records == [] then [] else WriteAll(t, records[0].fields) + WriteRecords(t, item, records[1..])
  }

  function ReadField(t: Texts, k: Kind, d: Bytes): Read<Field>
    decreases k, 0, 0
  {
    match k
    case NumberKind(size) => (match ReadNumber(size, d) case Failed => Failed case Got(x, rest) => Got(Number(size, x), rest))
    case ByteArrayKind => (match ReadBytes(d) case Failed => Failed case Got(b, rest) => Got(ByteArray(b), rest))
    case TextKind => (match ReadUtf8(t, d) case Failed => Failed case Got(s, rest) => Got(Text(s), rest))
    case ListKind(item) =>
      match ReadNumber(4, d)
      case Failed => Failed
      case Got(n, rest) =>
        match ReadRecords(t, item, n, rest)
        case Failed => Failed
        case Got(records, rest') => Got(List(item, records), rest')
  }

  function ReadRecords(t: Texts, item: seq<Kind>, n: nat, d: Bytes): Read<seq<Record>>
    decreases item, 1, n
  {
    if n == 0 then Got([], d)
    else
      match ReadAll(t, item, d)
      case Failed => Failed
      case Got(fields, rest) =>
        match ReadRecords(t, item, n - 1, rest)
        case Failed => Failed
        case Got(records, rest') => Got([Record(fields)] + records, rest')
  }

  ghost function WriteAll(t: Texts, fields: seq<Field>): Bytes
    requires AllWritable(t, fields)
    decreases fields
  {
    if fields == [] then [] else Write(t, fields[0]) + WriteAll(t, fields[1..])
  }

  function ReadAll(t: Texts, kinds: seq<Kind>, d: Bytes): Read<seq<Field>>
    decreases kinds, 0, 0
  {
    if kinds == [] then Got([], d)
    else
      match ReadField(t, kinds[0], d)
      case Failed => Failed
      case Got(f, rest) =>
        match ReadAll(t, kinds[1..], rest)
        case Failed => Failed
        case Got(fields, rest') => Got([f] + fields, rest')
  }

  lemma NumberRoundTrip(n: nat, x: nat, rest: Bytes)
    requires x < Power(n)
    ensures ReadNumber(n, WriteNumber(n, x) + rest) == Got(x, rest)
  {
    BigInverse(n, x);
    var d := Big(n, x) + rest;
    assert d[..n] == Big(n, x) && d[n..] == rest;
  }

  lemma BytesRoundTrip(b: Nullable<Bytes>, rest: Bytes)
    requires Fits(b)
    ensures ReadBytes(WriteBytes(b) + rest) == Got(b, rest)
  {
    LengthsFit();
    match b
    case Null => NumberRoundTrip(4, NULL_LENGTH, rest);
    case Value(bytes) =>
      NumberRoundTrip(4, |bytes|, bytes + rest);
      assert WriteBytes(b) + rest == WriteNumber(4, |bytes|) + (bytes + rest);
      assert (bytes + rest)[..|bytes|] == bytes && (bytes + rest)[|bytes|..] == rest;
  }

  lemma {:induction false} FieldRoundTrip(t: Texts, f: Field, rest: Bytes)
    requires Writable(t, f)
    ensures ReadField(t, KindOf(f), Write(t, f) + rest) == Got(f, rest)
    decreases f
  {
    match f
    case Number(size, x) => NumberRoundTrip(size, x, rest);
    case ByteArray(b) => BytesRoundTrip(b, rest);
    case Text(s) => BytesRoundTrip(Utf8Of(t, s), rest);
    case List(item, records) =>
      var count, data := WriteNumber(4, |records|), WriteRecords(t, item, records);
      NumberRoundTrip(4, |records|, data + rest);
      RecordsRoundTrip(t, item, records, rest);
      CatAssociates(count, data, rest);
  }

  lemma {:induction false} RecordsRoundTrip(t: Texts, item: seq<Kind>, records: seq<Record>, rest: Bytes)
    requires AreRecords(t, item, records)
    ensures ReadRecords(t, item, |records|, WriteRecords(t, item, records) + rest) == Got(records, rest)
    decreases records
  {
    if records == [] {
      assert WriteRecords(t, item, records) + rest == rest;
    } else {
      var first, more := WriteAll(t, records[0].fields), WriteRecords(t, item, records[1..]);
      RoundTrip(t, records[0].fields, more + rest);
      RecordsRoundTrip(t, item, records[1..], rest);
      CatAssociates(first, more, rest);
      assert records == [records[0]] + records[1..];
    }
  }

  lemma ReadAllStep(t: Texts, f: Field, fields: seq<Field>, d: Bytes, more: Bytes, rest: Bytes)
    requires ReadField(t, KindOf(f), d) == Got(f, more) && ReadAll(t, KindsOf(fields), more) == Got(fields, rest)
    ensures ReadAll(t, KindsOf([f] + fields), d) == Got([f] + fields, rest)
  {
    assert ([f] + fields)[1..] == fields;
    assert KindsOf([f] + fields)[1..] == KindsOf(fields);
  }

  /** Any record of fields is read back, up to its end and not further. */
  lemma {:induction false} RoundTrip(t: Texts, fields: seq<Field>, rest: Bytes)
    requires AllWritable(t, fields)
    ensures ReadAll(t, KindsOf(fields), WriteAll(t, fields) + rest) == Got(fields, rest)
    decreases fields
  {
    if fields == [] {
      assert WriteAll(t, fields) + rest == rest;
    } else {
      var first, more := Write(t, fields[0]), WriteAll(t, fields[1..]);
      FieldRoundTrip(t, fields[0], more + rest);
      RoundTrip(t, fields[1..], rest);
      ReadAllStep(t, fields[0], fields[1..], first + (more + rest), more + rest, rest);
      CatAssociates(first, more, rest);
      assert fields == [fields[0]] + fields[1..];
    }
  }

  lemma NumberExact(n: nat, d: Bytes)
    ensures ReadNumber(n, d).Got? ==>
      var r := ReadNumber(n, d); r.value < Power(n) && d == WriteNumber(n, r.value) + r.rest
  {
    if |d| >= n {
      FromBigInverse(d[..n]);
      assert d == d[..n] + d[n..];
    }
  }

  lemma BytesExact(d: Bytes)
    ensures ReadBytes(d).Got? ==>
      var r := ReadBytes(d); Fits(r.value) && d == WriteBytes(r.value) + r.rest
  {
    LengthsFit();
    NumberExact(4, d);
    var r := ReadBytes(d);
    if r.Got? && r.value.Value? {
      var rest := ReadNumber(4, d).rest;
      var length := ReadNumber(4, d).value;
      assert rest == rest[..length] + rest[length..];
    }
  }

  lemma {:induction false} FieldExact(t: Texts, k: Kind, d: Bytes)
    ensures ReadField(t, k, d).Got? ==>
      var r := ReadField(t, k, d); KindOf(r.value) == k && Writable(t, r.value) && d == Write(t, r.value) + r.rest
    decreases k, 0, 0
  {
    match k
    case NumberKind(size) => NumberExact(size, d);
    case ByteArrayKind => BytesExact(d);
    case TextKind => BytesExact(d);
    case ListKind(item) =>
      NumberExact(4, d);
      var n := ReadNumber(4, d);
      if n.Got? {
        RecordsExact(t, item, n.value, n.rest);
        var r := ReadRecords(t, item, n.value, n.rest);
        if r.Got? { CatAssociates(WriteNumber(4, n.value), WriteRecords(t, item, r.value), r.rest); }
      }
  }

  lemma {:induction false} RecordsExact(t: Texts, item: seq<Kind>, n: nat, d: Bytes)
    ensures ReadRecords(t, item, n, d).Got? ==>
      var r := ReadRecords(t, item, n, d);
      |r.value| == n && AreRecords(t, item, r.value) && d == WriteRecords(t, item, r.value) + r.rest
    decreases item, 1, n
  {
    if n == 0 {
      assert [] + d == d;
    } else {
      Exact(t, item, d);
      var first := ReadAll(t, item, d);
      if first.Got? {
        RecordsExact(t, item, n - 1, first.rest);
        var more := ReadRecords(t, item, n - 1, first.rest);
        if more.Got? {
          RecordsJoin(t, item, first.value, more.value, d, first.rest, more.rest);
        }
      }
    }
  }

  /** Whatever is accepted is the encoding of what was read, followed by what is left. */
  lemma {:induction false} Exact(t: Texts, kinds: seq<Kind>, d: Bytes)
    ensures ReadAll(t, kinds, d).Got? ==>
      var r := ReadAll(t, kinds, d);
      KindsOf(r.value) == kinds && AllWritable(t, r.value) && d == WriteAll(t, r.value) + r.rest
    decreases kinds, 0, 0
  {
    if kinds == [] {
      assert [] + d == d;
    } else {
      FieldExact(t, kinds[0], d);
      var f := ReadField(t, kinds[0], d);
      if f.Got? {
        Exact(t, kinds[1..], f.rest);
        var more := ReadAll(t, kinds[1..], f.rest);
        if more.Got? {
          FieldsJoin(t, f.value, more.value, d, f.rest, more.rest);
          assert kinds == [kinds[0]] + kinds[1..];
        }
      }
    }
  }

  lemma RecordsJoin(t: Texts, item: seq<Kind>, fields: seq<Field>, records: seq<Record>, d: Bytes, more: Bytes, rest: Bytes)
    requires KindsOf(fields) == item && AllWritable(t, fields) && AreRecords(t, item, records)
    requires d == WriteAll(t, fields) + more && more == WriteRecords(t, item, records) + rest
    ensures AreRecords(t, item, [Record(fields)] + records)
    ensures d == WriteRecords(t, item, [Record(fields)] + records) + rest
  {
    assert ([Record(fields)] + records)[1..] == records;
    CatAssociates(WriteAll(t, fields), WriteRecords(t, item, records), rest);
  }

  lemma FieldsJoin(t: Texts, f: Field, fields: seq<Field>, d: Bytes, more: Bytes, rest: Bytes)
    requires Writable(t, f) && AllWritable(t, fields) && d == Write(t, f) + more && more == WriteAll(t, fields) + rest
    ensures KindsOf([f] + fields) == [KindOf(f)] + KindsOf(fields)
    ensures AllWritable(t, [f] + fields) && d == WriteAll(t, [f] + fields) + rest
  {
    assert ([f] + fields)[1..] == fields;
    CatAssociates(Write(t, f), WriteAll(t, fields), rest);
  }

  /** Reading is the inverse of writing, for every kind of record: a record is read exactly if
      the data starts with its encoding. */
  lemma ReadIff(t: Texts, fields: seq<Field>, d: Bytes, rest: Bytes)
    ensures ReadAll(t, KindsOf(fields), d) == Got(fields, rest) <==>
            AllWritable(t, fields) && d == WriteAll(t, fields) + rest
  {
    Exact(t, KindsOf(fields), d);
    if AllWritable(t, fields) && d == WriteAll(t, fields) + rest {
      RoundTrip(t, fields, rest);
    }
  }

  /** More data after what was read changes nothing but what is left. */
  lemma ReadMore(t: Texts, kinds: seq<Kind>, p: Bytes, s: Bytes)
    requires ReadAll(t, kinds, p).Got?
    ensures var r := ReadAll(t, kinds, p); ReadAll(t, kinds, p + s) == Got(r.value, r.rest + s)
  {
    Exact(t, kinds, p);
    var r := ReadAll(t, kinds, p);
    RoundTrip(t, r.value, r.rest + s);
    CatAssociates(WriteAll(t, r.value), r.rest, s);
  }

  lemma CatAssociates(a: Bytes, b: Bytes, c: Bytes)
    ensures a + b + c == a + (b + c)
  {}

  /** A strict prefix of an encoding is rejected. */
  lemma PrefixRejected(t: Texts, fields: seq<Field>, p: Bytes)
    requires AllWritable(t, fields) && p < WriteAll(t, fields)
    ensures ReadAll(t, KindsOf(fields), p).Failed?
  {
    var kinds, all := KindsOf(fields), WriteAll(t, fields);
    if ReadAll(t, kinds, p).Got? {
      ReadMore(t, kinds, p, all[|p|..]);
      assert p + all[|p|..] == all == all + [];
      RoundTrip(t, fields, []);
      assert false;
    }
  }

  // ---- the bytes

  function Value4(b: Bytes): nat
    requires |b| == 4
  {
    var w: nat, x: nat, y: nat, z: nat := b[0], b[1], b[2], b[3];
    0x100_0000 * w + 0x1_0000 * x + 0x100 * y + z
  }

  lemma FromFour(b: Bytes)
    requires |b| == 4
    ensures FromBig(b) == Value4(b)
  {
    assert b[..3][..2] == b[..2] && b[..2][..1] == b[..1] && b[..1][..0] == [];
    var w: nat, x: nat, y: nat := b[0], b[1], b[2];
    assert FromBig(b[..1]) == w;
    assert FromBig(b[..2]) == 256 * w + x;
    assert FromBig(b[..3]) == 256 * (256 * w + x) + y;
  }

  /** The most significant byte comes first. */
  lemma FourBytes(x: nat)
    requires x < 0x1_0000_0000
    ensures Power(4) == 0x1_0000_0000 && Value4(WriteNumber(4, x)) == x
  {
    LengthsFit();
    BigInverse(4, x);
    FromFour(WriteNumber(4, x));
  }

  lemma EightBytes(x: nat)
    requires x < Power(8)
    ensures var w := WriteNumber(8, x); 0x1_0000_0000 * Value4(w[..4]) + Value4(w[4..]) == x
  {
    var w := WriteNumber(8, x);
    LengthsFit();
    BigInverse(8, x);
    FromFour(w[..4]);
    assert w[..8] == w && w[..8][..7] == w[..7] && w[..7][..6] == w[..6] && w[..6][..5] == w[..5] && w[..5][..4] == w[..4];
    var p: nat, q: nat, r: nat, z: nat := w[4], w[5], w[6], w[7];
    assert FromBig(w[..5]) == 256 * Value4(w[..4]) + p;
    assert FromBig(w[..6]) == 256 * FromBig(w[..5]) + q;
    assert FromBig(w[..7]) == 256 * FromBig(w[..6]) + r;
    assert FromBig(w) == 256 * FromBig(w[..7]) + z;
  }

  /** Null is four bytes of ones, anything else its length in four bytes and itself. */
  lemma BytesFormat(b: Nullable<Bytes>)
    requires Fits(b)
    ensures
      var w := WriteBytes(b);
      |w| >= 4
      && match b
         case Null => w == [0xFF, 0xFF, 0xFF, 0xFF]
         case Value(bytes) => Value4(w[..4]) == |bytes| && w[4..] == bytes
  {
    FourBytes(if b.Value? then |b.value| else 0xFFFF_FFFF);
    var w := WriteBytes(b);
    if b == Null {
      assert 0 <= w[0] < 256 && 0 <= w[1] < 256 && 0 <= w[2] < 256 && 0 <= w[3] < 256;
    }
  }

  lemma {:induction false} WriteAllSnoc(t: Texts, fields: seq<Field>, f: Field)
    requires AllWritable(t, fields) && Writable(t, f)
    ensures AllWritable(t, fields + [f]) && WriteAll(t, fields + [f]) == WriteAll(t, fields) + Write(t, f)
    decreases |fields|
  {
    if fields == [] {
      assert [f][1..] == [] && [] + [f] == [f];
    } else {
      WriteAllSnoc(t, fields[1..], f);
      assert (fields + [f])[1..] == fields[1..] + [f];
      CatAssociates(Write(t, fields[0]), WriteAll(t, fields[1..]), Write(t, f));
    }
  }

  lemma {:induction false} WriteRecordsSnoc(t: Texts, item: seq<Kind>, records: seq<Record>, r: Record)
    requires AreRecords(t, item, records) && KindsOf(r.fields) == item && AllWritable(t, r.fields)
    ensures AreRecords(t, item, records + [r])
    ensures WriteRecords(t, item, records + [r]) == WriteRecords(t, item, records) + WriteAll(t, r.fields)
    decreases |records|
  {
    if records == [] {
      assert [r][1..] == [] && [] + [r] == [r];
    } else {
      WriteRecordsSnoc(t, item, records[1..], r);
      assert (records + [r])[1..] == records[1..] + [r];
      CatAssociates(WriteAll(t, records[0].fields), WriteRecords(t, item, records[1..]), WriteAll(t, r.fields));
    }
  }

  /** Fields and records follow each other in order; the records come after their number. */
  lemma FieldsFormat(t: Texts, fields: seq<Field>, item: seq<Kind>, records: seq<Record>, f: Field, r: Record)
    requires AllWritable(t, fields) && Writable(t, f)
    requires AreRecords(t, item, records) && KindsOf(r.fields) == item && AllWritable(t, r.fields)
    requires |records| < 0xFFFF_FFFF
    ensures WriteAll(t, []) == [] && WriteAll(t, fields + [f]) == WriteAll(t, fields) + Write(t, f)
    ensures Writable(t, List(item, [])) && Write(t, List(item, [])) == [0, 0, 0, 0]
    ensures Writable(t, List(item, records)) && Writable(t, List(item, records + [r]))
    ensures
      var before, after := Write(t, List(item, records)), Write(t, List(item, records + [r]));
      && |before| >= 4 && |after| >= 4 && Value4(after[..4]) == |records| + 1
      && after[4..] == before[4..] + WriteAll(t, r.fields)
  {
    WriteAllSnoc(t, fields, f);
    WriteRecordsSnoc(t, item, records, r);
    FourBytes(0);
    FourBytes(|records|);
    FourBytes(|records| + 1);
  }

  // ---- changes

  /** The key of an object as the streams see it. */
  datatype Key = Key(typeName: Nullable<Bytes>, id: Nullable<string>)

  datatype Change = Change(key: Key, version: nat, content: Content)

  function PayloadOf(t: Texts, content: Content): Nullable<Bytes> {
    match content
    case Tombstone => Null
    case Live(data) => Value(t.toJson(data))
  }

  /** A missing payload is a deletion, anything else must be a JSON object. */
  function ContentOf(t: Texts, payload: Nullable<Bytes>): Option<Content> {
    match payload
    case Null => Some(Tombstone)
    case Value(json) => match t.fromJson(json) case None => None case Some(data) => Some(Live(data))
  }

  function FieldsOf(key: Key, version: nat, payload: Nullable<Bytes>): seq<Field> {
    [ByteArray(key.typeName), Text(key.id), Number(8, version), ByteArray(payload)]
  }

  const CHANGE_KINDS := [ByteArrayKind, TextKind, NumberKind(8), ByteArrayKind]

  /** A key whose id is a proper text, a 64-bit version and an object of moderate size. */
  ghost predicate IsChange(t: Texts, c: Change) {
    AllWritable(t, FieldsOf(c.key, c.version, PayloadOf(t, c.content)))
  }

  /** Both forms of `combine`, with and without an object. */
  ghost function Combined(t: Texts, c: Change): Bytes
    requires IsChange(t, c)
  {
    WriteAll(t, FieldsOf(c.key, c.version, PayloadOf(t, c.content)))
  }

  function ChangeOf(t: Texts, fields: seq<Field>): Option<Change> {
    if |fields| == 4 && fields[0].ByteArray? && fields[1].Text? && fields[2].Number? && fields[3].ByteArray? then
      match ContentOf(t, fields[3].b)
      case None => None
      case Some(content) => Some(Change(Key(fields[0].b, fields[1].s), fields[2].x, content))
    else None
  }

  function Extracted(t: Texts, d: Bytes): Option<Change> {
    match ReadAll(t, CHANGE_KINDS, d)
    case Failed => None
    case Got(fields, _) => ChangeOf(t, fields)
  }

  ghost predicate InversePair(t: Texts) {
    forall j :: t.fromJson(t.toJson(j)) == Some(j)
  }

  lemma ChangeKinds(key: Key, version: nat, payload: Nullable<Bytes>)
    ensures KindsOf(FieldsOf(key, version, payload)) == CHANGE_KINDS
  {
    KindsAt(FieldsOf(key, version, payload));
  }

  /** A change is its type name, its id, eight bytes of version and the object. */
  lemma ChangeFormat(t: Texts, c: Change)
    requires IsChange(t, c)
    ensures Fits(c.key.typeName) && Fits(PayloadOf(t, c.content)) && c.version < Power(8)
    ensures Fits(if c.key.id.Value? then Value(t.toUtf8(c.key.id.value)) else Null)
    ensures Combined(t, c) ==
            WriteBytes(c.key.typeName)
            + WriteBytes(if c.key.id.Value? then Value(t.toUtf8(c.key.id.value)) else Null)
            + WriteNumber(8, c.version)
            + WriteBytes(if c.content.Live? then Value(t.toJson(c.content.data)) else Null)
  {
    var name, id, version, payload :=
      ByteArray(c.key.typeName), Text(c.key.id), Number(8, c.version), ByteArray(PayloadOf(t, c.content));
    var all := FieldsOf(c.key, c.version, PayloadOf(t, c.content));
    assert all[0] == name && all[1] == id && all[2] == version && all[3] == payload;
    FourInOrder(t, name, id, version, payload);
  }

  lemma FourInOrder(t: Texts, a: Field, b: Field, c: Field, d: Field)
    requires Writable(t, a) && Writable(t, b) && Writable(t, c) && Writable(t, d)
    ensures AllWritable(t, [a, b, c, d])
    ensures WriteAll(t, [a, b, c, d]) == Write(t, a) + Write(t, b) + Write(t, c) + Write(t, d)
  {
    assert WriteAll(t, []) == [];
    WriteAllSnoc(t, [], a);
    WriteAllSnoc(t, [a], b);
    WriteAllSnoc(t, [a, b], c);
    WriteAllSnoc(t, [a, b, c], d);
    assert [] + [a] == [a] && [a] + [b] == [a, b] && [a, b] + [c] == [a, b, c] && [a, b, c] + [d] == [a, b, c, d];
    assert [] + Write(t, a) == Write(t, a);
  }

  lemma ReadAsChange(t: Texts, d: Bytes, fields: seq<Field>, rest: Bytes)
    requires ReadAll(t, KindsOf(fields), d) == Got(fields, rest) && KindsOf(fields) == CHANGE_KINDS
    ensures Extracted(t, d) == ChangeOf(t, fields)
  {}

  lemma WrittenIsRead(t: Texts, fields: seq<Field>, d: Bytes, rest: Bytes)
    requires AllWritable(t, fields) && KindsOf(fields) == CHANGE_KINDS && d == WriteAll(t, fields) + rest
    ensures Extracted(t, d) == ChangeOf(t, fields)
  {
    RoundTrip(t, fields, rest);
    ReadAsChange(t, d, fields, rest);
  }

  /** A change, deleted or not, survives the transport, even with other bytes after it. */
  lemma ExtractInvertsCombine(t: Texts, c: Change, rest: Bytes)
    requires InversePair(t) && IsChange(t, c)
    ensures Extracted(t, Combined(t, c) + rest) == Some(c)
  {
    var payload := PayloadOf(t, c.content);
    ChangeKinds(c.key, c.version, payload);
    WrittenIsRead(t, FieldsOf(c.key, c.version, payload), Combined(t, c) + rest, rest);
    ChangeSurvives(t, c);
  }

  lemma ChangeSurvives(t: Texts, c: Change)
    requires InversePair(t)
    ensures ChangeOf(t, FieldsOf(c.key, c.version, PayloadOf(t, c.content))) == Some(c)
  {
    if c.content.Live? { assert t.fromJson(t.toJson(c.content.data)) == Some(c.content.data); }
  }

  lemma TruncationRejected(t: Texts, c: Change, p: Bytes)
    requires IsChange(t, c) && p < Combined(t, c)
    ensures Extracted(t, p) == None
  {
    var payload := PayloadOf(t, c.content);
    ChangeKinds(c.key, c.version, payload);
    PrefixRejected(t, FieldsOf(c.key, c.version, payload), p);
  }

  /** What is accepted, exactly: a key, a version and a payload with a meaning.  In particular a
      deletion is reported exactly for the null payload. */
  lemma ExtractedIff(t: Texts, d: Bytes, c: Change)
    ensures Extracted(t, d) == Some(c) <==>
            exists payload, rest :: ReadsAs(t, d, c.key, c.version, payload, rest) && ContentOf(t, payload) == Some(c.content)
  {
    Exact(t, CHANGE_KINDS, d);
    var r := ReadAll(t, CHANGE_KINDS, d);
    if Extracted(t, d) == Some(c) {
      FourFields(r.value);
      var payload := r.value[3].b;
      assert r.value == FieldsOf(c.key, c.version, payload);
      assert ReadsAs(t, d, c.key, c.version, payload, r.rest);
    }
    if exists payload, rest :: ReadsAs(t, d, c.key, c.version, payload, rest) && ContentOf(t, payload) == Some(c.content) {
      var payload, rest :| ReadsAs(t, d, c.key, c.version, payload, rest) && ContentOf(t, payload) == Some(c.content);
      ChangeKinds(c.key, c.version, payload);
      RoundTrip(t, FieldsOf(c.key, c.version, payload), rest);
    }
  }

  ghost predicate ReadsAs(t: Texts, d: Bytes, key: Key, version: nat, payload: Nullable<Bytes>, rest: Bytes) {
    AllWritable(t, FieldsOf(key, version, payload)) && d == WriteAll(t, FieldsOf(key, version, payload)) + rest
  }

  lemma FourFields(fields: seq<Field>)
    requires KindsOf(fields) == CHANGE_KINDS
    ensures |fields| == 4 && fields[0].ByteArray? && fields[1].Text? && fields[2].Number? && fields[2].size == 8 && fields[3].ByteArray?
  {
    KindsAt(fields);
    assert KindOf(fields[0]) == CHANGE_KINDS[0] && KindOf(fields[1]) == CHANGE_KINDS[1];
    assert KindOf(fields[2]) == CHANGE_KINDS[2] && KindOf(fields[3]) == CHANGE_KINDS[3];
  }
}
