/** Messages on the wire: the properties of a message in order, and the signature over them. */
module Messages {
  import opened ByteArrays
  import opened Codec
  import opened Rows

  /** `verify` gets the signed bytes and the signature. */
  datatype Verification = Accepted | BadSignature | BadStream

  /** A message may reject its values, or correct them. */
  type Validation = seq<Field> -> Option<seq<Field>>

  /** A missing signature is an empty one. */
  function SignatureOf(b: Nullable<Bytes>): Bytes {
    match b
    case Null => []
    case Value(bytes) => bytes
  }

  class DataStream {
    const data: Bytes
    var pos: nat
    var ok: bool

    constructor (data: Bytes)
      ensures this.data == data && pos == 0 && ok && Rest() == data
    {
      this.data, pos, ok := data, 0, true;
    }

    function Rest(): Bytes
      requires pos <= |data|
      reads this
    {
      data[pos..]
    }

    /** Reads one value; a failure leaves the stream failed. */
    method Load(t: Texts, kind: Kind) returns (value: Field)
      requires pos <= |data|
      modifies this
      ensures old(pos) <= pos <= |data|
      ensures ok <==> old(ok) && ReadField(t, kind, old(Rest())).Got?
      ensures ReadField(t, kind, old(Rest())).Got? ==> Got(value, Rest()) == ReadField(t, kind, old(Rest()))
    {
      LoadedRest(t, kind, data, pos);
      var r := ReadField(t, kind, data[pos..]);
      if r.Failed? {
        ok := false;
        value := Number(0, 0);
      } else {
        value := r.value;
        pos := |data| - |r.rest|;
      }
    }

    /** Reads the properties of a message in order, without type information. */
    method LoadProperties(t: Texts, kinds: seq<Kind>) returns (values: seq<Field>)
      requires pos <= |data| && ok
      modifies this
      ensures old(pos) <= pos <= |data|
      ensures ok <==> ReadAll(t, kinds, old(Rest())).Got?
      ensures ok ==> ReadAll(t, kinds, old(Rest())) == Got(values, Rest())
    {
      values := [];
      for i := 0 to |kinds|
        invariant old(pos) <= pos <= |data|
        invariant ok ==> ReadAll(t, kinds[..i], old(Rest())) == Got(values, Rest())
        invariant !ok ==> ReadAll(t, kinds, old(Rest())).Failed?
      {
        ghost var d, seen, wasOk := Rest(), values, ok;
        var value := Load(t, kinds[i]);
        values := values + [value];
        if wasOk {
          assert kinds == kinds[..i] + [kinds[i]] + kinds[i + 1..];
          ReadAllSnoc(t, kinds[..i], kinds[i], kinds[i + 1..], old(Rest()));
          assert kinds[..i + 1] == kinds[..i] + [kinds[i]];
        }
      }
      assert kinds[..|kinds|] == kinds;
    }

    /** Reads a message as a transaction and validates it.  Data that cannot be read moves the stream
        back to its start, an invalid message does not; after both the stream has failed. */
    method DeserializeMessage(t: Texts, kinds: seq<Kind>, validate: Validation) returns (message: Option<seq<Field>>)
      requires pos <= |data| && ok
      modifies this
      ensures old(pos) <= pos <= |data| && (ok <==> message.Some?)
      ensures message == match ReadAll(t, kinds, old(Rest()))
                         case Failed => None
                         case Got(values, _) => validate(values)
      ensures ok ==> Rest() == ReadAll(t, kinds, old(Rest())).rest
      ensures ReadAll(t, kinds, old(Rest())).Failed? && (forall values :: validate(values).Some?) ==> pos == old(pos)
    {
      var start := pos;
      var values := LoadProperties(t, kinds);
      message := validate(values);
      if message.None? {
        ok := false;
      } else if !ok {
        pos, message := start, None;
      }
    }

    /** Reads the signature at the current position and checks it against everything before. */
    method VerifySignature(t: Texts, verify: (Bytes, Bytes) -> bool) returns (result: Verification)
      requires pos <= |data| && ok
      modifies this
      ensures old(pos) <= pos <= |data| && (ok <==> result != BadStream)
      ensures result == match ReadBytes(old(Rest()))
                        case Failed => BadStream
                        case Got(signature, _) =>
                          if verify(old(data[..pos]), SignatureOf(signature)) then Accepted else BadSignature
      ensures result == BadStream ==> pos == old(pos)
      ensures result != BadStream ==> Rest() == ReadBytes(old(Rest())).rest
    {
      var cPos := pos;
      var signature := Load(t, ByteArrayKind);
      if !ok {
        pos := cPos;
        return BadStream;
      }
      var nPos := pos;
      pos := 0;
      var msgData := data[pos..cPos];
      pos := nPos;
      result := if verify(msgData, SignatureOf(signature.b)) then Accepted else BadSignature;
    }
  }

  /** What is left is the end of the data. */
  lemma LoadedRest(t: Texts, kind: Kind, data: Bytes, pos: nat)
    requires pos <= |data|
    ensures var r := ReadField(t, kind, data[pos..]);
      r.Got? ==> pos <= |data| - |r.rest| && data[|data| - |r.rest|..] == r.rest
  {
    FieldExact(t, kind, data[pos..]);
    var r := ReadField(t, kind, data[pos..]);
    if r.Got? { SuffixIs(data, pos, Write(t, r.value), r.rest); }
  }

  lemma SuffixIs(data: Bytes, pos: nat, first: Bytes, rest: Bytes)
    requires pos <= |data| && data[pos..] == first + rest
    ensures pos <= |data| - |rest| && data[|data| - |rest|..] == rest
  {
    assert data[pos..][|first|..] == rest;
  }

  /** Reading one more value after some others. */
  lemma {:induction false} ReadAllSnoc(t: Texts, kinds: seq<Kind>, kind: Kind, more: seq<Kind>, d: Bytes)
    requires ReadAll(t, kinds, d).Got?
    ensures
      var r := ReadAll(t, kinds, d);
      match ReadField(t, kind, r.rest)
      case Failed => ReadAll(t, kinds + [kind] + more, d).Failed?
      case Got(f, rest) => ReadAll(t, kinds + [kind], d) == Got(r.value + [f], rest)
    decreases |kinds|
  {
    if kinds == [] {
      assert kinds + [kind] == [kind] && kinds + [kind] + more == [kind] + more;
      assert ([kind] + more)[1..] == more && [kind][1..] == [];
      var last := ReadField(t, kind, d);
      if last.Got? { assert [] + [last.value] == [last.value] + []; }
    } else {
      var rest := ReadField(t, kinds[0], d).rest;
      ReadAllSnoc(t, kinds[1..], kind, more, rest);
      assert (kinds + [kind])[1..] == kinds[1..] + [kind];
      assert (kinds + [kind] + more)[1..] == kinds[1..] + [kind] + more;
      var first, later := ReadField(t, kinds[0], d).value, ReadAll(t, kinds[1..], rest);
      var last := ReadField(t, kind, later.rest);
      if last.Got? {
        assert [first] + (later.value + [last.value]) == [first] + later.value + [last.value];
      }
    }
  }

  // ---- signed messages

  /** The properties, then the signature over their bytes. */
  ghost function SerializedSigned(t: Texts, fields: seq<Field>, sign: Bytes -> Bytes): Bytes
    requires AllWritable(t, fields) && |sign(WriteAll(t, fields))| < MAX_LENGTH
  {
    WriteAll(t, fields) + WriteBytes(Value(sign(WriteAll(t, fields))))
  }

  /** What a reader concludes: the message it read, and whether its signature was accepted. */
  function Received(t: Texts, kinds: seq<Kind>, d: Bytes, validate: Validation, verify: (Bytes, Bytes) -> bool)
    : (Option<seq<Field>>, Verification)
  {
    match ReadAll(t, kinds, d)
    case Failed => (None, BadStream)
    case Got(fields, rest) =>
      if validate(fields).None? then (None, BadStream)
      else
        match ReadBytes(rest)
        case Failed => (validate(fields), BadStream)
        case Got(signature, _) =>
          var read := |d| - |rest|;
          (validate(fields), if 0 <= read && verify(d[..read], SignatureOf(signature)) then Accepted else BadSignature)
  }

  /** The two calls of the receiver compute that. */
  method Receive(t: Texts, kinds: seq<Kind>, d: Bytes, validate: Validation, verify: (Bytes, Bytes) -> bool)
    returns (message: Option<seq<Field>>, result: Verification)
    ensures (message, result) == Received(t, kinds, d, validate, verify)
  {
    var stream := new DataStream(d);
    message := stream.DeserializeMessage(t, kinds, validate);
    if message.None? {
      return None, BadStream;
    }
    assert stream.pos == |d| - |stream.Rest()|;
    result := stream.VerifySignature(t, verify);
  }

  /** An ideal signature: only the signer's own signature of a message verifies. */
  ghost predicate IdealSignature(sign: Bytes -> Bytes, verify: (Bytes, Bytes) -> bool) {
    && (forall m, s :: verify(m, s) <==> s == sign(m))
    && (forall m :: 0 < |sign(m)| < MAX_LENGTH)
  }

  /** `d` starts with the signed encoding of `fields`, which are valid as `message`. */
  ghost predicate SignedAs(t: Texts, kinds: seq<Kind>, d: Bytes, validate: Validation, sign: Bytes -> Bytes,
      fields: seq<Field>, message: seq<Field>)
  {
    && KindsOf(fields) == kinds && AllWritable(t, fields) && validate(fields) == Some(message)
    && |sign(WriteAll(t, fields))| < MAX_LENGTH && SerializedSigned(t, fields, sign) <= d
  }

  /** The bytes that are verified are exactly the bytes that were signed: a message is accepted
      exactly if the data starts with the signed encoding of a valid message. */
  lemma AcceptedIff(t: Texts, kinds: seq<Kind>, d: Bytes, validate: Validation, sign: Bytes -> Bytes,
      verify: (Bytes, Bytes) -> bool, message: seq<Field>)
    requires IdealSignature(sign, verify)
    ensures Received(t, kinds, d, validate, verify) == (Some(message), Accepted) <==>
            exists fields :: SignedAs(t, kinds, d, validate, sign, fields, message)
  {
    if Received(t, kinds, d, validate, verify) == (Some(message), Accepted) {
      AcceptedIsSigned(t, kinds, d, validate, sign, verify);
      assert SignedAs(t, kinds, d, validate, sign, ReadAll(t, kinds, d).value, message);
    }
    if fields :| SignedAs(t, kinds, d, validate, sign, fields, message) {
      SignedIsAccepted(t, fields, d[|SerializedSigned(t, fields, sign)|..], validate, sign, verify);
      assert d == SerializedSigned(t, fields, sign) + d[|SerializedSigned(t, fields, sign)|..];
    }
  }

  lemma SignedIsAccepted(t: Texts, fields: seq<Field>, rest: Bytes, validate: Validation, sign: Bytes -> Bytes,
      verify: (Bytes, Bytes) -> bool)
    requires IdealSignature(sign, verify) && AllWritable(t, fields) && validate(fields).Some?
    ensures Received(t, KindsOf(fields), SerializedSigned(t, fields, sign) + rest, validate, verify) == (validate(fields), Accepted)
  {
    var m := WriteAll(t, fields);
    var signature := WriteBytes(Value(sign(m)));
    RoundTrip(t, fields, signature + rest);
    BytesRoundTrip(Value(sign(m)), rest);
    CatAssociates(m, signature, rest);
    TakeFirst(m, signature + rest);
  }

  lemma TakeFirst(a: Bytes, b: Bytes)
    ensures |a + b| - |b| == |a| && (a + b)[..|a|] == a
  {}

  lemma AcceptedIsSigned(t: Texts, kinds: seq<Kind>, d: Bytes, validate: Validation, sign: Bytes -> Bytes,
      verify: (Bytes, Bytes) -> bool)
    requires IdealSignature(sign, verify)
    requires Received(t, kinds, d, validate, verify).1 == Accepted
    ensures
      var r := ReadAll(t, kinds, d);
      r.Got? && KindsOf(r.value) == kinds && AllWritable(t, r.value) && SerializedSigned(t, r.value, sign) <= d
  {
    Exact(t, kinds, d);
    var fields, rest := ReadAll(t, kinds, d).value, ReadAll(t, kinds, d).rest;
    BytesExact(rest);
    var m, signature := WriteAll(t, fields), ReadBytes(rest).value;
    assert d == m + rest && d[..|d| - |rest|] == m;
    assert SignatureOf(signature) == sign(m);
    assert signature == Value(sign(m));
    assert rest == WriteBytes(signature) + ReadBytes(rest).rest;
    CatAssociates(m, WriteBytes(signature), ReadBytes(rest).rest);
  }
}
