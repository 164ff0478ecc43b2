/** The journald field encoding and a decoder for it (systemd Native Journal Protocol, "Data
    Format"). */
module Journal {
  import opened Bytes
  import opened Wrappers

  const NEWLINE: byte := 10

  const EQUALS: byte := 61

  const U64_LIMIT: nat := 0x1_0000_0000_0000_0000

  datatype Field = Field(key: seq<byte>, value: seq<byte>)

  /** One field: text when the value has no newline, else the length-prefixed binary form. */
  function EncodeField(f: Field): seq<byte> {
    if NEWLINE in f.value then f.key + [NEWLINE] + LittleEndian(|f.value|, 8) + f.value + [NEWLINE]
    else f.key + [EQUALS] + f.value + [NEWLINE]
  }

  function Encode(fields: seq<Field>): seq<byte> {
    if fields == [] then [] else EncodeField(fields[0]) + Encode(fields[1..])
  }

  /** The body of the loop in `try_send`: push one field's bytes. */
  method PushField(msg: seq<byte>, f: Field) returns (msg': seq<byte>)
    ensures msg' == msg + EncodeField(f)
  {
    hide LittleEndian;
    if NEWLINE in f.value {
      msg' := msg + f.key;
      msg' := msg' + [NEWLINE];
      msg' := msg' + LittleEndian(|f.value|, 8);
      msg' := msg' + f.value;
      msg' := msg' + [NEWLINE];
    } else {
      msg' := msg + f.key;
      msg' := msg' + [EQUALS];
      msg' := msg' + f.value;
      msg' := msg' + [NEWLINE];
    }
  }

  /** The encoding loop of `try_send`. */
  method EncodeMessage(fields: seq<Field>) returns (msg: seq<byte>)
    ensures msg == Encode(fields)
  {
    hide EncodeField;
    msg := [];
    var i := 0;
    assert fields[0..] == fields;
    while i < |fields|
      invariant i <= |fields| && msg + Encode(fields[i..]) == Encode(fields)
    {
      assert fields[i..][1..] == fields[i + 1..];
      assert msg + EncodeField(fields[i]) + Encode(fields[i + 1..]) ==
        msg + (EncodeField(fields[i]) + Encode(fields[i + 1..]));
      msg := PushField(msg, fields[i]);
      i := i + 1;
    }
  }

  // ----- decoding -----

  datatype Step = Malformed | Next(field: Field, used: nat)

  /** The first field of a non-empty message. A key ends at the first equals sign or newline. */
  function DecodeField(msg: seq<byte>): (s: Step)
    ensures s.Next? ==> 0 < s.used <= |msg|
  {
    var i := Index(msg, 0, {EQUALS, NEWLINE});
    if i == |msg| then Malformed
    else if msg[i] == EQUALS then
      var j := Index(msg, i + 1, {NEWLINE});
      if j == |msg| then Malformed else Next(Field(msg[..i], msg[i + 1..j]), j + 1)
    else if |msg| < i + 9 then Malformed
    else
      var n := FromLittleEndian(msg[i + 1..i + 9]);
      if |msg| <= i + 9 + n || msg[i + 9 + n] != NEWLINE then Malformed
      else Next(Field(msg[..i], msg[i + 9..i + 9 + n]), i + 10 + n)
  }

  function Decode(msg: seq<byte>): Option<seq<Field>>
    decreases |msg|
  {
    if msg == [] then Some([])
    else
      match DecodeField(msg)
      case Malformed => None
      case Next(f, used) =>
        match Decode(msg[used..])
        case None => None
        case Some(rest) => Some([f] + rest)
  }

  // ----- unique decoding -----

  /** A key a decoder can recover. */
  predicate PlainKey(f: Field) {
    EQUALS !in f.key && NEWLINE !in f.key
  }

  lemma {:induction false} EightBytes()
    ensures Pow256(8) == U64_LIMIT
  {
    assert Pow256(0) == 1 && Pow256(1) == 256 && Pow256(2) == 65536 && Pow256(3) == 16777216 &&
      Pow256(4) == 0x1_0000_0000;
    assert Pow256(5) == 0x100_0000_0000 && Pow256(6) == 0x1_0000_0000_0000 && Pow256(7) == 0x100_0000_0000_0000;
  }

  lemma {:induction false} DecodeText(f: Field, rest: seq<byte>)
    requires PlainKey(f) && NEWLINE !in f.value
    ensures DecodeField(EncodeField(f) + rest) == Next(f, |EncodeField(f)|)
  {
    hide LittleEndian, FromLittleEndian, Index;
    var msg := f.key + [EQUALS] + f.value + [NEWLINE] + rest;
    var i := |f.key|;
    var j := i + 1 + |f.value|;
    assert EncodeField(f) + rest == msg;
    assert forall k :: 0 <= k < i ==> msg[k] == f.key[k];
    assert forall k :: i + 1 <= k < j ==> msg[k] == f.value[k - i - 1];
    IndexIs(msg, 0, {EQUALS, NEWLINE}, i);
    IndexIs(msg, i + 1, {NEWLINE}, j);
    assert msg[..i] == f.key && msg[i + 1..j] == f.value;
  }

  lemma {:induction false} DecodeBinary(f: Field, rest: seq<byte>)
    requires PlainKey(f) && NEWLINE in f.value && |f.value| < U64_LIMIT
    ensures DecodeField(EncodeField(f) + rest) == Next(f, |EncodeField(f)|)
  {
    hide LittleEndian, FromLittleEndian, Index;
    EightBytes();
    LittleEndianReads(|f.value|, 8);
    var len := LittleEndian(|f.value|, 8);
    var msg := f.key + [NEWLINE] + len + f.value + [NEWLINE] + rest;
    var i := |f.key|;
    assert EncodeField(f) + rest == msg && |EncodeField(f)| == i + 10 + |f.value|;
    BinaryParts(f.key, len, f.value, rest);
    hide EncodeField;
    assert forall k :: 0 <= k < i ==> msg[k] == msg[..i][k];
    IndexIs(msg, 0, {EQUALS, NEWLINE}, i);
  }

  lemma {:induction false} BinaryParts(key: seq<byte>, len: seq<byte>, value: seq<byte>, rest: seq<byte>)
    requires |len| == 8
    ensures var msg, i := key + [NEWLINE] + len + value + [NEWLINE] + rest, |key|;
      && |msg| >= i + 10 + |value| && msg[..i] == key && msg[i] == NEWLINE && msg[i + 1..i + 9] == len
      && msg[i + 9..i + 9 + |value|] == value && msg[i + 9 + |value|] == NEWLINE
  {
  }

  /** A key with an equals sign or a newline decodes to something shorter, if at all. */
  lemma {:induction false} DecodeCutKey(f: Field, rest: seq<byte>)
    requires !PlainKey(f)
    ensures var s := DecodeField(EncodeField(f) + rest); s.Next? ==> s.field.key != f.key
  {
    hide LittleEndian, FromLittleEndian;
    var msg := EncodeField(f) + rest;
    assert msg[..|f.key|] == f.key;
    var i := Index(msg, 0, {EQUALS, NEWLINE});
    CutBefore(f.key, msg);
    assert i < |f.key|;
  }

  lemma {:induction false} CutBefore(key: seq<byte>, msg: seq<byte>)
    requires EQUALS in key || NEWLINE in key
    requires |key| <= |msg| && msg[..|key|] == key
    ensures Index(msg, 0, {EQUALS, NEWLINE}) < |key|
  {
    hide Index;
    var k :| 0 <= k < |key| && key[k] in {EQUALS, NEWLINE};
    assert msg[k] == msg[..|key|][k];
  }

  /** A field list comes back from its encoding exactly when every key is free of equals signs
      and newlines. */
  lemma {:induction false} DecodesIff(fields: seq<Field>)
    requires forall i :: 0 <= i < |fields| ==> |fields[i].value| < U64_LIMIT
    ensures Decode(Encode(fields)) == Some(fields) <==> forall i :: 0 <= i < |fields| ==> PlainKey(fields[i])
    decreases |fields|
  {
    hide EncodeField, DecodeField, PlainKey;
    if fields != [] {
      var f, rest := fields[0], Encode(fields[1..]);
      var msg := EncodeField(f) + rest;
      DecodesIff(fields[1..]);
      EncodedSome(f);
      assert forall i :: 0 < i < |fields| ==> fields[i] == fields[1..][i - 1];
      if PlainKey(f) {
        if NEWLINE in f.value { DecodeBinary(f, rest); } else { DecodeText(f, rest); }
        assert msg[|EncodeField(f)|..] == rest;
        assert fields == [f] + fields[1..];
      } else {
        DecodeCutKey(f, rest);
        FirstField(msg);
      }
    }
  }

  lemma {:induction false} EncodedSome(f: Field)
    ensures EncodeField(f) != []
  {
    hide LittleEndian;
  }

  lemma {:induction false} FirstField(msg: seq<byte>)
    requires msg != []
    ensures Decode(msg).Some? ==>
      DecodeField(msg).Next? && Decode(msg).value != [] && Decode(msg).value[0] == DecodeField(msg).field
  {
    hide DecodeField;
  }

  /** Hence two lists with plain keys never share an encoding. */
  lemma {:induction false} EncodingInjective(a: seq<Field>, b: seq<Field>)
    requires forall i :: 0 <= i < |a| ==> |a[i].value| < U64_LIMIT && PlainKey(a[i])
    requires forall i :: 0 <= i < |b| ==> |b[i].value| < U64_LIMIT && PlainKey(b[i])
    requires Encode(a) == Encode(b)
    ensures a == b
  {
    hide Encode, Decode, PlainKey;
    DecodesIff(a);
    DecodesIff(b);
  }
}
