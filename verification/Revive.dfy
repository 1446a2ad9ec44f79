/** Values through JSON and back: stringify turns a buffer into a tagged object, and the reviver turns every
    object with that tag into a buffer. */
module Revive {
  import opened Wrappers

  type Byte = b: nat | b < 256

  datatype Field = Field(name: string, value: Value)

  /** A tree of plain data and buffers. A parsed JSON text is one without buffers. */
  datatype Value =
    | Null
    | Bool(b: bool)
    | Number(n: real)
    | Text(s: string)
    | Array(items: seq<Value>)
    | Object(fields: seq<Field>)
    | Buffer(bytes: seq<Byte>)

  function ByteValue(b: Byte): Value {
    Number(b as real)
  }

  function Numbers(bytes: seq<Byte>): (r: seq<Value>)
    ensures |r| == |bytes| && forall i :: 0 <= i < |r| ==> r[i] == ByteValue(bytes[i])
  {
    if bytes == [] then [] else [ByteValue(bytes[0])] + Numbers(bytes[1..])
  }

  /** What stringify writes and parse reads back, before the reviver: a buffer is written by its toJSON. */
  function ToJson(v: Value): Value {
    match v
    case Array(items) => Array(ItemsToJson(items))
    case Object(fields) => Object(FieldsToJson(fields))
    case Buffer(bytes) => Object([Field("type", Text("Buffer")), Field("data", Array(Numbers(bytes)))])
    case _ => v
  }

  function ItemsToJson(items: seq<Value>): seq<Value> {
    if items == [] then [] else [ToJson(items[0])] + ItemsToJson(items[1..])
  }

  function FieldsToJson(fields: seq<Field>): seq<Field> {
    if fields == [] then [] else [Field(fields[0].name, ToJson(fields[0].value))] + FieldsToJson(fields[1..])
  }

  function Lookup(fields: seq<Field>, name: string): Option<Value> {
    if fields == [] then None else if fields[0].name == name then Some(fields[0].value) else Lookup(fields[1..], name)
  }

  predicate Tagged(fields: seq<Field>) {
    Lookup(fields, "type") == Some(Text("Buffer"))
  }

  function Bytes(items: seq<Value>, byteOf: Value -> Byte): (r: seq<Byte>)
    ensures |r| == |items| && forall i :: 0 <= i < |r| ==> r[i] == byteOf(items[i])
  {
    if items == [] then [] else [byteOf(items[0])] + Bytes(items[1..], byteOf)
  }

  /** Buffer.from on a tagged object: its data array byte by byte, an error without one. */
  function FromTagged(fields: seq<Field>, byteOf: Value -> Byte): Option<Value> {
    match Lookup(fields, "data")
    case Some(Array(items)) => Some(Buffer(Bytes(items, byteOf)))
    case _ => None
  }

  /** The reviver, bottom-up; None when it throws. */
  function Revived(v: Value, byteOf: Value -> Byte): Option<Value> {
    match v
    case Array(items) =>
      var inner := RevivedItems(items, byteOf);
      if inner.None? then None else Some(Array(inner.value))
    case Object(fields) =>
      var inner := RevivedFields(fields, byteOf);
      if inner.None? then None
      else if Tagged(inner.value) then FromTagged(inner.value, byteOf)
      else Some(Object(inner.value))
    case _ => Some(v)
  }

  function RevivedItems(items: seq<Value>, byteOf: Value -> Byte): Option<seq<Value>> {
    if items == [] then Some([])
    else
      var head, tail := Revived(items[0], byteOf), RevivedItems(items[1..], byteOf);
      if head.None? || tail.None? then None else Some([head.value] + tail.value)
  }

  function RevivedFields(fields: seq<Field>, byteOf: Value -> Byte): Option<seq<Field>> {
    if fields == [] then Some([])
    else
      var head, tail := Revived(fields[0].value, byteOf), RevivedFields(fields[1..], byteOf);
      if head.None? || tail.None? then None else Some([Field(fields[0].name, head.value)] + tail.value)
  }

  /** No plain object of the tree carries the buffer tag. */
  predicate Untagged(v: Value) {
    match v
    case Array(items) => forall i :: 0 <= i < |items| ==> Untagged(items[i])
    case Object(fields) => !Tagged(fields) && forall i :: 0 <= i < |fields| ==> Untagged(fields[i].value)
    case _ => true
  }

  /** Numbers that are bytes convert to themselves; what any other element converts to does not matter. */
  ghost predicate KeepsBytes(byteOf: Value -> Byte) {
    forall b: Byte :: byteOf(ByteValue(b)) == b
  }

  /** A tree that a JSON text can hold. */
  predicate IsJson(v: Value) {
    match v
    case Array(items) => forall i :: 0 <= i < |items| ==> IsJson(items[i])
    case Object(fields) => forall i :: 0 <= i < |fields| ==> IsJson(fields[i].value)
    case Buffer(_) => false
    case _ => true
  }

  /** Stringify leaves no buffer, and changes nothing else: a buffer becomes an object of the tag and its bytes as
      numbers, a tree without buffers stays what it is. */
  lemma {:induction false} StringifyExactly(v: Value)
    ensures IsJson(ToJson(v))
    ensures IsJson(v) <==> ToJson(v) == v
    ensures v.Buffer? ==>
              exists data :: && ToJson(v) == Object([Field("type", Text("Buffer")), Field("data", Array(data))])
                             && |data| == |v.bytes|
                             && forall i :: 0 <= i < |data| ==> data[i] == Number(v.bytes[i] as real)
    decreases v, 1
  {
    match v
    case Array(items) => ItemsStringify(items);
    case Object(fields) => FieldsStringify(fields);
    case Buffer(bytes) => assert ToJson(v).fields[1].value == Array(Numbers(bytes));
    case _ =>
  }

  lemma {:induction false} ItemsStringify(items: seq<Value>)
    ensures |ItemsToJson(items)| == |items|
    ensures forall i :: 0 <= i < |items| ==> IsJson(ItemsToJson(items)[i])
    ensures (forall i :: 0 <= i < |items| ==> IsJson(items[i])) <==> ItemsToJson(items) == items
    decreases items, 0
  {
    if items != [] {
      StringifyExactly(items[0]);
      ItemsStringify(items[1..]);
      assert items == [items[0]] + items[1..];
      assert (forall i :: 0 <= i < |items| ==> IsJson(items[i]))
          <==> IsJson(items[0]) && forall i :: 0 <= i < |items[1..]| ==> IsJson(items[1..][i]);
      assert ItemsToJson(items)[1..] == ItemsToJson(items[1..]);
    }
  }

  lemma {:induction false} FieldsStringify(fields: seq<Field>)
    ensures |FieldsToJson(fields)| == |fields|
    ensures forall i :: 0 <= i < |fields| ==> IsJson(FieldsToJson(fields)[i].value)
    ensures (forall i :: 0 <= i < |fields| ==> IsJson(fields[i].value)) <==> FieldsToJson(fields) == fields
    decreases fields, 0
  {
    if fields != [] {
      StringifyExactly(fields[0].value);
      FieldsStringify(fields[1..]);
      assert fields == [fields[0]] + fields[1..];
      assert (forall i :: 0 <= i < |fields| ==> IsJson(fields[i].value))
          <==> IsJson(fields[0].value) && forall i :: 0 <= i < |fields[1..]| ==> IsJson(fields[1..][i].value);
      assert FieldsToJson(fields)[1..] == FieldsToJson(fields[1..]);
      assert FieldsToJson(fields) == fields <==>
             FieldsToJson(fields)[0] == fields[0] && FieldsToJson(fields[1..]) == fields[1..];
    }
  }

  lemma {:induction false} NumbersRevive(bytes: seq<Byte>, byteOf: Value -> Byte)
    ensures RevivedItems(Numbers(bytes), byteOf) == Some(Numbers(bytes))
  {
    if bytes != [] {
      NumbersRevive(bytes[1..], byteOf);
      assert Numbers(bytes)[1..] == Numbers(bytes[1..]);
    }
  }

  lemma {:induction false} FieldRevives(f: Field, rest: seq<Field>, byteOf: Value -> Byte)
    requires Revived(f.value, byteOf) == Some(f.value) && RevivedFields(rest, byteOf) == Some(rest)
    ensures RevivedFields([f] + rest, byteOf) == Some([f] + rest)
  {
    assert ([f] + rest)[1..] == rest;
  }

  lemma {:induction false} BufferRevives(bytes: seq<Byte>, byteOf: Value -> Byte)
    requires KeepsBytes(byteOf)
    ensures Revived(ToJson(Buffer(bytes)), byteOf) == Some(Buffer(bytes))
  {
    var tag, data := Field("type", Text("Buffer")), Field("data", Array(Numbers(bytes)));
    NumbersRevive(bytes, byteOf);
    FieldRevives(data, [], byteOf);
    assert [data] + [] == [data];
    FieldRevives(tag, [data], byteOf);
    assert [tag] + [data] == [tag, data] && [tag, data][1..] == [data];
    assert Lookup([tag, data], "data") == Some(data.value);
    assert Bytes(Numbers(bytes), byteOf) == bytes;
  }

  /** Only the text itself comes back as that text. */
  lemma {:induction false} TextRevives(v: Value, byteOf: Value -> Byte, t: string)
    requires KeepsBytes(byteOf)
    ensures Revived(ToJson(v), byteOf) == Some(Text(t)) <==> v == Text(t)
  {
    if v.Buffer? {
      BufferRevives(v.bytes, byteOf);
    }
  }

  /** Reviving what was written does not move the tag. */
  lemma {:induction false} TagStays(fields: seq<Field>, byteOf: Value -> Byte)
    requires KeepsBytes(byteOf) && RevivedFields(FieldsToJson(fields), byteOf).Some?
    ensures Tagged(RevivedFields(FieldsToJson(fields), byteOf).value) <==> Tagged(fields)
  {
    if fields != [] {
      var json := FieldsToJson(fields);
      assert json[1..] == FieldsToJson(fields[1..]);
      var revived := RevivedFields(json, byteOf).value;
      assert revived[1..] == RevivedFields(json[1..], byteOf).value;
      if fields[0].name == "type" {
        TextRevives(fields[0].value, byteOf, "Buffer");
      } else {
        TagStays(fields[1..], byteOf);
      }
    }
  }

  lemma {:induction false} ItemsRoundTrip(items: seq<Value>, byteOf: Value -> Byte)
    requires KeepsBytes(byteOf)
    ensures RevivedItems(ItemsToJson(items), byteOf) == Some(items) <==> forall i :: 0 <= i < |items| ==>
              Untagged(items[i])
    decreases items, 0
  {
    if items != [] {
      RoundTrip(items[0], byteOf);
      ItemsRoundTrip(items[1..], byteOf);
      assert (forall i :: 0 <= i < |items| ==> Untagged(items[i]))
          <==> Untagged(items[0]) && forall i :: 0 <= i < |items[1..]| ==> Untagged(items[1..][i]);
      assert ItemsToJson(items)[1..] == ItemsToJson(items[1..]);
      assert items == [items[0]] + items[1..];
    }
  }

  lemma {:induction false} FieldsRoundTrip(fields: seq<Field>, byteOf: Value -> Byte)
    requires KeepsBytes(byteOf)
    ensures RevivedFields(FieldsToJson(fields), byteOf) == Some(fields) <==> forall i :: 0 <= i < |fields| ==>
              Untagged(fields[i].value)
    decreases fields, 0
  {
    if fields != [] {
      RoundTrip(fields[0].value, byteOf);
      FieldsRoundTrip(fields[1..], byteOf);
      assert FieldsToJson(fields)[1..] == FieldsToJson(fields[1..]);
      assert fields == [fields[0]] + fields[1..];
    }
  }

  /** A value survives the cache exactly when none of its plain objects is tagged as a buffer. */
  lemma {:induction false} RoundTrip(v: Value, byteOf: Value -> Byte)
    requires KeepsBytes(byteOf)
    ensures Revived(ToJson(v), byteOf) == Some(v) <==> Untagged(v)
    decreases v, 1
  {
    match v
    case Array(items) => ItemsRoundTrip(items, byteOf);
    case Object(fields) =>
      FieldsRoundTrip(fields, byteOf);
      if RevivedFields(FieldsToJson(fields), byteOf).Some? {
        TagStays(fields, byteOf);
      }
    case Buffer(bytes) => BufferRevives(bytes, byteOf);
    case _ =>
  }

  /** A tagged plain object is lost: with a data array it comes back as a buffer, without one the reviver throws. */
  lemma {:induction false} TaggedObjectIsLost(byteOf: Value -> Byte)
    requires KeepsBytes(byteOf)
    ensures var v := Object([Field("type", Text("Buffer"))]);
            ToJson(v) == v && Revived(ToJson(v), byteOf) == None
  {
    var tag := Field("type", Text("Buffer"));
    FieldRevives(tag, [], byteOf);
    assert [tag] + [] == [tag] && [tag][1..] == [];
  }
}
