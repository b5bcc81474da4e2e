/**
 * The wire formats of Lib/Protocol.c as data: a format is a list of field
 * kinds, and one encoder and one parser serve every message.
 */
module Payload {
  import opened Config

  datatype Kind =
    | U8 | U16 | U32
    | Text(max: nat)  // two bytes of length, at most `max`, then the characters
    | Note            // likewise, of any length that is present; characters past the 255th are dropped

  datatype Field = F8(v8: Byte) | F16(v16: nat) | F32(v32: nat) | Str(s: Bytes)

  const MAX_NOTE_SIZE: nat := 255

  const KEY := Text(MAX_KEY_SIZE)
  const VALUE := Text(MAX_VALUE_SIZE)

  const PUT := [KEY, VALUE]
  const PUT_RESPONSE := [U8, KEY]
  const GET := [KEY]
  const GET_RESPONSE := [U8, KEY, VALUE]
  const STORE_REQUEST := [U32, KEY, VALUE]
  const STORE_RESPONSE := [U8, U32, KEY]
  const RETRIEVE_REQUEST := [U32, KEY]
  const RETRIEVE_RESPONSE := [U8, U32, KEY, VALUE]
  const WORKER_READY := [U32, U16]
  const WORKER_ENTRY := [U32, Text(MAX_ADDRESS_SIZE), U16, U8]
  const DATA_EXPORT_START := [U32]
  const DATA_ENTRY := [KEY, VALUE]
  const PEER_NOTIFY := [KEY, VALUE]
  const ERROR := [U8, Note]

  // ----- numbers in network byte order

  function Bytes16(v: nat): (b: Bytes)
    requires v < 0x1_0000
    ensures |b| == 2 && b[0] as int * 0x100 + b[1] as int == v
  {
    [v / 0x100, v % 0x100]
  }

  function Bytes32(v: nat): (b: Bytes)
    requires v < 0x1_0000_0000
    ensures |b| == 4 && b[0] as int * 0x100_0000 + b[1] as int * 0x1_0000 + b[2] as int * 0x100 + b[3] as int == v
  {
    Bytes16(v / 0x1_0000) + Bytes16(v % 0x1_0000)
  }

  function Value16(b: Bytes): (v: nat)
    requires |b| >= 2
    ensures v < 0x1_0000 && Bytes16(v) == b[..2]
  {
    var hi: int, lo: int := b[0], b[1];
    hi * 0x100 + lo
  }

  lemma Halves(hi: nat, lo: nat)
    requires lo < 0x1_0000
    ensures (hi * 0x1_0000 + lo) / 0x1_0000 == hi && (hi * 0x1_0000 + lo) % 0x1_0000 == lo
  {
  }

  function Value32(b: Bytes): (v: nat)
    requires |b| >= 4
    ensures v < 0x1_0000_0000 && Bytes32(v) == b[..4]
  {
    var hi, lo := Value16(b), Value16(b[2..]);
    Halves(hi, lo);
    assert b[..4] == b[..2] + b[2..][..2];
    hi * 0x1_0000 + lo
  }

  // ----- strings in character arrays

  /** The C string at the start of an array: up to the first NUL, if there is one. */
  function Terminated(b: Bytes): (s: Bytes)
    ensures IsCString(s) && s <= b && (|s| < |b| ==> b[|s|] == 0)
    ensures IsCString(b) ==> s == b
  {
    if b == [] || b[0] == 0 then []
    else
      assert IsCString(b) ==> IsCString(b[1..]);
      [b[0]] + Terminated(b[1..])
  }

  // ----- encoding

  predicate Encodable(f: Field) {
    match f
    case F8(_) => true
    case F16(v) => v < 0x1_0000
    case F32(v) => v < 0x1_0000_0000
    case Str(s) => |s| < 0x1_0000
  }

  function EncodeField(f: Field): Bytes
    requires Encodable(f)
  {
    match f
    case F8(v) => [v]
    case F16(v) => Bytes16(v)
    case F32(v) => Bytes32(v)
    case Str(s) => Bytes16(|s|) + s
  }

  function Encode(fields: seq<Field>): Bytes
    requires forall f <- fields :: Encodable(f)
  {
    if fields == [] then [] else EncodeField(fields[0]) + Encode(fields[1..])
  }

  lemma {:induction false} EncodeAppend(fields: seq<Field>, f: Field)
    requires (forall g <- fields :: Encodable(g)) && Encodable(f)
    ensures Encode(fields + [f]) == Encode(fields) + EncodeField(f)
  {
    if fields == [] {
      assert [f][1..] == [];
    } else {
      assert (fields + [f])[1..] == fields[1..] + [f];
      EncodeAppend(fields[1..], f);
    }
  }

  // ----- parsing

  /** Reads one field from the front of `b`; also how many bytes that takes. */
  function Read(kind: Kind, b: Bytes): (r: Option<(Field, nat)>)
    ensures r.Some? ==> 0 < r.value.1 <= |b|
  {
    match kind
    case U8 => if |b| < 1 then None else Some((F8(b[0]), 1))
    case U16 => if |b| < 2 then None else Some((F16(Value16(b)), 2))
    case U32 => if |b| < 4 then None else Some((F32(Value32(b)), 4))
    case Text(max) =>
      if |b| < 2 || Value16(b) > max || 2 + Value16(b) > |b| then None
      else Some((Str(Terminated(b[2..2 + Value16(b)])), 2 + Value16(b)))
    case Note =>
      if |b| < 2 || 2 + Value16(b) > |b| then None
      else
        var kept := if Value16(b) > MAX_NOTE_SIZE then MAX_NOTE_SIZE else Value16(b);
        Some((Str(Terminated(b[2..2 + kept])), 2 + Value16(b)))
  }

  function Prepend(done: seq<Field>, rest: Option<seq<Field>>): Option<seq<Field>> {
    match rest
    case None => None
    case Some(fields) => Some(done + fields)
  }

  /** Reads the fields of a format from the front of `b`; what follows them is ignored. */
  function Parse(kinds: seq<Kind>, b: Bytes): Option<seq<Field>>
    decreases |kinds|
  {
    if kinds == [] then Some([])
    else
      match Read(kinds[0], b)
      case None => None
      case Some((f, n)) => Prepend([f], Parse(kinds[1..], b[n..]))
  }

  // ----- what the two have to do with each other

  /** The field is of this kind, and small enough to survive the journey. */
  predicate Fits(kind: Kind, f: Field) {
    match kind
    case U8 => f.F8?
    case U16 => f.F16? && f.v16 < 0x1_0000
    case U32 => f.F32? && f.v32 < 0x1_0000_0000
    case Text(max) => f.Str? && IsCString(f.s) && |f.s| <= max && max < 0x1_0000
    case Note => f.Str? && IsCString(f.s) && |f.s| <= MAX_NOTE_SIZE
  }

  ghost predicate AllFit(kinds: seq<Kind>, fields: seq<Field>) {
    |kinds| == |fields| && forall i :: 0 <= i < |kinds| ==> Fits(kinds[i], fields[i])
  }

  lemma ReadEncoded(kind: Kind, f: Field, rest: Bytes)
    requires Fits(kind, f)
    ensures Encodable(f) && Read(kind, EncodeField(f) + rest) == Some((f, |EncodeField(f)|))
  {
    var b := EncodeField(f) + rest;
    match f
    case F8(_) =>
    case F16(v) =>
      assert b[..2] == Bytes16(v);
    case F32(v) =>
      assert b[..4] == Bytes32(v) == Bytes32(Value32(b));
    case Str(s) =>
      assert b[..2] == Bytes16(|s|);
      assert b[2..2 + |s|] == s;
  }

  lemma ReadCut(kind: Kind, f: Field, n: nat)
    requires Fits(kind, f) && n < |EncodeField(f)|
    ensures Read(kind, EncodeField(f)[..n]) == None
  {
    if f.Str? && n >= 2 {
      assert EncodeField(f)[..n][..2] == Bytes16(|f.s|);
    }
  }

  /** Round trip, for every format and whatever follows in the buffer. */
  lemma {:induction false} ParseEncoded(kinds: seq<Kind>, fields: seq<Field>, rest: Bytes)
    requires AllFit(kinds, fields)
    ensures forall f <- fields :: Encodable(f)
    ensures Parse(kinds, Encode(fields) + rest) == Some(fields)
    decreases |kinds|
  {
    assert forall i :: 0 <= i < |fields| ==> Encodable(fields[i]);
    if kinds != [] {
      var f, head := fields[0], EncodeField(fields[0]);
      ParseEncoded(kinds[1..], fields[1..], rest);
      var tail := Encode(fields[1..]) + rest;
      assert Encode(fields) + rest == head + tail;
      ReadEncoded(kinds[0], f, tail);
      assert (head + tail)[|head|..] == tail;
      assert Parse(kinds, head + tail) == Prepend([f], Some(fields[1..]));
      assert [f] + fields[1..] == fields;
    } else {
      assert fields == [];
    }
  }

  /** Every strict prefix of an encoding is rejected. */
  lemma {:induction false} ParseCut(kinds: seq<Kind>, fields: seq<Field>, n: nat)
    requires AllFit(kinds, fields)
    requires forall f <- fields :: Encodable(f)
    requires n < |Encode(fields)|
    ensures Parse(kinds, Encode(fields)[..n]) == None
    decreases |kinds|
  {
    var head, whole := EncodeField(fields[0]), Encode(fields);
    if n < |head| {
      assert whole[..n] == head[..n];
      ReadCut(kinds[0], fields[0], n);
    } else {
      var cut := n - |head|;
      assert whole[..n] == head + Encode(fields[1..])[..cut];
      ReadEncoded(kinds[0], fields[0], Encode(fields[1..])[..cut]);
      assert (head + Encode(fields[1..])[..cut])[|head|..] == Encode(fields[1..])[..cut];
      ParseCut(kinds[1..], fields[1..], cut);
    }
  }

  /** Whatever bytes come in, the fields handed out obey the limits of the format. */
  lemma {:induction false} ParseFits(kinds: seq<Kind>, b: Bytes)
    requires Parse(kinds, b).Some?
    requires forall k <- kinds :: k.Text? ==> k.max < 0x1_0000
    ensures AllFit(kinds, Parse(kinds, b).value)
    decreases |kinds|
  {
    if kinds != [] {
      var n := Read(kinds[0], b).value.1;
      ParseFits(kinds[1..], b[n..]);
    }
  }

  /** Parsing reads one field and goes on behind it. */
  lemma ParseFirst(kinds: seq<Kind>, b: Bytes)
    requires kinds != [] && Read(kinds[0], b).Some?
    ensures var (f, n) := Read(kinds[0], b).value;
      Parse(kinds, b) == Prepend([f], Parse(kinds[1..], b[n..]))
  {
  }

  /** Of a note, at most 255 characters are kept. */
  lemma ReadLongNote(s: Bytes)
    requires IsCString(s) && |s| < 0x1_0000
    ensures var kept := if |s| > MAX_NOTE_SIZE then MAX_NOTE_SIZE else |s|;
      Read(Note, Bytes16(|s|) + s) == Some((Str(s[..kept]), 2 + |s|))
  {
    var b := Bytes16(|s|) + s;
    var kept := if |s| > MAX_NOTE_SIZE then MAX_NOTE_SIZE else |s|;
    assert b[..2] == Bytes16(|s|) && Bytes16(Value16(b)) == Bytes16(|s|);
    assert b[2..2 + kept] == s[..kept] && IsCString(s[..kept]);
  }
}
