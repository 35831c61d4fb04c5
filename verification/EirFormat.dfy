/** The meaning of extended inquiry response data: a sequence of length/type/value
    fields, and the device record that a sequence of fields denotes. */
module EirFormat {
  import opened Bytes

  const FLAGS: byte := 0x01
  const UUID16_SOME: byte := 0x02
  const UUID16_ALL: byte := 0x03
  const UUID32_SOME: byte := 0x04
  const UUID32_ALL: byte := 0x05
  const UUID128_SOME: byte := 0x06
  const UUID128_ALL: byte := 0x07
  const NAME_SHORT: byte := 0x08
  const NAME_COMPLETE: byte := 0x09
  const TX_POWER: byte := 0x0A
  const CLASS_OF_DEV: byte := 0x0D
  const SSP_HASH: byte := 0x0E
  const SSP_RANDOMIZER: byte := 0x0F
  const DEVICE_ID: byte := 0x10
  const SVC_DATA16: byte := 0x16
  const GAP_APPEARANCE: byte := 0x19
  const SVC_DATA32: byte := 0x20
  const SVC_DATA128: byte := 0x21
  const MANUFACTURER_DATA: byte := 0xFF

  const SD_MAX_LEN := 238
  const MSD_MAX_LEN := 236
  const OOB_MIN := 8

  // ----- the length/type/value layer -----

  datatype Field = Field(kind: byte, data: seq<byte>)

  /** The length byte counts the type byte, so 254 data bytes is the most. */
  ghost predicate Encodable(fs: seq<Field>) {
    forall i :: 0 <= i < |fs| ==> |fs[i].data| <= 254
  }

  ghost function EncodeField(f: Field): seq<byte>
    requires |f.data| <= 254
  {
    [|f.data| + 1, f.kind] + f.data
  }

  ghost function Encode(fs: seq<Field>): seq<byte>
    requires Encodable(fs)
  {
    if fs == [] then [] else EncodeField(fs[0]) + Encode(fs[1..])
  }

  /** No further field starts at s: too short for a length and a type, a zero length,
      or a length that runs over the end. */
  ghost predicate Stuck(s: seq<byte>) {
    |s| < 2 || s[0] == 0 || s[0] + 1 > |s|
  }

  /** The recursive decoder that the pointer loop refines. */
  ghost function Fields(s: seq<byte>): seq<Field> {
    if Stuck(s) then [] else [Field(s[1], s[2..s[0] + 1])] + Fields(s[s[0] + 1..])
  }

  lemma EncodeConcat(fs: seq<Field>, gs: seq<Field>)
    requires Encodable(fs) && Encodable(gs)
    ensures Encodable(fs + gs)
    ensures Encode(fs + gs) == Encode(fs) + Encode(gs)
  {
    if fs == [] {
      assert fs + gs == gs;
    } else {
      assert (fs + gs)[0] == fs[0] && (fs + gs)[1..] == fs[1..] + gs;
      EncodeConcat(fs[1..], gs);
      Associate(EncodeField(fs[0]), Encode(fs[1..]), Encode(gs));
    }
  }

  lemma Associate(x: seq<byte>, y: seq<byte>, z: seq<byte>)
    ensures x + (y + z) == (x + y) + z
  {
  }

  lemma FieldsStep(f: Field, rest: seq<byte>)
    requires |f.data| <= 254
    ensures Fields(EncodeField(f) + rest) == [f] + Fields(rest)
  {
    var s := EncodeField(f) + rest;
    assert s[2..|f.data| + 2] == f.data;
    assert s[|f.data| + 2..] == rest;
  }

  /** Whatever follows a run of encoded fields, those fields come out first. */
  lemma {:induction false} FieldsOfEncode(fs: seq<Field>, tail: seq<byte>)
    requires Encodable(fs)
    ensures Fields(Encode(fs) + tail) == fs + Fields(tail)
  {
    if fs == [] {
      assert Encode(fs) + tail == tail;
    } else {
      assert Encode(fs) + tail == EncodeField(fs[0]) + (Encode(fs[1..]) + tail);
      FieldsStep(fs[0], Encode(fs[1..]) + tail);
      FieldsOfEncode(fs[1..], tail);
      assert [fs[0]] + (fs[1..] + Fields(tail)) == fs + Fields(tail);
    }
  }

  /** The decoded fields are the maximal well-formed prefix: they encode to a prefix of
      the input and nothing can be decoded behind them. */
  lemma {:induction false} FieldsAreMaximalPrefix(s: seq<byte>)
    ensures Encodable(Fields(s))
    ensures Encode(Fields(s)) <= s
    ensures Stuck(s[|Encode(Fields(s))|..])
  {
    if !Stuck(s) {
      var rest := s[s[0] + 1..];
      var f := Field(s[1], s[2..s[0] + 1]);
      FieldsAreMaximalPrefix(rest);
      assert s == EncodeField(f) + rest;
      assert Fields(s)[1..] == Fields(rest);
      assert Encode(Fields(s)) == EncodeField(f) + Encode(Fields(rest));
      assert s[|Encode(Fields(s))|..] == rest[|Encode(Fields(rest))|..];
    }
  }

  /** Bytes behind a zero length or behind an overlong field are never looked at. */
  lemma StuckTailIsIgnored(fs: seq<Field>, tail: seq<byte>)
    requires Encodable(fs) && Stuck(tail)
    ensures Fields(Encode(fs) + tail) == fs
  {
    FieldsOfEncode(fs, tail);
  }

  // ----- names -----

  predicate Continuation(b: byte) {
    0x80 <= b <= 0xBF
  }

  /** UTF-8 well-formedness (RFC 3629, section 4) without NUL bytes. */
  predicate Utf8Valid(s: seq<byte>) {
    |s| == 0 ||
    if s[0] == 0 then false
    else if s[0] < 0x80 then Utf8Valid(s[1..])
    else if 0xC2 <= s[0] <= 0xDF then |s| >= 2 && Continuation(s[1]) && Utf8Valid(s[2..])
    else if 0xE0 <= s[0] <= 0xEF then
      |s| >= 3 && Continuation(s[1]) && Continuation(s[2])
      && (s[0] == 0xE0 ==> s[1] >= 0xA0) && (s[0] == 0xED ==> s[1] <= 0x9F)
      && Utf8Valid(s[3..])
    else if 0xF0 <= s[0] <= 0xF4 then
      |s| >= 4 && Continuation(s[1]) && Continuation(s[2]) && Continuation(s[3])
      && (s[0] == 0xF0 ==> s[1] >= 0x90) && (s[0] == 0xF4 ==> s[1] <= 0x8F)
      && Utf8Valid(s[4..])
    else false
  }

  function UpToNul(s: seq<byte>): seq<byte> {
    if s == [] || s[0] == 0 then [] else [s[0]] + UpToNul(s[1..])
  }

  function Ascii(b: byte): byte {
    if b < 0x80 then b else 0x20
  }

  function AsciiOf(s: seq<byte>): seq<byte> {
    seq(|s|, k requires 0 <= k < |s| => Ascii(s[k]))
  }

  predicate Space(b: byte) {
    b == 0x20 || b == 0x09 || b == 0x0A || b == 0x0C || b == 0x0D
  }

  function Chug(s: seq<byte>): seq<byte> {
    if s != [] && Space(s[0]) then Chug(s[1..]) else s
  }

  function Chomp(s: seq<byte>): seq<byte> {
    if s != [] && Space(s[|s| - 1]) then Chomp(s[..|s| - 1]) else s
  }

  function DropNuls(s: seq<byte>): seq<byte> {
    if s != [] && s[|s| - 1] == 0 then DropNuls(s[..|s| - 1]) else s
  }

  /** The text kept for a name: itself when valid, else stripped ASCII. */
  function NameText(s: seq<byte>): seq<byte> {
    if Utf8Valid(s) then s else Chomp(Chug(AsciiOf(UpToNul(s))))
  }

  // ----- the record layer -----

  datatype ServiceUuid =
    | Uuid16(v16: u16)
    | Uuid32(v32: u32)
    | Uuid128(v128: Bytes16)   // most significant byte first

  type Bytes16 = s: seq<byte> | |s| == 16 witness [0, 0, 0, 0, 0, 0, 0, 0, 0, 0, 0, 0, 0, 0, 0, 0]
  type Address = s: seq<byte> | |s| == 6 witness [0, 0, 0, 0, 0, 0]

  datatype Msd = Msd(company: u16, payload: seq<byte>)
  datatype Sd = Sd(uuid: ServiceUuid, payload: seq<byte>)

  datatype Record = Record(
    services: seq<ServiceUuid>, flags: byte, name: Option<seq<byte>>, nameComplete: bool,
    deviceClass: u32, appearance: u16, txPower: int,
    hash: Option<Bytes16>, randomizer: Option<Bytes16>, addr: Address,
    didSource: u16, didVendor: u16, didProduct: u16, didVersion: u16,
    msds: seq<Msd>, sds: seq<Sd>, others: seq<Field>)

  /** The record of a zero-filled struct. */
  function ZeroedRecord(): Record {
    Record([], 0, None, false, 0, 0, 0, None, None, [0, 0, 0, 0, 0, 0], 0, 0, 0, 0, [], [], [])
  }

  function Uuids16(d: seq<byte>): seq<ServiceUuid> {
    seq(|d| / 2, i requires 0 <= i < |d| / 2 => Uuid16(GetLe16(d[2 * i], d[2 * i + 1])))
  }

  function Uuids32(d: seq<byte>): seq<ServiceUuid> {
    seq(|d| / 4, i requires 0 <= i < |d| / 4 =>
      Uuid32(GetLe32(d[4 * i], d[4 * i + 1], d[4 * i + 2], d[4 * i + 3])))
  }

  function Uuids128(d: seq<byte>): seq<ServiceUuid> {
    seq(|d| / 16, i requires 0 <= i < |d| / 16 => Uuid128(Reversed(d[16 * i..16 * i + 16])))
  }

  function Signed8(b: byte): int {
    if b < 0x80 then b else b - 0x100
  }

  function AddSd(r: Record, uuid: ServiceUuid, payload: seq<byte>): Record {
    r.(sds := r.sds + [Sd(uuid, payload)])
  }

  /** What one field does to the record. */
  function Apply(r: Record, f: Field): Record {
    var d := f.data;
    match f.kind
    case 0x02 | 0x03 => r.(services := r.services + Uuids16(d))
    case 0x04 | 0x05 => r.(services := r.services + Uuids32(d))
    case 0x06 | 0x07 => r.(services := r.services + Uuids128(d))
    case 0x01 => if |d| > 0 then r.(flags := d[0]) else r
    case 0x08 | 0x09 =>
      r.(name := Some(NameText(DropNuls(d))), nameComplete := f.kind == NAME_COMPLETE)
    case 0x0A => if |d| >= 1 then r.(txPower := Signed8(d[0])) else r
    case 0x0D => if |d| >= 3 then r.(deviceClass := GetLe32(d[0], d[1], d[2], 0)) else r
    case 0x19 => if |d| >= 2 then r.(appearance := GetLe16(d[0], d[1])) else r
    case 0x0E => if |d| >= 16 then r.(hash := Some(d[..16])) else r
    case 0x0F => if |d| >= 16 then r.(randomizer := Some(d[..16])) else r
    case 0x10 =>
      if |d| >= 8 then
        r.(didSource := GetLe16(d[0], d[1]), didVendor := GetLe16(d[2], d[3]),
           didProduct := GetLe16(d[4], d[5]), didVersion := GetLe16(d[6], d[7]))
      else r
    case 0x16 =>
      if 2 <= |d| <= SD_MAX_LEN then AddSd(r, Uuid16(GetLe16(d[0], d[1])), d[2..]) else r
    case 0x20 =>
      if 4 <= |d| <= SD_MAX_LEN then AddSd(r, Uuid32(GetLe32(d[0], d[1], d[2], d[3])), d[4..]) else r
    case 0x21 =>
      if 16 <= |d| <= SD_MAX_LEN then AddSd(r, Uuid128(Reversed(d[..16])), d[16..]) else r
    case 0xFF =>
      if 2 <= |d| <= 2 + MSD_MAX_LEN then r.(msds := r.msds + [Msd(GetLe16(d[0], d[1]), d[2..])]) else r
    case _ => r.(others := r.others + [f])
  }

  ghost function ApplyAll(r: Record, fs: seq<Field>): Record
    decreases |fs|
  {
    if fs == [] then r else ApplyAll(Apply(r, fs[0]), fs[1..])
  }

  lemma {:induction false} ApplyAllConcat(r: Record, fs: seq<Field>, gs: seq<Field>)
    ensures ApplyAll(r, fs + gs) == ApplyAll(ApplyAll(r, fs), gs)
    decreases |fs|
  {
    if fs == [] {
      assert fs + gs == gs;
    } else {
      assert (fs + gs)[1..] == fs[1..] + gs;
      ApplyAllConcat(Apply(r, fs[0]), fs[1..], gs);
    }
  }

  /** Parsing resets the flags and the transmit power and applies the decoded fields in order. */
  ghost function Parsed(r: Record, s: seq<byte>): Record {
    ApplyAll(r.(flags := 0, txPower := 127), Fields(s))
  }

  /** One turn of the parsing loop: apply the field at the front, go on behind it. */
  lemma ParseTurn(r: Record, s: seq<byte>, f: Field, r': Record)
    requires !Stuck(s) && f == Field(s[1], s[2..s[0] + 1]) && r' == Apply(r, f)
    ensures ApplyAll(r, Fields(s)) == ApplyAll(r', Fields(s[s[0] + 1..]))
  {
    assert Fields(s) == [f] + Fields(s[s[0] + 1..]);
    assert Fields(s)[1..] == Fields(s[s[0] + 1..]);
  }

  /** An out-of-band block: total length, address, EIR data. The data length is narrowed to one byte. */
  ghost function ParsedOob(r: Record, s: seq<byte>): Option<Record> {
    if |s| < OOB_MIN || |s| != GetLe16(s[0], s[1]) then None
    else
      var withAddr := r.(addr := s[2..8]);
      var n := (|s| - OOB_MIN) % 0x100;
      Some(if |s| == OOB_MIN then withAddr else Parsed(withAddr, s[8..8 + n]))
  }

  lemma AsciiIsUtf8(s: seq<byte>)
    requires forall k :: 0 <= k < |s| ==> 0 < s[k] < 0x80
    ensures Utf8Valid(s)
  {
  }
}
