/** eir_create_oob: which fields an out-of-band block holds, and the code that writes them. */
module EirEncoder {
  import opened Bytes
  import opened EirFormat

  const MAX_EIR_LENGTH := 240
  const NAME_LIMIT := 48
  const PNP_INFO_SVCLASS_ID: u16 := 0x1200

  // ----- which UUIDs are written -----

  predicate Eligible(u: ServiceUuid, wide: bool) {
    if wide then u.Uuid128? else u.Uuid16? && u.v16 >= 0x1100 && u.v16 != PNP_INFO_SVCLASS_ID
  }

  /** The eligible UUIDs of the list, each once, in the order of first occurrence. */
  ghost function Distinct(us: seq<ServiceUuid>, wide: bool): (d: seq<ServiceUuid>)
    ensures forall u :: u in d ==> Eligible(u, wide)
  {
    if us == [] then []
    else
      var d, u := Distinct(us[..|us| - 1], wide), us[|us| - 1];
      if Eligible(u, wide) && u !in d then d + [u] else d
  }

  function Width(wide: bool): nat {
    if wide then 16 else 2
  }

  /** How many UUIDs, behind a two-byte field header, still fit after len bytes of EIR data. */
  function Capacity(len: nat, wide: bool): nat {
    if len + 2 > MAX_EIR_LENGTH then 0 else (MAX_EIR_LENGTH - 2 - len) / Width(wide)
  }

  ghost function Listed(us: seq<ServiceUuid>, wide: bool, len: nat): seq<ServiceUuid> {
    var d := Distinct(us, wide);
    if |d| <= Capacity(len, wide) then d else d[..Capacity(len, wide)]
  }

  /** An eligible UUID, new or not, turns up at position k when the field is already full. */
  ghost predicate FullAt(us: seq<ServiceUuid>, wide: bool, len: nat, k: nat) {
    k < |us| && Eligible(us[k], wide) && |Distinct(us[..k], wide)| >= Capacity(len, wide)
  }

  ghost predicate Truncated(us: seq<ServiceUuid>, wide: bool, len: nat) {
    exists k: nat :: FullAt(us, wide, len, k)
  }

  lemma {:induction false} DistinctOnce(us: seq<ServiceUuid>, wide: bool)
    ensures forall i, j :: 0 <= i < j < |Distinct(us, wide)| ==> Distinct(us, wide)[i] != Distinct(us, wide)[j]
    ensures forall u :: u in Distinct(us, wide) <==> u in us && Eligible(u, wide)
  {
    if us != [] {
      DistinctOnce(us[..|us| - 1], wide);
      assert us == us[..|us| - 1] + [us[|us| - 1]];
    }
  }

  lemma {:induction false} DistinctOfPrefix(us: seq<ServiceUuid>, wide: bool, k: nat)
    requires k <= |us|
    ensures Distinct(us[..k], wide) <= Distinct(us, wide)
  {
    if k == |us| {
      assert us[..k] == us;
    } else {
      DistinctOfPrefix(us[..|us| - 1], wide, k);
      assert us[..|us| - 1][..k] == us[..k];
    }
  }

  /** A field tagged ALL misses no eligible UUID. */
  lemma AllTagIsComplete(us: seq<ServiceUuid>, wide: bool, len: nat)
    requires !Truncated(us, wide, len)
    ensures Listed(us, wide, len) == Distinct(us, wide)
    ensures forall u :: u in us && Eligible(u, wide) ==> u in Listed(us, wide, len)
  {
    DistinctOnce(us, wide);
    if |Distinct(us, wide)| > Capacity(len, wide) {
      var k := OverflowPoint(us, wide, Capacity(len, wide));
      assert FullAt(us, wide, len, k);
    }
  }

  lemma {:induction false} OverflowPoint(us: seq<ServiceUuid>, wide: bool, cap: nat) returns (k: nat)
    requires |Distinct(us, wide)| > cap
    ensures k < |us| && Eligible(us[k], wide) && |Distinct(us[..k], wide)| >= cap
  {
    var init := us[..|us| - 1];
    if |Distinct(init, wide)| > cap {
      k := OverflowPoint(init, wide, cap);
      assert init[..k] == us[..k];
    } else {
      k := |us| - 1;
    }
  }

  /** Where a pass over the list stands after its first l elements, none of which found the field full. */
  ghost predicate Pass(us: seq<ServiceUuid>, wide: bool, len: nat, l: nat, stored: seq<ServiceUuid>) {
    l <= |us| && stored == Distinct(us[..l], wide) && |stored| <= Capacity(len, wide)
    && forall k: nat :: k < l ==> !FullAt(us, wide, len, k)
  }

  lemma PassStart(us: seq<ServiceUuid>, wide: bool, len: nat)
    ensures Pass(us, wide, len, 0, [])
  {
  }

  lemma PassStep(us: seq<ServiceUuid>, wide: bool, len: nat, l: nat, stored: seq<ServiceUuid>)
    requires l < |us| && Pass(us, wide, len, l, stored)
    ensures !Eligible(us[l], wide) ==> Pass(us, wide, len, l + 1, stored)
    ensures |stored| < Capacity(len, wide) && us[l] in stored ==> Pass(us, wide, len, l + 1, stored)
    ensures |stored| < Capacity(len, wide) && us[l] !in stored && Eligible(us[l], wide)
        ==> Pass(us, wide, len, l + 1, stored + [us[l]])
    ensures |stored| >= Capacity(len, wide) && Eligible(us[l], wide)
        ==> Truncated(us, wide, len) && stored == Listed(us, wide, len)
  {
    assert us[..l + 1][..l] == us[..l];
    if |stored| >= Capacity(len, wide) && Eligible(us[l], wide) {
      assert FullAt(us, wide, len, l);
      DistinctOfPrefix(us, wide, l);
    }
  }

  lemma PassStored(us: seq<ServiceUuid>, wide: bool, len: nat, l: nat, stored: seq<ServiceUuid>)
    requires Pass(us, wide, len, l, stored)
    ensures forall i :: 0 <= i < |stored| ==> Eligible(stored[i], wide)
  {
    assert forall i :: 0 <= i < |stored| ==> stored[i] in stored;
  }

  lemma PassEnd(us: seq<ServiceUuid>, wide: bool, len: nat, stored: seq<ServiceUuid>)
    requires Pass(us, wide, len, |us|, stored)
    ensures !Truncated(us, wide, len) && stored == Listed(us, wide, len)
  {
    assert us[..|us|] == us;
  }

  /** Whatever its tag says, a field omits an eligible UUID exactly when there are more
      distinct ones than fit. */
  lemma OmitsIffOverCapacity(us: seq<ServiceUuid>, wide: bool, len: nat)
    ensures (exists u :: u in us && Eligible(u, wide) && u !in Listed(us, wide, len))
       <==> |Distinct(us, wide)| > Capacity(len, wide)
  {
    var d, cap := Distinct(us, wide), Capacity(len, wide);
    DistinctOnce(us, wide);
    if |d| > cap {
      assert d[cap] in us && d[cap] !in d[..cap];
    }
  }

  /** A field tagged SOME lists the distinct eligible UUIDs of a prefix of the list. */
  lemma SomeFieldListsPrefix(us: seq<ServiceUuid>, wide: bool, len: nat)
    requires Truncated(us, wide, len)
    ensures exists k: nat :: k <= |us| && Listed(us, wide, len) == Distinct(us[..k], wide)
  {
    var full: nat :| FullAt(us, wide, len, full);
    DistinctOfPrefix(us, wide, full);
    var k := ReachedAt(us, wide, full, Capacity(len, wide));
    DistinctOfPrefix(us, wide, k);
    assert Listed(us, wide, len) == Distinct(us[..k], wide);
  }

  /** The list of distinct UUIDs grows by at most one a step: it passes through every length. */
  lemma {:induction false} ReachedAt(us: seq<ServiceUuid>, wide: bool, n: nat, size: nat) returns (k: nat)
    requires n <= |us| && |Distinct(us[..n], wide)| >= size
    ensures k <= n && |Distinct(us[..k], wide)| == size
  {
    if |Distinct(us[..n], wide)| == size {
      k := n;
    } else {
      assert us[..n][..n - 1] == us[..n - 1];
      k := ReachedAt(us, wide, n - 1, size);
    }
  }

  /** When the SOME tag means what it says: a field so tagged omits an eligible UUID exactly if the
      distinct ones do not happen to fill it. */
  lemma SomeTagOmitsIff(us: seq<ServiceUuid>, wide: bool, len: nat)
    requires Truncated(us, wide, len)
    ensures (exists u :: u in us && Eligible(u, wide) && u !in Listed(us, wide, len))
       <==> |Distinct(us, wide)| != Capacity(len, wide)
  {
    var k: nat :| FullAt(us, wide, len, k);
    DistinctOfPrefix(us, wide, k);
    OmitsIffOverCapacity(us, wide, len);
  }

  // ----- the fields of a block -----

  datatype OobParams = OobParams(
    addr: Address, name: seq<byte>, cod: u32, hash: Option<Bytes16>, randomizer: Option<Bytes16>,
    vendor: u16, product: u16, version: u16, source: u16, uuids: seq<ServiceUuid>)

  function Wire(u: ServiceUuid): seq<byte> {
    match u
    case Uuid16(v) => Le16(v)
    case Uuid128(v) => Reversed(v)
    case Uuid32(_) => []   // never eligible
  }

  ghost function WireAll(us: seq<ServiceUuid>): seq<byte> {
    if us == [] then [] else WireAll(us[..|us| - 1]) + Wire(us[|us| - 1])
  }

  function ClassBytes(cod: u32): seq<byte> {
    [cod % 0x100, (cod / 0x100) % 0x100, (cod / 0x1_0000) % 0x100]
  }

  function ClassFields(cod: u32): seq<Field> {
    if cod > 0 then [Field(CLASS_OF_DEV, ClassBytes(cod))] else []
  }

  function KeyFields(kind: byte, key: Option<Bytes16>): seq<Field> {
    if key.Some? then [Field(kind, key.value)] else []
  }

  function CutName(name: seq<byte>): seq<byte> {
    if |name| > NAME_LIMIT then name[..NAME_LIMIT] else name
  }

  function NameFields(name: seq<byte>): seq<Field> {
    if name == [] then []
    else [Field(if |name| > NAME_LIMIT then NAME_SHORT else NAME_COMPLETE, CutName(name))]
  }

  function DeviceIdFields(source: u16, vendor: u16, product: u16, version: u16): seq<Field> {
    if vendor != 0 then [Field(DEVICE_ID, Le16(source) + Le16(vendor) + Le16(product) + Le16(version))] else []
  }

  ghost function Uuid16Fields(us: seq<ServiceUuid>, len: nat): seq<Field> {
    if Listed(us, false, len) == [] then []
    else [Field(if Truncated(us, false, len) then UUID16_SOME else UUID16_ALL, WireAll(Listed(us, false, len)))]
  }

  /** Skipped altogether when not even a header fits; present with no UUID when one was cut. */
  ghost function Uuid128Fields(us: seq<ServiceUuid>, len: nat): seq<Field> {
    if len > MAX_EIR_LENGTH - 2 || (Listed(us, true, len) == [] && !Truncated(us, true, len)) then []
    else [Field(if Truncated(us, true, len) then UUID128_SOME else UUID128_ALL, WireAll(Listed(us, true, len)))]
  }

  lemma {:induction false} WireAllLength(us: seq<ServiceUuid>, wide: bool)
    requires forall u :: u in us ==> Eligible(u, wide)
    ensures |WireAll(us)| == Width(wide) * |us|
  {
    if us != [] {
      assert us[|us| - 1] in us;
      WireAllLength(us[..|us| - 1], wide);
    }
  }

  lemma ListedFits(us: seq<ServiceUuid>, wide: bool, len: nat)
    ensures |WireAll(Listed(us, wide, len))| == Width(wide) * |Listed(us, wide, len)| <= 238
    ensures Listed(us, wide, len) == [] || len + 2 + |WireAll(Listed(us, wide, len))| <= MAX_EIR_LENGTH
  {
    WireAllLength(Listed(us, wide, len), wide);
  }

  /** The fields in front of the UUID lists. */
  ghost function FixedFields(p: OobParams): seq<Field> {
    ClassFields(p.cod) + KeyFields(SSP_HASH, p.hash) + KeyFields(SSP_RANDOMIZER, p.randomizer)
    + NameFields(p.name) + DeviceIdFields(p.source, p.vendor, p.product, p.version)
  }

  lemma EncodeFive(a: seq<Field>, b: seq<Field>, c: seq<Field>, d: seq<Field>, e: seq<Field>)
    requires Encodable(a) && Encodable(b) && Encodable(c) && Encodable(d) && Encodable(e)
    ensures Encodable(a + b + c + d + e)
    ensures Encode(a + b + c + d + e) == Encode(a) + Encode(b) + Encode(c) + Encode(d) + Encode(e)
  {
    EncodeConcat(a, b);
    EncodeConcat(a + b, c);
    EncodeConcat(a + b + c, d);
    EncodeConcat(a + b + c + d, e);
  }

  lemma FixedFieldsFit(p: OobParams)
    ensures Encodable(FixedFields(p)) && |Encode(FixedFields(p))| <= 101
  {
    var a, b, c := ClassFields(p.cod), KeyFields(SSP_HASH, p.hash), KeyFields(SSP_RANDOMIZER, p.randomizer);
    var d, e := NameFields(p.name), DeviceIdFields(p.source, p.vendor, p.product, p.version);
    EncodeFive(a, b, c, d, e);
    EncodeOne(a);
    EncodeOne(b);
    EncodeOne(c);
    EncodeOne(d);
    EncodeOne(e);
  }

  lemma EncodeOne(fs: seq<Field>)
    requires Encodable(fs) && |fs| <= 1
    ensures |Encode(fs)| == if fs == [] then 0 else 2 + |fs[0].data|
    ensures fs != [] ==> Encode(fs) == EncodeField(fs[0])
  {
    if fs != [] {
      assert Encode(fs[1..]) == [];
    }
  }

  lemma Uuid16FieldsFit(us: seq<ServiceUuid>, len: nat)
    requires len <= MAX_EIR_LENGTH
    ensures Encodable(Uuid16Fields(us, len)) && len + |Encode(Uuid16Fields(us, len))| <= MAX_EIR_LENGTH
  {
    ListedFits(us, false, len);
    EncodeOne(Uuid16Fields(us, len));
  }

  lemma Uuid128FieldsFit(us: seq<ServiceUuid>, len: nat)
    requires len <= MAX_EIR_LENGTH
    ensures Encodable(Uuid128Fields(us, len)) && len + |Encode(Uuid128Fields(us, len))| <= MAX_EIR_LENGTH
  {
    ListedFits(us, true, len);
    EncodeOne(Uuid128Fields(us, len));
  }

  /** Bytes of EIR data in front of the 16-bit UUIDs, and in front of the 128-bit ones. */
  ghost function AfterFixed(p: OobParams): (n: nat)
    ensures n <= 101
  {
    FixedFieldsFit(p);
    |Encode(FixedFields(p))|
  }

  ghost function AfterUuid16(p: OobParams): (n: nat)
    ensures n <= MAX_EIR_LENGTH
  {
    Uuid16FieldsFit(p.uuids, AfterFixed(p));
    AfterFixed(p) + |Encode(Uuid16Fields(p.uuids, AfterFixed(p)))|
  }

  ghost function AllFields(p: OobParams): (fs: seq<Field>)
    ensures Encodable(fs)
  {
    FixedFieldsFit(p);
    Uuid16FieldsFit(p.uuids, AfterFixed(p));
    Uuid128FieldsFit(p.uuids, AfterUuid16(p));
    FixedFields(p) + Uuid16Fields(p.uuids, AfterFixed(p)) + Uuid128Fields(p.uuids, AfterUuid16(p))
  }

  /** Both UUID fields, when len bytes of EIR data come before them. */
  ghost function UuidFieldBytes(us: seq<ServiceUuid>, len: nat): (bs: seq<byte>)
    requires len <= MAX_EIR_LENGTH
    ensures len + |bs| <= MAX_EIR_LENGTH
  {
    Uuid16FieldsFit(us, len);
    var y := Encode(Uuid16Fields(us, len));
    Uuid128FieldsFit(us, len + |y|);
    y + Encode(Uuid128Fields(us, len + |y|))
  }

  lemma EncodeThree(x: seq<Field>, y: seq<Field>, z: seq<Field>)
    requires Encodable(x) && Encodable(y) && Encodable(z)
    ensures Encodable(x + y + z) && Encode(x + y + z) == Encode(x) + (Encode(y) + Encode(z))
  {
    hide Encode;
    EncodeConcat(x, y);
    EncodeConcat(x + y, z);
  }

  lemma EncodeAllFields(p: OobParams)
    ensures Encode(AllFields(p)) == Encode(FixedFields(p)) + UuidFieldBytes(p.uuids, AfterFixed(p))
    ensures |Encode(AllFields(p))| <= MAX_EIR_LENGTH
  {
    hide FixedFields, Uuid16Fields, Uuid128Fields, Encode;
    FixedFieldsFit(p);
    Uuid16FieldsFit(p.uuids, AfterFixed(p));
    Uuid128FieldsFit(p.uuids, AfterUuid16(p));
    EncodeThree(FixedFields(p), Uuid16Fields(p.uuids, AfterFixed(p)), Uuid128Fields(p.uuids, AfterUuid16(p)));
  }

  /** The whole block: length, address, fields. The EIR part keeps to its 240 bytes. */
  ghost function OobBytes(p: OobParams): (s: seq<byte>)
    ensures OOB_MIN <= |s| <= OOB_MIN + MAX_EIR_LENGTH
  {
    EncodeAllFields(p);
    Le16(OOB_MIN + |Encode(AllFields(p))|) + p.addr + Encode(AllFields(p))
  }

  // ----- the code -----

  /** n different 128-bit UUIDs. */
  ghost function Many(n: byte): (us: seq<ServiceUuid>)
    ensures |us| == n
  {
    if n == 0 then [] else Many(n - 1) + [Numbered(n)]
  }

  function Numbered(n: byte): ServiceUuid {
    Uuid128([n, 0, 0, 0, 0, 0, 0, 0, 0, 0, 0, 0, 0, 0, 0, 0])
  }

  lemma {:induction false} ManyAreDistinct(n: byte)
    ensures Distinct(Many(n), true) == Many(n) && Distinct(Many(n), false) == []
    ensures forall m: byte :: Numbered(m) in Many(n) ==> m <= n
  {
    if n > 0 {
      ManyAreDistinct(n - 1);
      assert Many(n)[..n - 1] == Many(n - 1);
      assert forall m: byte :: Numbered(m) == Numbered(n) ==> m == n by {
        assert forall m: byte :: Numbered(m).v128[0] == m;
      }
    }
  }

  /** Fourteen UUIDs that fill the block, and one of them again. */
  ghost function FullAndRepeated(addr: Address): OobParams {
    OobParams(addr, [], 0, None, None, 0, 0, 0, 0, Many(14) + [Numbered(14)])
  }

  /** The SOME tag does not mean that something is missing: in this block it stands on a field with
      every UUID of the list. */
  lemma SomeTagWithoutOmission(addr: Address)
    ensures var p := FullAndRepeated(addr);
            AllFields(p) == [Field(UUID128_SOME, WireAll(Many(14)))] && forall u :: u in p.uuids ==> u in Many(14)
  {
    var p, us := FullAndRepeated(addr), Many(14);
    RepeatedFillsTheField(us + [Numbered(14)]);
    NothingInFront(p);
    hide Many, Numbered, Listed, Truncated, Distinct, WireAll, FixedFields, Uuid16Fields;
    assert AllFields(p) == [] + [] + Uuid128Fields(p.uuids, 0);
  }

  lemma RepeatedFillsTheField(us: seq<ServiceUuid>)
    requires us == Many(14) + [Numbered(14)]
    ensures Distinct(us, false) == []
    ensures Truncated(us, true, 0) && Listed(us, true, 0) == Many(14)
    ensures forall u :: u in us ==> u in Many(14)
  {
    ManyAreDistinct(14);
    assert Many(14)[13] == Numbered(14);
    assert us[..14] == Many(14);
    hide Many, Numbered;
    assert us[|us| - 1] == Numbered(14) && us[..|us| - 1] == Many(14);
    assert FullAt(us, true, 0, 14);
  }

  lemma NothingInFront(p: OobParams)
    requires p.cod == 0 && p.hash == None && p.randomizer == None && p.name == [] && p.vendor == 0
    requires Distinct(p.uuids, false) == []
    ensures FixedFields(p) == [] && AfterFixed(p) == 0
    ensures Uuid16Fields(p.uuids, 0) == [] && AfterUuid16(p) == 0
  {
    assert FixedFields(p) == [];
    NoneListed(p.uuids);
    hide Distinct, Listed, Truncated, FixedFields;
  }

  lemma NoneListed(us: seq<ServiceUuid>)
    requires Distinct(us, false) == []
    ensures Listed(us, false, 0) == [] && Uuid16Fields(us, 0) == []
  {
  }

  /** s with bs written over it at position at. */
  ghost function Splice(s: seq<byte>, at: nat, bs: seq<byte>): seq<byte>
    requires at + |bs| <= |s|
  {
    s[..at] + bs + s[at + |bs|..]
  }

  lemma SpliceNothing(s: seq<byte>, at: nat)
    requires at <= |s|
    ensures Splice(s, at, []) == s
  {
  }

  lemma SpliceSplice(s: seq<byte>, at: nat, x: seq<byte>, y: seq<byte>)
    requires at + |x| + |y| <= |s|
    ensures Splice(Splice(s, at, x), at + |x|, y) == Splice(s, at, x + y)
  {
    var t := Splice(s, at, x);
    assert t[..at + |x|] == s[..at] + x;
    assert t[at + |x| + |y|..] == s[at + |x| + |y|..];
  }

  /** *ptr++ = b, behind the bytes bs that have been written from start on. */
  method PutByte(data: array<byte>, ghost from: seq<byte>, ghost start: nat, ghost bs: seq<byte>, ptr: nat, b: byte)
    returns (next: nat, ghost more: seq<byte>)
    requires |from| == data.Length && ptr == start + |bs| < data.Length
    requires data[..] == Splice(from, start, bs)
    modifies data
    ensures next == ptr + 1 && more == bs + [b]
    ensures data[..] == Splice(from, start, more)
  {
    data[ptr] := b;
    assert data[..] == Splice(old(data[..]), ptr, [b]);
    SpliceSplice(from, start, bs, [b]);
    next, more := ptr + 1, bs + [b];
  }

  /** *ptr++ = length; *ptr++ = type; memcpy of the data. */
  method PutField(data: array<byte>, ptr: nat, kind: byte, bs: seq<byte>)
    requires |bs| <= 254 && ptr + 2 + |bs| <= data.Length
    modifies data
    ensures data[..] == Splice(old(data[..]), ptr, EncodeField(Field(kind, bs)))
  {
    data[ptr] := |bs| + 1;
    data[ptr + 1] := kind;
    ghost var front := [data[ptr], data[ptr + 1]];
    Memcpy(data, ptr + 2, bs);
    assert data[ptr..ptr + 2] == front;
    assert data[ptr..ptr + 2 + |bs|] == data[ptr..ptr + 2] + data[ptr + 2..ptr + 2 + |bs|];
  }

  lemma FieldAppended(from: seq<byte>, written: seq<Field>, f: Field)
    requires Encodable(written) && |f.data| <= 254
    requires OOB_MIN + |Encode(written)| + 2 + |f.data| <= |from|
    ensures Encodable(written + [f]) && Encode(written + [f]) == Encode(written) + EncodeField(f)
    ensures Splice(Splice(from, OOB_MIN, Encode(written)), OOB_MIN + |Encode(written)|, EncodeField(f))
         == Splice(from, OOB_MIN, Encode(written + [f]))
  {
    EncodeOne([f]);
    EncodeConcat(written, [f]);
    SpliceSplice(from, OOB_MIN, Encode(written), EncodeField(f));
  }

  /** One field behind those already written. */
  method AppendField(data: array<byte>, ghost from: seq<byte>, ghost written: seq<Field>, ptr: nat,
                     kind: byte, bs: seq<byte>)
    returns (next: nat, ghost more: seq<Field>)
    requires |from| == data.Length && Encodable(written) && |bs| <= 254
    requires ptr == OOB_MIN + |Encode(written)| && ptr + 2 + |bs| <= data.Length
    requires data[..] == Splice(from, OOB_MIN, Encode(written))
    modifies data
    ensures more == written + [Field(kind, bs)] && Encodable(more)
    ensures next == ptr + 2 + |bs| == OOB_MIN + |Encode(more)|
    ensures data[..] == Splice(from, OOB_MIN, Encode(more))
  {
    FieldAppended(from, written, Field(kind, bs));
    PutField(data, ptr, kind, bs);
    next, more := ptr + 2 + |bs|, written + [Field(kind, bs)];
  }

  /** The pass over the 16-bit UUIDs, with its scratch array: duplicates dropped, stop when full. */
  method CollectUuid16(us: seq<ServiceUuid>, start: nat, uuid16: array<u16>)
    returns (count: nat, truncated: bool)
    requires start <= 101 && uuid16.Length == MAX_EIR_LENGTH / 2
    modifies uuid16
    ensures count == |Listed(us, false, start)| && truncated == Truncated(us, false, start)
    ensures count <= uuid16.Length
    ensures forall i :: 0 <= i < count ==> Listed(us, false, start)[i] == Uuid16(uuid16[i])
  {
    var len := start;
    count, truncated := 0, false;
    ghost var stored := [];
    PassStart(us, false, start);
    for l := 0 to |us|
      invariant Pass(us, false, start, l, stored) && |stored| == count <= Capacity(start, false)
      invariant len == start + 2 * count && !truncated
      invariant forall i :: 0 <= i < count ==> stored[i] == Uuid16(uuid16[i])
    {
      PassStep(us, false, start, l, stored);
      if !us[l].Uuid16? || us[l].v16 < 0x1100 || us[l].v16 == PNP_INFO_SVCLASS_ID {
        continue;
      }
      if len + 2 + 2 > MAX_EIR_LENGTH {
        truncated := true;
        return;
      }
      var i := 0;
      while i < count && uuid16[i] != us[l].v16
        invariant i <= count
        invariant forall j :: 0 <= j < i ==> uuid16[j] != us[l].v16
      {
        i := i + 1;
      }
      if i < count {
        assert us[l] == stored[i];
        continue;
      }
      uuid16[count] := us[l].v16;
      count := count + 1;
      len := len + 2;
      stored := stored + [us[l]];
    }
    PassEnd(us, false, start, stored);
  }

  /** The scratch array goes out as little-endian pairs behind bs. */
  method PutScratch(data: array<byte>, ghost from: seq<byte>, ghost start: nat, ghost bs: seq<byte>, at: nat,
                    uuid16: array<u16>, count: nat, ghost listed: seq<ServiceUuid>)
    returns (ptr: nat)
    requires |from| == data.Length && at == start + |bs| && at + 2 * count <= data.Length
    requires data[..] == Splice(from, start, bs)
    requires |listed| == count <= uuid16.Length
    requires forall i :: 0 <= i < count ==> listed[i] == Uuid16(uuid16[i])
    requires |WireAll(listed)| == 2 * count
    modifies data
    ensures ptr == at + 2 * count
    ensures data[..] == Splice(from, start, bs + WireAll(listed))
  {
    ptr := at;
    ghost var out := bs;
    for i := 0 to count
      invariant ptr == start + |out| == at + 2 * i
      invariant out == bs + WireAll(listed[..i])
      invariant data[..] == Splice(from, start, out)
      invariant forall k :: 0 <= k < count ==> listed[k] == Uuid16(uuid16[k])
    {
      assert listed[..i + 1][..i] == listed[..i];
      ptr, out := PutByte(data, from, start, out, ptr, uuid16[i] % 0x100);
      ptr, out := PutByte(data, from, start, out, ptr, uuid16[i] / 0x100);
      assert out == bs + (WireAll(listed[..i]) + Le16(uuid16[i]));
    }
    assert listed[..count] == listed;
  }

  lemma Uuid16Encoded(us: seq<ServiceUuid>, len: nat)
    requires len <= MAX_EIR_LENGTH
    ensures Encodable(Uuid16Fields(us, len)) && len + |Encode(Uuid16Fields(us, len))| <= MAX_EIR_LENGTH
    ensures |WireAll(Listed(us, false, len))| == 2 * |Listed(us, false, len)| <= 238
    ensures Encode(Uuid16Fields(us, len)) ==
            if Listed(us, false, len) == [] then []
            else [2 * |Listed(us, false, len)| + 1, if Truncated(us, false, len) then UUID16_SOME else UUID16_ALL]
                 + WireAll(Listed(us, false, len))
  {
    ListedFits(us, false, len);
    Uuid16FieldsFit(us, len);
    hide Listed, Truncated, WireAll;
    EncodeOne(Uuid16Fields(us, len));
  }

  /** Group all 16-bit UUIDs into one field at start. */
  method PutUuid16(data: array<byte>, start: nat, us: seq<ServiceUuid>, len: nat) returns (ptr: nat)
    requires len <= 101 && start + (MAX_EIR_LENGTH - len) <= data.Length
    modifies data
    ensures Encodable(Uuid16Fields(us, len)) && ptr == start + |Encode(Uuid16Fields(us, len))| <= data.Length
    ensures data[..] == Splice(old(data[..]), start, Encode(Uuid16Fields(us, len)))
  {
    hide Listed, Truncated, Uuid16Fields, Encode, WireAll, Splice;
    Uuid16Encoded(us, len);
    var uuid16 := new u16[MAX_EIR_LENGTH / 2];
    var count, truncated := CollectUuid16(us, len, uuid16);
    ghost var from, bs, listed := data[..], [], Listed(us, false, len);
    ptr := start;
    SpliceNothing(from, start);
    if count > 0 {
      ptr, bs := PutByte(data, from, start, bs, ptr, count * 2 + 1);
      ptr, bs := PutByte(data, from, start, bs, ptr, if truncated then UUID16_SOME else UUID16_ALL);
      assert bs == [count * 2 + 1, if truncated then UUID16_SOME else UUID16_ALL];
      ptr := PutScratch(data, from, start, bs, ptr, uuid16, count, listed);
    } else {
      SpliceNothing(from, start);
    }
  }

  lemma SlicesOfJoin(w: seq<byte>, x: seq<byte>, i: nat, j: nat)
    requires i <= j <= |w + x|
    ensures j <= |w| ==> (w + x)[i..j] == w[i..j]
    ensures i == |w| && j == |w + x| ==> (w + x)[i..j] == x
  {
  }

  /** 16-bit lists aside, block i of the wire form is the i-th UUID backwards. */
  lemma {:induction false} WireAllBlock(us: seq<ServiceUuid>, i: nat)
    requires forall j :: 0 <= j < |us| ==> us[j].Uuid128?
    requires i < |us|
    ensures |WireAll(us)| == 16 * |us| && WireAll(us)[16 * i..16 * i + 16] == Reversed(us[i].v128)
  {
    hide Reversed;
    var n := |us| - 1;
    var w, x := WireAll(us[..n]), Reversed(us[n].v128);
    assert WireAll(us) == w + x;
    if n > 0 {
      WireAllBlock(us[..n], if i < n then i else 0);
    }
    hide WireAll;
    SlicesOfJoin(w, x, 16 * i, 16 * i + 16);
  }

  /** The bytes of s from base on are the stored UUIDs, each least significant byte first. */
  ghost predicate StoredAt(s: seq<byte>, base: nat, stored: seq<ServiceUuid>) {
    base + 16 * |stored| <= |s|
    && forall i :: 0 <= i < |stored| ==>
         stored[i].Uuid128? && s[base + 16 * i..base + 16 * i + 16] == Reversed(stored[i].v128)
  }

  lemma SpliceStores(s: seq<byte>, base: nat, stored: seq<ServiceUuid>)
    requires forall j :: 0 <= j < |stored| ==> stored[j].Uuid128?
    requires |WireAll(stored)| == 16 * |stored| && base + 16 * |stored| <= |s|
    ensures StoredAt(Splice(s, base, WireAll(stored)), base, stored)
  {
    var t, w := Splice(s, base, WireAll(stored)), WireAll(stored);
    assert t[base..base + 16 * |stored|] == w;
    forall i | 0 <= i < |stored|
      ensures t[base + 16 * i..base + 16 * i + 16] == Reversed(stored[i].v128)
    {
      WireAllBlock(stored, i);
      assert t[base + 16 * i..base + 16 * i + 16] == w[16 * i..16 * i + 16];
    }
  }

  lemma ReversedInjective(v: seq<byte>, w: seq<byte>)
    ensures Reversed(v) == Reversed(w) <==> v == w
  {
    ReversedTwice(v);
    ReversedTwice(w);
  }

  lemma IsReversed(s: seq<byte>, v: Bytes16)
    requires |s| == 16
    ensures s == Reversed(v) <==> (forall k :: 0 <= k < 16 ==> s[k] == v[15 - k])
  {
    forall k | 0 <= k < 16
      ensures Reversed(v)[k] == v[15 - k]
    {
      ReversedAt(v, k);
    }
  }

  /** Do the 16 bytes at position at spell v backwards? */
  method SameUuid128(data: array<byte>, at: nat, v: Bytes16) returns (same: bool)
    requires at + 16 <= data.Length
    ensures same <==> data[..][at..at + 16] == Reversed(v)
  {
    ghost var s := data[..][at..at + 16];
    IsReversed(s, v);
    var k := 0;
    while k < 16 && data[at + k] == v[15 - k]
      invariant k <= 16
      invariant forall j :: 0 <= j < k ==> s[j] == v[15 - j]
    {
      k := k + 1;
    }
    assert k < 16 ==> s[k] != v[15 - k];
    return k == 16;
  }

  /** Is v among the count UUIDs stored at base? */
  method FindUuid128(data: array<byte>, base: nat, count: nat, v: Bytes16, ghost stored: seq<ServiceUuid>)
    returns (i: nat)
    requires |stored| == count && StoredAt(data[..], base, stored)
    ensures i <= count && (i < count <==> Uuid128(v) in stored)
  {
    i := 0;
    while i < count
      invariant i <= count
      invariant forall j :: 0 <= j < i ==> stored[j] != Uuid128(v)
    {
      var same := SameUuid128(data, base + 16 * i, v);
      ReversedInjective(stored[i].v128, v);
      if same {
        return;
      }
      i := i + 1;
    }
  }

  /** Stores v at position at, least significant byte first. */
  method PutUuid128(data: array<byte>, at: nat, v: Bytes16)
    requires at + 16 <= data.Length
    modifies data
    ensures data[..] == Splice(old(data[..]), at, Reversed(v))
  {
    for k := 0 to 16
      invariant forall i :: at <= i < at + k ==> data[i] == v[15 - (i - at)]
      invariant forall i :: 0 <= i < at || at + 16 <= i < data.Length ==> data[i] == old(data[i])
    {
      data[at + k] := v[15 - k];
    }
    hide Reversed;
    IsReversed(data[at..at + 16], v);
  }

  lemma WireAllSnoc(from: seq<byte>, base: nat, stored: seq<ServiceUuid>, v: Bytes16)
    requires base + |WireAll(stored)| + 16 <= |from|
    ensures WireAll(stored + [Uuid128(v)]) == WireAll(stored) + Reversed(v)
    ensures Splice(Splice(from, base, WireAll(stored)), base + |WireAll(stored)|, Reversed(v))
         == Splice(from, base, WireAll(stored + [Uuid128(v)]))
  {
    hide Reversed;
    assert (stored + [Uuid128(v)])[..|stored|] == stored;
    assert WireAll(stored + [Uuid128(v)]) == WireAll(stored) + Reversed(v);
    hide WireAll;
    SpliceSplice(from, base, WireAll(stored), Reversed(v));
  }

  /** Stores v behind the UUIDs already at base. */
  method AppendUuid128(data: array<byte>, ghost from: seq<byte>, base: nat, count: nat, v: Bytes16,
                       ghost stored: seq<ServiceUuid>)
    requires |from| == data.Length && |WireAll(stored)| == 16 * count && base + 16 * count + 16 <= data.Length
    requires data[..] == Splice(from, base, WireAll(stored))
    modifies data
    ensures |WireAll(stored + [Uuid128(v)])| == 16 * count + 16
    ensures data[..] == Splice(from, base, WireAll(stored + [Uuid128(v)]))
  {
    hide Reversed, WireAll, Splice;
    WireAllSnoc(from, base, stored, v);
    PutUuid128(data, base + count * 16, v);
  }

  /** The pass over the 128-bit UUIDs: each new one is stored in place at base, and the bytes
      stored so far serve the duplicate check. */
  method CollectUuid128(data: array<byte>, base: nat, us: seq<ServiceUuid>, start: nat)
    returns (count: nat, truncated: bool)
    requires start <= MAX_EIR_LENGTH - 2 && base + (MAX_EIR_LENGTH - 2 - start) <= data.Length
    modifies data
    ensures count == |Listed(us, true, start)| && truncated == Truncated(us, true, start)
    ensures |WireAll(Listed(us, true, start))| == 16 * count <= MAX_EIR_LENGTH - 2 - start
    ensures data[..] == Splice(old(data[..]), base, WireAll(Listed(us, true, start)))
  {
    count, truncated := 0, false;
    var len := start;
    ghost var from, stored := data[..], [];
    assert WireAll(stored) == [] && data[..] == Splice(from, base, []);
    hide Pass, WireAll, Splice, Listed, Truncated;
    PassStart(us, true, start);
    for l := 0 to |us|
      invariant Pass(us, true, start, l, stored) && |stored| == count <= Capacity(start, true)
      invariant len == start + 16 * count && !truncated
      invariant |WireAll(stored)| == 16 * count && |from| == data.Length
      invariant data[..] == Splice(from, base, WireAll(stored))
    {
      PassStep(us, true, start, l, stored);
      if !us[l].Uuid128? {
        continue;
      }
      if len + 2 + 16 > MAX_EIR_LENGTH {
        truncated := true;
        return;
      }
      PassStored(us, true, start, l, stored);
      SpliceStores(from, base, stored);
      var i := FindUuid128(data, base, count, us[l].v128, stored);
      if i < count {
        continue;
      }
      AppendUuid128(data, from, base, count, us[l].v128, stored);
      stored := stored + [us[l]];
      len := len + 16;
      count := count + 1;
    }
    PassEnd(us, true, start, stored);
  }

  /** Fills in the length and type bytes in front of what has been written two bytes further on. */
  method PutHeader(data: array<byte>, ptr: nat, n: byte, kind: byte, ghost from: seq<byte>, ghost bs: seq<byte>)
    requires |from| == data.Length && ptr + 2 + |bs| <= data.Length
    requires data[..] == Splice(from, ptr + 2, bs)
    modifies data
    ensures data[..] == Splice(from, ptr, [n, kind] + bs)
  {
    data[ptr] := n;
    data[ptr + 1] := kind;
  }

  lemma Uuid128Encoded(us: seq<ServiceUuid>, len: nat)
    requires len <= MAX_EIR_LENGTH - 2
    ensures Encodable(Uuid128Fields(us, len)) && len + |Encode(Uuid128Fields(us, len))| <= MAX_EIR_LENGTH
    ensures |WireAll(Listed(us, true, len))| == 16 * |Listed(us, true, len)| <= 238
    ensures Encode(Uuid128Fields(us, len)) ==
            if Listed(us, true, len) == [] && !Truncated(us, true, len) then []
            else [16 * |Listed(us, true, len)| + 1, if Truncated(us, true, len) then UUID128_SOME else UUID128_ALL]
                 + WireAll(Listed(us, true, len))
  {
    ListedFits(us, true, len);
    Uuid128FieldsFit(us, len);
    hide Listed, Truncated, WireAll;
    EncodeOne(Uuid128Fields(us, len));
  }

  /** eir_generate_uuid128: the UUIDs are stored two bytes behind ptr, length and type come last. */
  method GenerateUuid128(data: array<byte>, ptr: nat, us: seq<ServiceUuid>, start: nat) returns (len: nat)
    requires start <= MAX_EIR_LENGTH - 2 && ptr + (MAX_EIR_LENGTH - start) <= data.Length
    modifies data
    ensures Encodable(Uuid128Fields(us, start)) && len == start + |Encode(Uuid128Fields(us, start))|
    ensures len <= MAX_EIR_LENGTH
    ensures data[..] == Splice(old(data[..]), ptr, Encode(Uuid128Fields(us, start)))
  {
    ghost var from, wire := data[..], WireAll(Listed(us, true, start));
    hide Listed, Truncated, Uuid128Fields, Encode, WireAll, Splice;
    Uuid128Encoded(us, start);
    var count, truncated := CollectUuid128(data, ptr + 2, us, start);
    len := start + 16 * count;
    if count > 0 || truncated {
      var kind := if truncated then UUID128_SOME else UUID128_ALL;
      PutHeader(data, ptr, count * 16 + 1, kind, from, wire);
      len := len + 2;
    } else {
      assert wire == [];
      SpliceNothing(from, ptr + 2);
      SpliceNothing(from, ptr);
    }
  }

  ghost function KeyPart(p: OobParams): seq<Field> {
    ClassFields(p.cod) + KeyFields(SSP_HASH, p.hash) + KeyFields(SSP_RANDOMIZER, p.randomizer)
  }

  /** Class of device, hash and randomizer, from data + 8 on. */
  method PutKeyPart(data: array<byte>, p: OobParams) returns (ptr: nat, optionalLen: nat)
    requires data.Length >= OOB_MIN + MAX_EIR_LENGTH
    modifies data
    ensures Encodable(KeyPart(p)) && optionalLen == |Encode(KeyPart(p))| <= 41 && ptr == OOB_MIN + optionalLen
    ensures data[..] == Splice(old(data[..]), OOB_MIN, Encode(KeyPart(p)))
  {
    ghost var from, fs: seq<Field> := data[..], [];
    ptr, optionalLen := OOB_MIN, 0;
    if p.cod > 0 {
      ptr, fs := AppendField(data, from, fs, ptr, CLASS_OF_DEV, ClassBytes(p.cod));
      optionalLen := optionalLen + 3 + 2;
    }
    assert fs == ClassFields(p.cod);
    if p.hash.Some? {
      ptr, fs := AppendField(data, from, fs, ptr, SSP_HASH, p.hash.value);
      optionalLen := optionalLen + 16 + 2;
    }
    assert fs == ClassFields(p.cod) + KeyFields(SSP_HASH, p.hash);
    if p.randomizer.Some? {
      ptr, fs := AppendField(data, from, fs, ptr, SSP_RANDOMIZER, p.randomizer.value);
      optionalLen := optionalLen + 16 + 2;
    }
    assert fs == KeyPart(p);
  }

  /** Name and device id behind the keys. */
  method PutNamePart(data: array<byte>, p: OobParams, ghost from: seq<byte>, at: nat, len: nat)
    returns (ptr: nat, optionalLen: nat)
    requires |from| == data.Length >= OOB_MIN + MAX_EIR_LENGTH
    requires Encodable(KeyPart(p)) && len == |Encode(KeyPart(p))| <= 41 && at == OOB_MIN + len
    requires data[..] == Splice(from, OOB_MIN, Encode(KeyPart(p)))
    modifies data
    ensures Encodable(FixedFields(p)) && optionalLen == |Encode(FixedFields(p))| <= 101 && ptr == OOB_MIN + optionalLen
    ensures data[..] == Splice(from, OOB_MIN, Encode(FixedFields(p)))
  {
    ghost var fs := KeyPart(p);
    ptr, optionalLen := at, len;
    var nameLen := |p.name|;
    if nameLen > 0 {
      var kind := NAME_COMPLETE;
      if nameLen > NAME_LIMIT {
        nameLen, kind := NAME_LIMIT, NAME_SHORT;
      }
      assert p.name[..nameLen] == CutName(p.name);
      ptr, fs := AppendField(data, from, fs, ptr, kind, p.name[..nameLen]);
      optionalLen := optionalLen + nameLen + 2;
    }
    assert fs == KeyPart(p) + NameFields(p.name);
    if p.vendor != 0 {
      ptr, fs := AppendField(data, from, fs, ptr, DEVICE_ID,
                             Le16(p.source) + Le16(p.vendor) + Le16(p.product) + Le16(p.version));
      optionalLen := optionalLen + 10;
    }
    assert fs == FixedFields(p);
  }

  lemma NoRoomForHeader(us: seq<ServiceUuid>, len: nat)
    requires len > MAX_EIR_LENGTH - 2
    ensures Uuid128Fields(us, len) == []
  {
  }

  /** Both UUID fields, behind the bytes x. */
  method PutUuidFields(data: array<byte>, ghost from: seq<byte>, ghost x: seq<byte>, at: nat,
                       us: seq<ServiceUuid>, len: nat)
    returns (optionalLen: nat)
    requires |from| == data.Length >= OOB_MIN + MAX_EIR_LENGTH && len == |x| <= 101 && at == OOB_MIN + len
    requires data[..] == Splice(from, OOB_MIN, x)
    modifies data
    ensures optionalLen == len + |UuidFieldBytes(us, len)|
    ensures data[..] == Splice(from, OOB_MIN, x + UuidFieldBytes(us, len))
  {
    hide Uuid16Fields, Uuid128Fields;
    Uuid16FieldsFit(us, len);
    var ptr := PutUuid16(data, at, us, len);
    ghost var y := Encode(Uuid16Fields(us, len));
    SpliceSplice(from, OOB_MIN, x, y);
    optionalLen := ptr - OOB_MIN;
    Uuid128FieldsFit(us, optionalLen);
    ghost var z := Encode(Uuid128Fields(us, optionalLen));
    SpliceSplice(from, OOB_MIN, x + y, z);
    assert x + UuidFieldBytes(us, len) == x + y + z;
    if optionalLen <= MAX_EIR_LENGTH - 2 {
      optionalLen := GenerateUuid128(data, ptr, us, optionalLen);
    } else {
      assert Uuid128Fields(us, optionalLen) == [] by { NoRoomForHeader(us, optionalLen); }
      assert z == [] && x + y + z == x + y;
    }
  }

  /** All the fields, from data + 8 on. */
  method PutFields(data: array<byte>, p: OobParams) returns (optionalLen: nat)
    requires data.Length >= OOB_MIN + MAX_EIR_LENGTH
    modifies data
    ensures optionalLen == |Encode(AllFields(p))| <= MAX_EIR_LENGTH
    ensures data[..] == Splice(old(data[..]), OOB_MIN, Encode(AllFields(p)))
  {
    hide FixedFields, UuidFieldBytes, KeyPart, AllFields;
    ghost var from := data[..];
    var ptr;
    ptr, optionalLen := PutKeyPart(data, p);
    ptr, optionalLen := PutNamePart(data, p, from, ptr, optionalLen);
    optionalLen := PutUuidFields(data, from, Encode(FixedFields(p)), ptr, p.uuids, optionalLen);
    EncodeAllFields(p);
  }

  lemma SpliceFront(s: seq<byte>, head: seq<byte>, addr: seq<byte>, x: seq<byte>)
    requires |head| == 2 && 2 + |addr| + |x| <= |s|
    ensures Splice(Splice(Splice(s, 2, addr), 2 + |addr|, x), 0, head) == Splice(s, 0, head + addr + x)
  {
    SpliceSplice(s, 2, addr, x);
    assert Splice(s, 2, addr + x)[2..] == addr + x + s[2 + |addr + x|..];
  }

  /** eir_create_oob: exactly the returned number of bytes is written, and they are OobBytes. */
  method CreateOob(p: OobParams, data: array<byte>) returns (total: u16)
    requires data.Length >= OOB_MIN + MAX_EIR_LENGTH
    modifies data
    ensures total == |OobBytes(p)| && data[..] == Splice(old(data[..]), 0, OobBytes(p))
  {
    hide AllFields, Encode;
    ghost var from := data[..];
    Memcpy(data, 2, p.addr);
    assert data[..] == Splice(from, 2, p.addr);
    var optionalLen := PutFields(data, p);
    total := OOB_MIN + optionalLen;
    SpliceFront(from, Le16(total), p.addr, Encode(AllFields(p)));
    ghost var body := data[..];
    Memcpy(data, 0, Le16(total));
    assert data[..] == Splice(body, 0, Le16(total));
  }
}
