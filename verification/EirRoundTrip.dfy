/** What eir_create_oob writes, eir_parse_oob reads back. */
module EirRoundTrip {
  import opened Bytes
  import opened EirFormat
  import opened EirEncoder
  import EirParser

  /** What a zeroed record holds after parsing the block written for p. A block without any
      field leaves the transmit power at zero, because then nothing is parsed. */
  ghost function Expected(p: OobParams): Record {
    ZeroedRecord().(
      addr := p.addr,
      txPower := if |OobBytes(p)| == OOB_MIN then 0 else 127,
      deviceClass := p.cod % 0x100_0000,
      hash := p.hash,
      randomizer := p.randomizer,
      name := if p.name == [] then None else Some(NameText(CutName(p.name))),
      nameComplete := 0 < |p.name| <= NAME_LIMIT,
      didSource := if p.vendor == 0 then 0 else p.source,
      didVendor := p.vendor,
      didProduct := if p.vendor == 0 then 0 else p.product,
      didVersion := if p.vendor == 0 then 0 else p.version,
      services := Listed(p.uuids, false, AfterFixed(p)) + Listed(p.uuids, true, AfterUuid16(p)))
  }

  ghost function NamePart(p: OobParams): seq<Field> {
    NameFields(p.name) + DeviceIdFields(p.source, p.vendor, p.product, p.version)
  }

  ghost function UuidPart(p: OobParams): seq<Field> {
    Uuid16Fields(p.uuids, AfterFixed(p)) + Uuid128Fields(p.uuids, AfterUuid16(p))
  }

  lemma AllFieldsParts(p: OobParams)
    ensures AllFields(p) == KeyPart(p) + NamePart(p) + UuidPart(p)
  {
    hide ClassFields, KeyFields, NameFields, DeviceIdFields, Uuid16Fields, Uuid128Fields, AfterFixed, AfterUuid16;
  }

  lemma Le16Back(v: u16)
    ensures GetLe16(Le16(v)[0], Le16(v)[1]) == v
  {
  }

  lemma Split256(n: nat, q: nat, r: nat)
    requires n == 0x100 * q + r && r < 0x100
    ensures n / 0x100 == q && n % 0x100 == r
  {
  }

  lemma ClassBack(cod: u32)
    ensures var c := ClassBytes(cod); GetLe32(c[0], c[1], c[2], 0) == cod % 0x100_0000
  {
    var q1, q2 := cod / 0x100, cod / 0x1_0000;
    var q3 := cod / 0x100_0000;
    var low := cod % 0x100_0000;
    assert q1 == 0x100 * q2 + low % 0x1_0000 / 0x100;
    Split256(q1, q2, low % 0x1_0000 / 0x100);
    assert q2 == 0x100 * q3 + low / 0x1_0000;
    Split256(q2, q3, low / 0x1_0000);
    assert cod % 0x100 == low % 0x100;
  }

  lemma ApplyOne(r: Record, f: Field)
    ensures ApplyAll(r, [f]) == Apply(r, f)
  {
    hide Apply;
    assert [f][1..] == [];
  }

  lemma ApplyKeyPart(r: Record, p: OobParams)
    requires r.deviceClass == 0 && r.hash == None && r.randomizer == None
    ensures ApplyAll(r, KeyPart(p))
         == r.(deviceClass := p.cod % 0x100_0000, hash := p.hash, randomizer := p.randomizer)
  {
    var a, b, c := ClassFields(p.cod), KeyFields(SSP_HASH, p.hash), KeyFields(SSP_RANDOMIZER, p.randomizer);
    ApplyAllConcat(r, a, b);
    ApplyAllConcat(r, a + b, c);
    var r1 := r.(deviceClass := p.cod % 0x100_0000);
    assert ApplyAll(r, a) == r1 by {
      if p.cod > 0 { ApplyOne(r, a[0]); ClassBack(p.cod); }
    }
    ApplyKey(r1, SSP_HASH, p.hash);
    ApplyKey(ApplyAll(r1, b), SSP_RANDOMIZER, p.randomizer);
  }

  lemma ApplyKey(r: Record, kind: byte, key: Option<Bytes16>)
    requires if kind == SSP_HASH then r.hash == None else kind == SSP_RANDOMIZER && r.randomizer == None
    ensures ApplyAll(r, KeyFields(kind, key)) == if kind == SSP_HASH then r.(hash := key) else r.(randomizer := key)
  {
    if key.Some? {
      ApplyOne(r, Field(kind, key.value));
      assert key.value[..16] == key.value;
    }
  }

  lemma ApplyNamePart(r: Record, p: OobParams)
    requires 0 !in p.name
    requires r.name == None && !r.nameComplete
    requires r.didSource == r.didVendor == r.didProduct == r.didVersion == 0
    ensures ApplyAll(r, NamePart(p))
         == r.(name := if p.name == [] then None else Some(NameText(CutName(p.name))),
               nameComplete := 0 < |p.name| <= NAME_LIMIT,
               didSource := if p.vendor == 0 then 0 else p.source, didVendor := p.vendor,
               didProduct := if p.vendor == 0 then 0 else p.product,
               didVersion := if p.vendor == 0 then 0 else p.version)
  {
    var a, b := NameFields(p.name), DeviceIdFields(p.source, p.vendor, p.product, p.version);
    ApplyAllConcat(r, a, b);
    var r1 := ApplyAll(r, a);
    assert r1 == r.(name := if p.name == [] then None else Some(NameText(CutName(p.name))),
                    nameComplete := 0 < |p.name| <= NAME_LIMIT) by {
      if p.name != [] {
        ApplyOne(r, a[0]);
        var cut := CutName(p.name);
        assert cut[|cut| - 1] in p.name;
        assert DropNuls(cut) == cut;
      }
    }
    if p.vendor != 0 {
      ApplyOne(r1, b[0]);
      Le16Back(p.source);
      Le16Back(p.vendor);
      Le16Back(p.product);
      Le16Back(p.version);
    }
  }

  lemma {:induction false} Uuids16Back(us: seq<ServiceUuid>)
    requires forall u :: u in us ==> Eligible(u, false)
    ensures Uuids16(WireAll(us)) == us
  {
    if us != [] {
      var init, last := us[..|us| - 1], us[|us| - 1];
      assert last in us;
      WireAllLength(init, false);
      Uuids16Back(init);
      Le16Back(last.v16);
      var w := WireAll(init);
      forall i | 0 <= i < |us|
        ensures Uuids16(WireAll(us))[i] == us[i]
      {
        if i < |init| {
          assert Uuids16(w)[i] == init[i];
        }
      }
    }
  }

  lemma Uuid128Back(us: seq<ServiceUuid>, i: nat)
    requires forall u :: u in us ==> Eligible(u, true)
    requires i < |us|
    ensures |Uuids128(WireAll(us))| == |us| && Uuids128(WireAll(us))[i] == us[i]
  {
    hide Reversed;
    WireAllLength(us, true);
    forall j | 0 <= j < |us|
      ensures us[j].Uuid128?
    {
      assert us[j] in us;
    }
    WireAllBlock(us, i);
    ReversedTwice(us[i].v128);
  }

  lemma Uuids128Back(us: seq<ServiceUuid>)
    requires forall u :: u in us ==> Eligible(u, true)
    ensures Uuids128(WireAll(us)) == us
  {
    hide Uuids128;
    WireAllLength(us, true);
    assert |Uuids128(WireAll(us))| == |us| by {
      if us != [] { Uuid128Back(us, 0); } else { assert WireAll(us) == []; NoUuids128(); }
    }
    forall i | 0 <= i < |us|
      ensures Uuids128(WireAll(us))[i] == us[i]
    {
      Uuid128Back(us, i);
    }
  }

  lemma NoUuids128()
    ensures Uuids128([]) == []
  {
  }

  lemma ApplyUuid16Fields(r: Record, us: seq<ServiceUuid>, len: nat)
    ensures ApplyAll(r, Uuid16Fields(us, len)) == r.(services := r.services + Listed(us, false, len))
  {
    var fs, listed := Uuid16Fields(us, len), Listed(us, false, len);
    Uuids16Back(listed);
    hide Listed, Truncated;
    if fs != [] {
      ApplyOne(r, fs[0]);
    } else {
      assert r.services + [] == r.services;
    }
  }

  lemma ApplyUuid128Fields(r: Record, us: seq<ServiceUuid>, len: nat)
    ensures ApplyAll(r, Uuid128Fields(us, len)) == r.(services := r.services + Listed(us, true, len))
  {
    var fs, listed := Uuid128Fields(us, len), Listed(us, true, len);
    Uuids128Back(listed);
    if fs != [] {
      hide Listed, Truncated;
      ApplyOne(r, fs[0]);
    } else {
      assert listed == [] && r.services + [] == r.services;
    }
  }

  lemma ApplyUuidPart(r: Record, p: OobParams)
    ensures ApplyAll(r, UuidPart(p))
         == r.(services := r.services + Listed(p.uuids, false, AfterFixed(p)) + Listed(p.uuids, true, AfterUuid16(p)))
  {
    hide Listed, Uuid16Fields, Uuid128Fields;
    var a, b := Uuid16Fields(p.uuids, AfterFixed(p)), Uuid128Fields(p.uuids, AfterUuid16(p));
    ApplyAllConcat(r, a, b);
    ApplyUuid16Fields(r, p.uuids, AfterFixed(p));
    ApplyUuid128Fields(ApplyAll(r, a), p.uuids, AfterUuid16(p));
  }

  lemma ApplyAllFields(r: Record, p: OobParams)
    requires 0 !in p.name
    requires r == ZeroedRecord().(addr := p.addr, txPower := 127)
    ensures ApplyAll(r, AllFields(p)) == Expected(p).(txPower := 127)
  {
    AllFieldsParts(p);
    hide AllFields, KeyPart, NamePart, UuidPart, Listed, NameText;
    var r1 := ApplyAll(r, KeyPart(p));
    var r2 := ApplyAll(r1, NamePart(p));
    ApplyAllConcat(r, KeyPart(p) + NamePart(p), UuidPart(p));
    ApplyAllConcat(r, KeyPart(p), NamePart(p));
    ApplyKeyPart(r, p);
    ApplyNamePart(r1, p);
    ApplyUuidPart(r2, p);
    assert Listed(p.uuids, false, AfterFixed(p)) + Listed(p.uuids, true, AfterUuid16(p))
        == [] + Listed(p.uuids, false, AfterFixed(p)) + Listed(p.uuids, true, AfterUuid16(p));
  }

  /** The round trip, for every address, class, key, name, device id and UUID list. */
  lemma RoundTrip(p: OobParams)
    requires 0 !in p.name
    ensures ParsedOob(ZeroedRecord(), OobBytes(p)) == Some(Expected(p))
  {
    hide Apply, AllFields, Fields, Encode, OobBytes;
    var s := OobBytes(p);
    OobShape(p);
    assert s[8..8 + (|s| - 8)] == s[8..];
    FieldsOfAll(AllFields(p));
    var r := ZeroedRecord().(addr := p.addr);
    ApplyAllFields(r.(txPower := 127), p);
    if |s| == OOB_MIN {
      assert AllFields(p) == [] by { EmptyEncoding(AllFields(p)); }
    }
  }

  lemma OobShape(p: OobParams)
    ensures var s := OobBytes(p);
            && GetLe16(s[0], s[1]) == |s| && s[2..8] == p.addr && s[8..] == Encode(AllFields(p))
  {
    hide AllFields, Encode;
    EncodeAllFields(p);
    var e := Encode(AllFields(p));
    var head := Le16(OOB_MIN + |e|);
    Le16Back(OOB_MIN + |e|);
    assert OobBytes(p) == head + p.addr + e;
  }

  lemma FieldsOfAll(fs: seq<Field>)
    requires Encodable(fs)
    ensures Fields(Encode(fs)) == fs
  {
    FieldsOfEncode(fs, []);
    assert Encode(fs) + [] == Encode(fs) && fs + Fields([]) == fs;
  }

  lemma EmptyEncoding(fs: seq<Field>)
    requires Encodable(fs) && |Encode(fs)| == 0
    ensures fs == []
  {
  }

  /** A name that is valid UTF-8 after the cut, every ASCII name among them, comes back
      cut to 48 bytes, marked complete exactly when nothing was cut. */
  lemma NameComesBack(p: OobParams)
    requires 0 !in p.name && p.name != [] && Utf8Valid(CutName(p.name))
    ensures var r := ParsedOob(ZeroedRecord(), OobBytes(p)).value;
            && r.name == Some(CutName(p.name))
            && (r.nameComplete <==> CutName(p.name) == p.name)
  {
    RoundTrip(p);
  }

  /** The two pieces of code put together, over a shared buffer. */
  method Transfer(p: OobParams) returns (eir: EirParser.EirData)
    requires 0 !in p.name
    ensures eir.eir == Expected(p)
  {
    var data := new byte[OOB_MIN + MAX_EIR_LENGTH];
    var total := CreateOob(p, data);
    eir := new EirParser.EirData();
    RoundTrip(p);
    assert data[..total] == OobBytes(p);
    var result := eir.ParseOob(data, total);
  }
}
