/** The pointer-walking parser: struct eir_data and the functions that fill it. */
module EirParser {
  import opened Bytes
  import opened EirFormat

  const NAME_BUFFER: nat := 250

  lemma {:induction false} UpToNulIs(s: seq<byte>, n: nat)
    requires n <= |s| && (forall k :: 0 <= k < n ==> s[k] != 0) && (n < |s| ==> s[n] == 0)
    ensures UpToNul(s) == s[..n]
  {
    if n > 0 {
      UpToNulIs(s[1..], n - 1);
      assert s[..n] == [s[0]] + s[1..][..n - 1];
    }
  }

  /** The buffer on the stack is long enough for a name that is not valid UTF-8. */
  predicate FitsBuffer(name: seq<byte>) {
    |name| < NAME_BUFFER || (|name| == NAME_BUFFER && 0 in name)
  }

  /** strncpy into a zeroed buffer: the bytes up to the first zero, then zeros up to len; false stands
      for an access outside the buffer. */
  method CopyName(buffer: array<byte>, a: array<byte>, p: nat, len: nat) returns (inside: bool)
    requires p + len <= a.Length && buffer != a && forall k :: 0 <= k < buffer.Length ==> buffer[k] == 0
    modifies buffer
    ensures inside <==> len <= buffer.Length
    ensures inside ==>
      var s := UpToNul(a[p..p + len]);
      |s| <= buffer.Length && buffer[..|s|] == s && forall k :: |s| <= k < buffer.Length ==> buffer[k] == 0
  {
    var name := a[p..p + len];
    var n: nat := 0;
    while n < len && a[p + n] != 0
      invariant n <= len && n <= buffer.Length && buffer[..n] == name[..n]
      invariant forall k :: 0 <= k < n ==> name[k] != 0
      invariant forall k :: n <= k < buffer.Length ==> buffer[k] == 0
    {
      assert name[n] == a[p + n];
      if n == buffer.Length {
        return false;
      }
      buffer[n] := a[p + n];
      assert buffer[..n + 1] == buffer[..n] + [buffer[n]] && name[..n + 1] == name[..n] + [name[n]];
      n := n + 1;
    }
    assert n < len ==> name[n] == a[p + n];
    UpToNulIs(name, n);
    var m := n;
    while m < len
      invariant n <= m <= len && m <= buffer.Length
      invariant buffer[..n] == name[..n] && forall k :: n <= k < buffer.Length ==> buffer[k] == 0
    {
      if m == buffer.Length {
        return false;
      }
      buffer[m] := 0;
      m := m + 1;
    }
    return true;
  }

  /** The loop that blanks what is not ASCII, up to the zero behind the text. */
  method BlankNonAscii(buffer: array<byte>) returns (r: Option<seq<byte>>)
    modifies buffer
    ensures r.Some? <==> 0 in old(buffer[..])
    ensures r.Some? ==> r.value == AsciiOf(UpToNul(old(buffer[..])))
  {
    var i: nat := 0;
    ghost var copied := buffer[..];
    while true
      invariant i <= buffer.Length == |copied|
      invariant forall k :: 0 <= k < i ==> copied[k] != 0 && buffer[k] == Ascii(copied[k])
      invariant forall k :: i <= k < buffer.Length ==> buffer[k] == copied[k]
      decreases buffer.Length - i
    {
      if i == buffer.Length {
        return None;
      }
      if buffer[i] == 0 {
        break;
      }
      if buffer[i] >= 0x80 {
        buffer[i] := 0x20;
      }
      i := i + 1;
    }
    UpToNulIs(copied, i);
    assert copied[i] == 0;
    assert buffer[..i] == AsciiOf(copied[..i]);
    return Some(buffer[..i]);
  }

  /** The part of name2utf8 that works in a buffer on the stack; None stands for an access outside it. */
  method AsciiInBuffer(a: array<byte>, p: nat, len: nat) returns (r: Option<seq<byte>>)
    requires p + len <= a.Length
    ensures r.Some? <==> FitsBuffer(a[p..p + len])
    ensures r.Some? ==> r.value == Chomp(Chug(AsciiOf(UpToNul(a[p..p + len]))))
  {
    var buffer := new byte[NAME_BUFFER](_ => 0);
    ghost var name := a[p..p + len];
    var inside := CopyName(buffer, a, p, len);
    if !inside {
      return None;
    }
    CopiedText(name, buffer[..]);
    hide AsciiOf, Chomp, Chug, UpToNul;
    var text := BlankNonAscii(buffer);
    return if text.Some? then Some(Chomp(Chug(text.value))) else None;
  }

  /** The text in a buffer that holds a copy of a name. */
  lemma CopiedText(name: seq<byte>, buffer: seq<byte>)
    requires |name| <= |buffer| == NAME_BUFFER
    requires var s := UpToNul(name);
             |s| <= |buffer| && buffer[..|s|] == s && forall k :: |s| <= k < NAME_BUFFER ==> buffer[k] == 0
    ensures 0 in buffer <==> FitsBuffer(name)
    ensures 0 in buffer ==> UpToNul(buffer) == UpToNul(name)
  {
    var s := UpToNul(name);
    NoNul(name);
    assert forall k :: 0 <= k < |s| ==> buffer[k] == s[k];
    if |s| < NAME_BUFFER {
      assert buffer[|s|] == 0;
      UpToNulIs(buffer, |s|);
    }
  }

  lemma {:induction false} NoNul(s: seq<byte>)
    ensures |UpToNul(s)| <= |s| && (|UpToNul(s)| < |s| <==> 0 in s)
    ensures forall k :: 0 <= k < |UpToNul(s)| ==> UpToNul(s)[k] != 0
  {
    if s != [] && s[0] != 0 {
      NoNul(s[1..]);
      assert s == [s[0]] + s[1..];
    }
  }

  /** name2utf8: a valid name is copied; otherwise every non-ASCII byte up to the first NUL
      becomes a space and the ends are stripped. */
  method Name2Utf8(a: array<byte>, p: nat, len: nat) returns (text: seq<byte>)
    requires p + len <= a.Length
    ensures text == NameText(a[p..p + len])
  {
    var name := a[p..p + len];
    if Utf8Valid(name) {
      return name;
    }
    var inBuffer := AsciiInBuffer(a, p, len);
    if inBuffer.Some? {
      return inBuffer.value;
    }
    // here the C buffer is too short: this one is not bounded
    var buffer := UpToNul(name);
    ghost var copied := buffer;
    for i := 0 to |buffer|
      invariant |buffer| == |copied|
      invariant forall k :: 0 <= k < i ==> buffer[k] == Ascii(copied[k])
      invariant forall k :: i <= k < |copied| ==> buffer[k] == copied[k]
    {
      if buffer[i] >= 0x80 {
        buffer := buffer[i := 0x20];
      }
    }
    assert buffer == AsciiOf(copied);
    text := Chomp(Chug(buffer));
  }

  /** struct eir_data; eir holds its fields, which the parsing functions update in place. */
  class EirData {
    var eir: Record

    /** A zero-filled struct. */
    constructor ()
      ensures eir == ZeroedRecord()
    {
      eir := ZeroedRecord();
    }

    method ParseUuid16(a: array<byte>, p: nat, len: nat)
      requires p + len <= a.Length
      modifies this
      ensures eir == old(eir).(services := old(eir).services + Uuids16(old(a[p..p + len])))
    {
      ghost var all := Uuids16(a[p..p + len]);
      assert forall i :: 0 <= i < |all| ==> all[i] == Uuid16(GetLe16(a[p + 2 * i], a[p + 2 * i + 1]));
      for i := 0 to len / 2
        invariant eir == old(eir).(services := old(eir).services + all[..i])
      {
        eir := eir.(services := eir.services + [Uuid16(GetLe16(a[p + 2 * i], a[p + 2 * i + 1]))]);
        assert all[..i + 1] == all[..i] + [all[i]];
      }
      assert all[..len / 2] == all;
    }

    method ParseUuid32(a: array<byte>, p: nat, len: nat)
      requires p + len <= a.Length
      modifies this
      ensures eir == old(eir).(services := old(eir).services + Uuids32(old(a[p..p + len])))
    {
      ghost var all := Uuids32(a[p..p + len]);
      assert forall i :: 0 <= i < |all| ==>
        all[i] == Uuid32(GetLe32(a[p + 4 * i], a[p + 4 * i + 1], a[p + 4 * i + 2], a[p + 4 * i + 3]));
      for i := 0 to len / 4
        invariant eir == old(eir).(services := old(eir).services + all[..i])
      {
        eir := eir.(services := eir.services
          + [Uuid32(GetLe32(a[p + 4 * i], a[p + 4 * i + 1], a[p + 4 * i + 2], a[p + 4 * i + 3]))]);
        assert all[..i + 1] == all[..i] + [all[i]];
      }
      assert all[..len / 4] == all;
    }

    method ParseUuid128(a: array<byte>, p: nat, len: nat)
      requires p + len <= a.Length
      modifies this
      ensures eir == old(eir).(services := old(eir).services + Uuids128(old(a[p..p + len])))
    {
      ghost var all := Uuids128(a[p..p + len]);
      var uuidPtr := p;
      for i := 0 to len / 16
        invariant uuidPtr == p + 16 * i
        invariant eir == old(eir).(services := old(eir).services + all[..i])
      {
        SubSlice(a, p, len, 16 * i, 16 * i + 16);
        eir := eir.(services := eir.services + [Uuid128(Reversed(a[uuidPtr..uuidPtr + 16]))]);
        uuidPtr := uuidPtr + 16;
        assert all[..i + 1] == all[..i] + [all[i]];
      }
      assert all[..len / 16] == all;
    }

    /** Trailing NULs some vendors put into the name are dropped first. */
    method ParseName(a: array<byte>, kind: byte, p: nat, len: nat)
      requires p + len <= a.Length
      modifies this
      ensures eir == old(eir).(name := Some(NameText(DropNuls(old(a[p..p + len])))),
                               nameComplete := kind == NAME_COMPLETE)
    {
      ghost var d := a[p..p + len];
      var dataLen: nat := len;
      while dataLen > 0 && a[p + dataLen - 1] == 0
        invariant dataLen <= len
        invariant DropNuls(a[p..p + dataLen]) == DropNuls(d)
      {
        dataLen := dataLen - 1;
        assert a[p..p + dataLen + 1][..dataLen] == a[p..p + dataLen];
      }
      var text := Name2Utf8(a, p, dataLen);
      eir := eir.(name := Some(text), nameComplete := kind == NAME_COMPLETE);
    }

    /** eir_parse_sd behind a UUID of the given width. */
    method ParseSd(uuid: ServiceUuid, a: array<byte>, p: nat, len: nat)
      requires p + len <= a.Length
      modifies this
      ensures eir == AddSd(old(eir), uuid, old(a[p..p + len]))
    {
      eir := eir.(sds := eir.sds + [Sd(uuid, a[p..p + len])]);
    }

    method ParseMsd(a: array<byte>, p: nat, len: nat)
      requires p + len <= a.Length
      modifies this
      ensures eir == Apply(old(eir), Field(MANUFACTURER_DATA, old(a[p..p + len])))
    {
      if 2 <= len <= 2 + MSD_MAX_LEN {
        SubSlice(a, p, len, 2, len);
        eir := eir.(msds := eir.msds + [Msd(GetLe16(a[p], a[p + 1]), a[p + 2..p + len])]);
      }
    }

    method ParseServiceData(a: array<byte>, kind: byte, p: nat, len: nat)
      requires p + len <= a.Length
      requires kind in {SVC_DATA16, SVC_DATA32, SVC_DATA128}
      modifies this
      ensures eir == Apply(old(eir), Field(kind, old(a[p..p + len])))
    {
      var width := if kind == SVC_DATA16 then 2 else if kind == SVC_DATA32 then 4 else 16;
      if width <= len <= SD_MAX_LEN {
        SubSlice(a, p, len, 0, width);
        SubSlice(a, p, len, width, len);
        var uuid := if kind == SVC_DATA16 then Uuid16(GetLe16(a[p], a[p + 1]))
        else if kind == SVC_DATA32 then Uuid32(GetLe32(a[p], a[p + 1], a[p + 2], a[p + 3]))
        else Uuid128(Reversed(a[p..p + 16]));
        ParseSd(uuid, a, p + width, len - width);
      }
    }

    /** The body of the switch, for one field. */
    method ParseField(a: array<byte>, kind: byte, p: nat, len: nat)
      requires p + len <= a.Length
      modifies this
      ensures eir == Apply(old(eir), Field(kind, old(a[p..p + len])))
    {
      match kind
      case 0x02 | 0x03 => ParseUuid16(a, p, len);
      case 0x04 | 0x05 => ParseUuid32(a, p, len);
      case 0x06 | 0x07 => ParseUuid128(a, p, len);
      case 0x01 => if len > 0 { eir := eir.(flags := a[p]); }
      case 0x08 | 0x09 => ParseName(a, kind, p, len);
      case 0x0A => if len >= 1 { eir := eir.(txPower := Signed8(a[p])); }
      case 0x0D => if len >= 3 { eir := eir.(deviceClass := GetLe32(a[p], a[p + 1], a[p + 2], 0)); }
      case 0x19 => if len >= 2 { eir := eir.(appearance := GetLe16(a[p], a[p + 1])); }
      case 0x0E => if len >= 16 { SubSlice(a, p, len, 0, 16); eir := eir.(hash := Some(a[p..p + 16])); }
      case 0x0F => if len >= 16 { SubSlice(a, p, len, 0, 16); eir := eir.(randomizer := Some(a[p..p + 16])); }
      case 0x10 =>
        if len >= 8 {
          eir := eir.(didSource := GetLe16(a[p], a[p + 1]), didVendor := GetLe16(a[p + 2], a[p + 3]),
                      didProduct := GetLe16(a[p + 4], a[p + 5]), didVersion := GetLe16(a[p + 6], a[p + 7]));
        }
      case 0x16 | 0x20 | 0x21 => ParseServiceData(a, kind, p, len);
      case 0xFF => ParseMsd(a, p, len);
      case _ => eir := eir.(others := eir.others + [Field(kind, a[p..p + len])]);
    }

    /** One turn of the loop of eir_parse: the field at p, whose length byte has been checked. */
    method ParseNext(a: array<byte>, p: nat, ghost rest: seq<byte>)
      requires p + |rest| <= a.Length && rest == a[p..p + |rest|] && !Stuck(rest)
      modifies this
      ensures ApplyAll(eir, Fields(rest[rest[0] + 1..])) == ApplyAll(old(eir), Fields(rest))
    {
      hide Apply, ApplyAll, Fields;
      var fieldLen: nat := a[p];
      ghost var f := Field(rest[1], rest[2..fieldLen + 1]);
      assert f.data == a[p + 2..p + 2 + (fieldLen - 1)] by {
        SubSlice(a, p, |rest|, 2, fieldLen + 1);
      }
      ParseField(a, a[p + 1], p + 2, fieldLen - 1);
      ParseTurn(old(eir), rest, f, eir);
    }

    /** eir_parse refines the recursive decoder; a null buffer only resets flags and power. */
    method Parse(eirData: array?<byte>, start: nat, eirLen: byte)
      requires eirData != null ==> start + eirLen <= eirData.Length
      modifies this
      ensures eirData == null ==> eir == old(eir).(flags := 0, txPower := 127)
      ensures eirData != null ==> eir == Parsed(old(eir), old(eirData[start..start + eirLen]))
    {
      eir := eir.(flags := 0, txPower := 127);
      if eirData == null {
        return;
      }
      ghost var rest := eirData[start..start + eirLen];
      ghost var goal := ApplyAll(eir, Fields(rest));
      var len: u16, p: nat := 0, start;
      while len < eirLen - 1
        invariant len <= eirLen && p == start + len
        invariant rest == eirData[p..start + eirLen]
        invariant goal == ApplyAll(eir, Fields(rest))
        decreases eirLen - len
      {
        var fieldLen := eirData[p];
        if fieldLen == 0 {
          break;
        }
        len := len + fieldLen + 1;
        if len > eirLen {
          break;
        }
        ParseNext(eirData, p, rest);
        rest := rest[fieldLen + 1..];
        p := p + fieldLen + 1;
      }
      assert Stuck(rest);
    }

    /** eir_parse_oob: -1 exactly when the block is too short or lies about its length. */
    method ParseOob(eirData: array<byte>, eirLen: u16) returns (result: int)
      requires eirLen <= eirData.Length
      modifies this
      ensures ParsedOob(old(eir), old(eirData[..eirLen])) == (if result == 0 then Some(eir) else None)
      ensures result != 0 ==> result == -1 && eir == old(eir)
    {
      if eirLen < OOB_MIN {
        return -1;
      }
      if eirLen != GetLe16(eirData[0], eirData[1]) {
        return -1;
      }
      ghost var s := eirData[..eirLen];
      eir := eir.(addr := eirData[2..8]);
      assert s[2..8] == eir.addr;
      var rest := eirLen - OOB_MIN;
      if rest > 0 {
        assert s[8..8 + rest % 0x100] == eirData[8..8 + rest % 0x100];
        Parse(eirData, 8, rest % 0x100);
      }
      result := 0;
    }
  }
}
