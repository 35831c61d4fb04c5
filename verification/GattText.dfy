/** The lines of the GATT cache: how sprintf writes an attribute and how sscanf reads it back. */
module GattText {
  import opened Bytes
  import opened Text
  import opened GattDb

  const PRIM_SVC := "2800"
  const SND_SVC := "2801"
  const INCLUDE := "2802"
  const CHARAC := "2803"

  /** The line of an attribute. That of a characteristic carries a value only for the database hash,
      that of a descriptor only for the extended properties; 0 stands for none. */
  datatype Entry =
    | ServiceLine(handle: u16, primary: bool, end: u16, uuid: string)
    | InclLine(handle: u16, start: u16, end: u16, uuid: string)
    | ChrcLine(handle: u16, valueHandle: u16, properties: byte, value: seq<byte>, uuid: string)
    | DescLine(handle: u16, extended: u16, uuid: string)

  /** What the loader takes from a line: of an include only where the included service starts, of a
      characteristic only the handle of its value. */
  datatype Command =
    | AddService(start: u16, primary: bool, end: u16, uuid: string)
    | AddIncluded(included: u16)
    | AddChrc(valueHandle: u16, properties: byte, value: seq<byte>, uuid: string)
    | AddDesc(handle: u16, extended: u16, uuid: string)

  function CommandOf(e: Entry): Command {
    match e
    case ServiceLine(handle, primary, end, uuid) => AddService(handle, primary, end, uuid)
    case InclLine(_, start, _, _) => AddIncluded(start)
    case ChrcLine(_, valueHandle, properties, value, uuid) => AddChrc(valueHandle, properties, value, uuid)
    case DescLine(handle, extended, uuid) => AddDesc(handle, extended, uuid)
  }

  // ----- writing -----

  predicate IsLowerHex(c: char) {
    IsHexDigit(c) && !('A' <= c <= 'F')
  }

  /** The 36 characters of a UUID: groups of 8, 4, 4, 4 and 12 lower-case digits. */
  predicate Canonical(u: string) {
    |u| == 36 && forall i :: 0 <= i < 36 ==> if i in {8, 13, 18, 23} then u[i] == '-' else IsLowerHex(u[i])
  }

  function Key(e: Entry): string {
    Hex16(e.handle)
  }

  function Line(e: Entry): string {
    match e
    case ServiceLine(_, primary, end, uuid) =>
      (if primary then PRIM_SVC else SND_SVC) + (":" + (Hex16(end) + (":" + uuid)))
    case InclLine(_, start, end, uuid) => INCLUDE + ":" + (Hex16(start) + (":" + (Hex16(end) + (":" + uuid))))
    case ChrcLine(_, handle, properties, value, uuid) =>
      CHARAC + ":" + (Hex16(handle) + (":" + (HexByte(properties) + (":" +
        if value == [] then uuid else HexBytes(value) + (":" + uuid)))))
    case DescLine(_, extended, uuid) => if extended != 0 then Hex16(extended) + (":" + uuid) else uuid
  }

  // ----- reading: the conversions of sscanf -----

  predicate IsSpace(c: char) {
    c == ' ' || '\t' <= c <= '\r'
  }

  /** How many digits a hexadecimal conversion takes, at most width. */
  function Digits(s: string, width: nat): (n: nat)
    ensures n <= |s| && n <= width && forall i :: 0 <= i < n ==> IsHexDigit(s[i])
  {
    if width == 0 || s == [] || !IsHexDigit(s[0]) then 0 else 1 + Digits(s[1..], width - 1)
  }

  function Pow16(n: nat): nat {
    if n == 0 then 1 else 16 * Pow16(n - 1)
  }

  lemma {:induction false} ValueBound(s: string)
    requires forall i :: 0 <= i < |s| ==> IsHexDigit(s[i])
    ensures HexValue(s) < Pow16(|s|)
  {
    if s != [] {
      ValueBound(s[..|s| - 1]);
    }
  }

  /** "%4hx" or "%2hx": the value and the rest of the text. */
  function ScanHex(s: string, width: nat): (r: Option<(u16, string)>)
    requires width <= 4
    ensures r.Some? && width == 2 ==> r.value.0 < 0x100
  {
    var n := Digits(s, width);
    ValueBound(s[..n]);
    assert Pow16(1) == 16 && Pow16(2) == 0x100 && Pow16(3) == 0x1000 && Pow16(4) == 0x1_0000;
    if n == 0 then None else Some((HexValue(s[..n]), s[n..]))
  }

  /** "%[^:]" */
  function ColonAt(s: string): (n: nat)
    ensures n <= |s| && (forall i :: 0 <= i < n ==> s[i] != ':') && (n < |s| ==> s[n] == ':')
  {
    if s == [] || s[0] == ':' then 0 else 1 + ColonAt(s[1..])
  }

  function ScanType(s: string): Option<(string, string)> {
    var n := ColonAt(s);
    if n == 0 then None else Some((s[..n], s[n..]))
  }

  /** The length of the word in front, at most width. */
  function WordAt(s: string, width: nat): (n: nat)
    ensures n <= |s| && n <= width && (forall i :: 0 <= i < n ==> !IsSpace(s[i]))
    ensures n < |s| && n < width ==> IsSpace(s[n])
  {
    if width == 0 || s == [] || IsSpace(s[0]) then 0 else 1 + WordAt(s[1..], width - 1)
  }

  /** "%s", or with a width. */
  function ScanWord(s: string, width: nat): Option<(string, string)> {
    var n := WordAt(s, width);
    if n == 0 then None else Some((s[..n], s[n..]))
  }

  function ScanUuid(s: string): Option<string> {
    var word :- ScanWord(s, |s|);
    Some(word.0)
  }

  lemma {:induction false} DigitsOf(t: string, rest: string)
    requires forall i :: 0 <= i < |t| ==> IsHexDigit(t[i])
    ensures Digits(t + rest, |t|) == |t|
  {
    if t != [] {
      assert (t + rest)[1..] == t[1..] + rest;
      DigitsOf(t[1..], rest);
    }
  }

  lemma HexOf(t: string, rest: string)
    requires 0 < |t| <= 4 && forall i :: 0 <= i < |t| ==> IsHexDigit(t[i])
    ensures ScanHex(t + rest, |t|) == Some((HexValue(t), rest))
  {
    DigitsOf(t, rest);
    assert (t + rest)[..|t|] == t && (t + rest)[|t|..] == rest;
  }

  lemma Hex16Of(v: u16, rest: string)
    ensures ScanHex(Hex16(v) + rest, 4) == Some((v, rest))
  {
    Hex16Value(v);
    HexOf(Hex16(v), rest);
  }

  lemma HexByteOf(b: byte, rest: string)
    ensures ScanHex(HexByte(b) + rest, 2) == Some((b, rest))
  {
    HexByteValue(b);
    HexOf(HexByte(b), rest);
  }

  lemma {:induction false} ColonOf(t: string, rest: string)
    requires ':' !in t && (rest == [] || rest[0] == ':')
    ensures ColonAt(t + rest) == |t|
  {
    if t == [] {
      assert t + rest == rest;
    } else {
      assert (t + rest)[1..] == t[1..] + rest;
      ColonOf(t[1..], rest);
    }
  }

  lemma TypeOf(t: string, rest: string)
    requires t != [] && ':' !in t && (rest == [] || rest[0] == ':')
    ensures ScanType(t + rest) == Some((t, rest))
  {
    ColonOf(t, rest);
    assert (t + rest)[..|t|] == t && (t + rest)[|t|..] == rest;
  }

  lemma {:induction false} WordEnds(t: string, rest: string)
    requires forall i :: 0 <= i < |t| ==> !IsSpace(t[i])
    ensures WordAt(t + rest, |t|) == |t|
  {
    if t != [] {
      assert (t + rest)[1..] == t[1..] + rest;
      WordEnds(t[1..], rest);
    }
  }

  lemma WordOf(t: string, rest: string)
    requires t != [] && forall i :: 0 <= i < |t| ==> !IsSpace(t[i])
    ensures ScanWord(t + rest, |t|) == Some((t, rest))
  {
    WordEnds(t, rest);
    assert (t + rest)[..|t|] == t && (t + rest)[|t|..] == rest;
  }

  lemma UuidOf(u: string)
    requires Canonical(u)
    ensures ScanUuid(u) == Some(u)
  {
    assert u + [] == u;
    WordOf(u, []);
  }

  /** Four digits of a UUID can be taken for a value, but no colon follows them. */
  lemma UuidIsNoValue(u: string)
    requires Canonical(u)
    ensures ScanHex(u, 4).Some? && ScanLiteral(ScanHex(u, 4).value.1, ":") == None
  {
    assert u == u[..4] + u[4..];
    HexOf(u[..4], u[4..]);
    assert u[4..][0] == u[4];
  }

  // ----- reading entries -----

  /** Two digits a byte, up to len bytes; the first pair that is no number ends it. */
  function StrBytes(s: string, len: nat): (bs: seq<byte>)
    ensures |bs| <= len
  {
    if len == 0 || s == [] then []
    else
      match ScanHex(s, 2)
      case None => []
      case Some((v, _)) => [v] + StrBytes(if |s| < 2 then [] else s[2..], len - 1)
  }

  lemma StrBytesStep(val: seq<byte>, s: string, len: nat)
    requires len > 0
    ensures s == [] || ScanHex(s, 2).None? ==> StrBytes(s, len) == []
    ensures s != [] && ScanHex(s, 2).Some? ==>
      val + StrBytes(s, len) == (val + [ScanHex(s, 2).value.0]) + StrBytes(if |s| < 2 then [] else s[2..], len - 1)
  {
    hide ScanHex;
  }

  lemma NoBytes(s: string)
    ensures StrBytes(s, 0) == []
  {
  }

  method Str2Val(str: string, len: nat) returns (val: seq<byte>)
    ensures val == StrBytes(str, len)
  {
    hide ScanHex, StrBytes;
    val := [];
    var pos := str;
    for i := 0 to len
      invariant val + StrBytes(pos, len - i) == StrBytes(str, len)
    {
      StrBytesStep(val, pos, len - i);
      if pos == [] {
        return;
      }
      var scanned := ScanHex(pos, 2);
      if scanned.None? {
        return;
      }
      val := val + [scanned.value.0];
      pos := if |pos| < 2 then [] else pos[2..];
    }
    NoBytes(pos);
  }

  function LoadService(handle: string, value: string): (r: Option<Command>)
    ensures r.Some? ==> r.value.AddService?
  {
    var start :- ScanHex(handle, 4);
    var kind :- ScanType(value);
    var rest :- ScanLiteral(kind.1, ":");
    var end :- ScanHex(rest, 4);
    var last :- ScanLiteral(end.1, ":");
    var uuid :- ScanUuid(last);
    if kind.0 == PRIM_SVC then Some(AddService(start.0, true, end.0, uuid))
    else if kind.0 == SND_SVC then Some(AddService(start.0, false, end.0, uuid))
    else None
  }

  /** The handle is read but overwritten; end and UUID are only logged. */
  function LoadIncl(handle: string, value: string): Option<Command> {
    var _ :- ScanHex(handle, 4);
    var first :- ScanLiteral(value, INCLUDE + ":");
    var start :- ScanHex(first, 4);
    var rest :- ScanLiteral(start.1, ":");
    var end :- ScanHex(rest, 4);
    var last :- ScanLiteral(end.1, ":");
    var _ :- ScanUuid(last);
    Some(AddIncluded(start.0))
  }

  /** The value handle, the properties and what follows them. */
  function ChrcStart(value: string): Option<(u16, u16, string)> {
    var first :- ScanLiteral(value, CHARAC + ":");
    var handle :- ScanHex(first, 4);
    var rest :- ScanLiteral(handle.1, ":");
    var properties :- ScanHex(rest, 2);
    var last :- ScanLiteral(properties.1, ":");
    Some((handle.0, properties.0, last))
  }

  /** "%32s:%s" */
  function ChrcValue(s: string): Option<(string, string)> {
    var word :- ScanWord(s, 32);
    var last :- ScanLiteral(word.1, ":");
    var uuid :- ScanUuid(last);
    Some((word.0, uuid))
  }

  function LoadChrc(handle: string, value: string): Option<Command> {
    var _ :- ScanHex(handle, 4);
    var start :- ChrcStart(value);
    match ChrcValue(start.2)
    case Some((text, uuid)) => Some(AddChrc(start.0, start.1 % 0x100, StrBytes(text, 16), uuid))
    case None =>
      var uuid :- ScanUuid(start.2);
      Some(AddChrc(start.0, start.1 % 0x100, [], uuid))
  }

  /** "%04hx:%s" */
  function DescValue(value: string): Option<(u16, string)> {
    var extended :- ScanHex(value, 4);
    var last :- ScanLiteral(extended.1, ":");
    var uuid :- ScanUuid(last);
    Some((extended.0, uuid))
  }

  /** A descriptor for extended properties must have a value. */
  function LoadDesc(handle: string, value: string): Option<Command> {
    var h :- ScanHex(handle, 4);
    var found :- match DescValue(value)
                 case Some(pair) => Some(pair)
                 case None => var uuid :- ScanUuid(value); Some((0, uuid));
    if found.1 == EXT_PROPER_UUID && found.0 == 0 then None else Some(AddDesc(h.0, found.0, found.1))
  }

  predicate IsServiceKind(kind: string) {
    kind == PRIM_SVC || kind == SND_SVC
  }

  /** The kind of a line is the text in front of its first colon. */
  function LoadLine(handle: string, value: string): Option<Command> {
    var kind :- ScanType(value);
    if IsServiceKind(kind.0) then LoadService(handle, value)
    else if kind.0 == INCLUDE then LoadIncl(handle, value)
    else if kind.0 == CHARAC then LoadChrc(handle, value)
    else LoadDesc(handle, value)
  }

  // ----- round trips -----

  /** What the cache stores: a value only where there is one. */
  predicate Storable(e: Entry) {
    && Canonical(e.uuid)
    && (e.ChrcLine? ==> |e.value| in {0, 16})
    && (e.DescLine? && e.extended != 0 ==> e.uuid == EXT_PROPER_UUID)
  }

  /** The line of a descriptor for extended properties needs a value that is neither 0 nor one of the kinds. */
  predicate Readable(e: Entry) {
    e.DescLine? && e.uuid == EXT_PROPER_UUID ==> e.extended != 0 && !(0x2800 <= e.extended <= 0x2803)
  }

  lemma KeyBack(e: Entry)
    ensures ScanHex(Key(e), 4) == Some((e.handle, []))
  {
    assert Key(e) + [] == Key(e);
    Hex16Of(e.handle, []);
  }

  lemma ServiceBack(e: Entry)
    requires e.ServiceLine? && Storable(e)
    ensures LoadService(Key(e), Line(e)) == Some(CommandOf(e))
  {
    KeyBack(e);
    var kind := if e.primary then PRIM_SVC else SND_SVC;
    TypeOf(kind, ":" + (Hex16(e.end) + (":" + e.uuid)));
    LiteralOf(":", Hex16(e.end) + (":" + e.uuid));
    Hex16Of(e.end, ":" + e.uuid);
    LiteralOf(":", e.uuid);
    UuidOf(e.uuid);
  }

  lemma IncludeBack(e: Entry)
    requires e.InclLine? && Storable(e)
    ensures LoadIncl(Key(e), Line(e)) == Some(AddIncluded(e.start))
  {
    KeyBack(e);
    LiteralOf(INCLUDE + ":", Hex16(e.start) + (":" + (Hex16(e.end) + (":" + e.uuid))));
    Hex16Of(e.start, ":" + (Hex16(e.end) + (":" + e.uuid)));
    LiteralOf(":", Hex16(e.end) + (":" + e.uuid));
    Hex16Of(e.end, ":" + e.uuid);
    LiteralOf(":", e.uuid);
    UuidOf(e.uuid);
  }

  lemma ChrcBack(e: Entry)
    requires e.ChrcLine? && Storable(e)
    ensures LoadChrc(Key(e), Line(e)) == Some(CommandOf(e))
  {
    hide Canonical, ScanHex, ScanWord, ScanUuid, ScanLiteral, ChrcStart, ChrcValue, StrBytes;
    hide HexBytes, Hex16, HexByte, Key;
    KeyBack(e);
    var tail := if e.value == [] then e.uuid else HexBytes(e.value) + (":" + e.uuid);
    ChrcStartBack(e.valueHandle, e.properties, tail);
    UuidOf(e.uuid);
    if e.value == [] {
      UuidIsNoHash(e.uuid);
    } else {
      HashBack(e.value, e.uuid);
    }
  }

  lemma ChrcStartBack(handle: u16, properties: byte, tail: string)
    ensures ChrcStart(CHARAC + ":" + (Hex16(handle) + (":" + (HexByte(properties) + (":" + tail)))))
         == Some((handle, properties, tail))
  {
    LiteralOf(CHARAC + ":", Hex16(handle) + (":" + (HexByte(properties) + (":" + tail))));
    Hex16Of(handle, ":" + (HexByte(properties) + (":" + tail)));
    LiteralOf(":", HexByte(properties) + (":" + tail));
    HexByteOf(properties, ":" + tail);
    LiteralOf(":", tail);
  }

  /** After 32 characters of a UUID there is no colon. */
  lemma UuidIsNoHash(u: string)
    requires Canonical(u)
    ensures ChrcValue(u) == None
  {
    assert u == u[..32] + u[32..];
    WordOf(u[..32], u[32..]);
    assert u[32..][0] == u[32];
  }

  lemma HashBack(hash: seq<byte>, u: string)
    requires |hash| == 16 && Canonical(u)
    ensures ChrcValue(HexBytes(hash) + (":" + u)) == Some((HexBytes(hash), u))
    ensures StrBytes(HexBytes(hash), 16) == hash
  {
    HexBytesAreHex(hash);
    WordOf(HexBytes(hash), ":" + u);
    LiteralOf(":", u);
    UuidOf(u);
    BytesBack(hash);
  }

  lemma {:induction false} HexBytesAreHex(bs: seq<byte>)
    ensures forall i :: 0 <= i < |HexBytes(bs)| ==> IsHexDigit(HexBytes(bs)[i])
  {
    if bs != [] {
      HexBytesAreHex(bs[..|bs| - 1]);
    }
  }

  lemma {:induction false} HexBytesFront(bs: seq<byte>)
    requires bs != []
    ensures HexBytes(bs) == HexByte(bs[0]) + HexBytes(bs[1..])
  {
    var n := |bs| - 1;
    if n == 0 {
      assert bs[..0] == [] && bs[1..] == [];
    } else {
      HexBytesFront(bs[..n]);
      assert bs[..n][1..] == bs[1..][..n - 1] && bs[1..][n - 1] == bs[n];
    }
  }

  lemma {:induction false} BytesBack(bs: seq<byte>)
    ensures StrBytes(HexBytes(bs), |bs|) == bs
  {
    if bs != [] {
      HexBytesFront(bs);
      HexByteOf(bs[0], HexBytes(bs[1..]));
      assert (HexByte(bs[0]) + HexBytes(bs[1..]))[2..] == HexBytes(bs[1..]);
      BytesBack(bs[1..]);
    }
  }

  lemma DescBack(e: Entry)
    requires e.DescLine? && Storable(e)
    ensures LoadDesc(Key(e), Line(e))
         == if e.uuid == EXT_PROPER_UUID && e.extended == 0 then None else Some(CommandOf(e))
  {
    KeyBack(e);
    UuidOf(e.uuid);
    if e.extended != 0 {
      Hex16Of(e.extended, ":" + e.uuid);
      LiteralOf(":", e.uuid);
    } else {
      UuidIsNoValue(e.uuid);
    }
  }

  lemma KindsAreNumbers(v: u16)
    ensures Hex16(v) == PRIM_SVC <==> v == 0x2800
    ensures Hex16(v) == SND_SVC <==> v == 0x2801
    ensures Hex16(v) == INCLUDE <==> v == 0x2802
    ensures Hex16(v) == CHARAC <==> v == 0x2803
  {
    KindTexts();
    hide Hex16;
    Hex16Injective(v, 0x2800);
    Hex16Injective(v, 0x2801);
    Hex16Injective(v, 0x2802);
    Hex16Injective(v, 0x2803);
  }

  lemma KindTexts()
    ensures Hex16(0x2800) == PRIM_SVC && Hex16(0x2801) == SND_SVC && Hex16(0x2802) == INCLUDE && Hex16(0x2803) == CHARAC
  {
  }

  lemma Hex16Injective(v: u16, w: u16)
    ensures Hex16(v) == Hex16(w) ==> v == w
  {
    hide Hex16, HexValue;
    Hex16Value(v);
    Hex16Value(w);
  }

  function KindOf(e: Entry): string {
    match e
    case ServiceLine(_, primary, _, _) => if primary then PRIM_SVC else SND_SVC
    case InclLine(_, _, _, _) => INCLUDE
    case ChrcLine(_, _, _, _, _) => CHARAC
    case DescLine(_, extended, uuid) => if extended != 0 then Hex16(extended) else uuid
  }

  /** The kind that is read is the kind that was written. */
  lemma KindBack(e: Entry)
    requires Storable(e)
    ensures ScanType(Line(e)).Some? && ScanType(Line(e)).value.0 == KindOf(e)
  {
    match e
    case ServiceLine(_, primary, end, uuid) =>
      TypeOf(if primary then PRIM_SVC else SND_SVC, ":" + (Hex16(end) + (":" + uuid)));
    case InclLine(_, start, end, uuid) =>
      var rest := Hex16(start) + (":" + (Hex16(end) + (":" + uuid)));
      assert INCLUDE + ":" + rest == INCLUDE + (":" + rest);
      TypeOf(INCLUDE, ":" + rest);
    case ChrcLine(_, handle, properties, value, uuid) =>
      var rest := Hex16(handle) + (":" + (HexByte(properties) + (":" +
                    if value == [] then uuid else HexBytes(value) + (":" + uuid))));
      assert CHARAC + ":" + rest == CHARAC + (":" + rest);
      TypeOf(CHARAC, ":" + rest);
    case DescLine(_, extended, uuid) =>
      if extended != 0 {
        Hex16Value(extended);
        TypeOf(Hex16(extended), ":" + uuid);
      } else {
        assert uuid + [] == uuid;
        TypeOf(uuid, []);
      }
  }

  lemma MistakenForService(handle: string, kind: string, u: string)
    requires Canonical(u) && kind != [] && ':' !in kind
    ensures LoadService(handle, kind + (":" + u)) == None
  {
    hide Canonical, ScanHex, ScanUuid, ScanLiteral, ScanType;
    TypeOf(kind, ":" + u);
    LiteralOf(":", u);
    UuidIsNoValue(u);
  }

  lemma MistakenForOther(handle: string, kind: string, u: string)
    requires Canonical(u) && kind in {INCLUDE, CHARAC}
    ensures kind == INCLUDE ==> LoadIncl(handle, kind + (":" + u)) == None
    ensures kind == CHARAC ==> LoadChrc(handle, kind + (":" + u)) == None
  {
    hide Canonical, ScanHex, ScanUuid, ScanLiteral, ChrcValue;
    LiteralOf(kind + ":", u);
    assert kind + ":" + u == kind + (":" + u);
    UuidIsNoValue(u);
  }

  /** In a file that the saver did not write, a descriptor's value of one of the four kinds makes its
      line look like that kind: then the digits of its UUID have no colon behind them, and reading
      fails. */
  lemma MistakenKind(e: Entry)
    requires e.DescLine? && Storable(e) && 0x2800 <= e.extended <= 0x2803
    ensures LoadLine(Key(e), Line(e)) == None
  {
    hide Canonical, ScanType, LoadService, LoadIncl, LoadChrc, LoadDesc, Hex16, Key;
    KindBack(e);
    KindsAreNumbers(e.extended);
    var kind := Hex16(e.extended);
    if kind == PRIM_SVC || kind == SND_SVC {
      MistakenForService(Key(e), kind, e.uuid);
    } else {
      MistakenForOther(Key(e), kind, e.uuid);
    }
  }

  /** A line gives back what it was written for exactly if it is readable, and nothing otherwise. */
  lemma LineBack(e: Entry)
    requires Storable(e)
    ensures LoadLine(Key(e), Line(e)) == if Readable(e) then Some(CommandOf(e)) else None
  {
    hide ScanType, LoadService, LoadIncl, LoadChrc, LoadDesc, Hex16, Key, Line;
    KindBack(e);
    match e
    case ServiceLine(_, _, _, _) => ServiceBack(e);
    case InclLine(_, _, _, _) => IncludeBack(e);
    case ChrcLine(_, _, _, _, _) => ChrcBack(e);
    case DescLine(_, extended, uuid) =>
      KindsAreNumbers(extended);
      if 0x2800 <= extended <= 0x2803 {
        MistakenKind(e);
      } else {
        DescBack(e);
      }
  }
}
