/**
 TLS records and ClientHello messages as pkg/protocol/https.go parses them.
 */
module Tls {
  import opened Bytes

  function Be16(high: byte, low: byte): (n: nat)
    ensures n < 65536
  {
    high as int * 256 + low as int
  }

  /** binary.BigEndian.Uint16 at position `i`. */
  function U16(s: seq<byte>, i: nat): (n: nat)
    requires i + 2 <= |s|
    ensures n < 65536
  {
    Be16(s[i], s[i + 1])
  }

  function U8(s: seq<byte>, i: nat): (n: nat)
    requires i < |s|
    ensures n < 256
  {
    s[i]
  }

  function PutU16(n: nat): (s: seq<byte>)
    requires n < 65536
    ensures |s| == 2 && Be16(s[0], s[1]) == n
  {
    [n / 256, n % 256]
  }

  lemma BigEndian()
    ensures PutU16(0x0102) == [1, 2]
  {
  }

  lemma PutBe16(high: byte, low: byte)
    ensures PutU16(Be16(high, low)) == [high, low]
  {
  }

  // ---------------------------------------------------------------------------
  // Length-prefixed vectors
  // ---------------------------------------------------------------------------

  datatype HelloError =
    | TooShort
    | IncompleteSessionId
    | IncompleteSuites
    | IncompleteSuitesData
    | IncompleteCompression
    | IncompleteCompressionData
    | IncompleteExtensionsLength
    | IncompleteExtensionsData

  /** A vector behind a length of one byte, and what follows it. */
  function Vector8(s: seq<byte>, noLength: HelloError, noData: HelloError)
    : (r: Outcome<(seq<byte>, seq<byte>), HelloError>)
    ensures !r.Panic?
  {
    if |s| < 1 then Fail(noLength)
    else if |s| < 1 + U8(s, 0) then Fail(noData)
    else Ok((s[1..1 + U8(s, 0)], s[1 + U8(s, 0)..]))
  }

  /** A vector behind a length of two bytes, and what follows it. */
  function Vector16(s: seq<byte>, noLength: HelloError, noData: HelloError)
    : (r: Outcome<(seq<byte>, seq<byte>), HelloError>)
    ensures !r.Panic?
  {
    if |s| < 2 then Fail(noLength)
    else if |s| < 2 + U16(s, 0) then Fail(noData)
    else Ok((s[2..2 + U16(s, 0)], s[2 + U16(s, 0)..]))
  }

  function Put8(v: seq<byte>): (s: seq<byte>)
    requires |v| < 256
    ensures |s| == 1 + |v|
  {
    [|v|] + v
  }

  function Put16(v: seq<byte>): (s: seq<byte>)
    requires |v| < 65536
    ensures |s| == 2 + |v|
  {
    PutU16(|v|) + v
  }

  lemma Vector8RoundTrip(v: seq<byte>, rest: seq<byte>, e: HelloError, f: HelloError)
    requires |v| < 256
    ensures Vector8(Put8(v) + rest, e, f) == Ok((v, rest))
  {
    var s := Put8(v) + rest;
    assert s[1..1 + |v|] == v && s[1 + |v|..] == rest;
  }

  lemma Vector16RoundTrip(v: seq<byte>, rest: seq<byte>, e: HelloError, f: HelloError)
    requires |v| < 65536
    ensures Vector16(Put16(v) + rest, e, f) == Ok((v, rest))
  {
    hide Be16, PutU16;
    var s := Put16(v) + rest;
    assert s[2..2 + |v|] == v && s[2 + |v|..] == rest;
  }

  // ---------------------------------------------------------------------------
  // Extensions
  // ---------------------------------------------------------------------------

  datatype Extension = Extension(extType: nat, length: nat, data: seq<byte>)

  predicate ValidExtension(e: Extension)
  {
    e.extType < 65536 && e.length == |e.data| < 65536
  }

  predicate ValidExtensions(es: seq<Extension>)
  {
    forall i :: 0 <= i < |es| ==> ValidExtension(es[i])
  }

  function SerializeExtension(e: Extension): (s: seq<byte>)
    requires ValidExtension(e)
    ensures |s| == 4 + |e.data|
  {
    PutU16(e.extType) + Put16(e.data)
  }

  function SerializeExtensions(es: seq<Extension>): (s: seq<byte>)
    requires ValidExtensions(es)
  {
    if es == [] then [] else SerializeExtension(es[0]) + SerializeExtensions(es[1..])
  }

  /** No whole extension starts here: under 4 bytes, or more data declared than is left. */
  predicate NoExtension(s: seq<byte>)
  {
    |s| < 4 || |s| < 4 + U16(s, 2)
  }

  function FirstExtension(s: seq<byte>): (e: Extension)
    requires !NoExtension(s)
    ensures ValidExtension(e)
  {
    Extension(U16(s, 0), U16(s, 2), s[4..4 + U16(s, 2)])
  }

  function ScanExtensions(s: seq<byte>): (es: seq<Extension>)
    ensures ValidExtensions(es)
    decreases |s|
  {
    if NoExtension(s) then []
    else [FirstExtension(s)] + ScanExtensions(s[4 + U16(s, 2)..])
  }

  lemma SplitSlices(s: seq<byte>, m: nat, n: nat)
    requires m + n <= |s|
    ensures s[..m + n] == s[..m] + s[m..][..n]
    ensures s[m + n..] == s[m..][n..] && s[m..m + n] == s[m..][..n]
  {
  }

  lemma FirstExtensionAt(data: seq<byte>, offset: nat)
    requires offset <= |data| && !NoExtension(data[offset..])
    ensures var length := U16(data, offset + 2);
            && U16(data[offset..], 2) == length && offset + 4 + length <= |data|
            && FirstExtension(data[offset..])
               == Extension(U16(data, offset), length, data[offset + 4..offset + 4 + length])
  {
    hide Be16;
    var rest := data[offset..];
    assert rest[2] == data[offset + 2] && rest[3] == data[offset + 3];
    assert rest[4..4 + U16(rest, 2)] == data[offset + 4..offset + 4 + U16(rest, 2)];
  }

  lemma ScanUnfolds(s: seq<byte>, found: seq<Extension>)
    requires !NoExtension(s)
    ensures found + ScanExtensions(s) == found + [FirstExtension(s)] + ScanExtensions(s[4 + U16(s, 2)..])
  {
    hide FirstExtension, Be16;
    assert ScanExtensions(s) == [FirstExtension(s)] + ScanExtensions(s[4 + U16(s, 2)..]);
  }

  lemma ScanStep(data: seq<byte>, offset: nat, found: seq<Extension>)
    requires offset <= |data| && !NoExtension(data[offset..])
    ensures var next := offset + 4 + U16(data, offset + 2);
            && next <= |data|
            && FirstExtension(data[offset..])
               == Extension(U16(data, offset), U16(data, offset + 2), data[offset + 4..next])
            && found + ScanExtensions(data[offset..])
               == found + [FirstExtension(data[offset..])] + ScanExtensions(data[next..])
  {
    hide ScanExtensions, FirstExtension, NoExtension, U16;
    FirstExtensionAt(data, offset);
    ScanUnfolds(data[offset..], found);
    SplitSlices(data, offset, 4 + U16(data, offset + 2));
  }

  /** Both ways in which the loop stops early. */
  lemma ScanEnds(data: seq<byte>, offset: nat)
    requires offset <= |data|
    requires offset + 4 > |data| || offset + 4 + U16(data, offset + 2) > |data|
    ensures ScanExtensions(data[offset..]) == []
  {
    hide Be16;
    if offset + 4 <= |data| { assert U16(data[offset..], 2) == U16(data, offset + 2); }
  }

  lemma ExtensionStands(data: seq<byte>, offset: nat)
    requires offset + 4 <= |data| && offset + 4 + U16(data, offset + 2) <= |data|
    ensures !NoExtension(data[offset..])
  {
    hide Be16;
    assert U16(data[offset..], 2) == U16(data, offset + 2);
  }

  method ParseTlsExtensions(data: seq<byte>) returns (extensions: seq<Extension>)
    ensures extensions == ScanExtensions(data)
  {
    hide ScanExtensions, FirstExtension, NoExtension, U16;
    extensions := [];
    var offset := 0;
    assert data[0..] == data;
    while offset < |data|
      invariant 0 <= offset <= |data|
      invariant extensions + ScanExtensions(data[offset..]) == ScanExtensions(data)
    {
      if offset + 4 > |data| {
        ScanEnds(data, offset);
        return;
      }
      var extType, length := U16(data, offset), U16(data, offset + 2);
      if offset + 4 + length > |data| {
        ScanEnds(data, offset);
        return;
      }
      ExtensionStands(data, offset);
      ScanStep(data, offset, extensions);
      offset := offset + 4;
      extensions := extensions + [Extension(extType, length, data[offset..offset + length])];
      offset := offset + length;
    }
    ScanEnds(data, offset);
  }

  lemma FirstExtensionRoundTrip(e: Extension, rest: seq<byte>)
    requires ValidExtension(e)
    ensures var s := SerializeExtension(e) + rest;
            !NoExtension(s) && FirstExtension(s) == e && s[4 + U16(s, 2)..] == rest
  {
    hide Be16, PutU16;
    var s := SerializeExtension(e) + rest;
    assert s == PutU16(e.extType) + PutU16(e.length) + e.data + rest;
    assert s[4..4 + e.length] == e.data && s[4 + e.length..] == rest;
  }

  lemma FirstExtensionSerializes(s: seq<byte>)
    requires !NoExtension(s)
    ensures SerializeExtension(FirstExtension(s)) == s[..4 + U16(s, 2)]
  {
    PutBe16(s[0], s[1]);
    PutBe16(s[2], s[3]);
    hide Be16, PutU16;
    assert s[..4 + U16(s, 2)] == [s[0], s[1]] + ([s[2], s[3]] + s[4..4 + U16(s, 2)]);
  }

  /** The scan is a parse of a prefix of its input, and stops only where no extension is left. */
  lemma {:induction false} ScanIsMaximal(s: seq<byte>)
    ensures var n := |SerializeExtensions(ScanExtensions(s))|;
            n <= |s| && s[..n] == SerializeExtensions(ScanExtensions(s)) && NoExtension(s[n..])
    decreases |s|
  {
    hide Be16;
    if NoExtension(s) {
      assert s[0..] == s;
    } else {
      var first, m := FirstExtension(s), 4 + U16(s, 2);
      var rest := ScanExtensions(s[m..]);
      ScanIsMaximal(s[m..]);
      FirstExtensionSerializes(s);
      assert ScanExtensions(s)[1..] == rest && ScanExtensions(s)[0] == first;
      hide ScanExtensions, FirstExtension, SerializeExtension, NoExtension, U16;
      SplitSlices(s, m, |SerializeExtensions(rest)|);
    }
  }

  /** It is the only such parse: serialised extensions come back whatever blocks the scan behind them. */
  lemma {:induction false} ScanRoundTrip(es: seq<Extension>, rest: seq<byte>)
    requires ValidExtensions(es) && NoExtension(rest)
    ensures ScanExtensions(SerializeExtensions(es) + rest) == es
  {
    hide Be16;
    if es == [] {
      assert SerializeExtensions(es) + rest == rest;
    } else {
      var tail := SerializeExtensions(es[1..]) + rest;
      assert SerializeExtensions(es) + rest == SerializeExtension(es[0]) + tail;
      FirstExtensionRoundTrip(es[0], tail);
      hide FirstExtension, SerializeExtension;
      ScanRoundTrip(es[1..], rest);
    }
  }

  // ---------------------------------------------------------------------------
  // Application-Layer Protocol Negotiation, RFC 7301
  // ---------------------------------------------------------------------------

  predicate ValidProtocols(ps: seq<seq<byte>>)
  {
    forall i :: 0 <= i < |ps| ==> |ps[i]| < 256
  }

  function SerializeProtocols(ps: seq<seq<byte>>): (s: seq<byte>)
    requires ValidProtocols(ps)
  {
    if ps == [] then [] else Put8(ps[0]) + SerializeProtocols(ps[1..])
  }

  predicate NoProtocol(s: seq<byte>)
  {
    s == [] || |s| < 1 + U8(s, 0)
  }

  function ScanProtocols(s: seq<byte>): (ps: seq<seq<byte>>)
    ensures ValidProtocols(ps)
    decreases |s|
  {
    if NoProtocol(s) then [] else [s[1..1 + U8(s, 0)]] + ScanProtocols(s[1 + U8(s, 0)..])
  }

  /** The protocol names; the declared list length is not looked at. */
  function ParseAlpn(data: seq<byte>): (ps: seq<seq<byte>>)
  {
    if |data| < 2 then [] else ScanProtocols(data[2..])
  }

  lemma ProtocolUnfolds(s: seq<byte>, found: seq<seq<byte>>)
    requires !NoProtocol(s)
    ensures found + ScanProtocols(s) == found + [s[1..1 + U8(s, 0)]] + ScanProtocols(s[1 + U8(s, 0)..])
  {
    hide U8;
    assert ScanProtocols(s) == [s[1..1 + U8(s, 0)]] + ScanProtocols(s[1 + U8(s, 0)..]);
  }

  lemma ProtocolStep(data: seq<byte>, offset: nat, found: seq<seq<byte>>)
    requires offset < |data| && offset + 1 + U8(data, offset) <= |data|
    ensures var next := offset + 1 + U8(data, offset);
            found + ScanProtocols(data[offset..]) == found + [data[offset + 1..next]] + ScanProtocols(data[next..])
  {
    hide ScanProtocols;
    var s, m := data[offset..], 1 + U8(data, offset);
    assert U8(s, 0) == U8(data, offset);
    ProtocolUnfolds(s, found);
    hide U8, NoProtocol;
    SplitSlices(data, offset, m);
    assert s[1..m] == data[offset + 1..offset + m];
  }

  lemma ProtocolsEnd(data: seq<byte>, offset: nat)
    requires offset <= |data| && (offset < |data| ==> offset + 1 + U8(data, offset) > |data|)
    ensures ScanProtocols(data[offset..]) == []
  {
  }

  method ParseAlpnExtension(data: seq<byte>) returns (protocols: seq<seq<byte>>)
    ensures protocols == ParseAlpn(data)
  {
    hide ScanProtocols, U8;
    if |data| < 2 { return []; }
    protocols := [];
    var offset := 2;
    while offset < |data|
      invariant 2 <= offset <= |data|
      invariant protocols + ScanProtocols(data[offset..]) == ParseAlpn(data)
    {
      var length := U8(data, offset);
      if offset + 1 + length > |data| {
        ProtocolsEnd(data, offset);
        return;
      }
      ProtocolStep(data, offset, protocols);
      offset := offset + 1;
      protocols := protocols + [data[offset..offset + length]];
      offset := offset + length;
    }
    ProtocolsEnd(data, offset);
  }

  lemma {:induction false} ProtocolScanIsMaximal(s: seq<byte>)
    ensures var n := |SerializeProtocols(ScanProtocols(s))|;
            n <= |s| && s[..n] == SerializeProtocols(ScanProtocols(s)) && NoProtocol(s[n..])
    decreases |s|
  {
    if NoProtocol(s) {
      assert s[0..] == s;
    } else {
      var m := 1 + U8(s, 0);
      var rest := ScanProtocols(s[m..]);
      ProtocolScanIsMaximal(s[m..]);
      assert Put8(s[1..m]) == s[..m];
      assert ScanProtocols(s)[1..] == rest && ScanProtocols(s)[0] == s[1..m];
      hide ScanProtocols, Put8, NoProtocol, U8;
      SplitSlices(s, m, |SerializeProtocols(rest)|);
    }
  }

  /** On arbitrary bytes: behind the two bytes of the list length, the names found and what no name
      can be read from are the whole of the data. */
  lemma AlpnMeaning(data: seq<byte>)
    ensures |data| < 2 ==> ParseAlpn(data) == []
    ensures |data| >= 2 ==>
              var names := SerializeProtocols(ParseAlpn(data));
              && names <= data[2..]
              && var rest := data[2 + |names|..];
                 rest == [] || |rest| < 1 + rest[0] as int
  {
    if |data| >= 2 {
      ProtocolScanIsMaximal(data[2..]);
      hide ScanProtocols, SerializeProtocols;
      var n := |SerializeProtocols(ParseAlpn(data))|;
      assert data[2..][n..] == data[2 + n..];
    }
  }

  lemma {:induction false} ProtocolScanRoundTrip(ps: seq<seq<byte>>, rest: seq<byte>)
    requires ValidProtocols(ps) && NoProtocol(rest)
    ensures ScanProtocols(SerializeProtocols(ps) + rest) == ps
  {
    if ps == [] {
      assert SerializeProtocols(ps) + rest == rest;
    } else {
      var tail := SerializeProtocols(ps[1..]) + rest;
      var s := Put8(ps[0]) + tail;
      assert SerializeProtocols(ps) + rest == s;
      assert s[1..1 + U8(s, 0)] == ps[0] && s[1 + U8(s, 0)..] == tail;
      hide Put8;
      ProtocolScanRoundTrip(ps[1..], rest);
    }
  }

  // ---------------------------------------------------------------------------
  // Server names, section 3 of RFC 6066
  // ---------------------------------------------------------------------------

  datatype ServerName = ServerName(nameType: byte, name: seq<byte>)

  const HOST_NAME: byte := 0

  /** The name of the first list entry if it is a host_name, otherwise nothing. */
  function ParseServerName(data: seq<byte>): (name: seq<byte>)
  {
    if |data| < 5 then []
    else if data[2] != HOST_NAME then []
    else if |data| < 5 + U16(data, 3) then []
    else data[5..5 + U16(data, 3)]
  }

  predicate ValidNames(names: seq<ServerName>)
  {
    forall i :: 0 <= i < |names| ==> |names[i].name| < 65536
  }

  function SerializeNames(names: seq<ServerName>): (s: seq<byte>)
    requires ValidNames(names)
  {
    if names == [] then [] else [names[0].nameType] + Put16(names[0].name) + SerializeNames(names[1..])
  }

  function FirstName(names: seq<ServerName>): seq<byte>
  {
    if names != [] && names[0].nameType == 0 then names[0].name else []
  }

  /** The first host_name entry anywhere in the list. */
  function FirstHostName(names: seq<ServerName>): seq<byte>
  {
    if names == [] then []
    else if names[0].nameType == 0 then names[0].name
    else FirstHostName(names[1..])
  }

  lemma ServerNameReadsFirst(names: seq<ServerName>)
    requires ValidNames(names) && |SerializeNames(names)| < 65536
    ensures ParseServerName(Put16(SerializeNames(names))) == FirstName(names)
  {
    hide Be16, PutU16;
    var data := Put16(SerializeNames(names));
    if names != [] {
      var name, rest := names[0].name, SerializeNames(names[1..]);
      assert data == PutU16(|SerializeNames(names)|) + [names[0].nameType] + PutU16(|name|) + name + rest;
      assert data[5..5 + |name|] == name;
    }
  }

  /** The parser finds the list's first host_name exactly when no entry of another type stands
      before a non-empty one. */
  lemma ServerNameIsFirstHostName(names: seq<ServerName>)
    requires ValidNames(names) && |SerializeNames(names)| < 65536
    ensures ParseServerName(Put16(SerializeNames(names))) == FirstHostName(names)
            <==> names == [] || names[0].nameType == 0 || FirstHostName(names) == []
  {
    ServerNameReadsFirst(names);
  }

  /** On arbitrary bytes: a non-empty name is found exactly where the first entry is a host_name and
      all of it is there. */
  lemma ServerNameMeaning(data: seq<byte>, name: seq<byte>)
    requires name != []
    ensures ParseServerName(data) == name
            <==> |data| >= 5 && data[2] == 0 && U16(data, 3) == |name| && 5 + |name| <= |data|
                 && data[5..5 + |name|] == name
  {
    hide Be16;
  }

  // ---------------------------------------------------------------------------
  // ClientHello, section 4.1.2 of RFC 8446
  // ---------------------------------------------------------------------------

  const SERVER_NAME := 0
  const ALPN := 16

  datatype ClientHello = ClientHello(
    version: nat,
    random: seq<byte>,
    sessionId: seq<byte>,
    cipherSuites: seq<nat>,
    compressionMethods: seq<byte>,
    extensions: seq<Extension>,
    serverName: seq<byte>,
    alpnProtocols: seq<seq<byte>>)

  function ReadSuites(s: seq<byte>): (suites: seq<nat>)
    requires |s| % 2 == 0
    ensures |suites| == |s| / 2
  {
    if s == [] then [] else [U16(s, 0)] + ReadSuites(s[2..])
  }

  /** A later extension of the same type replaces what an earlier one said. */
  function NameFrom(es: seq<Extension>): seq<byte>
  {
    if es == [] then []
    else
      var last := es[|es| - 1];
      if last.extType == SERVER_NAME then ParseServerName(last.data) else NameFrom(es[..|es| - 1])
  }

  function ProtocolsFrom(es: seq<Extension>): seq<seq<byte>>
  {
    if es == [] then []
    else
      var last := es[|es| - 1];
      if last.extType == ALPN then ParseAlpn(last.data) else ProtocolsFrom(es[..|es| - 1])
  }

  /** The extensions block, if there is one. */
  function ParseExtensionsBlock(s: seq<byte>): (r: Outcome<seq<Extension>, HelloError>)
    ensures !r.Panic?
  {
    if s == [] then Ok([])
    else
      match Vector16(s, IncompleteExtensionsLength, IncompleteExtensionsData)
      case Fail(e) => Fail(e)
      case Ok((block, _)) => Ok(ScanExtensions(block))
  }

  /** From the compression methods on. */
  function ParseTail(hello: ClientHello, s: seq<byte>): (r: Outcome<ClientHello, HelloError>)
  {
    match Vector8(s, IncompleteCompression, IncompleteCompressionData)
    case Fail(e) => Fail(e)
    case Ok((methods, rest)) =>
      match ParseExtensionsBlock(rest)
      case Fail(e) => Fail(e)
      case Ok(es) =>
        Ok(hello.(compressionMethods := methods, extensions := es,
                  serverName := NameFrom(es), alpnProtocols := ProtocolsFrom(es)))
  }

  /** From the cipher suites on; an odd length indexes past the allocated suites and panics. */
  function ParseSuites(hello: ClientHello, s: seq<byte>): (r: Outcome<ClientHello, HelloError>)
  {
    match Vector16(s, IncompleteSuites, IncompleteSuitesData)
    case Fail(e) => Fail(e)
    case Ok((suites, rest)) =>
      if |suites| % 2 == 1 then Panic
      else ParseTail(hello.(cipherSuites := ReadSuites(suites)), rest)
  }

  function Blank(data: seq<byte>): ClientHello
    requires |data| >= 34
  {
    ClientHello(U16(data, 0), data[2..34], [], [], [], [], [], [])
  }

  function ParseHello(data: seq<byte>): (r: Outcome<ClientHello, HelloError>)
  {
    if |data| < 43 then Fail(TooShort)
    else
      match Vector8(data[34..], IncompleteSessionId, IncompleteSessionId)
      case Fail(e) => Fail(e)
      case Ok((sessionId, rest)) => ParseSuites(Blank(data).(sessionId := sessionId), rest)
  }

  /** Where the cipher suites start, behind the session identifier. */
  function SuitesOffset(data: seq<byte>): (o: nat)
    requires |data| >= 43
  {
    35 + U8(data, 34)
  }

  /** The parser panics exactly on a hello of 43 bytes or more whose cipher suites are all there and
      have an odd length. */
  lemma HelloPanicsIff(data: seq<byte>)
    ensures ParseHello(data).Panic? <==>
              && |data| >= 43
              && var o := SuitesOffset(data);
              && o + 2 <= |data| && U16(data, o) % 2 == 1 && o + 2 + U16(data, o) <= |data|
  {
    if |data| >= 43 && SuitesOffset(data) <= |data| {
      var o := SuitesOffset(data);
      var rest := data[34..][1 + U8(data, 34)..];
      assert rest == data[o..];
      assert o + 2 <= |data| ==> U16(rest, 0) == U16(data, o);
      hide Be16, ParseTail, ReadSuites, Blank;
    }
  }

  // ---------------------------------------------------------------------------
  // ParseTLSClientHello
  // ---------------------------------------------------------------------------

  lemma {:induction false} ReadSuitesAppend(s: seq<byte>, high: byte, low: byte)
    requires |s| % 2 == 0
    ensures ReadSuites(s + [high, low]) == ReadSuites(s) + [Be16(high, low)]
  {
    hide Be16;
    if s == [] {
      assert (s + [high, low])[2..] == [];
    } else {
      assert (s + [high, low])[2..] == s[2..] + [high, low];
      ReadSuitesAppend(s[2..], high, low);
    }
  }

  /** The cipher suite loop. */
  method ReadCipherSuites(s: seq<byte>) returns (suites: seq<nat>)
    requires |s| % 2 == 0
    ensures suites == ReadSuites(s)
  {
    suites := [];
    var i := 0;
    while i < |s|
      invariant 0 <= i <= |s| && i % 2 == 0
      invariant suites == ReadSuites(s[..i])
    {
      ReadSuitesAppend(s[..i], s[i], s[i + 1]);
      assert s[..i] + [s[i], s[i + 1]] == s[..i + 2];
      suites := suites + [U16(s, i)];
      i := i + 2;
    }
    assert s[..|s|] == s;
  }

  /** The loop that picks the server name and the protocols out of the extensions. */
  method ReadKnownExtensions(es: seq<Extension>) returns (serverName: seq<byte>, protocols: seq<seq<byte>>)
    ensures serverName == NameFrom(es) && protocols == ProtocolsFrom(es)
  {
    serverName, protocols := [], [];
    for i := 0 to |es|
      invariant serverName == NameFrom(es[..i]) && protocols == ProtocolsFrom(es[..i])
    {
      hide ParseServerName, ParseAlpn;
      assert es[..i + 1][..i] == es[..i];
      if es[i].extType == SERVER_NAME { serverName := ParseServerName(es[i].data); }
      if es[i].extType == ALPN { protocols := ParseAlpnExtension(es[i].data); }
    }
    assert es[..|es|] == es;
  }

  /** Of several extensions of a type the last one counts, whatever its content. */
  lemma {:induction false} LastExtensionCounts(es: seq<Extension>, i: nat)
    requires i < |es| && forall j :: i < j < |es| ==> es[j].extType != es[i].extType
    ensures es[i].extType == 0 ==> NameFrom(es) == ParseServerName(es[i].data)
    ensures es[i].extType == 16 ==> ProtocolsFrom(es) == ParseAlpn(es[i].data)
    decreases |es|
  {
    hide ParseServerName, ParseAlpn;
    if i < |es| - 1 { LastExtensionCounts(es[..|es| - 1], i); }
  }

  /** Without an extension of the type there is nothing. */
  lemma {:induction false} NoExtensionNoName(es: seq<Extension>)
    ensures (forall i :: 0 <= i < |es| ==> es[i].extType != 0) ==> NameFrom(es) == []
    ensures (forall i :: 0 <= i < |es| ==> es[i].extType != 16) ==> ProtocolsFrom(es) == []
  {
    if es != [] { NoExtensionNoName(es[..|es| - 1]); }
  }

  method ParseTlsClientHello(data: seq<byte>) returns (r: Outcome<ClientHello, HelloError>)
    ensures r == ParseHello(data)
  {
    hide Be16, Blank, ParseSuites;
    if |data| < 43 { return Fail(TooShort); }
    var hello := Blank(data);
    var sessionIdLen := U8(data, 34);
    if |data| < 35 + sessionIdLen { return Fail(IncompleteSessionId); }
    hello := hello.(sessionId := data[35..35 + sessionIdLen]);
    var offset := 35 + sessionIdLen;
    assert data[34..][1..1 + sessionIdLen] == data[35..offset];
    assert data[34..][1 + sessionIdLen..] == data[offset..];
    r := ParseFromSuites(hello, data, offset);
  }

  method ParseFromSuites(hello: ClientHello, data: seq<byte>, start: nat) returns (r: Outcome<ClientHello, HelloError>)
    requires start <= |data|
    ensures r == ParseSuites(hello, data[start..])
  {
    hide Be16, ParseTail, ReadSuites;
    var offset := start;
    if |data| < offset + 2 { return Fail(IncompleteSuites); }
    var suitesLen := U16(data, offset);
    offset := offset + 2;
    if |data| < offset + suitesLen { return Fail(IncompleteSuitesData); }
    assert data[start..][2..2 + suitesLen] == data[offset..offset + suitesLen];
    assert data[start..][2 + suitesLen..] == data[offset + suitesLen..];
    if suitesLen % 2 == 1 { return Panic; }
    var suites := ReadCipherSuites(data[offset..offset + suitesLen]);
    r := ParseFromCompression(hello.(cipherSuites := suites), data, offset + suitesLen);
  }

  method ParseFromCompression(hello: ClientHello, data: seq<byte>, start: nat)
      returns (r: Outcome<ClientHello, HelloError>)
    requires start <= |data|
    ensures r == ParseTail(hello, data[start..])
  {
    var offset := start;
    if |data| < offset + 1 { return Fail(IncompleteCompression); }
    var methodsLen := U8(data, offset);
    offset := offset + 1;
    if |data| < offset + methodsLen { return Fail(IncompleteCompressionData); }
    var methods := data[offset..offset + methodsLen];
    offset := offset + methodsLen;
    assert data[start..][1..1 + methodsLen] == methods && data[start..][1 + methodsLen..] == data[offset..];
    var es := [];
    if offset < |data| {
      ghost var rest := data[offset..];
      if |data| < offset + 2 { return Fail(IncompleteExtensionsLength); }
      var extensionsLen := U16(data, offset);
      offset := offset + 2;
      if |data| < offset + extensionsLen { return Fail(IncompleteExtensionsData); }
      assert rest[2..2 + extensionsLen] == data[offset..offset + extensionsLen];
      es := ParseTlsExtensions(data[offset..offset + extensionsLen]);
    }
    var name, protocols := ReadKnownExtensions(es);
    r := Ok(hello.(compressionMethods := methods, extensions := es, serverName := name, alpnProtocols := protocols));
  }

  // ---------------------------------------------------------------------------
  // Serialising a hello
  // ---------------------------------------------------------------------------

  datatype ExtensionBody =
    | ServerNames(names: seq<ServerName>)
    | Protocols(protocols: seq<seq<byte>>)
    | Other(extType: nat, data: seq<byte>)

  predicate ValidBody(b: ExtensionBody)
  {
    match b
    case ServerNames(names) => ValidNames(names) && |SerializeNames(names)| + 2 < 65536
    case Protocols(protocols) => ValidProtocols(protocols) && |SerializeProtocols(protocols)| + 2 < 65536
    case Other(extType, data) => extType < 65536 && extType != 0 && extType != 16 && |data| < 65536
  }

  predicate ValidBodies(bs: seq<ExtensionBody>)
  {
    forall i :: 0 <= i < |bs| ==> ValidBody(bs[i])
  }

  function BodyExtension(b: ExtensionBody): (e: Extension)
    requires ValidBody(b)
    ensures ValidExtension(e)
  {
    match b
    case ServerNames(names) =>
      var data := Put16(SerializeNames(names));
      Extension(0, |data|, data)
    case Protocols(protocols) =>
      var data := Put16(SerializeProtocols(protocols));
      Extension(16, |data|, data)
    case Other(extType, data) => Extension(extType, |data|, data)
  }

  function BodyExtensions(bs: seq<ExtensionBody>): (es: seq<Extension>)
    requires ValidBodies(bs)
    ensures |es| == |bs| && ValidExtensions(es)
  {
    seq(|bs|, i requires 0 <= i < |bs| => BodyExtension(bs[i]))
  }

  /** The body of a ClientHello message, behind its 4-byte handshake header. */
  datatype Hello = Hello(
    version: nat,
    random: seq<byte>,
    sessionId: seq<byte>,
    suites: seq<nat>,
    compression: seq<byte>,
    extensions: Option<seq<ExtensionBody>>)

  function SerializeSuites(suites: seq<nat>): (s: seq<byte>)
    requires forall i :: 0 <= i < |suites| ==> suites[i] < 65536
    ensures |s| == 2 * |suites|
  {
    if suites == [] then [] else PutU16(suites[0]) + SerializeSuites(suites[1..])
  }

  predicate ValidHello(h: Hello)
  {
    && h.version < 65536 && |h.random| == 32 && |h.sessionId| < 256
    && |h.suites| < 32768 && (forall i :: 0 <= i < |h.suites| ==> h.suites[i] < 65536)
    && |h.compression| < 256
    && (h.extensions.Some? ==>
          ValidBodies(h.extensions.value) && |SerializeExtensions(BodyExtensions(h.extensions.value))| < 65536)
  }

  function SerializeBlock(extensions: Option<seq<ExtensionBody>>): seq<byte>
    requires extensions.Some? ==>
               ValidBodies(extensions.value) && |SerializeExtensions(BodyExtensions(extensions.value))| < 65536
  {
    match extensions
    case None => []
    case Some(bs) => Put16(SerializeExtensions(BodyExtensions(bs)))
  }

  function SerializeHello(h: Hello): seq<byte>
    requires ValidHello(h)
  {
    PutU16(h.version) + h.random
    + (Put8(h.sessionId) + (Put16(SerializeSuites(h.suites)) + (Put8(h.compression) + SerializeBlock(h.extensions))))
  }

  /** The entries of the last server_name extension. */
  function HelloNames(bs: seq<ExtensionBody>): seq<ServerName>
  {
    if bs == [] then []
    else if bs[|bs| - 1].ServerNames? then bs[|bs| - 1].names
    else HelloNames(bs[..|bs| - 1])
  }

  /** The names of the last protocol negotiation extension. */
  function HelloProtocols(bs: seq<ExtensionBody>): seq<seq<byte>>
  {
    if bs == [] then []
    else if bs[|bs| - 1].Protocols? then bs[|bs| - 1].protocols
    else HelloProtocols(bs[..|bs| - 1])
  }

  function ParsedHello(h: Hello): ClientHello
    requires ValidHello(h)
  {
    var bs := if h.extensions.Some? then h.extensions.value else [];
    ClientHello(h.version, h.random, h.sessionId, h.suites, h.compression,
                BodyExtensions(bs), FirstName(HelloNames(bs)), HelloProtocols(bs))
  }

  lemma FirstSuite(suite: nat, rest: seq<byte>)
    requires suite < 65536 && |rest| % 2 == 0
    ensures ReadSuites(PutU16(suite) + rest) == [suite] + ReadSuites(rest)
  {
    hide Be16, PutU16;
    var s := PutU16(suite) + rest;
    assert s[2..] == rest && s[0] == PutU16(suite)[0] && s[1] == PutU16(suite)[1];
  }

  lemma {:induction false} SuitesRoundTrip(suites: seq<nat>)
    requires forall i :: 0 <= i < |suites| ==> suites[i] < 65536
    ensures ReadSuites(SerializeSuites(suites)) == suites
  {
    if suites != [] {
      hide PutU16, ReadSuites;
      SuitesRoundTrip(suites[1..]);
      FirstSuite(suites[0], SerializeSuites(suites[1..]));
    }
  }

  lemma AlpnReadsBack(protocols: seq<seq<byte>>)
    requires ValidProtocols(protocols) && |SerializeProtocols(protocols)| < 65536
    ensures ParseAlpn(Put16(SerializeProtocols(protocols))) == protocols
  {
    var list := SerializeProtocols(protocols);
    assert Put16(list)[2..] == list + [];
    ProtocolScanRoundTrip(protocols, []);
  }

  lemma {:induction false} KnownExtensionsRoundTrip(bs: seq<ExtensionBody>)
    requires ValidBodies(bs)
    ensures NameFrom(BodyExtensions(bs)) == FirstName(HelloNames(bs))
    ensures ProtocolsFrom(BodyExtensions(bs)) == HelloProtocols(bs)
  {
    if bs != [] {
      var front, last := bs[..|bs| - 1], bs[|bs| - 1];
      var es := BodyExtensions(bs);
      assert es[..|es| - 1] == BodyExtensions(front);
      KnownExtensionsRoundTrip(front);
      if last.ServerNames? { ServerNameReadsFirst(last.names); }
      if last.Protocols? { AlpnReadsBack(last.protocols); }
      hide ParseServerName, ParseAlpn, FirstName;
    }
  }

  lemma BlockRoundTrip(extensions: Option<seq<ExtensionBody>>)
    requires extensions.Some? ==>
               ValidBodies(extensions.value) && |SerializeExtensions(BodyExtensions(extensions.value))| < 65536
    ensures ParseExtensionsBlock(SerializeBlock(extensions))
            == Ok(BodyExtensions(if extensions.Some? then extensions.value else []))
  {
    if extensions.Some? {
      var es := BodyExtensions(extensions.value);
      var block := SerializeExtensions(es);
      Vector16RoundTrip(block, [], IncompleteExtensionsLength, IncompleteExtensionsData);
      assert Put16(block) + [] == Put16(block);
      assert block + [] == block;
      ScanRoundTrip(es, []);
      hide Vector16, Put16, ScanExtensions, SerializeExtensions;
    }
  }

  /** A serialised hello comes back with every field, its first server name entry and its
      protocols in order, unless the whole body is under 43 bytes. */
  lemma HelloRoundTrip(h: Hello)
    requires ValidHello(h)
    ensures ParseHello(SerializeHello(h)) == if |SerializeHello(h)| < 43 then Fail(TooShort) else Ok(ParsedHello(h))
  {
    var data := SerializeHello(h);
    var bs := if h.extensions.Some? then h.extensions.value else [];
    var block := SerializeBlock(h.extensions);
    var tail := Put8(h.compression) + block;
    var suites := Put16(SerializeSuites(h.suites)) + tail;
    BlockRoundTrip(h.extensions);
    KnownExtensionsRoundTrip(bs);
    SuitesRoundTrip(h.suites);
    Vector8RoundTrip(h.compression, block, IncompleteCompression, IncompleteCompressionData);
    Vector16RoundTrip(SerializeSuites(h.suites), tail, IncompleteSuites, IncompleteSuitesData);
    Vector8RoundTrip(h.sessionId, suites, IncompleteSessionId, IncompleteSessionId);
    HeadReadsBack(h.version, h.random, Put8(h.sessionId) + suites);
    hide Vector8, Vector16, Put8, Put16, ParseExtensionsBlock, SerializeSuites, ReadSuites;
    hide Blank, NameFrom, ProtocolsFrom;
  }

  lemma HeadReadsBack(version: nat, random: seq<byte>, rest: seq<byte>)
    requires version < 65536 && |random| == 32
    ensures var data := PutU16(version) + random + rest;
            && Blank(data) == ClientHello(version, random, [], [], [], [], [], [])
            && data[34..] == rest
  {
    hide Be16, PutU16;
    var data := PutU16(version) + random + rest;
    assert data[2..34] == random;
  }

  /** One suite, one compression method and an extensions block are enough. */
  lemma HelloLongEnough(h: Hello)
    requires ValidHello(h) && h.suites != [] && h.compression != [] && h.extensions.Some?
    ensures |SerializeHello(h)| >= 43
  {
    hide SerializeExtensions, BodyExtensions, ValidBodies, PutU16;
  }

  // ---------------------------------------------------------------------------
  // Hellos of any content, whole and cut
  // ---------------------------------------------------------------------------

  /** The vectors of a hello body with arbitrary contents, and any bytes behind its extensions. */
  datatype Layout = Layout(
    version: nat,
    random: seq<byte>,
    sessionId: seq<byte>,
    suites: seq<byte>,
    compression: seq<byte>,
    block: seq<byte>,
    trail: seq<byte>)

  predicate ValidLayout(l: Layout)
  {
    && l.version < 65536 && |l.random| == 32 && |l.sessionId| < 256
    && |l.suites| < 65536 && |l.compression| < 256 && |l.block| < 65536
  }

  function Head(l: Layout): (s: seq<byte>)
    requires ValidLayout(l)
    ensures |s| == 34
  {
    PutU16(l.version) + l.random
  }

  /** Up to and including the compression methods. */
  function Bare(l: Layout): (s: seq<byte>)
    requires ValidLayout(l)
  {
    Head(l) + (Put8(l.sessionId) + (Put16(l.suites) + Put8(l.compression)))
  }

  function Filled(l: Layout, es: seq<Extension>): ClientHello
    requires ValidLayout(l) && |l.suites| % 2 == 0
  {
    ClientHello(l.version, l.random, l.sessionId, ReadSuites(l.suites), l.compression, es,
                NameFrom(es), ProtocolsFrom(es))
  }

  lemma HeadSplits(l: Layout, rest: seq<byte>)
    requires ValidLayout(l)
    ensures var data := Head(l) + rest;
            && Blank(data) == ClientHello(l.version, l.random, [], [], [], [], [], [])
            && data[34..] == rest
  {
    HeadReadsBack(l.version, l.random, rest);
  }

  /** Behind a whole session identifier the suites are read. */
  lemma SuitesFollow(l: Layout, rest: seq<byte>)
    requires ValidLayout(l) && |Head(l) + (Put8(l.sessionId) + rest)| >= 43
    ensures ParseHello(Head(l) + (Put8(l.sessionId) + rest))
            == ParseSuites(ClientHello(l.version, l.random, l.sessionId, [], [], [], [], []), rest)
  {
    hide Vector8, Put8, ParseSuites, Blank, Head;
    HeadSplits(l, Put8(l.sessionId) + rest);
    Vector8RoundTrip(l.sessionId, rest, IncompleteSessionId, IncompleteSessionId);
  }

  /** Behind whole suites of even length the compression methods are read. */
  lemma TailFollows(l: Layout, hello: ClientHello, rest: seq<byte>)
    requires ValidLayout(l)
    ensures ParseSuites(hello, Put16(l.suites) + rest)
            == if |l.suites| % 2 == 1 then Panic else ParseTail(hello.(cipherSuites := ReadSuites(l.suites)), rest)
  {
    hide Vector16, Put16, ParseTail, ReadSuites;
    Vector16RoundTrip(l.suites, rest, IncompleteSuites, IncompleteSuitesData);
  }

  lemma BlockFollows(l: Layout, hello: ClientHello, rest: seq<byte>)
    requires ValidLayout(l)
    ensures ParseTail(hello, Put8(l.compression) + rest)
            == match ParseExtensionsBlock(rest)
               case Fail(e) => Fail(e)
               case Panic => Panic
               case Ok(es) => Ok(hello.(compressionMethods := l.compression, extensions := es,
                                        serverName := NameFrom(es), alpnProtocols := ProtocolsFrom(es)))
  {
    hide Vector8, Put8, ParseExtensionsBlock, NameFrom, ProtocolsFrom;
    Vector8RoundTrip(l.compression, rest, IncompleteCompression, IncompleteCompressionData);
  }

  /** What is read once the first four vectors are whole, whatever is left of the rest. */
  lemma BareThen(l: Layout, rest: seq<byte>)
    requires ValidLayout(l) && |Bare(l) + rest| >= 43
    ensures ParseHello(Bare(l) + rest)
            == if |l.suites| % 2 == 1 then Panic
               else match ParseExtensionsBlock(rest)
                    case Fail(e) => Fail(e)
                    case Panic => Panic
                    case Ok(es) => Ok(Filled(l, es))
  {
    hide ParseHello, ParseSuites, ParseTail, Put8, Put16, Head, ReadSuites, NameFrom, ProtocolsFrom,
         ParseExtensionsBlock;
    var hello := ClientHello(l.version, l.random, l.sessionId, [], [], [], [], []);
    var tail := Put8(l.compression) + rest;
    var suites := Put16(l.suites) + tail;
    Concat3(Head(l), Put8(l.sessionId), Put16(l.suites), Put8(l.compression), rest);
    SuitesFollow(l, suites);
    TailFollows(l, hello, tail);
    if |l.suites| % 2 == 0 {
      BlockFollows(l, hello.(cipherSuites := ReadSuites(l.suites)), rest);
    }
  }

  lemma Concat3(a: seq<byte>, b: seq<byte>, c: seq<byte>, d: seq<byte>, rest: seq<byte>)
    ensures a + (b + (c + d)) + rest == a + (b + (c + (d + rest)))
  {
    Concat(a, b + (c + d), rest);
    Concat(b, c + d, rest);
    Concat(c, d, rest);
  }

  lemma Concat(a: seq<byte>, b: seq<byte>, c: seq<byte>)
    ensures a + b + c == a + (b + c)
  {
  }

  /** On a whole hello with an extensions block of any content: the panic on suites of odd length,
      otherwise every field, the extensions being those the scan finds. What follows is ignored. */
  lemma HelloMeaning(l: Layout)
    requires ValidLayout(l) && |Bare(l) + (Put16(l.block) + l.trail)| >= 43
    ensures ParseHello(Bare(l) + (Put16(l.block) + l.trail))
            == if |l.suites| % 2 == 1 then Panic else Ok(Filled(l, ScanExtensions(l.block)))
  {
    hide ParseHello, Bare, Put16, Vector16, ScanExtensions, Filled;
    BareThen(l, Put16(l.block) + l.trail);
    Vector16RoundTrip(l.block, l.trail, IncompleteExtensionsLength, IncompleteExtensionsData);
    Put16Longer(l.block);
  }

  lemma Put16Longer(v: seq<byte>)
    requires |v| < 65536
    ensures |Put16(v)| == 2 + |v|
  {
  }

  /** A hello may also end behind its compression methods; then it has no extensions. */
  lemma BareHelloMeaning(l: Layout)
    requires ValidLayout(l) && |Bare(l)| >= 43
    ensures ParseHello(Bare(l)) == if |l.suites| % 2 == 1 then Panic else Ok(Filled(l, []))
  {
    hide ParseHello, Bare, Filled;
    BareThen(l, []);
    assert Bare(l) + [] == Bare(l);
  }

  lemma Vector8Cut(v: seq<byte>, k: nat, e: HelloError, f: HelloError)
    requires |v| < 256 && k < 1 + |v|
    ensures Vector8(Put8(v)[..k], e, f) == Fail(if k == 0 then e else f)
  {
  }

  lemma Vector16Cut(v: seq<byte>, k: nat, e: HelloError, f: HelloError)
    requires |v| < 65536 && k < 2 + |v|
    ensures Vector16(Put16(v)[..k], e, f) == Fail(if k < 2 then e else f)
  {
    hide Be16, PutU16;
  }

  lemma CutInSessionId(l: Layout, k: nat)
    requires ValidLayout(l) && k < 1 + |l.sessionId| && 34 + k >= 43
    ensures ParseHello(Head(l) + Put8(l.sessionId)[..k]) == Fail(IncompleteSessionId)
  {
    hide Vector8, Put8, Blank, Head;
    HeadSplits(l, Put8(l.sessionId)[..k]);
    Vector8Cut(l.sessionId, k, IncompleteSessionId, IncompleteSessionId);
  }

  lemma CutInSuites(l: Layout, k: nat)
    requires ValidLayout(l) && k < 2 + |l.suites|
    requires |Head(l) + (Put8(l.sessionId) + Put16(l.suites)[..k])| >= 43
    ensures ParseHello(Head(l) + (Put8(l.sessionId) + Put16(l.suites)[..k]))
            == Fail(if k < 2 then IncompleteSuites else IncompleteSuitesData)
  {
    hide ParseHello, Vector16, Put8, Put16, Head;
    SuitesFollow(l, Put16(l.suites)[..k]);
    Vector16Cut(l.suites, k, IncompleteSuites, IncompleteSuitesData);
  }

  lemma CutInCompression(l: Layout, k: nat)
    requires ValidLayout(l) && |l.suites| % 2 == 0 && k < 1 + |l.compression|
    requires |Head(l) + (Put8(l.sessionId) + (Put16(l.suites) + Put8(l.compression)[..k]))| >= 43
    ensures ParseHello(Head(l) + (Put8(l.sessionId) + (Put16(l.suites) + Put8(l.compression)[..k])))
            == Fail(if k == 0 then IncompleteCompression else IncompleteCompressionData)
  {
    hide ParseHello, ParseSuites, Vector8, Put8, Put16, Head;
    var rest := Put8(l.compression)[..k];
    SuitesFollow(l, Put16(l.suites) + rest);
    TailFollows(l, ClientHello(l.version, l.random, l.sessionId, [], [], [], [], []), rest);
    Vector8Cut(l.compression, k, IncompleteCompression, IncompleteCompressionData);
  }

  lemma CutInExtensions(l: Layout, k: nat)
    requires ValidLayout(l) && |l.suites| % 2 == 0 && k < 2 + |l.block|
    requires |Bare(l) + Put16(l.block)[..k]| >= 43
    ensures ParseHello(Bare(l) + Put16(l.block)[..k])
            == if k == 0 then Ok(Filled(l, []))
               else Fail(if k < 2 then IncompleteExtensionsLength else IncompleteExtensionsData)
  {
    hide ParseHello, Bare, Put16, Vector16, Filled;
    BareThen(l, Put16(l.block)[..k]);
    Vector16Cut(l.block, k, IncompleteExtensionsLength, IncompleteExtensionsData);
  }

  function Whole(l: Layout): (s: seq<byte>)
    requires ValidLayout(l)
  {
    Bare(l) + Put16(l.block)
  }

  /** The error for a hello of `n` bytes: which vector, or which length, it ends in. */
  function CutError(l: Layout, n: nat): HelloError
    requires ValidLayout(l)
  {
    var suites := 35 + |l.sessionId|;
    var compression := suites + 2 + |l.suites|;
    var extensions := compression + 1 + |l.compression|;
    if n < 43 then TooShort
    else if n < suites then IncompleteSessionId
    else if n < suites + 2 then IncompleteSuites
    else if n < compression then IncompleteSuitesData
    else if n == compression then IncompleteCompression
    else if n < extensions then IncompleteCompressionData
    else if n < extensions + 2 then IncompleteExtensionsLength
    else IncompleteExtensionsData
  }

  lemma CutAt(a: seq<byte>, b: seq<byte>, n: nat)
    requires |a| <= n <= |a| + |b|
    ensures (a + b)[..n] == a + b[..n - |a|]
  {
  }

  lemma BareLength(l: Layout)
    requires ValidLayout(l)
    ensures |Bare(l)| == 38 + |l.sessionId| + |l.suites| + |l.compression|
  {
    hide Head, PutU16;
  }

  lemma CutBefore(a: seq<byte>, b: seq<byte>, n: nat)
    requires n <= |a|
    ensures (a + b)[..n] == a[..n]
  {
  }

  /** Where a cut before the extensions falls. */
  lemma CutFour(a: seq<byte>, b: seq<byte>, c: seq<byte>, d: seq<byte>, n: nat)
    requires |a| <= n < |a| + |b| + |c| + |d|
    ensures var k := n - |a|;
            (a + (b + (c + d)))[..n]
            == if k < |b| then a + b[..k]
               else if k < |b| + |c| then a + (b + c[..k - |b|])
               else a + (b + (c + d[..k - |b| - |c|]))
  {
    var k := n - |a|;
    CutAt(a, b + (c + d), n);
    if k < |b| {
      CutBefore(b, c + d, k);
    } else {
      CutAt(b, c + d, k);
      if k < |b| + |c| { CutBefore(c, d, k - |b|); } else { CutAt(c, d, k - |b|); }
    }
  }

  lemma CutBare(l: Layout, n: nat)
    requires ValidLayout(l) && |l.suites| % 2 == 0 && 43 <= n < |Bare(l)|
    ensures ParseHello(Bare(l)[..n]) == Fail(CutError(l, n))
  {
    hide ParseHello, Head, Put8, Put16;
    BareLength(l);
    var k := n - 34;
    CutFour(Head(l), Put8(l.sessionId), Put16(l.suites), Put8(l.compression), n);
    if k < 1 + |l.sessionId| {
      CutInSessionId(l, k);
    } else if k < 3 + |l.sessionId| + |l.suites| {
      CutInSuites(l, k - 1 - |l.sessionId|);
    } else {
      CutInCompression(l, k - 3 - |l.sessionId| - |l.suites|);
    }
  }

  /** Every proper prefix of a hello is rejected, with the error of the vector it ends in; only the
      cut right before the extensions goes unnoticed. */
  lemma HelloCut(l: Layout, n: nat)
    requires ValidLayout(l) && |l.suites| % 2 == 0 && n < |Whole(l)|
    ensures ParseHello(Whole(l)[..n])
            == if 43 <= n == |Bare(l)| then Ok(Filled(l, [])) else Fail(CutError(l, n))
  {
    BareLength(l);
    Put16Longer(l.block);
    hide Bare, Put16, Filled, ParseSuites;
    if n >= 43 {
      hide ParseHello;
      if n < |Bare(l)| {
        assert Whole(l)[..n] == Bare(l)[..n];
        CutBare(l, n);
      } else {
        CutAt(Bare(l), Put16(l.block), n);
        CutInExtensions(l, n - |Bare(l)|);
      }
    }
  }

  // ---------------------------------------------------------------------------
  // Records, section 5.1 of RFC 8446
  // ---------------------------------------------------------------------------

  datatype Record = Record(contentType: byte, version: nat, length: nat, data: seq<byte>)

  datatype RecordError = RecordTooShort | IncompleteRecord

  /** The end of the payload is computed in 16 bits. */
  function ParseRecord(data: seq<byte>): (r: Outcome<Record, RecordError>)
  {
    if |data| < 5 then Fail(RecordTooShort)
    else
      var length := U16(data, 3);
      var high := (5 + length) % 65536;
      if |data| < 5 + length then Fail(IncompleteRecord)
      else if high < 5 then Panic
      else Ok(Record(data[0], U16(data, 1), length, data[5..high]))
  }

  /** A record comes back unless its payload exceeds 65530 bytes; then parsing it panics. */
  lemma RecordRoundTrip(contentType: byte, version: nat, payload: seq<byte>, suffix: seq<byte>)
    requires version < 65536 && |payload| < 65536
    ensures ParseRecord([contentType] + PutU16(version) + Put16(payload) + suffix)
            == if |payload| <= 65530 then Ok(Record(contentType, version, |payload|, payload)) else Panic
  {
    hide Be16, PutU16;
    var data := [contentType] + PutU16(version) + Put16(payload) + suffix;
    assert data == [contentType] + PutU16(version) + PutU16(|payload|) + payload + suffix;
    assert data[5..5 + |payload|] == payload;
  }

  /** Every proper prefix of a record is rejected. */
  lemma RecordCut(contentType: byte, version: nat, payload: seq<byte>, k: nat)
    requires version < 65536 && |payload| < 65536 && k < 5 + |payload|
    ensures ParseRecord(([contentType] + PutU16(version) + Put16(payload))[..k])
            == Fail(if k < 5 then RecordTooShort else IncompleteRecord)
  {
    hide Be16, PutU16;
    var whole := [contentType] + PutU16(version) + Put16(payload);
    assert whole == [contentType] + PutU16(version) + PutU16(|payload|) + payload;
    var data := whole[..k];
    if k >= 5 { assert U16(data, 3) == |payload|; }
  }
}
