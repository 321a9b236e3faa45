/**
 HPACK (RFC 7541) as pkg/protocol/http2.go decodes it, beside the second integer
 decoder in bpf/http2_trace.bpf.c.
 */
module HpackIntegers {
  import opened Bytes

  /** The octets that carry on an integer: up to and including the first below 128. */
  function ContLength(s: seq<byte>): (n: nat)
    ensures n <= |s| && (s != [] ==> n >= 1)
  {
    if s == [] then 0 else if s[0] < 128 then 1 else 1 + ContLength(s[1..])
  }

  /** Their value, least significant group of seven bits first (section 5.1 of RFC 7541). */
  function ContValue(s: seq<byte>): (v: nat)
  {
    if s == [] then 0
    else s[0] % 128 + if s[0] < 128 then 0 else 128 * ContValue(s[1..])
  }

  function Mask(prefix: nat): nat
  {
    Pow2(prefix) - 1
  }

  /** The prefix bits of the first octet, `b & mask`. */
  function Low(b: byte, prefix: nat): (low: nat)
    ensures low <= Mask(prefix) && low < 256
  {
    LowFits(b, Pow2(prefix));
    b % Pow2(prefix)
  }

  lemma LowFits(b: byte, p: nat)
    requires p > 0
    ensures b % p <= b
  {
    assert b == p * (b / p) + b % p;
    assert p * (b / p) >= 0;
  }

  /** What the octets mean according to section 5.1 of RFC 7541. */
  function RfcValue(data: seq<byte>, prefix: nat): nat
    requires data != []
  {
    var low := Low(data[0], prefix);
    if low < Mask(prefix) then low else Mask(prefix) + ContValue(data[1..])
  }

  function IntegerLength(data: seq<byte>, prefix: nat): (n: nat)
    requires data != []
    ensures 1 <= n <= |data|
  {
    if Low(data[0], prefix) < Mask(prefix) then 1 else 1 + ContLength(data[1..])
  }

  /** The 64-bit value once a remainder of `rest` is added at `shift`. */
  function Total64(result: nat, shift: nat, rest: nat): nat
  {
    (result + Pow2(shift) * rest) % TWO_64
  }

  /** What the Go decoder returns: its first shift is by the prefix length, and it wraps at 64 bits. */
  function GoValue(data: seq<byte>, prefix: nat): (v: nat)
    requires data != []
    ensures v < TWO_64
  {
    var low := Low(data[0], prefix);
    if low < Mask(prefix) then low else Total64(Mask(prefix), prefix, ContValue(data[1..]))
  }

  /** `uint64(x) << shift`: shifting by 64 or more leaves nothing. */
  function ShiftLeft64(x: nat, shift: nat): nat
  {
    if shift >= 64 then 0 else (x * Pow2(shift)) % TWO_64
  }

  lemma ModUnique(x: int, q: int, r: int, m: nat)
    requires 0 <= r < m && x == m * q + r
    ensures x % m == r
  {
    var d := x / m - q;
    assert m * d == r - x % m;
    ProductIsFar(m, d);
  }

  lemma ProductIsFar(m: nat, d: int)
    ensures d >= 1 ==> m * d >= m
    ensures d <= -1 ==> m * d <= 0 - m
  {
  }

  lemma Pow2Plus7(shift: nat)
    ensures Pow2(shift + 7) == Pow2(shift) * 128
  {
    Pow2Values();
    Pow2Sum(shift, 7);
  }

  /** A shifted group, wrapped, is the group's contribution modulo 2^64. */
  lemma ShiftIsProduct(x: nat, shift: nat)
    ensures ShiftLeft64(x, shift) == (x * Pow2(shift)) % TWO_64
  {
    if shift >= 64 {
      assert Pow2(shift) == TWO_64 * Pow2(shift - 64) by {
        Pow2Values();
        Pow2Sum(64, shift - 64);
      }
      hide Pow2;
      MultipleOf64(x, Pow2(shift - 64));
    }
  }

  lemma MultipleOf64(x: nat, k: nat)
    ensures (x * (TWO_64 * k)) % TWO_64 == 0
  {
    assert x * (TWO_64 * k) == TWO_64 * (x * k);
    ModUnique(TWO_64 * (x * k), x * k, 0, TWO_64);
  }

  lemma ContUnfolds(s: seq<byte>)
    requires s != []
    ensures ContValue(s) == s[0] % 128 + 128 * (if s[0] < 128 then 0 else ContValue(s[1..]))
    ensures ContLength(s) == 1 + if s[0] < 128 then 0 else ContLength(s[1..])
  {
  }

  lemma SumMod64(result: nat, term: nat, tail: nat)
    ensures ((result + term % TWO_64) % TWO_64 + tail) % TWO_64 == (result + term + tail) % TWO_64
  {
  }

  lemma Distribute(p: nat, group: nat, rest: nat)
    ensures p * (group + 128 * rest) == group * p + (p * 128) * rest
  {
  }

  /** `result += uint64(group) << shift`. */
  function AddGroup(result: nat, group: nat, shift: nat): (r: nat)
    ensures r < TWO_64
  {
    (result + ShiftLeft64(group, shift)) % TWO_64
  }

  lemma GroupAlgebra(result: nat, group: nat, p: nat, rest: nat)
    ensures ((result + (group * p) % TWO_64) % TWO_64 + (p * 128) * rest) % TWO_64
            == (result + p * (group + 128 * rest)) % TWO_64
  {
    Distribute(p, group, rest);
    SumMod64(result, group * p, (p * 128) * rest);
  }

  /** Adding one group in 64 bits leaves the rest to be added seven bits further up. */
  lemma GroupStep(result: nat, group: nat, shift: nat, rest: nat)
    ensures Total64(AddGroup(result, group, shift), shift + 7, rest)
            == Total64(result, shift, group + 128 * rest)
  {
    ShiftIsProduct(group, shift);
    Pow2Plus7(shift);
    hide Pow2, ShiftLeft64;
    GroupAlgebra(result, group, Pow2(shift), rest);
  }

  lemma NothingLeft(result: nat, shift: nat)
    requires result < TWO_64
    ensures Total64(result, shift, 0) == result
  {
  }

  /** The loop of decodeInteger over the octets behind the first. */
  method AddGroups(s: seq<byte>, low: nat, prefix: nat) returns (result: nat, offset: nat)
    requires low < TWO_64
    ensures result == Total64(low, prefix, ContValue(s)) && offset == ContLength(s)
  {
    hide Total64, ContValue, ContLength, AddGroup;
    var shift := prefix;
    result, offset := low, 0;
    while offset < |s|
      invariant 0 <= offset <= |s|
      invariant result < TWO_64
      invariant Total64(result, shift, ContValue(s[offset..])) == Total64(low, prefix, ContValue(s))
      invariant offset + ContLength(s[offset..]) == ContLength(s)
    {
      var b := s[offset];
      ContUnfolds(s[offset..]);
      assert s[offset..][1..] == s[offset + 1..];
      GroupStep(result, b % 128, shift, if b < 128 then 0 else ContValue(s[offset + 1..]));
      offset := offset + 1;
      result := AddGroup(result, b % 128, shift);
      shift := shift + 7;
      if b < 128 {
        NothingLeft(result, shift);
        return;
      }
    }
    EmptyCont();
    NothingLeft(result, shift);
  }

  /** decodeInteger of pkg/protocol/http2.go; `consumed` is 0 only for empty data. */
  method DecodeInteger(data: seq<byte>, prefix: nat) returns (value: nat, consumed: nat)
    requires 1 <= prefix <= 8
    ensures data == [] ==> value == 0 && consumed == 0
    ensures data != [] ==> value == GoValue(data, prefix) && consumed == IntegerLength(data, prefix)
  {
    hide Low, Total64;
    if data == [] { return 0, 0; }
    var result := Low(data[0], prefix);
    if result < Mask(prefix) { return result, 1; }
    value, consumed := AddGroups(data[1..], result, prefix);
    consumed := consumed + 1;
  }

  lemma EmptyCont()
    ensures ContValue([]) == 0 && ContLength([]) == 0
  {
  }

  // ---------------------------------------------------------------------------
  // The two decoders against RFC 7541
  // ---------------------------------------------------------------------------

  const INT32_MAX := 0x7FFF_FFFF

  predicate Terminated(s: seq<byte>)
  {
    exists i :: 0 <= i < |s| && s[i] < 128
  }

  lemma TerminatedTail(s: seq<byte>)
    requires Terminated(s)
    ensures s != [] && (s[0] >= 128 ==> Terminated(s[1..]))
  {
    var i :| 0 <= i < |s| && s[i] < 128;
    if s[0] >= 128 { assert s[1..][i - 1] < 128; }
  }

  /** The value once a remainder of `rest` is added at `shift`. */
  function Total(result: int, shift: nat, rest: nat): int
  {
    result + Pow2(shift) * rest
  }

  /** `group << shift`. */
  function Shifted(group: nat, shift: nat): nat
  {
    group * Pow2(shift)
  }

  lemma CGroupStep(result: int, group: nat, shift: nat, rest: nat)
    ensures Total(result + Shifted(group, shift), shift + 7, rest) == Total(result, shift, group + 128 * rest)
    ensures result + Shifted(group, shift) <= Total(result, shift, group + 128 * rest)
  {
    Pow2Plus7(shift);
    hide Pow2;
    Distribute(Pow2(shift), group, rest);
  }

  /** The loop of hpack_decode_int over the octets behind the first.  Neither the shift, the
      shifted group nor the sum leaves 32 bits. */
  method AddCGroups(s: seq<byte>, low: nat) returns (result: int, i: nat)
    requires Terminated(s) && low + ContValue(s) <= INT32_MAX && ContLength(s) <= 5
    ensures result == low + ContValue(s) && i == ContLength(s)
  {
    assert Total(low, 0, ContValue(s)) == low + ContValue(s);
    hide Pow2, Total, Shifted, ContValue, ContLength, Terminated;
    var shift := 0;
    result, i := low, 0;
    while true
      invariant 0 <= i <= |s| && Terminated(s[i..]) && 0 <= result
      invariant shift == 7 * i
      invariant Total(result, shift, ContValue(s[i..])) == low + ContValue(s)
      invariant i + ContLength(s[i..]) == ContLength(s)
      decreases |s| - i
    {
      TerminatedTail(s[i..]);
      ContUnfolds(s[i..]);
      var b := s[i];
      assert s[i..][1..] == s[i + 1..];
      CGroupStep(result, b % 128, shift, if b < 128 then 0 else ContValue(s[i + 1..]));
      assert shift < 32 && Shifted(b % 128, shift) <= INT32_MAX;
      assert result + Shifted(b % 128, shift) <= INT32_MAX;
      result := result + Shifted(b % 128, shift);
      shift := shift + 7;
      i := i + 1;
      if b < 128 {
        CNothingLeft(result, shift);
        return;
      }
    }
  }

  /** hpack_decode_int of bpf/http2_trace.bpf.c.  It reads on until an octet below 128, and its
      32-bit arithmetic is defined only for values that fit and at most five further octets. */
  method HpackDecodeInt(p: seq<byte>, prefix: nat) returns (value: int, consumed: nat)
    requires p != [] && 1 <= prefix <= 8
    requires Low(p[0], prefix) == Mask(prefix) ==> Terminated(p[1..])
    requires RfcValue(p, prefix) <= INT32_MAX && IntegerLength(p, prefix) <= 6
    ensures value == RfcValue(p, prefix) && consumed == IntegerLength(p, prefix)
  {
    hide Low;
    var result := Low(p[0], prefix);
    if result < Mask(prefix) { return result, 1; }
    value, consumed := AddCGroups(p[1..], result);
    consumed := consumed + 1;
  }

  lemma CNothingLeft(result: int, shift: nat)
    ensures Total(result, shift, 0) == result
  {
  }

  lemma {:induction false} ContBound(s: seq<byte>)
    ensures ContValue(s) < Pow2(7 * ContLength(s))
  {
    if s == [] {
    } else if s[0] >= 128 {
      ContBound(s[1..]);
      var n := ContLength(s[1..]);
      assert 7 * ContLength(s) == 7 * n + 7;
      Pow2Plus7(7 * n);
    } else {
      Pow2Plus7(0);
      assert Pow2(0) == 1;
    }
  }

  /** At most four further octets always fit. */
  lemma FourOctetsFit(p: seq<byte>, prefix: nat)
    requires p != [] && 1 <= prefix <= 8 && IntegerLength(p, prefix) <= 5
    ensures RfcValue(p, prefix) <= INT32_MAX
  {
    if Low(p[0], prefix) == Mask(prefix) {
      ContBound(p[1..]);
      Pow2Values();
      Pow2Monotone(prefix, 8);
      Pow2Sum(17, 11);
      Pow2Sum(6, 5);
      Pow2Monotone(7 * ContLength(p[1..]), 28);
    } else {
      Pow2Values();
      Pow2Monotone(prefix, 8);
    }
  }

  // ---------------------------------------------------------------------------
  // Integers on arbitrary octets
  // ---------------------------------------------------------------------------

  /** An integer goes on over octets with the high bit, to the first without it or to the end. */
  lemma {:induction false} ContLengthIsFirst(s: seq<byte>)
    ensures var n := ContLength(s);
            && (forall k :: 0 <= k < n - 1 ==> s[k] >= 128)
            && (n < |s| ==> n >= 1 && s[n - 1] < 128)
  {
    if s != [] && s[0] >= 128 {
      ContLengthIsFirst(s[1..]);
      var n := ContLength(s);
      forall k | 0 <= k < n - 1 ensures s[k] >= 128 {
        if k > 0 { assert s[k] == s[1..][k - 1]; }
      }
    }
  }

  lemma DivideAgain(x: nat, p: nat)
    requires p > 0
    ensures x / (128 * p) == x / 128 / p
  {
    var q, r := x / 128 / p, x / 128 % p;
    assert x / 128 == p * q + r && x == 128 * (x / 128) + x % 128;
    assert x == (128 * p) * q + (128 * r + x % 128);
    assert 128 * r + 127 < 128 * p;
    DivUnique(x, q, 128 * r + x % 128, 128 * p);
  }

  lemma DivUnique(x: int, q: int, r: int, m: nat)
    requires 0 <= r < m && x == m * q + r
    ensures x / m == q
  {
    ModUnique(x, q, r, m);
    var d := x / m - q;
    assert m * d == 0;
    ProductIsFar(m, d);
  }

  lemma NextDigit(x: nat, group: nat, rest: nat, p: nat)
    requires group < 128 && x == group + 128 * rest && p > 0
    ensures x / (128 * p) == rest / p && x % 128 == group
  {
    DivideAgain(x, p);
    assert x / 128 == rest;
  }

  lemma LowestDigit(s: seq<byte>)
    requires s != []
    ensures ContValue(s) % 128 == s[0] % 128
  {
    ContUnfolds(s);
    hide ContValue;
  }

  lemma HigherDigits(s: seq<byte>, k: nat)
    requires 0 < k < ContLength(s)
    ensures ContValue(s) / Pow2(7 * k) == ContValue(s[1..]) / Pow2(7 * (k - 1)) && k - 1 < ContLength(s[1..])
  {
    hide Pow2, ContLength, ContValue;
    ContUnfolds(s);
    var p := Pow2(7 * (k - 1));
    Pow2Plus7(7 * (k - 1));
    assert 7 * k == 7 * (k - 1) + 7;
    NextDigit(ContValue(s), s[0] % 128, ContValue(s[1..]), p);
  }

  /** Each octet holds seven bits of the value, the first the lowest. */
  lemma {:induction false} ContValueDigits(s: seq<byte>, k: nat)
    requires k < ContLength(s)
    ensures ContValue(s) / Pow2(7 * k) % 128 == s[k] % 128
  {
    if k == 0 {
      assert Pow2(0) == 1;
      LowestDigit(s);
    } else {
      HigherDigits(s, k);
      hide Pow2, ContLength, ContValue;
      ContValueDigits(s[1..], k - 1);
    }
  }

  function EncodeCont(v: nat): (s: seq<byte>)
  {
    if v < 128 then [v] else [128 + v % 128] + EncodeCont(v / 128)
  }

  /** The encoding of section 5.1 of RFC 7541, with `flags` in the bits above the prefix. */
  function EncodeInt(flags: byte, prefix: nat, v: nat): (s: seq<byte>)
    requires 1 <= prefix <= 8 && flags % Pow2(prefix) == 0 && flags + Mask(prefix) < 256
  {
    if v < Mask(prefix) then [flags + v] else [flags + Mask(prefix)] + EncodeCont(v - Mask(prefix))
  }

  lemma {:induction false} ContRoundTrip(v: nat, suffix: seq<byte>)
    ensures ContValue(EncodeCont(v) + suffix) == v
    ensures ContLength(EncodeCont(v) + suffix) == |EncodeCont(v)|
    ensures Terminated(EncodeCont(v) + suffix)
  {
    var s := EncodeCont(v) + suffix;
    if v >= 128 {
      ContRoundTrip(v / 128, suffix);
      assert s[1..] == EncodeCont(v / 128) + suffix;
      var i :| 0 <= i < |s[1..]| && s[1..][i] < 128;
      assert s[i + 1] < 128;
    } else {
      assert s[0] < 128;
    }
  }

  lemma LowBits(flags: nat, low: nat, prefix: nat)
    requires flags % Pow2(prefix) == 0 && low < Pow2(prefix) && flags + low < 256
    ensures Low(flags + low, prefix) == low
  {
    var q := flags / Pow2(prefix);
    hide Pow2;
    assert flags == Pow2(prefix) * q;
    ModUnique(flags + low, q, low, Pow2(prefix));
  }

  /** Section 5.1 read back: every prefix, every value, whatever follows. */
  lemma RfcRoundTrip(flags: byte, prefix: nat, v: nat, suffix: seq<byte>)
    requires 1 <= prefix <= 8 && flags % Pow2(prefix) == 0 && flags + Mask(prefix) < 256
    ensures var data := EncodeInt(flags, prefix, v) + suffix;
            && RfcValue(data, prefix) == v && IntegerLength(data, prefix) == |EncodeInt(flags, prefix, v)|
            && (v >= Mask(prefix) ==> Terminated(data[1..]))
  {
    hide Pow2, EncodeCont, ContValue, ContLength, Terminated;
    var data := EncodeInt(flags, prefix, v) + suffix;
    if v < Mask(prefix) {
      LowBits(flags, v, prefix);
    } else {
      LowBits(flags, Mask(prefix), prefix);
      ContRoundTrip(v - Mask(prefix), suffix);
      assert data[1..] == EncodeCont(v - Mask(prefix)) + suffix;
    }
  }

  /** What the Go decoder makes of a value that needs more than the prefix. */
  function Stretched(prefix: nat, v: nat): nat
    requires Mask(prefix) <= v
  {
    (Mask(prefix) + Pow2(prefix) * (v - Mask(prefix))) % TWO_64
  }

  /** On every input the Go decoder spans the same octets as the RFC and returns
      mask + 2^prefix * (v - mask), modulo 2^64, in place of v. */
  lemma GoAgainstRfc(data: seq<byte>, prefix: nat)
    requires data != [] && 1 <= prefix <= 8
    ensures var v := RfcValue(data, prefix);
            GoValue(data, prefix) == if v < Mask(prefix) then v else Stretched(prefix, v)
  {
  }

  /** An odd factor can be cancelled from a multiple of a power of two. */
  lemma {:induction false} OddCancels(m: int, x: int, k: nat, q: int) returns (z: int)
    requires m % 2 == 1 && m * x == Pow2(k) * q
    ensures x == Pow2(k) * z
    decreases k
  {
    if k == 0 {
      z := x;
    } else {
      var p, h := Pow2(k - 1), m / 2;
      assert Pow2(k) == 2 * p;
      hide Pow2;
      var y := p * q - h * x;
      HalveProduct(m, x, h, p, q);
      z := OddCancels(m, y, k - 1, q);
      assert x == 2 * (p * z);
    }
  }

  lemma HalveProduct(m: int, x: int, h: int, p: int, q: int)
    requires m == 2 * h + 1 && m * x == (2 * p) * q
    ensures x == 2 * (p * q - h * x) && m * (p * q - h * x) == p * q
  {
    assert m * x == 2 * (h * x) + x;
    assert (2 * p) * q == 2 * (p * q);
    var y := p * q - h * x;
    assert 2 * (m * y) == m * (2 * y);
  }

  /** The decoders agree on a 64-bit value exactly when it does not exceed the prefix mask. */
  lemma DecodersAgreeIff(data: seq<byte>, prefix: nat)
    requires data != [] && 1 <= prefix <= 8 && RfcValue(data, prefix) < TWO_64
    ensures GoValue(data, prefix) == RfcValue(data, prefix) <==> RfcValue(data, prefix) <= Mask(prefix)
  {
    GoAgainstRfc(data, prefix);
    hide Pow2, Mask, GoValue, RfcValue, Stretched;
    if RfcValue(data, prefix) >= Mask(prefix) { StretchedIff(prefix, RfcValue(data, prefix)); }
  }

  lemma StretchedIff(prefix: nat, v: nat)
    requires 1 <= prefix <= 8 && Mask(prefix) <= v < TWO_64
    ensures Stretched(prefix, v) == v <==> v == Mask(prefix)
  {
    hide Mask, Stretched, Widened;
    MaskIsOdd(prefix);
    StretchedWidens(prefix, v - Mask(prefix));
    if v > Mask(prefix) {
      WidenedDiffers(Mask(prefix), v - Mask(prefix));
    } else {
      WidenedNone(Mask(prefix));
    }
  }

  function Widened(mask: nat, x: nat): nat
  {
    (mask + (mask + 1) * x) % TWO_64
  }

  lemma StretchedWidens(prefix: nat, x: nat)
    ensures Stretched(prefix, Mask(prefix) + x) == Widened(Mask(prefix), x)
  {
    assert Mask(prefix) + 1 == Pow2(prefix);
    hide Pow2, Mask;
  }

  lemma WidenedNone(mask: nat)
    requires mask < 256
    ensures Widened(mask, 0) == mask
  {
  }

  lemma MaskIsOdd(prefix: nat)
    requires 1 <= prefix <= 8
    ensures Mask(prefix) % 2 == 1 && Mask(prefix) < 256
  {
    assert Pow2(prefix) <= 256 by {
      Pow2Values();
      Pow2Monotone(prefix, 8);
    }
    assert Pow2(prefix) == 2 * Pow2(prefix - 1);
  }

  lemma WidenedDiffers(mask: nat, x: nat)
    requires mask % 2 == 1 && 0 < x && mask + x < TWO_64
    ensures Widened(mask, x) != mask + x
  {
    if Widened(mask, x) == mask + x {
      var q := WidenedQuotient(mask, x);
      hide Widened;
      Pow2Values();
      hide Pow2;
      var z := OddCancels(mask, x, 64, q);
      assert false;
    }
  }

  lemma WidenedQuotient(mask: nat, x: nat) returns (q: int)
    requires Widened(mask, x) == mask + x
    ensures mask * x == TWO_64 * q
  {
    q := (mask + (mask + 1) * x) / TWO_64;
    assert (mask + 1) * x == mask * x + x;
  }
}

/** Header blocks and the dynamic table of the Go decoder. */
module HpackHeaders {
  import opened Bytes
  import opened HpackIntegers

  type Text = seq<byte>

  datatype HeaderField = HeaderField(name: Text, value: Text)

  /** A decoded field, the octets it spans, and whether it enters the dynamic table. */
  datatype Decoded = Decoded(field: HeaderField, consumed: nat, indexed: bool)

  datatype HpackError = EmptyData | IncompleteString

  /** The names of the table behind the pseudo-header fields. */
  function LaterName(k: nat): string
    requires k < 47
  {
    match k
    case 0 => "accept-charset"
    case 1 => "accept-encoding"
    case 2 => "accept-language"
    case 3 => "accept-ranges"
    case 4 => "accept"
    case 5 => "access-control-allow-origin"
    case 6 => "age"
    case 7 => "allow"
    case 8 => "authorization"
    case 9 => "cache-control"
    case 10 => "content-disposition"
    case 11 => "content-encoding"
    case 12 => "content-language"
    case 13 => "content-length"
    case 14 => "content-location"
    case 15 => "content-range"
    case 16 => "content-type"
    case 17 => "cookie"
    case 18 => "date"
    case 19 => "etag"
    case 20 => "expect"
    case 21 => "expires"
    case 22 => "from"
    case 23 => "host"
    case 24 => "if-match"
    case 25 => "if-modified-since"
    case 26 => "if-none-match"
    case 27 => "if-range"
    case 28 => "if-unmodified-since"
    case 29 => "last-modified"
    case 30 => "link"
    case 31 => "location"
    case 32 => "max-forwards"
    case 33 => "proxy-authenticate"
    case 34 => "proxy-authorization"
    case 35 => "range"
    case 36 => "referer"
    case 37 => "refresh"
    case 38 => "retry-after"
    case 39 => "server"
    case 40 => "set-cookie"
    case 41 => "strict-transport-security"
    case 42 => "transfer-encoding"
    case 43 => "user-agent"
    case 44 => "vary"
    case 45 => "via"
    case _ => "www-authenticate"
  }

  /** The pseudo-header fields that the table starts with. */
  function PseudoName(index: nat): string
    requires 1 <= index <= 7
  {
    if index == 1 then ":authority"
    else if index <= 3 then ":method"
    else if index <= 5 then ":path"
    else ":scheme"
  }

  /** hpackStaticTable, and the empty name for indices it does not hold. */
  function StaticName(index: nat): string
  {
    if index == 0 then ""
    else if index <= 7 then PseudoName(index)
    else if index <= 19 then ":status"
    else if index <= 66 then LaterName(index - 20)
    else ""
  }

  /** Appendix A of RFC 7541, the first half. */
  function EarlyRfcName(index: nat): string
    requires 1 <= index <= 31
  {
    match index
    case 1 => ":authority"
    case 2 => ":method"
    case 3 => ":method"
    case 4 => ":path"
    case 5 => ":path"
    case 6 => ":scheme"
    case 7 => ":scheme"
    case 8 => ":status"
    case 9 => ":status"
    case 10 => ":status"
    case 11 => ":status"
    case 12 => ":status"
    case 13 => ":status"
    case 14 => ":status"
    case 15 => "accept-charset"
    case 16 => "accept-encoding"
    case 17 => "accept-language"
    case 18 => "accept-ranges"
    case 19 => "accept"
    case 20 => "access-control-allow-origin"
    case 21 => "age"
    case 22 => "allow"
    case 23 => "authorization"
    case 24 => "cache-control"
    case 25 => "content-disposition"
    case 26 => "content-encoding"
    case 27 => "content-language"
    case 28 => "content-length"
    case 29 => "content-location"
    case 30 => "content-range"
    case _ => "content-type"
  }

  /** Appendix A of RFC 7541, the second half. */
  function LateRfcName(index: nat): string
    requires 32 <= index <= 61
  {
    match index
    case 32 => "cookie"
    case 33 => "date"
    case 34 => "etag"
    case 35 => "expect"
    case 36 => "expires"
    case 37 => "from"
    case 38 => "host"
    case 39 => "if-match"
    case 40 => "if-modified-since"
    case 41 => "if-none-match"
    case 42 => "if-range"
    case 43 => "if-unmodified-since"
    case 44 => "last-modified"
    case 45 => "link"
    case 46 => "location"
    case 47 => "max-forwards"
    case 48 => "proxy-authenticate"
    case 49 => "proxy-authorization"
    case 50 => "range"
    case 51 => "referer"
    case 52 => "refresh"
    case 53 => "retry-after"
    case 54 => "server"
    case 55 => "set-cookie"
    case 56 => "strict-transport-security"
    case 57 => "transfer-encoding"
    case 58 => "user-agent"
    case 59 => "vary"
    case 60 => "via"
    case _ => "www-authenticate"
  }

  /** The names of appendix A of RFC 7541. */
  function RfcName(index: nat): string
    requires 1 <= index <= 61
  {
    if index <= 31 then EarlyRfcName(index) else LateRfcName(index)
  }

  // ---------------------------------------------------------------------------
  // decodeString and decodeHeaderField
  // ---------------------------------------------------------------------------

  /** `int(u)` for a uint64. */
  function ToInt(u: nat): int
  {
    if u > MAX_INT then u - TWO_64 else u
  }

  /** The length check is done in uint64 and the slice bound in int. */
  function SliceString(data: seq<byte>, length: nat, consumed: nat): (r: Outcome<(Text, nat), HpackError>)
    requires 1 <= consumed <= |data|
    ensures r.Ok? ==> consumed <= r.value.1 <= |data| && |r.value.0| == r.value.1 - consumed
  {
    var high := AddInt64(consumed, ToInt(length));
    if (consumed + length) % TWO_64 > |data| then Fail(IncompleteString)
    else if consumed <= high <= |data| then Ok((data[consumed..high], high))
    else Panic
  }

  /** A string with its Huffman flag ignored: the octets are returned as they are. */
  function DecodeString(data: seq<byte>): (r: Outcome<(Text, nat), HpackError>)
    ensures r.Ok? ==> 1 <= r.value.1 <= |data|
  {
    if data == [] then Fail(EmptyData)
    else SliceString(data, GoValue(data, 7), IntegerLength(data, 7))
  }

  /** The name and the value of a literal, from `start` on. */
  function DecodeStrings(data: seq<byte>, start: nat, indexed: bool): (r: Outcome<Decoded, HpackError>)
    requires start <= |data|
    ensures r.Ok? ==> start <= r.value.consumed <= |data| && r.value.indexed == indexed
  {
    match DecodeString(data[start..])
    case Fail(e) => Fail(e)
    case Panic => Panic
    case Ok((name, n)) =>
      match DecodeString(data[start + n..])
      case Fail(e) => Fail(e)
      case Panic => Panic
      case Ok((value, m)) => Ok(Decoded(HeaderField(name, value), start + n + m, indexed))
  }

  /** A literal: the name index is skipped and a name is always read. */
  function DecodeLiteral(data: seq<byte>, prefix: nat, indexed: bool): (r: Outcome<Decoded, HpackError>)
    requires data != []
    ensures r.Ok? ==> 1 <= r.value.consumed <= |data| && r.value.indexed == indexed
  {
    DecodeStrings(data, IntegerLength(data, prefix), indexed)
  }

  function DecodeField(data: seq<byte>): (r: Outcome<Decoded, HpackError>)
    ensures r.Ok? ==> 1 <= r.value.consumed <= |data|
  {
    if data == [] then Fail(EmptyData)
    else if data[0] >= 128 then
      var index := GoValue(data, 7);
      Ok(Decoded(HeaderField(Ascii(StaticName(index)), []), IntegerLength(data, 7), false))
    else if data[0] >= 64 then DecodeLiteral(data, 6, true)
    else DecodeLiteral(data, 4, false)
  }

  // ---------------------------------------------------------------------------
  // Decode
  // ---------------------------------------------------------------------------

  /** What a call of Decode returns and what it appends to the dynamic table. */
  datatype Block = Block(result: Outcome<map<Text, Text>, HpackError>, added: seq<HeaderField>)

  function Entries(d: Decoded): seq<HeaderField>
  {
    if d.indexed then [d.field] else []
  }

  function DecodeBlock(data: seq<byte>, headers: map<Text, Text>): (b: Block)
    decreases |data|
  {
    if data == [] then Block(Ok(headers), [])
    else
      match DecodeField(data)
      case Fail(e) => Block(Fail(e), [])
      case Panic => Block(Panic, [])
      case Ok(d) =>
        var rest := DecodeBlock(data[d.consumed..], headers[d.field.name := d.field.value]);
        rest.(added := Entries(d) + rest.added)
  }

  /** decodeString of pkg/protocol/http2.go. */
  method ReadString(data: seq<byte>) returns (r: Outcome<(Text, nat), HpackError>)
    ensures r == DecodeString(data)
  {
    if data == [] { return Fail(EmptyData); }
    var length, consumed := DecodeInteger(data, 7);
    r := SliceString(data, length, consumed);
  }

  /** The literal branches of decodeHeaderField. */
  method ReadLiteral(data: seq<byte>, prefix: nat, indexed: bool) returns (r: Outcome<Decoded, HpackError>)
    requires data != [] && 1 <= prefix <= 8
    ensures r == DecodeLiteral(data, prefix, indexed)
  {
    hide DecodeString, GoValue, IntegerLength;
    var _, consumed := DecodeInteger(data, prefix);
    var name := ReadString(data[consumed..]);
    if name.Fail? { return Fail(name.error); }
    if name.Panic? { return Panic; }
    consumed := consumed + name.value.1;
    var value := ReadString(data[consumed..]);
    if value.Fail? { return Fail(value.error); }
    if value.Panic? { return Panic; }
    r := Ok(Decoded(HeaderField(name.value.0, value.value.0), consumed + value.value.1, indexed));
  }

  class HpackDecoder {
    var dynamicTable: seq<HeaderField>

    constructor ()
      ensures dynamicTable == []
    {
      dynamicTable := [];
    }

    /** decodeHeaderField: only a whole incrementally indexed literal enters the table. */
    method DecodeHeaderField(data: seq<byte>) returns (r: Outcome<Decoded, HpackError>)
      modifies this
      ensures r == DecodeField(data)
      ensures dynamicTable == old(dynamicTable) + if r.Ok? then Entries(r.value) else []
    {
      hide DecodeLiteral, GoValue, IntegerLength, Ascii, StaticName;
      if data == [] { return Fail(EmptyData); }
      if data[0] >= 128 {
        assert dynamicTable == old(dynamicTable) + [];
        var index, consumed := DecodeInteger(data, 7);
        return Ok(Decoded(HeaderField(Ascii(StaticName(index)), []), consumed, false));
      }
      var indexed := data[0] >= 64;
      r := ReadLiteral(data, if indexed then 6 else 4, indexed);
      if r.Ok? && indexed { dynamicTable := dynamicTable + [r.value.field]; }
    }

    /** Decode: the whole block is consumed or an error is returned, and whatever happens the
        table keeps its entries and gains those of the fields decoded so far. */
    method Decode(data: seq<byte>) returns (r: Outcome<map<Text, Text>, HpackError>)
      modifies this
      ensures r == DecodeBlock(data, map[]).result
      ensures dynamicTable == old(dynamicTable) + DecodeBlock(data, map[]).added
    {
      hide DecodeField, Entries;
      ghost var whole := DecodeBlock(data, map[]);
      var headers: map<Text, Text> := map[];
      var offset := 0;
      ghost var added := [];
      assert data[0..] == data;
      while offset < |data|
        invariant 0 <= offset <= |data|
        invariant dynamicTable == old(dynamicTable) + added
        invariant var rest := DecodeBlock(data[offset..], headers);
                  rest.result == whole.result && added + rest.added == whole.added
        decreases |data| - offset
      {
        var d := DecodeHeaderField(data[offset..]);
        if d.Fail? { return Fail(d.error); }
        if d.Panic? { return Panic; }
        BlockUnfolds(data, offset, headers, d.value, added);
        added := added + Entries(d.value);
        headers := headers[d.value.field.name := d.value.field.value];
        offset := offset + d.value.consumed;
      }
      r := Ok(headers);
    }
  }

  lemma BlockUnfolds(data: seq<byte>, offset: nat, headers: map<Text, Text>, d: Decoded, added: seq<HeaderField>)
    requires offset < |data| && DecodeField(data[offset..]) == Ok(d)
    ensures offset + d.consumed <= |data|
    ensures var here := DecodeBlock(data[offset..], headers);
            var next := DecodeBlock(data[offset + d.consumed..], headers[d.field.name := d.field.value]);
            here.result == next.result && added + here.added == added + Entries(d) + next.added
  {
    hide DecodeField;
    assert data[offset..][d.consumed..] == data[offset + d.consumed..];
  }

  // ---------------------------------------------------------------------------
  // Strings and fields on arbitrary octets
  // ---------------------------------------------------------------------------

  /** The octets start with a length and a string of that many octets, `n` in all; the Huffman flag
      makes no difference. */
  predicate StringAt(data: seq<byte>, t: Text, n: nat)
  {
    && data != [] && |t| == GoValue(data, 7) && n == IntegerLength(data, 7) + |t|
    && n <= |data| && data[n - |t|..n] == t
  }

  /** On every input: a string is read exactly where there is one; otherwise there are no octets,
      or fewer than declared, or the length wraps and reading panics. */
  lemma StringMeaning(data: seq<byte>, t: Text, n: nat)
    requires |data| <= MAX_LEN
    ensures DecodeString(data) == Ok((t, n)) <==> StringAt(data, t, n)
    ensures DecodeString(data) == Fail(EmptyData) <==> data == []
    ensures DecodeString(data) == Fail(IncompleteString)
            <==> data != [] && |data| < IntegerLength(data, 7) + GoValue(data, 7) < TWO_64
  {
    hide GoValue, IntegerLength;
  }

  /** Two strings behind the index of a literal. */
  predicate LiteralAt(data: seq<byte>, start: nat, d: Decoded)
    requires start <= |data|
  {
    exists n :: && 0 <= n <= |data| - start && StringAt(data[start..], d.field.name, n)
                && start + n <= d.consumed && StringAt(data[start + n..], d.field.value, d.consumed - start - n)
  }

  /** On every input: with the high bit an indexed field of the static table, otherwise a literal,
      read exactly where two strings stand behind its index; only with the next bit is it indexed. */
  lemma FieldMeaning(data: seq<byte>, d: Decoded)
    requires data != [] && |data| <= MAX_LEN
    ensures data[0] >= 128 ==>
              DecodeField(data)
              == Ok(Decoded(HeaderField(Ascii(StaticName(GoValue(data, 7))), []), IntegerLength(data, 7), false))
    ensures data[0] < 128 ==>
              (DecodeField(data) == Ok(d)
               <==> && d.indexed == (data[0] >= 64)
                    && LiteralAt(data, IntegerLength(data, if data[0] >= 64 then 6 else 4), d))
  {
    hide GoValue, IntegerLength, DecodeStrings, LiteralAt, Ascii, StaticName;
    if data[0] < 128 {
      LiteralMeaning(data, IntegerLength(data, if data[0] >= 64 then 6 else 4), data[0] >= 64, d);
    }
  }

  lemma LiteralMeaning(data: seq<byte>, start: nat, indexed: bool, d: Decoded)
    requires start <= |data| <= MAX_LEN
    ensures DecodeStrings(data, start, indexed) == Ok(d) <==> d.indexed == indexed && LiteralAt(data, start, d)
  {
    hide DecodeString, StringAt;
    if DecodeStrings(data, start, indexed) == Ok(d) {
      var n := DecodeString(data[start..]).value.1;
      StringMeaning(data[start..], d.field.name, n);
      StringMeaning(data[start + n..], d.field.value, d.consumed - start - n);
    }
    if d.indexed == indexed && LiteralAt(data, start, d) {
      var n :| && 0 <= n <= |data| - start && StringAt(data[start..], d.field.name, n)
               && start + n <= d.consumed && StringAt(data[start + n..], d.field.value, d.consumed - start - n);
      StringMeaning(data[start..], d.field.name, n);
      StringMeaning(data[start + n..], d.field.value, d.consumed - start - n);
    }
  }

  /** The fields that decode one after the other from the start of a block. */
  function Fields(data: seq<byte>): seq<Decoded>
    decreases |data|
  {
    if data == [] || !DecodeField(data).Ok? then []
    else [DecodeField(data).value] + Fields(data[DecodeField(data).value.consumed..])
  }

  /** The value that the last of the fields gives a name, or the one it had. */
  function LastOf(fields: seq<Decoded>, headers: map<Text, Text>, name: Text): Option<Text>
    decreases |fields|
  {
    if fields == [] then (if name in headers then Some(headers[name]) else None)
    else
      var last := fields[|fields| - 1].field;
      if last.name == name then Some(last.value) else LastOf(fields[..|fields| - 1], headers, name)
  }

  function IndexedOf(fields: seq<Decoded>): seq<HeaderField>
  {
    if fields == [] then [] else (if fields[0].indexed then [fields[0].field] else []) + IndexedOf(fields[1..])
  }

  lemma {:induction false} LastOfFirst(fields: seq<Decoded>, headers: map<Text, Text>, name: Text)
    requires fields != []
    ensures var f := fields[0].field;
            LastOf(fields, headers, name) == LastOf(fields[1..], headers[f.name := f.value], name)
    decreases |fields|
  {
    if |fields| == 1 {
      assert fields[..0] == [];
    } else {
      LastOfFirst(fields[..|fields| - 1], headers, name);
      assert fields[1..][..|fields| - 2] == fields[..|fields| - 1][1..];
    }
  }

  /** On every block: the table gains the indexed ones among the fields that decode, also when a
      later one does not, and a block that decodes whole maps each name to its last value. */
  lemma {:induction false} BlockMeaning(data: seq<byte>, headers: map<Text, Text>, name: Text)
    ensures var b := DecodeBlock(data, headers);
            && b.added == IndexedOf(Fields(data))
            && (b.result.Ok? ==>
                  (if name in b.result.value then Some(b.result.value[name]) else None)
                  == LastOf(Fields(data), headers, name))
    decreases |data|
  {
    hide DecodeField;
    if data != [] && DecodeField(data).Ok? {
      var d := DecodeField(data).value;
      BlockMeaning(data[d.consumed..], headers[d.field.name := d.field.value], name);
      LastOfFirst(Fields(data), headers, name);
      assert Fields(data)[1..] == Fields(data[d.consumed..]);
    }
  }

  /** A block fails with the error of the field at which decoding stops. */
  lemma {:induction false} BlockFailsIff(data: seq<byte>, headers: map<Text, Text>, e: HpackError)
    ensures DecodeBlock(data, headers).result == Fail(e)
            <==> var n := SpanSum(Spans(data)); n < |data| && DecodeField(data[n..]) == Fail(e)
    decreases |data|
  {
    hide DecodeField;
    if data != [] && DecodeField(data).Ok? {
      var d := DecodeField(data).value;
      BlockFailsIff(data[d.consumed..], headers[d.field.name := d.field.value], e);
      FieldsTileBlock(data[d.consumed..], headers);
      assert Spans(data)[1..] == Spans(data[d.consumed..]);
      var n := SpanSum(Spans(data[d.consumed..]));
      assert data[d.consumed..][n..] == data[d.consumed + n..];
    } else {
      assert data[0..] == data;
    }
  }

  // ---------------------------------------------------------------------------
  // Arbitrary blocks
  // ---------------------------------------------------------------------------

  /** The declared length, added to the octets that declare it, passes 64 bits. */
  predicate LengthWraps(data: seq<byte>)
  {
    data != [] && IntegerLength(data, 7) + GoValue(data, 7) >= TWO_64
  }

  /** A literal at the start of `data` whose name, or whose value behind a name that decodes, wraps. */
  predicate FieldWraps(data: seq<byte>)
  {
    && data != [] && data[0] < 128
    && var start := IntegerLength(data, if data[0] >= 64 then 6 else 4);
    && (|| LengthWraps(data[start..])
        || (DecodeString(data[start..]).Ok? && LengthWraps(data[start + DecodeString(data[start..]).value.1..])))
  }

  /** Decoding reaches such a literal behind fields that decode. */
  predicate BlockWraps(data: seq<byte>)
    decreases |data|
  {
    && data != []
    && (FieldWraps(data) || (DecodeField(data).Ok? && BlockWraps(data[DecodeField(data).value.consumed..])))
  }

  /** The 64-bit length check lets a wrapped sum pass, and the slice behind it then panics. */
  lemma StringPanicsIff(data: seq<byte>)
    requires |data| <= MAX_LEN
    ensures DecodeString(data).Panic? <==> LengthWraps(data)
  {
    hide GoValue, IntegerLength;
  }

  lemma FieldPanicsIff(data: seq<byte>)
    requires |data| <= MAX_LEN
    ensures DecodeField(data).Panic? <==> FieldWraps(data)
  {
    hide DecodeString, LengthWraps, IntegerLength, GoValue, Ascii;
    if data != [] && data[0] < 128 {
      var start := IntegerLength(data, if data[0] >= 64 then 6 else 4);
      StringPanicsIff(data[start..]);
      if DecodeString(data[start..]).Ok? {
        StringPanicsIff(data[start + DecodeString(data[start..]).value.1..]);
      }
    }
  }

  /** Decode panics exactly on the blocks in which it reaches a string whose length wraps. */
  lemma {:induction false} BlockPanicsIff(data: seq<byte>, headers: map<Text, Text>)
    requires |data| <= MAX_LEN
    ensures DecodeBlock(data, headers).result.Panic? <==> BlockWraps(data)
    decreases |data|
  {
    hide DecodeField, FieldWraps;
    if data != [] {
      FieldPanicsIff(data);
      if DecodeField(data).Ok? {
        var d := DecodeField(data).value;
        BlockPanicsIff(data[d.consumed..], headers[d.field.name := d.field.value]);
      }
    }
  }

  /** Somewhere in the block an octet starts more than eight continuation octets. */
  ghost predicate HasLongInteger(data: seq<byte>)
  {
    exists i :: 0 <= i < |data| && ContLength(data[i..]) > 8
  }

  lemma ShortIntegerFits(data: seq<byte>)
    requires data != [] && ContLength(data[1..]) <= 8
    ensures GoValue(data, 7) <= MAX_INT
  {
    var s := data[1..];
    assert ContValue(s) < 0x100_0000_0000_0000 by {
      ContBound(s);
      Pow2Values();
      Pow2Monotone(7 * ContLength(s), 56);
    }
    assert Pow2(7) == 128;
    hide Pow2, Low, ContValue;
  }

  lemma WrapNeedsLongInteger(data: seq<byte>)
    requires |data| <= MAX_LEN && LengthWraps(data)
    ensures HasLongInteger(data)
  {
    if ContLength(data[1..]) <= 8 {
      ShortIntegerFits(data);
    }
    assert 1 < |data| && ContLength(data[1..]) > 8;
  }

  lemma LongIntegerInSuffix(data: seq<byte>, k: nat)
    requires k <= |data| && HasLongInteger(data[k..])
    ensures HasLongInteger(data)
  {
    var i :| 0 <= i < |data[k..]| && ContLength(data[k..][i..]) > 8;
    assert data[k..][i..] == data[k + i..];
  }

  lemma FieldWrapIsLong(data: seq<byte>)
    requires |data| <= MAX_LEN && FieldWraps(data)
    ensures HasLongInteger(data)
  {
    hide DecodeString, LengthWraps, IntegerLength, HasLongInteger;
    var start := IntegerLength(data, if data[0] >= 64 then 6 else 4);
    if LengthWraps(data[start..]) {
      WrapNeedsLongInteger(data[start..]);
      LongIntegerInSuffix(data, start);
    } else {
      var next := start + DecodeString(data[start..]).value.1;
      WrapNeedsLongInteger(data[next..]);
      LongIntegerInSuffix(data, next);
    }
  }

  lemma {:induction false} BlockWrapIsLong(data: seq<byte>)
    requires |data| <= MAX_LEN && BlockWraps(data)
    ensures HasLongInteger(data)
    decreases |data|
  {
    hide DecodeField, FieldWraps, HasLongInteger;
    if FieldWraps(data) {
      FieldWrapIsLong(data);
    } else {
      var n := DecodeField(data).value.consumed;
      BlockWrapIsLong(data[n..]);
      LongIntegerInSuffix(data, n);
    }
  }

  /** So without an integer of more than eight continuation octets, decoding never panics. */
  lemma BlockPanics(data: seq<byte>, headers: map<Text, Text>)
    requires |data| <= MAX_LEN && DecodeBlock(data, headers).result.Panic?
    ensures HasLongInteger(data)
  {
    hide DecodeBlock, BlockWraps, HasLongInteger;
    BlockPanicsIff(data, headers);
    BlockWrapIsLong(data);
  }

  /** Ten octets that declare a length of 2^64 - 1 with nine continuation octets. */
  const WRAPPING: seq<byte> := [0x7F, 0xFF, 0xFF, 0xFF, 0xFF, 0xFF, 0xFF, 0xFF, 0xFF, 0x01]

  lemma {:induction false} FullGroups(n: nat)
    ensures var s := seq(n, _ => 0xFF) + [1];
            ContLength(s) == n + 1 && ContValue(s) == 2 * Pow2(7 * n) - 1
  {
    var s: seq<byte> := seq(n, _ => 0xFF) + [1];
    if n > 0 {
      assert s[1..] == seq(n - 1, _ => 0xFF) + [1];
      FullGroups(n - 1);
      assert 7 * n == 7 * (n - 1) + 7;
      Pow2Plus7(7 * (n - 1));
      hide Pow2;
    }
  }

  lemma WrappingValue()
    ensures IntegerLength(WRAPPING, 7) == 10 && GoValue(WRAPPING, 7) == TWO_64 - 1
  {
    assert ContLength(WRAPPING[1..]) == 9 && ContValue(WRAPPING[1..]) == 2 * Pow2(56) - 1 by {
      FullGroups(8);
      assert WRAPPING[1..] == seq(8, _ => 0xFF) + [1];
    }
    assert Pow2(7) == 128 && Pow2(56) == 0x100_0000_0000_0000 by { Pow2Values(); }
    assert Low(0x7F, 7) == 127 by { LowBits(0, 127, 7); }
    WrappingTotal();
    hide Pow2, ContLength, ContValue, Low, Total64;
  }

  lemma WrappingTotal()
    ensures Total64(127, 7, 0x1FF_FFFF_FFFF_FFFF) == TWO_64 - 1
  {
    assert Pow2(7) == 128 by { Pow2Values(); }
    hide Pow2;
  }

  /** Nine continuation octets are enough: a block of one literal with that name makes Decode panic. */
  lemma NineOctetsPanic(headers: map<Text, Text>)
    ensures DecodeString(WRAPPING).Panic?
    ensures DecodeBlock([0x00] + WRAPPING, headers).result.Panic?
  {
    WrappingValue();
    StringPanicsIff(WRAPPING);
    var data := [0x00] + WRAPPING;
    assert data[1..] == WRAPPING;
    assert IntegerLength(data, 4) == 1;
    hide GoValue, IntegerLength;
    assert FieldWraps(data);
    hide FieldWraps, DecodeBlock, DecodeString;
    BlockPanicsIff(data, headers);
  }

  /** The octets spanned by the fields that decode, one after the other. */
  function Spans(data: seq<byte>): (spans: seq<nat>)
    decreases |data|
  {
    if data == [] || !DecodeField(data).Ok? then []
    else var n := DecodeField(data).value.consumed; [n] + Spans(data[n..])
  }

  function SpanSum(spans: seq<nat>): nat
  {
    if spans == [] then 0 else spans[0] + SpanSum(spans[1..])
  }

  /** Every field spans at least one octet and none outruns the block; decoding succeeds exactly
      when the fields cover the whole block. */
  lemma {:induction false} FieldsTileBlock(data: seq<byte>, headers: map<Text, Text>)
    ensures forall i :: 0 <= i < |Spans(data)| ==> Spans(data)[i] >= 1
    ensures SpanSum(Spans(data)) <= |data|
    ensures DecodeBlock(data, headers).result.Ok? <==> SpanSum(Spans(data)) == |data|
    decreases |data|
  {
    if data != [] && DecodeField(data).Ok? {
      var d := DecodeField(data).value;
      hide DecodeField;
      FieldsTileBlock(data[d.consumed..], headers[d.field.name := d.field.value]);
      assert Spans(data)[1..] == Spans(data[d.consumed..]);
    }
  }

  // ---------------------------------------------------------------------------
  // Indexed fields: section 6.1 and appendix A of RFC 7541
  // ---------------------------------------------------------------------------

  lemma EarlyNamesShifted(index: nat)
    requires 15 <= index <= 31
    ensures LaterName(index - 15) == EarlyRfcName(index)
  {
  }

  lemma LateNamesShifted(index: nat)
    requires 32 <= index <= 61
    ensures LaterName(index - 15) == LateRfcName(index)
  {
  }

  lemma NamesShifted(index: nat)
    requires 15 <= index <= 61
    ensures StaticName(index + 5) == RfcName(index)
  {
    hide LaterName, EarlyRfcName, LateRfcName;
    if index <= 31 { EarlyNamesShifted(index); } else { LateNamesShifted(index); }
  }

  lemma NamesDiffer(index: nat)
    requires 15 <= index <= 61
    ensures StaticName(index) != RfcName(index)
  {
    if index < 20 {
      assert StaticName(index) == ":status";
    } else {
      NamesShifted(index - 5);
    }
    RfcNamesDiffer(index);
    hide StaticName, RfcName;
  }

  lemma RfcNamesDiffer(index: nat)
    requires 15 <= index <= 61
    ensures RfcName(index) != ":status"
    ensures index >= 20 ==> RfcName(index) != RfcName(index - 5)
  {
    if index <= 31 {
      EarlyNamesDiffer(index);
    } else if index <= 36 {
      NamesDifferAcross(index);
    } else {
      LateNamesDiffer(index);
    }
    hide EarlyRfcName, LateRfcName;
  }

  lemma EarlyNamesDiffer(index: nat)
    requires 15 <= index <= 31
    ensures EarlyRfcName(index) != ":status" && (index >= 20 ==> EarlyRfcName(index) != EarlyRfcName(index - 5))
  {
  }

  lemma NamesDifferAcross(index: nat)
    requires 32 <= index <= 36
    ensures LateRfcName(index) != ":status" && LateRfcName(index) != EarlyRfcName(index - 5)
  {
  }

  lemma LateNamesDiffer(index: nat)
    requires 37 <= index <= 61
    ensures LateRfcName(index) != ":status" && LateRfcName(index) != LateRfcName(index - 5)
  {
  }

  /** The table names what the RFC names exactly up to index 14; from 15 on it is five behind. */
  lemma StaticNamesAgreeIff(index: nat)
    requires 1 <= index <= 61
    ensures StaticName(index) == RfcName(index) <==> index <= 14
    ensures index >= 15 ==> StaticName(index + 5) == RfcName(index)
  {
    if index >= 15 {
      hide StaticName, RfcName;
      NamesShifted(index);
      NamesDiffer(index);
    }
  }

  /** There are 66 names; any other index gives the empty name. */
  lemma NoSuchName(index: nat)
    ensures StaticName(index) == "" <==> index == 0 || index > 66
  {
    if index >= 20 && index <= 66 { LaterNameNotEmpty(index - 20); }
    hide LaterName;
  }

  lemma LaterNameNotEmpty(k: nat)
    requires k < 47
    ensures LaterName(k) != ""
  {
  }

  /** An indexed field of one octet gives that name and never a value. */
  lemma IndexedField(index: nat, suffix: seq<byte>)
    requires index < 127
    ensures DecodeField([128 + index] + suffix)
            == Ok(Decoded(HeaderField(Ascii(StaticName(index)), []), 1, false))
  {
    assert Pow2(7) == 128;
    LowBits(128, index, 7);
    hide Low, StaticName, Ascii;
  }

  // ---------------------------------------------------------------------------
  // Literals with new names: sections 6.2.1 to 6.2.3 of RFC 7541
  // ---------------------------------------------------------------------------

  datatype Indexing = Incremental | WithoutIndexing | NeverIndexed

  /** A field to be sent, and whether the Huffman flag is set on its name and on its value. */
  datatype Header = Header(indexing: Indexing, field: HeaderField, nameFlag: bool, valueFlag: bool)

  /** The length, with the Huffman flag as given. */
  function LengthPrefix(s: Text, flag: bool): (p: seq<byte>)
    ensures |p| >= 1
  {
    assert Mask(7) == 127 && Pow2(7) == 128;
    EncodeInt(if flag then 128 else 0, 7, |s|)
  }

  function EncodeString(s: Text, flag: bool): (e: seq<byte>)
    ensures |e| >= 1
  {
    LengthPrefix(s, flag) + s
  }

  function FirstOctet(indexing: Indexing): byte
  {
    match indexing
    case Incremental => 0x40
    case WithoutIndexing => 0x00
    case NeverIndexed => 0x10
  }

  function EncodeName(h: Header): (e: seq<byte>)
  {
    EncodeString(h.field.name, h.nameFlag)
  }

  function EncodeValue(h: Header): (e: seq<byte>)
  {
    EncodeString(h.field.value, h.valueFlag)
  }

  function EncodeHeader(h: Header): seq<byte>
  {
    [FirstOctet(h.indexing)] + EncodeName(h) + EncodeValue(h)
  }

  function EncodeHeaders(hs: seq<Header>): seq<byte>
  {
    if hs == [] then [] else EncodeHeader(hs[0]) + EncodeHeaders(hs[1..])
  }

  lemma SliceIff(data: seq<byte>, length: nat, consumed: nat, s: Text)
    requires 1 <= consumed && consumed + |s| <= |data| <= MAX_LEN && data[consumed..consumed + |s|] == s
    requires length < TWO_64
    ensures SliceString(data, length, consumed) == Ok((s, consumed + |s|)) <==> length == |s|
  {
  }

  lemma EncodedLength(s: Text, flag: bool, rest: seq<byte>)
    requires |EncodeString(s, flag)| <= MAX_LEN && |s| < TWO_64
    ensures var data := EncodeString(s, flag) + rest;
            && IntegerLength(data, 7) == |EncodeString(s, flag)| - |s|
            && (GoValue(data, 7) == |s| <==> |s| <= 127)
  {
    var data, head := EncodeString(s, flag) + rest, LengthPrefix(s, flag);
    assert data == head + (s + rest);
    LengthPrefixReadsBack(s, flag, s + rest);
  }

  lemma LengthPrefixReadsBack(s: Text, flag: bool, rest: seq<byte>)
    requires |s| < TWO_64
    ensures var data := LengthPrefix(s, flag) + rest;
            && IntegerLength(data, 7) == |LengthPrefix(s, flag)|
            && (GoValue(data, 7) == |s| <==> |s| <= 127)
  {
    var data := LengthPrefix(s, flag) + rest;
    assert Mask(7) == 127 && Pow2(7) == 128;
    RfcRoundTrip(if flag then 128 else 0, 7, |s|, rest);
    DecodersAgreeIff(data, 7);
  }

  /** The octets of a string come back exactly when there are at most 127 of them, whatever the
      Huffman flag says. */
  lemma StringRoundTrip(s: Text, flag: bool, suffix: seq<byte>)
    requires |EncodeString(s, flag) + suffix| <= MAX_LEN
    ensures DecodeString(EncodeString(s, flag) + suffix) == Ok((s, |EncodeString(s, flag)|)) <==> |s| <= 127
  {
    var data, head := EncodeString(s, flag) + suffix, LengthPrefix(s, flag);
    EncodedLength(s, flag, suffix);
    assert data == head + (s + suffix);
    hide GoValue, IntegerLength, LengthPrefix;
    assert data[|head|..|head| + |s|] == s;
    SliceIff(data, GoValue(data, 7), IntegerLength(data, 7), s);
  }

  /** A literal whose name is an index: sections 6.2.1 to 6.2.3 of RFC 7541. */
  function EncodeIndex(indexing: Indexing, index: nat): (e: seq<byte>)
  {
    IndexPrefix(indexing);
    EncodeInt(FirstOctet(indexing), PrefixOf(indexing), index)
  }

  function PrefixOf(indexing: Indexing): nat
  {
    if indexing.Incremental? then 6 else 4
  }

  lemma IndexPrefix(indexing: Indexing)
    ensures FirstOctet(indexing) % Pow2(PrefixOf(indexing)) == 0
    ensures FirstOctet(indexing) + Mask(PrefixOf(indexing)) < (if indexing.Incremental? then 128 else 64)
  {
    assert Pow2(6) == 64 && Pow2(4) == 16;
  }

  lemma IndexSkipped(indexing: Indexing, index: nat, rest: seq<byte>)
    ensures var head := EncodeIndex(indexing, index);
            head != [] && DecodeField(head + rest) == DecodeStrings(head + rest, |head|, indexing.Incremental?)
  {
    IndexPrefix(indexing);
    RfcRoundTrip(FirstOctet(indexing), PrefixOf(indexing), index, rest);
    hide DecodeStrings, IntegerLength, RfcValue, Pow2, Mask, Terminated;
  }

  /** How a literal goes on once its first string is read. */
  function ReadOn(name: Text, consumed: nat, suffix: seq<byte>, indexed: bool): Outcome<Decoded, HpackError>
  {
    match DecodeString(suffix)
    case Fail(e) => Fail(e)
    case Panic => Panic
    case Ok((value, m)) => Ok(Decoded(HeaderField(name, value), consumed + m, indexed))
  }

  lemma FirstStringRead(data: seq<byte>, start: nat, name: Text, n: nat, suffix: seq<byte>, indexed: bool)
    requires start + n <= |data| && data[start + n..] == suffix && DecodeString(data[start..]) == Ok((name, n))
    ensures DecodeStrings(data, start, indexed) == ReadOn(name, start + n, suffix, indexed)
  {
    hide DecodeString;
  }

  /** An indexed name is never used: the value is taken for the name, and the next octets, which are
      another field's or missing, for the value. So no such literal spans its own encoding. */
  lemma IndexedNameMisread(indexing: Indexing, index: nat, value: Text, flag: bool, suffix: seq<byte>)
    requires index >= 1 && |value| <= 127
    requires |EncodeIndex(indexing, index) + (EncodeString(value, flag) + suffix)| <= MAX_LEN
    ensures var own := EncodeIndex(indexing, index) + EncodeString(value, flag);
            && DecodeField(own + suffix) == ReadOn(value, |own|, suffix, indexing.Incremental?)
            && (DecodeField(own + suffix).Ok? ==> DecodeField(own + suffix).value.consumed > |own|)
            && DecodeField(own) == Fail(EmptyData)
  {
    IndexedNameReadOn(indexing, index, value, flag, suffix);
    IndexedNameReadOn(indexing, index, value, flag, []);
    var own := EncodeIndex(indexing, index) + EncodeString(value, flag);
    assert own + [] == own && DecodeString([]) == Fail(EmptyData);
    hide DecodeField, EncodeIndex, EncodeString;
  }

  lemma IndexedNameReadOn(indexing: Indexing, index: nat, value: Text, flag: bool, suffix: seq<byte>)
    requires |value| <= 127 && |EncodeIndex(indexing, index) + (EncodeString(value, flag) + suffix)| <= MAX_LEN
    ensures var own := EncodeIndex(indexing, index) + EncodeString(value, flag);
            DecodeField(own + suffix) == ReadOn(value, |own|, suffix, indexing.Incremental?)
  {
    hide DecodeField, DecodeString, DecodeStrings, EncodeIndex, EncodeString, ReadOn;
    var head, text := EncodeIndex(indexing, index), EncodeString(value, flag);
    var data := head + text + suffix;
    assert data == head + (text + suffix);
    assert data[|head|..] == text + suffix && data[|head| + |text|..] == suffix;
    IndexSkipped(indexing, index, text + suffix);
    StringRoundTrip(value, flag, suffix);
    FirstStringRead(data, |head|, value, |text|, suffix, indexing.Incremental?);
  }

  predicate Fits(f: HeaderField)
  {
    |f.name| <= 127 && |f.value| <= 127
  }

  predicate AllFit(hs: seq<Header>)
  {
    forall i :: 0 <= i < |hs| ==> Fits(hs[i].field)
  }

  function Expected(h: Header): Decoded
  {
    Decoded(h.field, |EncodeHeader(h)|, h.indexing.Incremental?)
  }

  lemma LiteralStart(h: Header, rest: seq<byte>)
    ensures DecodeField([FirstOctet(h.indexing)] + rest)
            == DecodeStrings([FirstOctet(h.indexing)] + rest, 1, h.indexing.Incremental?)
  {
    hide DecodeStrings;
    var prefix := if h.indexing.Incremental? then 6 else 4;
    assert Pow2(6) == 64 && Pow2(4) == 16;
    LowBits(FirstOctet(h.indexing), 0, prefix);
    assert Mask(prefix) > 0;
    hide Low;
  }

  /** A new-name literal comes back exactly when its two strings are at most 127 octets long. */
  lemma HeaderRoundTrip(h: Header, suffix: seq<byte>)
    requires |EncodeHeader(h) + suffix| <= MAX_LEN
    ensures DecodeField(EncodeHeader(h) + suffix) == Ok(Expected(h)) <==> Fits(h.field)
  {
    hide DecodeField, DecodeStrings, EncodeString, FirstOctet;
    var name, value := EncodeName(h), EncodeValue(h);
    var data := EncodeHeader(h) + suffix;
    assert data == [FirstOctet(h.indexing)] + (name + (value + suffix));
    LiteralStart(h, name + (value + suffix));
    assert data[1..] == name + (value + suffix);
    if Fits(h.field) {
      StringsReadBack(data, h, suffix);
    } else {
      LongStringsMisread(data, h, suffix);
    }
  }

  lemma StringsReadBack(data: seq<byte>, h: Header, suffix: seq<byte>)
    requires 1 <= |data| <= MAX_LEN && data[1..] == EncodeName(h) + (EncodeValue(h) + suffix)
    requires Fits(h.field)
    ensures DecodeStrings(data, 1, h.indexing.Incremental?)
            == Ok(Decoded(h.field, 1 + |EncodeName(h)| + |EncodeValue(h)|, h.indexing.Incremental?))
  {
    hide DecodeString, EncodeString;
    var name, rest := EncodeName(h), EncodeValue(h) + suffix;
    StringRoundTrip(h.field.name, h.nameFlag, rest);
    StringRoundTrip(h.field.value, h.valueFlag, suffix);
    RestOf(data, name, rest);
  }

  lemma RestOf(data: seq<byte>, name: seq<byte>, rest: seq<byte>)
    requires 1 <= |data| && data[1..] == name + rest
    ensures data[1 + |name|..] == rest
  {
    assert data[1 + |name|..] == data[1..][|name|..];
  }

  lemma LongStringsMisread(data: seq<byte>, h: Header, suffix: seq<byte>)
    requires 1 <= |data| <= MAX_LEN && data[1..] == EncodeName(h) + (EncodeValue(h) + suffix)
    requires !Fits(h.field)
    ensures var r := DecodeStrings(data, 1, h.indexing.Incremental?);
            r.Ok? ==> r.value.field != h.field
  {
    hide DecodeString, EncodeString;
    var name, rest := EncodeName(h), EncodeValue(h) + suffix;
    if |h.field.name| > 127 {
      LongStringMisread(h.field.name, h.nameFlag, rest);
    } else {
      StringRoundTrip(h.field.name, h.nameFlag, rest);
      RestOf(data, name, rest);
      LongStringMisread(h.field.value, h.valueFlag, suffix);
    }
  }

  lemma LongStringMisread(s: Text, flag: bool, rest: seq<byte>)
    requires |s| > 127 && |EncodeString(s, flag) + rest| <= MAX_LEN
    ensures DecodeString(EncodeString(s, flag) + rest).Ok? ==> DecodeString(EncodeString(s, flag) + rest).value.0 != s
  {
    StringRoundTrip(s, flag, rest);
    EncodedLength(s, flag, rest);
    hide EncodeString, GoValue, IntegerLength;
  }

  /** The header map of a list: a later value for the same name replaces an earlier one. */
  function Collect(headers: map<Text, Text>, hs: seq<Header>): map<Text, Text>
    decreases |hs|
  {
    if hs == [] then headers else Collect(headers[hs[0].field.name := hs[0].field.value], hs[1..])
  }

  /** The fields that enter the dynamic table, in order. */
  function Indexed(hs: seq<Header>): seq<HeaderField>
  {
    if hs == [] then []
    else (if hs[0].indexing.Incremental? then [hs[0].field] else []) + Indexed(hs[1..])
  }

  /** The value of the last field of that name. */
  function LastValue(hs: seq<Header>, name: Text): Option<Text>
  {
    if hs == [] then None
    else
      var last := hs[|hs| - 1].field;
      if last.name == name then Some(last.value) else LastValue(hs[..|hs| - 1], name)
  }

  lemma {:induction false} CollectAppend(headers: map<Text, Text>, hs: seq<Header>, h: Header)
    ensures Collect(headers, hs + [h]) == Collect(headers, hs)[h.field.name := h.field.value]
    decreases |hs|
  {
    if hs == [] {
      assert (hs + [h])[1..] == [];
    } else {
      assert (hs + [h])[1..] == hs[1..] + [h];
      CollectAppend(headers[hs[0].field.name := hs[0].field.value], hs[1..], h);
    }
  }

  /** The map holds exactly the names of the list, each with its last value. */
  lemma {:induction false} CollectIsLastWins(hs: seq<Header>, name: Text)
    ensures name in Collect(map[], hs) <==> LastValue(hs, name).Some?
    ensures name in Collect(map[], hs) ==> Collect(map[], hs)[name] == LastValue(hs, name).value
    decreases |hs|
  {
    if hs != [] {
      var front, last := hs[..|hs| - 1], hs[|hs| - 1];
      assert hs == front + [last];
      CollectAppend(map[], front, last);
      hide Collect;
      CollectIsLastWins(front, name);
    }
  }

  /** A block of new-name literals decodes to its last-value-wins map, and exactly its
      incrementally indexed fields, in order, are appended to the table. */
  lemma {:induction false} BlockRoundTrip(hs: seq<Header>, headers: map<Text, Text>)
    requires |EncodeHeaders(hs)| <= MAX_LEN
    requires AllFit(hs)
    ensures DecodeBlock(EncodeHeaders(hs), headers) == Block(Ok(Collect(headers, hs)), Indexed(hs))
    decreases |hs|
  {
    if hs != [] {
      var data, h, rest := EncodeHeaders(hs), hs[0], EncodeHeaders(hs[1..]);
      HeaderRoundTrip(h, rest);
      hide DecodeField, EncodeHeader;
      assert data[|EncodeHeader(h)|..] == rest;
      BlockRoundTrip(hs[1..], headers[h.field.name := h.field.value]);
    }
  }

  // ---------------------------------------------------------------------------
  // One decoder over many calls
  // ---------------------------------------------------------------------------

  /** The table after a sequence of calls to Decode on one decoder. */
  function TableAfter(table: seq<HeaderField>, blocks: seq<seq<byte>>): seq<HeaderField>
    decreases |blocks|
  {
    if blocks == [] then table else TableAfter(table + DecodeBlock(blocks[0], map[]).added, blocks[1..])
  }

  function EncodeBlocks(lists: seq<seq<Header>>): seq<seq<byte>>
  {
    seq(|lists|, i requires 0 <= i < |lists| => EncodeHeaders(lists[i]))
  }

  function IndexedAll(lists: seq<seq<Header>>): seq<HeaderField>
  {
    if lists == [] then [] else Indexed(lists[0]) + IndexedAll(lists[1..])
  }

  /** Over any sequence of calls the table only grows, even when calls fail. */
  lemma {:induction false} TableOnlyGrows(table: seq<HeaderField>, blocks: seq<seq<byte>>)
    ensures table <= TableAfter(table, blocks)
    decreases |blocks|
  {
    if blocks != [] { TableOnlyGrows(table + DecodeBlock(blocks[0], map[]).added, blocks[1..]); }
  }

  /** Over any sequence of header lists, each call returns its own last-value-wins map and the
      table is the concatenation of all incrementally indexed fields of all calls. */
  lemma SessionRoundTrip(table: seq<HeaderField>, lists: seq<seq<Header>>)
    requires forall i :: 0 <= i < |lists| ==> |EncodeHeaders(lists[i])| <= MAX_LEN
    requires forall i :: 0 <= i < |lists| ==> AllFit(lists[i])
    ensures forall i :: 0 <= i < |lists| ==>
              DecodeBlock(EncodeBlocks(lists)[i], map[]).result == Ok(Collect(map[], lists[i]))
    ensures TableAfter(table, EncodeBlocks(lists)) == table + IndexedAll(lists)
  {
    hide AllFit, DecodeBlock, EncodeHeaders, Collect;
    forall i | 0 <= i < |lists|
      ensures DecodeBlock(EncodeBlocks(lists)[i], map[]).result == Ok(Collect(map[], lists[i]))
    {
      BlockRoundTrip(lists[i], map[]);
    }
    SessionTable(table, lists);
  }

  lemma {:induction false} SessionTable(table: seq<HeaderField>, lists: seq<seq<Header>>)
    requires forall i :: 0 <= i < |lists| ==> |EncodeHeaders(lists[i])| <= MAX_LEN
    requires forall i :: 0 <= i < |lists| ==> AllFit(lists[i])
    ensures TableAfter(table, EncodeBlocks(lists)) == table + IndexedAll(lists)
    decreases |lists|
  {
    hide AllFit, DecodeBlock, EncodeHeaders, EncodeBlocks, Indexed, Collect;
    EncodeBlocksTail(lists);
    if lists != [] {
      BlockRoundTrip(lists[0], map[]);
      SessionTable(table + Indexed(lists[0]), lists[1..]);
      assert table + Indexed(lists[0]) + IndexedAll(lists[1..]) == table + IndexedAll(lists);
    } else {
      assert table + [] == table;
    }
  }

  lemma EncodeBlocksTail(lists: seq<seq<Header>>)
    ensures |EncodeBlocks(lists)| == |lists|
    ensures lists != [] ==> EncodeBlocks(lists)[0] == EncodeHeaders(lists[0])
                            && EncodeBlocks(lists)[1..] == EncodeBlocks(lists[1..])
  {
  }
}
