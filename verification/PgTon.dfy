/** The address and hash types of the database extension: printing, parsing and ordering. */
module PgTon {

  newtype Byte = b: int | 0 <= b < 256

  /** An address holds the bytes as they were allocated even where the workchain is one of the two markers. */
  datatype TonAddr = TonAddr(workchain: int, addr: seq<Byte>)

  const ADDR_NONE := 123456
  const ADDR_EXTERN := 123457

  const INT32_MAX := 0x7fff_ffff

  predicate IsInt32(n: int)
  {
    -INT32_MAX - 1 <= n <= INT32_MAX
  }

  predicate IsAddr(x: TonAddr)
  {
    IsInt32(x.workchain) && |x.addr| == 32
  }

  predicate IsMarker(workchain: int)
  {
    workchain == ADDR_NONE || workchain == ADDR_EXTERN
  }

  // ----- ordering -----

  /** Byte by byte, as unsigned numbers. */
  function MemCmp(a: seq<Byte>, b: seq<Byte>): (r: int)
    requires |a| == |b|
    ensures r == -1 || r == 0 || r == 1
  {
    if a == [] then 0
    else if a[0] < b[0] then -1
    else if a[0] > b[0] then 1
    else MemCmp(a[1..], b[1..])
  }

  function Compare(a: TonAddr, b: TonAddr): (r: int)
    requires |a.addr| == |b.addr|
  {
    if a.workchain < b.workchain then -1
    else if a.workchain > b.workchain then 1
    else if IsMarker(a.workchain) then 0
    else MemCmp(a.addr, b.addr)
  }

  lemma {:induction false} MemCmpEqual(a: seq<Byte>, b: seq<Byte>)
    requires |a| == |b|
    ensures MemCmp(a, b) == 0 <==> a == b
  {
    if a != [] {
      MemCmpEqual(a[1..], b[1..]);
      assert a == [a[0]] + a[1..] && b == [b[0]] + b[1..];
    }
  }

  lemma {:induction false} MemCmpFlips(a: seq<Byte>, b: seq<Byte>)
    requires |a| == |b|
    ensures MemCmp(b, a) == -MemCmp(a, b)
  {
    if a != [] { MemCmpFlips(a[1..], b[1..]); }
  }

  lemma {:induction false} MemCmpChains(a: seq<Byte>, b: seq<Byte>, c: seq<Byte>)
    requires |a| == |b| == |c| && MemCmp(a, b) <= 0 && MemCmp(b, c) <= 0
    ensures MemCmp(a, c) <= 0
  {
    if a != [] && a[0] == b[0] == c[0] { MemCmpChains(a[1..], b[1..], c[1..]); }
  }

  /** The bytes agree up to a position, where the first ones have the smaller byte. */
  ghost predicate BytesBelow(a: seq<Byte>, b: seq<Byte>)
    requires |a| == |b|
  {
    exists k :: 0 <= k < |a| && a[..k] == b[..k] && a[k] < b[k]
  }

  lemma {:induction false} MemCmpBelow(a: seq<Byte>, b: seq<Byte>)
    requires |a| == |b|
    ensures MemCmp(a, b) == -1 <==> BytesBelow(a, b)
  {
    if a != [] {
      MemCmpBelow(a[1..], b[1..]);
      if a[0] == b[0] && BytesBelow(a[1..], b[1..]) {
        var k :| 0 <= k < |a[1..]| && a[1..][..k] == b[1..][..k] && a[1..][k] < b[1..][k];
        assert a[..k + 1] == [a[0]] + a[1..][..k] && b[..k + 1] == [b[0]] + b[1..][..k];
      }
      if k :| 0 < k < |a| && a[..k] == b[..k] && a[k] < b[k] {
        assert a[0] == a[..k][0] == b[0];
        assert a[1..][..k - 1] == a[..k][1..] && b[1..][..k - 1] == b[..k][1..];
      }
      if a[0] < b[0] { assert a[..0] == b[..0]; }
    }
  }

  /** Lower means a smaller workchain, or the same one that is no marker and smaller bytes. */
  lemma {:induction false} CompareExactly(a: TonAddr, b: TonAddr)
    requires |a.addr| == |b.addr|
    ensures Compare(a, b) in {-1, 0, 1}
    ensures Compare(a, b) == -1 <==>
      || a.workchain < b.workchain
      || (a.workchain == b.workchain && a.workchain != 123456 && a.workchain != 123457 && BytesBelow(a.addr, b.addr))
    ensures Compare(a, b) == 0 <==>
      a.workchain == b.workchain && (a.workchain == 123456 || a.workchain == 123457 || a.addr == b.addr)
  {
    MemCmpBelow(a.addr, b.addr);
    MemCmpEqual(a.addr, b.addr);
  }

  /** The comparison is a total preorder: reflexive, flipped by swapping, and transitive. */
  lemma {:induction false} CompareIsPreorder(a: TonAddr, b: TonAddr, c: TonAddr)
    requires |a.addr| == |b.addr| == |c.addr|
    ensures Compare(a, a) == 0
    ensures Compare(b, a) == -Compare(a, b)
    ensures Compare(a, b) <= 0 && Compare(b, c) <= 0 ==> Compare(a, c) <= 0
  {
    MemCmpEqual(a.addr, a.addr);
    MemCmpFlips(a.addr, b.addr);
    if MemCmp(a.addr, b.addr) <= 0 && MemCmp(b.addr, c.addr) <= 0 { MemCmpChains(a.addr, b.addr, c.addr); }
  }

  // ----- text of numbers -----

  function Digit(d: int): (c: char)
    requires 0 <= d < 10
  {
    (d + '0' as int) as char
  }

  predicate IsDigit(c: char)
  {
    '0' <= c <= '9'
  }

  function Natural(n: nat): (s: string)
    ensures |s| > 0 && forall i :: 0 <= i < |s| ==> IsDigit(s[i])
  {
    if n < 10 then [Digit(n)] else Natural(n / 10) + [Digit(n % 10)]
  }

  /** As `%d` prints it. */
  function Decimal(n: int): (s: string)
  {
    if n < 0 then "-" + Natural(-n) else Natural(n)
  }

  /** The value of a run of digits. */
  function ValueOf(s: string): (n: nat)
    requires forall i :: 0 <= i < |s| ==> IsDigit(s[i])
  {
    if s == [] then 0
    else
      assert IsDigit(s[|s| - 1]);
      10 * ValueOf(s[..|s| - 1]) + (s[|s| - 1] as int - '0' as int)
  }

  lemma {:induction false} NaturalValue(n: nat)
    ensures ValueOf(Natural(n)) == n
  {
    if n >= 10 {
      var s := Natural(n / 10);
      NaturalValue(n / 10);
      assert Natural(n)[..|s|] == s;
    }
  }

  // ----- text of bytes -----

  function HexChar(d: int): (c: char)
    requires 0 <= d < 16
  {
    if d < 10 then Digit(d) else (d - 10 + 'a' as int) as char
  }

  function ToUpper(c: char): (r: char)
  {
    if 'a' <= c <= 'z' then (c as int + 'A' as int - 'a' as int) as char else c
  }

  function Upper(s: string): (r: string)
    ensures |r| == |s| && forall i :: 0 <= i < |s| ==> r[i] == ToUpper(s[i])
  {
    seq(|s|, i requires 0 <= i < |s| => ToUpper(s[i]))
  }

  function HexEncode(bytes: seq<Byte>): (s: string)
    ensures |s| == 2 * |bytes|
  {
    if bytes == [] then []
    else [HexChar(bytes[0] as int / 16), HexChar(bytes[0] as int % 16)] + HexEncode(bytes[1..])
  }

  datatype Decoded = Bad | Good(bytes: seq<Byte>)

  function HexValue(c: char): (d: int)
    ensures -1 <= d < 16
  {
    if '0' <= c <= '9' then c as int - '0' as int
    else if 'a' <= c <= 'f' then c as int - 'a' as int + 10
    else if 'A' <= c <= 'F' then c as int - 'A' as int + 10
    else -1
  }

  /** Both cases of letters are accepted. */
  function HexDecode(s: string): (r: Decoded)
    ensures r.Good? ==> 2 * |r.bytes| == |s|
  {
    if s == [] then Good([])
    else if |s| == 1 || HexValue(s[0]) < 0 || HexValue(s[1]) < 0 then Bad
    else
      var rest := HexDecode(s[2..]);
      if rest.Bad? then Bad else Good([(16 * HexValue(s[0]) + HexValue(s[1])) as Byte] + rest.bytes)
  }

  lemma {:induction false} HexUpperValue(d: int)
    requires 0 <= d < 16
    ensures HexValue(ToUpper(HexChar(d))) == d
  {
  }

  lemma {:induction false} HexRoundTrip(bytes: seq<Byte>)
    ensures HexDecode(Upper(HexEncode(bytes))) == Good(bytes)
  {
    var s := Upper(HexEncode(bytes));
    if bytes == [] {
      assert s == [];
    } else {
      HexRoundTrip(bytes[1..]);
      HexUpperValue(bytes[0] as int / 16);
      HexUpperValue(bytes[0] as int % 16);
      assert s[2..] == Upper(HexEncode(bytes[1..]));
    }
  }

  // ----- addresses -----

  function Text(x: TonAddr): (s: string)
  {
    Decimal(x.workchain) + ":" + HexEncode(x.addr)
  }

  function Print(x: TonAddr): (s: string)
  {
    if x.workchain == ADDR_NONE then "addr_none"
    else if x.workchain == ADDR_EXTERN then "addr_extern"
    else Upper(Text(x))
  }

  /** The buffer is upper-cased in place. */
  method TonAddrOut(x: TonAddr) returns (s: string)
    ensures s == Print(x)
  {
    if x.workchain == ADDR_NONE { return "addr_none"; }
    if x.workchain == ADDR_EXTERN { return "addr_extern"; }
    var text := Text(x);
    var buffer := new char[|text|](i requires 0 <= i < |text| => text[i]);
    for i := 0 to buffer.Length
      invariant forall k :: 0 <= k < i ==> buffer[k] == ToUpper(text[k])
      invariant forall k :: i <= k < buffer.Length ==> buffer[k] == text[k]
    {
      if 'a' <= buffer[i] <= 'z' { buffer[i] := (buffer[i] as int + 'A' as int - 'a' as int) as char; }
    }
    s := buffer[..];
  }

  predicate IsSpace(c: char)
  {
    c == ' ' || '\t' <= c <= '\r'
  }

  function SpacesEnd(s: string, i: nat): (r: nat)
    requires i <= |s|
    ensures i <= r <= |s|
    decreases |s| - i
  {
    if i < |s| && IsSpace(s[i]) then SpacesEnd(s, i + 1) else i
  }

  function DigitsEnd(s: string, i: nat): (r: nat)
    requires i <= |s|
    ensures i <= r <= |s| && forall k :: i <= k < r ==> IsDigit(s[k])
    decreases |s| - i
  {
    if i < |s| && IsDigit(s[i]) then DigitsEnd(s, i + 1) else i
  }

  /** What scanning for a number and a colon finds. Without the colon the number is still found, but no position. */
  datatype Scanned = NoNumber | TooLarge | NoColon | Found(value: int, pos: nat)

  function ScanWorkchain(s: string): (r: Scanned)
    ensures r.Found? ==> r.pos <= |s|
  {
    var i := SpacesEnd(s, 0);
    var j := if i < |s| && (s[i] == '-' || s[i] == '+') then i + 1 else i;
    var k := DigitsEnd(s, j);
    if k == j then NoNumber
    else
      var digits := s[j..k];
      assert forall m :: 0 <= m < |digits| ==> digits[m] == s[j + m];
      var value: int := if s[i] == '-' then -(ValueOf(digits) as int) else ValueOf(digits);
      if !IsInt32(value) then TooLarge
      else if k < |s| && s[k] == ':' then Found(value, k + 1)
      else NoColon
  }

  /** `Unspecified` is where the C code reads a number that does not fit, or a position that was never set. */
  datatype Outcome = Null | BadWorkchain | BadLength | BadHex | Unspecified | Parsed(x: TonAddr)

  /** `fill` is what the freshly allocated address holds. */
  function Parse(s: string, fill: seq<Byte>): (r: Outcome)
  {
    if s == [] then Null
    else if "addr_none" <= s then Parsed(TonAddr(ADDR_NONE, fill))
    else if "addr_extern" <= s then Parsed(TonAddr(ADDR_EXTERN, fill))
    else
      match ScanWorkchain(s)
      case NoNumber => BadWorkchain
      case TooLarge => Unspecified
      case NoColon => Unspecified
      case Found(workchain, pos) =>
        if |s| - pos != 64 then BadLength
        else
          var d := HexDecode(s[pos..]);
          if d.Bad? then BadHex else Parsed(TonAddr(workchain, d.bytes))
  }

  lemma {:induction false} DigitsEndAt(s: string, i: nat, n: nat)
    requires i + n < |s| && (forall k :: i <= k < i + n ==> IsDigit(s[k])) && !IsDigit(s[i + n])
    ensures DigitsEnd(s, i) == i + n
    decreases n
  {
    if n > 0 { DigitsEndAt(s, i + 1, n - 1); }
  }

  lemma {:induction false} DigitsAt(s: string, digits: string, j: nat)
    requires j + |digits| < |s| && s[j..j + |digits|] == digits && s[j + |digits|] == ':'
    requires forall i :: 0 <= i < |digits| ==> IsDigit(digits[i])
    ensures DigitsEnd(s, j) == j + |digits|
  {
    forall k | j <= k < j + |digits| ensures IsDigit(s[k]) {
      assert s[j..j + |digits|][k - j] == s[k];
    }
    DigitsEndAt(s, j, |digits|);
  }

  function Signed(n: nat, negative: bool): (r: int)
  {
    if negative then -(n as int) else n
  }

  lemma {:induction false} ScanDigits(s: string, n: nat, j: nat, negative: bool)
    requires var digits := Natural(n); j + |digits| < |s| && s[j..j + |digits|] == digits && s[j + |digits|] == ':'
    requires j == (if negative then 1 else 0) && (negative <==> s[0] == '-') && IsInt32(Signed(n, negative))
    ensures ScanWorkchain(s) == Found(Signed(n, negative), j + |Natural(n)| + 1)
  {
    var digits := Natural(n);
    DigitsAt(s, digits, j);
    NaturalValue(n);
    assert !negative ==> s[0] == s[j..j + |digits|][0] && IsDigit(digits[0]);
    assert SpacesEnd(s, 0) == 0;
  }

  lemma {:induction false} ScanPrinted(n: int, rest: string)
    requires IsInt32(n)
    ensures ScanWorkchain(Decimal(n) + ":" + rest) == Found(n, |Decimal(n)| + 1)
  {
    var s, m := Decimal(n) + ":" + rest, if n < 0 then -n else n;
    var digits, j := Natural(m), if n < 0 then 1 else 0;
    assert s[j..j + |digits|] == digits;
    assert IsDigit(digits[0]);
    ScanDigits(s, m, j, n < 0);
  }

  lemma {:induction false} UpperText(x: TonAddr)
    ensures Upper(Text(x)) == Decimal(x.workchain) + ":" + Upper(HexEncode(x.addr))
  {
    var d := Decimal(x.workchain);
    forall i | 0 <= i < |d| ensures ToUpper(d[i]) == d[i] {
      var m := if x.workchain < 0 then -x.workchain else x.workchain;
      assert x.workchain < 0 && i > 0 ==> IsDigit(Natural(m)[i - 1]);
    }
  }

  lemma {:induction false} FirstIsNotLetter(n: int)
    ensures |Decimal(n)| > 0 && Decimal(n)[0] != 'a'
  {
    var m := if n < 0 then -n else n;
    assert IsDigit(Natural(m)[0]);
  }

  /** An address that is not a marker is read back as it was printed. */
  lemma {:induction false} PrintedParses(x: TonAddr, fill: seq<Byte>)
    requires IsAddr(x) && !IsMarker(x.workchain)
    ensures Parse(Print(x), fill) == Parsed(x)
  {
    var s, hex := Print(x), Upper(HexEncode(x.addr));
    UpperText(x);
    FirstIsNotLetter(x.workchain);
    assert s[0] == Decimal(x.workchain)[0];
    ScanPrinted(x.workchain, hex);
    HexRoundTrip(x.addr);
    assert s[|Decimal(x.workchain)| + 1..] == hex;
  }

  /** Reading back a printed address gives an equal one, whatever the allocated bytes held. */
  lemma {:induction false} AddressRoundTrip(x: TonAddr, fill: seq<Byte>)
    requires IsAddr(x) && |fill| == 32
    ensures var r := Parse(Print(x), fill); r.Parsed? && IsAddr(r.x) && Compare(x, r.x) == 0
  {
    if !IsMarker(x.workchain) {
      PrintedParses(x, fill);
      MemCmpEqual(x.addr, x.addr);
    } else {
      assert "addr_none"[5] != "addr_extern"[5];
    }
  }

  /** Two addresses compare equal exactly if they print to the same text. */
  lemma {:induction false} EqualIffSameText(a: TonAddr, b: TonAddr)
    requires IsAddr(a) && IsAddr(b)
    ensures Compare(a, b) == 0 <==> Print(a) == Print(b)
  {
    MemCmpEqual(a.addr, b.addr);
    if !IsMarker(a.workchain) {
      PrintedParses(a, a.addr);
      UpperText(a);
      FirstIsNotLetter(a.workchain);
    }
    if !IsMarker(b.workchain) {
      PrintedParses(b, a.addr);
      UpperText(b);
      FirstIsNotLetter(b.workchain);
    }
  }

  // ----- hashes -----

  function Char64(v: int): (c: char)
    requires 0 <= v < 64
  {
    if v < 26 then (v + 'A' as int) as char
    else if v < 52 then (v - 26 + 'a' as int) as char
    else if v < 62 then (v - 52 + '0' as int) as char
    else if v == 62 then '+'
    else '/'
  }

  function Value64(c: char): (v: int)
    ensures -1 <= v < 64
  {
    if 'A' <= c <= 'Z' then c as int - 'A' as int
    else if 'a' <= c <= 'z' then c as int - 'a' as int + 26
    else if '0' <= c <= '9' then c as int - '0' as int + 52
    else if c == '+' then 62
    else if c == '/' then 63
    else -1
  }

  lemma {:induction false} Char64Value(v: int)
    requires 0 <= v < 64
    ensures Value64(Char64(v)) == v && Char64(v) != '='
  {
  }

  /** Section 4 of RFC 4648: three bytes to four characters, the last group padded. */
  function Encode64(bytes: seq<Byte>): (s: string)
  {
    if bytes == [] then []
    else if |bytes| == 1 then
      var a := bytes[0] as int;
      [Char64(a / 4), Char64(a % 4 * 16), '=', '=']
    else if |bytes| == 2 then
      var a, b := bytes[0] as int, bytes[1] as int;
      [Char64(a / 4), Char64(a % 4 * 16 + b / 16), Char64(b % 16 * 4), '=']
    else
      var a, b, c := bytes[0] as int, bytes[1] as int, bytes[2] as int;
      [Char64(a / 4), Char64(a % 4 * 16 + b / 16), Char64(b % 16 * 4 + c / 64), Char64(c % 64)] + Encode64(bytes[3..])
  }

  /** One group of four characters, which may be padded if it is the last. */
  function Decode64(s: string): (r: Decoded)
  {
    if s == [] then Good([])
    else if |s| < 4 || Value64(s[0]) < 0 || Value64(s[1]) < 0 then Bad
    else
      var p, q, u, v := Value64(s[0]), Value64(s[1]), Value64(s[2]), Value64(s[3]);
      var a := (p * 4 + q / 16) as Byte;
      if s[2..] == "==" then Good([a])
      else if u < 0 then Bad
      else
        var b := (q % 16 * 16 + u / 4) as Byte;
        if s[3..] == "=" then Good([a, b])
        else if v < 0 then Bad
        else
          var rest := Decode64(s[4..]);
          if rest.Bad? then Bad else Good([a, b, (u % 4 * 64 + v) as Byte] + rest.bytes)
  }

  lemma {:induction false} EncodedLength(bytes: seq<Byte>)
    ensures |Encode64(bytes)| == (|bytes| + 2) / 3 * 4
  {
    if |bytes| >= 3 {
      EncodedLength(bytes[3..]);
      OneGroupMore(|bytes|);
    }
  }

  /** Three bytes are one group more. */
  lemma {:induction false} OneGroupMore(n: nat)
    requires n >= 3
    ensures (n + 2) / 3 == (n - 3 + 2) / 3 + 1
  {
  }

  /** And so are four characters. */
  lemma {:induction false} OneGroupLess(n: nat)
    requires n >= 4
    ensures n / 4 == (n - 4) / 4 + 1 && n % 4 == (n - 4) % 4
  {
  }

  lemma {:induction false} Base64RoundTrip(bytes: seq<Byte>)
    ensures Decode64(Encode64(bytes)) == Good(bytes)
  {
    var s := Encode64(bytes);
    if |bytes| == 1 {
      assert bytes == [bytes[0]];
      OneByte(bytes[0], s);
    } else if |bytes| == 2 {
      assert bytes == [bytes[0], bytes[1]];
      TwoBytes(bytes[0], bytes[1], s);
    } else if |bytes| >= 3 {
      Base64RoundTrip(bytes[3..]);
      FirstGroup(bytes, s, bytes[3..]);
    }
  }

  lemma {:induction false} FirstGroup(bytes: seq<Byte>, s: string, rest: seq<Byte>)
    requires |bytes| >= 3 && s == Encode64(bytes) && rest == bytes[3..] && Decode64(Encode64(rest)) == Good(rest)
    ensures Decode64(s) == Good(bytes)
  {
    ThreeBytes(bytes[0], bytes[1], bytes[2], s, Encode64(rest));
    assert bytes == [bytes[0], bytes[1], bytes[2]] + rest;
  }

  lemma {:induction false} OneByte(a: Byte, s: string)
    requires s == Encode64([a])
    ensures Decode64(s) == Good([a])
  {
    Char64Value(a as int / 4);
    Char64Value(a as int % 4 * 16);
    assert s[2..] == "==";
  }

  lemma {:induction false} TwoBytes(a: Byte, b: Byte, s: string)
    requires s == Encode64([a, b])
    ensures Decode64(s) == Good([a, b])
  {
    var p, q, u := a as int / 4, a as int % 4 * 16 + b as int / 16, b as int % 16 * 4;
    Regroup(a as int, b as int, 0, p, q, u, 0);
    Char64Value(p);
    Char64Value(q);
    Char64Value(u);
    assert s == [Char64(p), Char64(q), Char64(u), '='];
    assert s[2] != '=' && s[3..] == "=";
  }

  /** Four six-bit values hold three bytes. */
  lemma {:induction false} Regroup(a: int, b: int, c: int, p: int, q: int, u: int, v: int)
    requires 0 <= a < 256 && 0 <= b < 256 && 0 <= c < 256
    requires p == a / 4 && q == a % 4 * 16 + b / 16 && u == b % 16 * 4 + c / 64 && v == c % 64
    ensures 0 <= p < 64 && 0 <= q < 64 && 0 <= u < 64 && 0 <= v < 64
    ensures p * 4 + q / 16 == a && q % 16 * 16 + u / 4 == b && u % 4 * 64 + v == c
  {
    assert q / 16 == a % 4 && q % 16 == b / 16;
    assert u / 4 == b % 16 && u % 4 == c / 64;
  }

  lemma {:induction false} ThreeBytes(a: Byte, b: Byte, c: Byte, s: string, rest: string)
    requires s == [Char64(a as int / 4), Char64(a as int % 4 * 16 + b as int / 16),
                   Char64(b as int % 16 * 4 + c as int / 64), Char64(c as int % 64)] + rest
    ensures Decode64(s) == if Decode64(rest).Bad? then Bad else Good([a, b, c] + Decode64(rest).bytes)
  {
    var p, q, u, v := a as int / 4, a as int % 4 * 16 + b as int / 16, b as int % 16 * 4 + c as int / 64, c as int % 64;
    Regroup(a as int, b as int, c as int, p, q, u, v);
    Char64Value(p);
    Char64Value(q);
    Char64Value(u);
    Char64Value(v);
    assert s[4..] == rest && s[2] != '=' && s[3] != '=';
  }

  datatype HashOutcome = NullHash | BadHashLength | BadBase64 | ParsedHash(data: seq<Byte>)

  /** Fewer than 32 bytes leave the rest of the allocated hash as it was; more do not fit. */
  function ParseHash(s: string, fill: seq<Byte>): (r: HashOutcome)
    requires |fill| == 32
  {
    if s == [] then NullHash
    else if |s| != 44 then BadHashLength
    else
      var d := Decode64(s);
      if d.Bad? || |d.bytes| > 32 then BadBase64 else ParsedHash(d.bytes + fill[|d.bytes|..])
  }

  /** A hash is read back as it was printed. */
  lemma {:induction false} HashRoundTrip(data: seq<Byte>, fill: seq<Byte>)
    requires |data| == 32 && |fill| == 32
    ensures |Encode64(data)| == 44 && ParseHash(Encode64(data), fill) == ParsedHash(data)
  {
    var s := Encode64(data);
    EncodedLength(data);
    Base64RoundTrip(data);
    WholeHash(s, data, fill);
  }

  lemma {:induction false} WholeHash(s: string, data: seq<Byte>, fill: seq<Byte>)
    requires |s| == 44 && |data| == 32 && |fill| == 32 && Decode64(s) == Good(data)
    ensures ParseHash(s, fill) == ParsedHash(data)
  {
    assert data + fill[32..] == data;
  }

  /** Two hashes compare equal exactly if they print to the same text. */
  lemma {:induction false} HashEqualIffSameText(a: seq<Byte>, b: seq<Byte>)
    requires |a| == |b|
    ensures MemCmp(a, b) == 0 <==> Encode64(a) == Encode64(b)
  {
    MemCmpEqual(a, b);
    Base64RoundTrip(a);
    Base64RoundTrip(b);
  }

  /** The number of padding characters that a text ends with. */
  function Padding(s: string): (n: nat)
  {
    if |s| < 2 || s[|s| - 1] != '=' then 0 else if s[|s| - 2] != '=' then 1 else 2
  }

  /** A text that decodes has three bytes for four characters, less one for each padding character. */
  lemma {:induction false} DecodedLength(s: string)
    requires Decode64(s).Good?
    ensures |s| % 4 == 0 && |Decode64(s).bytes| == |s| / 4 * 3 - Padding(s)
  {
    if s != [] {
      if s[2..] == "==" || s[3..] == "=" {
        LastGroup(s);
      } else {
        FullGroup(s, s[4..]);
        DecodedLength(s[4..]);
        OneGroupLess(|s|);
        PaddingOfRest(s);
      }
    }
  }

  /** A padded group is the last. */
  lemma {:induction false} LastGroup(s: string)
    requires Decode64(s).Good? && |s| >= 4 && (s[2..] == "==" || s[3..] == "=")
    ensures |s| == 4 && |Decode64(s).bytes| == 3 - Padding(s)
  {
    if s[2..] == "==" { assert s[2] == '=' && s[3] == '='; } else { assert s[3] == '='; }
  }

  /** A group without padding gives three bytes. */
  lemma {:induction false} FullGroup(s: string, rest: string)
    requires |s| >= 4 && rest == s[4..] && s[2..] != "==" && s[3..] != "="
    ensures Decode64(s).Good? ==> Value64(s[2]) >= 0 && Value64(s[3]) >= 0
    ensures Decode64(s).Good? ==> Decode64(rest).Good? && |Decode64(s).bytes| == 3 + |Decode64(rest).bytes|
    ensures (forall i :: 0 <= i < 4 ==> Value64(s[i]) >= 0) && Decode64(rest).Good? ==> Decode64(s).Good?
  {
  }

  lemma {:induction false} PaddingOfRest(s: string)
    requires |s| >= 4 && Value64(s[2]) >= 0 && Value64(s[3]) >= 0 && |s| % 4 == 0
    ensures Padding(s) == Padding(s[4..])
  {
    if |s| > 4 {
      var t := s[4..];
      assert |t| >= 4 && t[|t| - 1] == s[|s| - 1] && t[|t| - 2] == s[|s| - 2];
    }
  }

  /** A text of 44 characters that decodes is taken if and only if it is padded, and the hash read from it depends on
      what the allocated bytes held if and only if it is padded twice. */
  lemma {:induction false} ShortTextKeepsFill(s: string)
    requires |s| == 44 && Decode64(s).Good?
    ensures forall f: seq<Byte> | |f| == 32 :: ParseHash(s, f).ParsedHash? <==> s[43] == '='
    ensures s[43] == '=' ==>
      ((forall f: seq<Byte>, g: seq<Byte> | |f| == 32 && |g| == 32 :: ParseHash(s, f) == ParseHash(s, g))
        <==> s[42] != '=')
  {
    DecodedLength(s);
    var bytes := Decode64(s).bytes;
    if Padding(s) == 1 {
      forall f: seq<Byte> | |f| == 32 ensures ParseHash(s, f) == ParsedHash(bytes) {
        WholeHash(s, bytes, f);
      }
    } else if Padding(s) == 2 {
      FillShows(s, bytes);
    }
  }

  lemma {:induction false} FillShows(s: string, bytes: seq<Byte>)
    requires |s| == 44 && Decode64(s) == Good(bytes) && |bytes| == 31
    ensures exists f: seq<Byte>, g: seq<Byte> :: |f| == 32 && |g| == 32 && ParseHash(s, f) != ParseHash(s, g)
  {
    var f, g := seq(32, i => 0 as Byte), seq(32, i => 1 as Byte);
    assert (bytes + f[31..])[31] != (bytes + g[31..])[31];
    assert ParseHash(s, f) != ParseHash(s, g);
  }

  /** The text of any 31 bytes has 44 characters, is padded twice, and is taken, with the last byte left as it was. */
  lemma {:induction false} LastByteLeft(bytes: seq<Byte>, f: seq<Byte>)
    requires |bytes| == 31 && |f| == 32
    ensures var s := Encode64(bytes);
      |s| == 44 && s[42] == '=' && s[43] == '=' && ParseHash(s, f) == ParsedHash(bytes + [f[31]])
  {
    EncodedLength(bytes);
    Base64RoundTrip(bytes);
    DecodedLength(Encode64(bytes));
    assert f[31..] == [f[31]];
  }
}
