/** The texts of addresses and hashes, character by character. */
module PgTonText {
  import opened PgTon

  const UPPER := "0123456789ABCDEF"
  const LOWER := "0123456789abcdef"
  const CAPITALS := "ABCDEFGHIJKLMNOPQRSTUVWXYZ"
  const SMALL := "abcdefghijklmnopqrstuvwxyz"
  const REST := "0123456789+/"

  /** The characters of base64, in the order of their values. */
  const BASE64 := CAPITALS + SMALL + REST

  // ----- hexadecimal digits -----

  predicate IsHexDigit(c: char, d: int)
  {
    0 <= d < 16 && (c == UPPER[d] || c == LOWER[d])
  }

  lemma {:induction false} HexCharIs(d: int)
    requires 0 <= d < 16
    ensures ToUpper(HexChar(d)) == UPPER[d] && HexChar(d) == LOWER[d]
  {
    if d < 8 {
      assert d == 0 || d == 1 || d == 2 || d == 3 || d == 4 || d == 5 || d == 6 || d == 7;
    } else {
      assert d == 8 || d == 9 || d == 10 || d == 11 || d == 12 || d == 13 || d == 14 || d == 15;
    }
  }

  lemma {:induction false} HexValueIs(c: char, d: int)
    requires 0 <= d < 16
    ensures HexValue(c) == d <==> IsHexDigit(c, d)
  {
    HexCharIs(d);
  }

  /** The text is that of the bytes, with letters in either case. */
  ghost predicate HexReads(s: string, bytes: seq<Byte>)
  {
    && |s| == 2 * |bytes|
    && forall i :: 0 <= i < |bytes| ==>
         IsHexDigit(s[2 * i], bytes[i] as int / 16) && IsHexDigit(s[2 * i + 1], bytes[i] as int % 16)
  }

  lemma {:induction false} HexDecodes(s: string, bytes: seq<Byte>)
    ensures HexDecode(s) == Good(bytes) <==> HexReads(s, bytes)
  {
    if |s| >= 2 && bytes != [] {
      var d, rest := bytes[0] as int, bytes[1..];
      HexDecodes(s[2..], rest);
      HexValueIs(s[0], d / 16);
      HexValueIs(s[1], d % 16);
      HexHead(s, bytes);
      assert bytes == [bytes[0]] + rest;
    }
  }

  lemma {:induction false} HexHead(s: string, bytes: seq<Byte>)
    requires |s| >= 2 && bytes != []
    ensures HexReads(s, bytes) <==>
      && HexReads(s[2..], bytes[1..])
      && IsHexDigit(s[0], bytes[0] as int / 16) && IsHexDigit(s[1], bytes[0] as int % 16)
  {
    var t, rest := s[2..], bytes[1..];
    if HexReads(s, bytes) {
      forall i | 0 <= i < |rest|
        ensures IsHexDigit(t[2 * i], rest[i] as int / 16) && IsHexDigit(t[2 * i + 1], rest[i] as int % 16)
      {
        assert t[2 * i] == s[2 * (i + 1)] && t[2 * i + 1] == s[2 * (i + 1) + 1] && rest[i] == bytes[i + 1];
      }
    }
    if HexReads(t, rest) && IsHexDigit(s[0], bytes[0] as int / 16) && IsHexDigit(s[1], bytes[0] as int % 16) {
      forall i | 0 <= i < |bytes|
        ensures IsHexDigit(s[2 * i], bytes[i] as int / 16) && IsHexDigit(s[2 * i + 1], bytes[i] as int % 16)
      {
        if i > 0 {
          assert s[2 * i] == t[2 * (i - 1)] && s[2 * i + 1] == t[2 * (i - 1) + 1] && bytes[i] == rest[i - 1];
        }
      }
    }
  }

  lemma {:induction false} UpperIs(s: string, k: nat, d: int)
    requires k < |s| && IsHexDigit(Upper(s)[k], d)
    ensures Upper(s)[k] == UPPER[d]
  {
    HexCharIs(d);
  }

  /** Two upper-case digits for each byte, the higher half first. */
  lemma {:induction false} HexText(bytes: seq<Byte>, i: nat)
    requires i < |bytes|
    ensures var s := Upper(HexEncode(bytes));
      |s| == 2 * |bytes| && s[2 * i] == UPPER[bytes[i] as int / 16] && s[2 * i + 1] == UPPER[bytes[i] as int % 16]
  {
    var s := HexEncode(bytes);
    HexRoundTrip(bytes);
    HexDecodes(Upper(s), bytes);
    UpperIs(s, 2 * i, bytes[i] as int / 16);
    UpperIs(s, 2 * i + 1, bytes[i] as int % 16);
  }

  // ----- decimal numbers -----

  ghost predicate AllDigits(s: string)
  {
    forall i :: 0 <= i < |s| ==> '0' <= s[i] <= '9'
  }

  function Pow10(i: nat): (r: nat)
  {
    if i == 0 then 1 else 10 * Pow10(i - 1)
  }

  /** The number that the digits are the decimal notation of. */
  ghost function NumberOf(s: string): (r: nat)
    requires AllDigits(s)
  {
    if s == [] then 0 else (s[0] as int - '0' as int) * Pow10(|s| - 1) + NumberOf(s[1..])
  }

  lemma {:induction false} NumberConcat(s: string, c: char)
    requires AllDigits(s) && '0' <= c <= '9'
    ensures AllDigits(s + [c]) && NumberOf(s + [c]) == 10 * NumberOf(s) + (c as int - '0' as int)
  {
    if s == [] {
      assert s + [c] == [c];
      assert [c][1..] == [];
    } else {
      var t := s + [c];
      assert t[1..] == s[1..] + [c];
      NumberConcat(s[1..], c);
      Shift(s[0] as int - '0' as int, |s| - 1);
    }
  }

  lemma {:induction false} Shift(d: int, i: nat)
    ensures d * Pow10(i + 1) == 10 * (d * Pow10(i))
  {
  }

  lemma {:induction false} ValueIsNumber(s: string)
    requires AllDigits(s)
    ensures ValueOf(s) == NumberOf(s)
  {
    if s != [] {
      var n := |s| - 1;
      ValueIsNumber(s[..n]);
      NumberConcat(s[..n], s[n]);
      assert s == s[..n] + [s[n]];
    }
  }

  /** The decimal notation of a natural number, without leading zeros. */
  lemma {:induction false} NaturalText(n: nat)
    ensures var s := Natural(n); AllDigits(s) && NumberOf(s) == n && (|s| > 1 ==> s[0] != '0')
  {
    NaturalValue(n);
    ValueIsNumber(Natural(n));
    if n >= 10 {
      NaturalText(n / 10);
      if n / 10 < 10 { assert Natural(n / 10) == [Digit(n / 10)]; }
      assert Natural(n)[0] == Natural(n / 10)[0];
    }
  }

  // ----- addresses -----

  /** An address that is no marker prints as its workchain, a colon and 64 upper-case digits. */
  lemma {:induction false} AddressText(x: TonAddr) returns (number: string, hex: string)
    requires IsAddr(x) && x.workchain != 123456 && x.workchain != 123457
    ensures Print(x) == (if x.workchain < 0 then "-" else "") + number + ":" + hex
    ensures AllDigits(number) && NumberOf(number) == (if x.workchain < 0 then -x.workchain else x.workchain)
    ensures |number| > 1 ==> number[0] != '0'
    ensures |hex| == 64
    ensures forall i :: 0 <= i < 32 ==>
      hex[2 * i] == UPPER[x.addr[i] as int / 16] && hex[2 * i + 1] == UPPER[x.addr[i] as int % 16]
  {
    var n := if x.workchain < 0 then -x.workchain else x.workchain;
    number, hex := Natural(n), Upper(HexEncode(x.addr));
    UpperText(x);
    NaturalText(n);
    HexTexts(x.addr);
  }

  lemma {:induction false} HexTexts(bytes: seq<Byte>)
    ensures var s := Upper(HexEncode(bytes));
      && |s| == 2 * |bytes|
      && forall i :: 0 <= i < |bytes| ==>
           s[2 * i] == UPPER[bytes[i] as int / 16] && s[2 * i + 1] == UPPER[bytes[i] as int % 16]
  {
    forall i | 0 <= i < |bytes|
      ensures Upper(HexEncode(bytes))[2 * i] == UPPER[bytes[i] as int / 16]
      ensures Upper(HexEncode(bytes))[2 * i + 1] == UPPER[bytes[i] as int % 16]
    {
      HexText(bytes, i);
    }
  }

  /** The two markers print as words, and every text that begins so is read as the marker. */
  lemma {:induction false} MarkerText(x: TonAddr, s: string, fill: seq<Byte>)
    ensures x.workchain == 123456 ==> Print(x) == "addr_none"
    ensures x.workchain == 123457 ==> Print(x) == "addr_extern"
    ensures "addr_none" <= s ==> Parse(s, fill) == Parsed(TonAddr(123456, fill))
    ensures "addr_extern" <= s ==> Parse(s, fill) == Parsed(TonAddr(123457, fill))
    ensures Parse(s, fill) == Null <==> s == ""
  {
    assert "addr_none"[5] != "addr_extern"[5];
  }

  ghost predicate AllSpaces(s: string)
  {
    forall i :: 0 <= i < |s| ==> s[i] == ' ' || 9 <= s[i] as int <= 13
  }

  /** White space, a sign or none, a number that fits 32 bits, a colon, and 64 digits in either case. */
  ghost predicate IsText(spaces: string, sign: string, digits: string, hex: string, x: TonAddr)
  {
    && AllSpaces(spaces) && (sign == "" || sign == "+" || sign == "-") && digits != "" && AllDigits(digits)
    && x.workchain == (if sign == "-" then -(NumberOf(digits) as int) else NumberOf(digits))
    && -0x8000_0000 <= x.workchain < 0x8000_0000
    && |x.addr| == 32 && HexReads(hex, x.addr)
  }

  lemma {:induction false} SpacesEndAt(s: string, spaces: string, i: nat)
    requires i <= |spaces| < |s| && s[..|spaces|] == spaces && AllSpaces(spaces) && !IsSpace(s[|spaces|])
    ensures SpacesEnd(s, i) == |spaces|
    decreases |spaces| - i
  {
    if i < |spaces| {
      assert s[i] == s[..|spaces|][i];
      SpacesEndAt(s, spaces, i + 1);
    }
  }

  lemma {:induction false} SpacesBefore(s: string, i: nat)
    requires i <= |s|
    ensures AllSpaces(s[i..SpacesEnd(s, i)])
    decreases |s| - i
  {
    if i < |s| && IsSpace(s[i]) {
      SpacesBefore(s, i + 1);
      assert s[i..SpacesEnd(s, i)] == [s[i]] + s[i + 1..SpacesEnd(s, i)];
    }
  }

  /** A text of this form is read. */
  lemma {:induction false} TextParses(s: string, spaces: string, sign: string, digits: string, hex: string, x: TonAddr,
                                      fill: seq<Byte>)
    requires s == spaces + sign + digits + ":" + hex && IsText(spaces, sign, digits, hex, x)
    requires !("addr_none" <= s) && !("addr_extern" <= s)
    ensures Parse(s, fill) == Parsed(x)
  {
    TextScans(s, spaces, sign, digits, hex);
    var pos := |spaces| + |sign| + |digits| + 1;
    assert s[pos..] == hex;
    ValueIsNumber(digits);
    HexDecodes(hex, x.addr);
  }

  lemma {:induction false} TextScans(s: string, spaces: string, sign: string, digits: string, rest: string)
    requires s == spaces + sign + digits + ":" + rest && AllSpaces(spaces)
    requires (sign == "" || sign == "+" || sign == "-") && digits != "" && AllDigits(digits)
    ensures var value: int := if sign == "-" then -(ValueOf(digits) as int) else ValueOf(digits);
      ScanWorkchain(s) == if IsInt32(value) then Found(value, |spaces| + |sign| + |digits| + 1) else TooLarge
  {
    var i, j := |spaces|, |spaces| + |sign|;
    TextPieces(s, spaces, sign, digits, rest);
    TextEnds(s, spaces, sign, digits, rest);
    ScanFrom(s, i, j, j + |digits|);
  }

  lemma {:induction false} TextEnds(s: string, spaces: string, sign: string, digits: string, rest: string)
    requires s == spaces + sign + digits + ":" + rest && AllSpaces(spaces)
    requires (sign == "" || sign == "+" || sign == "-") && digits != "" && AllDigits(digits)
    ensures SpacesEnd(s, 0) == |spaces| && DigitsEnd(s, |spaces| + |sign|) == |spaces| + |sign| + |digits|
  {
    TextPieces(s, spaces, sign, digits, rest);
    SpacesEndAt(s, spaces, 0);
    DigitsAt(s, digits, |spaces| + |sign|);
  }

  lemma {:induction false} TextPieces(s: string, spaces: string, sign: string, digits: string, rest: string)
    requires s == spaces + sign + digits + ":" + rest && digits != "" && AllDigits(digits)
    requires sign == "" || sign == "+" || sign == "-"
    ensures var i, j := |spaces|, |spaces| + |sign|; var k := j + |digits|;
      && k < |s| && s[..i] == spaces && s[i..j] == sign && s[j..k] == digits && s[k] == ':' && s[k + 1..] == rest
      && !IsSpace(s[i]) && (s[i] == '-' <==> sign == "-") && (s[i] == '+' <==> sign == "+")
  {
    var i, j := |spaces|, |spaces| + |sign|;
    assert s[i] == (if sign == "" then digits[0] else sign[0]);
  }

  /** The scan, from the places where its parts end. */
  lemma {:induction false} ScanFrom(s: string, i: nat, j: nat, k: nat)
    requires i < |s| && i == SpacesEnd(s, 0) && j == (if s[i] == '-' || s[i] == '+' then i + 1 else i)
    requires j < k < |s| && k == DigitsEnd(s, j) && s[k] == ':' && AllDigits(s[j..k])
    ensures var value: int := if s[i] == '-' then -(ValueOf(s[j..k]) as int) else ValueOf(s[j..k]);
      ScanWorkchain(s) == if IsInt32(value) then Found(value, k + 1) else TooLarge
  {
  }

  /** Where the parts of a text that is read end. */
  lemma {:induction false} ScannedParts(s: string) returns (i: nat, j: nat, k: nat)
    requires ScanWorkchain(s).Found?
    ensures i < |s| && i == SpacesEnd(s, 0) && j == (if s[i] == '-' || s[i] == '+' then i + 1 else i)
    ensures j < k < |s| && k == DigitsEnd(s, j) && s[k] == ':' && AllDigits(s[j..k])
    ensures ScanWorkchain(s).pos == k + 1 && IsInt32(ScanWorkchain(s).value)
    ensures ScanWorkchain(s).value == if s[i] == '-' then -(ValueOf(s[j..k]) as int) else ValueOf(s[j..k])
  {
    i := SpacesEnd(s, 0);
    j := if i < |s| && (s[i] == '-' || s[i] == '+') then i + 1 else i;
    k := DigitsEnd(s, j);
  }

  /** What is read has this form. */
  lemma {:induction false} ParsedHasText(s: string, fill: seq<Byte>, x: TonAddr)
    returns (spaces: string, sign: string, digits: string, hex: string)
    requires Parse(s, fill) == Parsed(x) && !("addr_none" <= s) && !("addr_extern" <= s)
    ensures s == spaces + sign + digits + ":" + hex && IsText(spaces, sign, digits, hex, x)
  {
    ParsedFound(s, fill, x);
    var i, j, k := ScannedParts(s);
    spaces, sign, digits, hex := s[..i], s[i..j], s[j..k], s[k + 1..];
    PartsMake(s, i, j, k);
    SpacesBefore(s, 0);
    assert s[0..i] == s[..i];
    ValueIsNumber(digits);
    HexDecodes(hex, x.addr);
  }

  lemma {:induction false} ParsedFound(s: string, fill: seq<Byte>, x: TonAddr)
    requires Parse(s, fill) == Parsed(x) && !("addr_none" <= s) && !("addr_extern" <= s)
    ensures ScanWorkchain(s).Found? && ScanWorkchain(s).value == x.workchain
    ensures var hex := s[ScanWorkchain(s).pos..]; |hex| == 64 && HexDecode(hex) == Good(x.addr)
  {
  }

  lemma {:induction false} PartsMake(s: string, i: nat, j: nat, k: nat)
    requires i <= j < k < |s| && s[k] == ':' && j == (if s[i] == '-' || s[i] == '+' then i + 1 else i)
    ensures s == s[..i] + s[i..j] + s[j..k] + ":" + s[k + 1..]
    ensures s[i..j] == if s[i] == '-' then "-" else if s[i] == '+' then "+" else ""
  {
  }

  /** The text of an address is read in either case of letters, and after white space and a plus sign too. */
  lemma {:induction false} ParsedExactly(s: string, fill: seq<Byte>, x: TonAddr)
    requires !("addr_none" <= s) && !("addr_extern" <= s)
    ensures Parse(s, fill) == Parsed(x) <==> exists spaces, sign, digits, hex ::
      s == spaces + sign + digits + ":" + hex && IsText(spaces, sign, digits, hex, x)
  {
    if Parse(s, fill) == Parsed(x) {
      var spaces, sign, digits, hex := ParsedHasText(s, fill, x);
    }
    if spaces, sign, digits, hex :| s == spaces + sign + digits + ":" + hex && IsText(spaces, sign, digits, hex, x) {
      TextParses(s, spaces, sign, digits, hex, x, fill);
    }
  }

  // ----- hashes -----

  lemma {:induction false} CapitalIs(v: int)
    requires 0 <= v < 26
    ensures CAPITALS[v] as int == v + 'A' as int
  {
    if v < 9 {
      assert v == 0 || v == 1 || v == 2 || v == 3 || v == 4 || v == 5 || v == 6 || v == 7 || v == 8;
    } else if v < 18 {
      assert v == 9 || v == 10 || v == 11 || v == 12 || v == 13 || v == 14 || v == 15 || v == 16 || v == 17;
    } else {
      assert v == 18 || v == 19 || v == 20 || v == 21 || v == 22 || v == 23 || v == 24 || v == 25;
    }
  }

  lemma {:induction false} SmallIs(v: int)
    requires 0 <= v < 26
    ensures SMALL[v] as int == v + 'a' as int
  {
    if v < 9 {
      assert v == 0 || v == 1 || v == 2 || v == 3 || v == 4 || v == 5 || v == 6 || v == 7 || v == 8;
    } else if v < 18 {
      assert v == 9 || v == 10 || v == 11 || v == 12 || v == 13 || v == 14 || v == 15 || v == 16 || v == 17;
    } else {
      assert v == 18 || v == 19 || v == 20 || v == 21 || v == 22 || v == 23 || v == 24 || v == 25;
    }
  }

  lemma {:induction false} RestIs(v: int)
    requires 0 <= v < 12
    ensures REST[v] == if v < 10 then (v + '0' as int) as char else if v == 10 then '+' else '/'
  {
    assert v == 0 || v == 1 || v == 2 || v == 3 || v == 4 || v == 5 || v == 6 || v == 7 || v == 8 || v >= 9;
    assert v >= 9 ==> v == 9 || v == 10 || v == 11;
  }

  lemma {:induction false} Char64Is(v: int)
    requires 0 <= v < 64
    ensures |BASE64| == 64 && Char64(v) == BASE64[v]
  {
    assert |CAPITALS| == 26 && |SMALL| == 26 && |REST| == 12;
    if v < 26 {
      CapitalIs(v);
    } else if v < 52 {
      SmallIs(v - 26);
    } else {
      RestIs(v - 52);
    }
  }

  function ByteAt(bytes: seq<Byte>, i: nat): (r: int)
  {
    if i < |bytes| then bytes[i] as int else 0
  }

  /** The characters of the value in base64, the third and fourth padded if there are no such bytes. */
  predicate IsGroup(s: string, p: int, q: int, u: int, v: int, bytes: int)
  {
    && |s| == 4 && |BASE64| == 64 && 0 <= p < 64 && 0 <= q < 64 && 0 <= u < 64 && 0 <= v < 64
    && s[0] == BASE64[p] && s[1] == BASE64[q]
    && s[2] == (if bytes > 1 then BASE64[u] else '=') && s[3] == (if bytes > 2 then BASE64[v] else '=')
  }

  lemma {:induction false} FirstGroupText(bytes: seq<Byte>) returns (p: int, q: int, u: int, v: int)
    requires bytes != []
    ensures |Encode64(bytes)| >= 4 && IsGroup(Encode64(bytes)[..4], p, q, u, v, |bytes|)
    ensures ByteAt(bytes, 0) * 65536 + ByteAt(bytes, 1) * 256 + ByteAt(bytes, 2) == ((p * 64 + q) * 64 + u) * 64 + v
  {
    var a, b, c := ByteAt(bytes, 0), ByteAt(bytes, 1), ByteAt(bytes, 2);
    p, q, u, v := a / 4, a % 4 * 16 + b / 16, b % 16 * 4 + c / 64, c % 64;
    Regroup(a, b, c, p, q, u, v);
    Char64Is(p);
    Char64Is(q);
    Char64Is(u);
    Char64Is(v);
    SameNumber(a, b, c, p, q, u, v);
    EncodeStarts(bytes, p, q, u, v);
  }

  lemma {:induction false} EncodeStarts(bytes: seq<Byte>, p: int, q: int, u: int, v: int)
    requires bytes != [] && 0 <= p < 64 && 0 <= q < 64 && 0 <= u < 64 && 0 <= v < 64
    requires var a, b, c := ByteAt(bytes, 0), ByteAt(bytes, 1), ByteAt(bytes, 2);
      p == a / 4 && q == a % 4 * 16 + b / 16 && u == b % 16 * 4 + c / 64 && v == c % 64
    ensures |Encode64(bytes)| >= 4 && Encode64(bytes)[..4] ==
      [Char64(p), Char64(q), if |bytes| > 1 then Char64(u) else '=', if |bytes| > 2 then Char64(v) else '=']
  {
  }

  lemma {:induction false} EncodeGoesOn(bytes: seq<Byte>)
    requires |bytes| > 3
    ensures |Encode64(bytes)| >= 4 && Encode64(bytes)[4..] == Encode64(bytes[3..])
  {
  }

  lemma {:induction false} LaterGroup(s: string, t: string, k: nat)
    requires |s| >= 4 && s[4..] == t && |t| >= 4 * k + 4
    ensures |s| >= 4 * (k + 1) + 4 && s[4 * (k + 1)..4 * (k + 1) + 4] == t[4 * k..4 * k + 4]
  {
    var a, b := s[4 * (k + 1)..4 * (k + 1) + 4], t[4 * k..4 * k + 4];
    forall m | 0 <= m < 4 ensures a[m] == b[m] {
      assert t[4 * k + m] == s[4..][4 * k + m];
    }
  }

  lemma {:induction false} SameNumber(a: int, b: int, c: int, p: int, q: int, u: int, v: int)
    requires p * 4 + q / 16 == a && q % 16 * 16 + u / 4 == b && u % 4 * 64 + v == c
    ensures a * 65536 + b * 256 + c == ((p * 64 + q) * 64 + u) * 64 + v
  {
  }

  lemma {:induction false} BytesLater(bytes: seq<Byte>, k: nat)
    requires |bytes| > 3
    ensures ByteAt(bytes[3..], 3 * k) == ByteAt(bytes, 3 * (k + 1))
    ensures ByteAt(bytes[3..], 3 * k + 1) == ByteAt(bytes, 3 * (k + 1) + 1)
    ensures ByteAt(bytes[3..], 3 * k + 2) == ByteAt(bytes, 3 * (k + 1) + 2)
  {
  }

  /** Each group of three bytes is the number that its four characters give, the last padded. */
  lemma {:induction false} HashText(bytes: seq<Byte>, k: nat) returns (p: int, q: int, u: int, v: int)
    requires 3 * k < |bytes|
    ensures |Encode64(bytes)| >= 4 * k + 4
    ensures IsGroup(Encode64(bytes)[4 * k..4 * k + 4], p, q, u, v, |bytes| - 3 * k)
    ensures ByteAt(bytes, 3 * k) * 65536 + ByteAt(bytes, 3 * k + 1) * 256 + ByteAt(bytes, 3 * k + 2)
         == ((p * 64 + q) * 64 + u) * 64 + v
    decreases k
  {
    if k == 0 {
      p, q, u, v := FirstGroupText(bytes);
    } else {
      p, q, u, v := HashText(bytes[3..], k - 1);
      EncodeGoesOn(bytes);
      LaterGroup(Encode64(bytes), Encode64(bytes[3..]), k - 1);
      BytesLater(bytes, k - 1);
    }
  }
}
