/** Base58 and Base58Check: byte strings as numerals of base 58. */
module Base58 {
  import opened Options
  import opened Radix
  import opened Words

  const CHARS: string := "123456789" + "ABCDEFGH" + "JKLMN" + "PQRSTUVWXYZ" + "abcdefghijk" + "mnopqrstuvwxyz"

  function DigitOf(c: char): Option<nat> {
    if '1' <= c <= '9' then Some(c as nat - '1' as nat)
    else if 'A' <= c <= 'H' then Some(c as nat - 'A' as nat + 9)
    else if 'J' <= c <= 'N' then Some(c as nat - 'J' as nat + 17)
    else if 'P' <= c <= 'Z' then Some(c as nat - 'P' as nat + 22)
    else if 'a' <= c <= 'k' then Some(c as nat - 'a' as nat + 33)
    else if 'm' <= c <= 'z' then Some(c as nat - 'm' as nat + 44)
    else None
  }

  lemma CharParts(d: nat)
    requires d < 58
    ensures |CHARS| == 58
    ensures CHARS[d] ==
            if d < 9 then "123456789"[d] else if d < 17 then "ABCDEFGH"[d - 9] else if d < 22 then "JKLMN"[d - 17]
            else if d < 33 then "PQRSTUVWXYZ"[d - 22] else if d < 44 then "abcdefghijk"[d - 33]
            else "mnopqrstuvwxyz"[d - 44]
  {
  }

  /** Each part of the alphabet is a run of characters. */
  lemma CharCode(d: nat)
    requires d < 58
    ensures |CHARS| == 58
    ensures CHARS[d] as nat ==
            if d < 9 then d + '1' as nat else if d < 17 then d - 9 + 'A' as nat else if d < 22 then d - 17 + 'J' as nat
            else if d < 33 then d - 22 + 'P' as nat else if d < 44 then d - 33 + 'a' as nat else d - 44 + 'm' as nat
  {
    CharParts(d);
    if d < 9 {
      assert "123456789"[d] as nat == d + '1' as nat;
    } else if d < 17 {
      assert "ABCDEFGH"[d - 9] as nat == d - 9 + 'A' as nat;
    } else if d < 22 {
      assert "JKLMN"[d - 17] as nat == d - 17 + 'J' as nat;
    } else if d < 33 {
      assert "PQRSTUVWXYZ"[d - 22] as nat == d - 22 + 'P' as nat;
    } else if d < 44 {
      assert "abcdefghijk"[d - 33] as nat == d - 33 + 'a' as nat;
    } else {
      assert "mnopqrstuvwxyz"[d - 44] as nat == d - 44 + 'm' as nat;
    }
  }

  function CharOf(d: nat): char
    requires d < 58
  {
    CharCode(d);
    CHARS[d]
  }

  lemma DigitOfChar(d: nat)
    requires d < 58
    ensures DigitOf(CharOf(d)) == Some(d)
  {
    CharCode(d);
  }

  lemma CharOfDigit(c: char)
    requires DigitOf(c).Some?
    ensures DigitOf(c).value < 58 && CharOf(DigitOf(c).value) == c
  {
    CharCode(DigitOf(c).value);
  }

  function Chars(s: seq<nat>): string
    requires AllBelow(s, 58)
  {
    if s == [] then "" else [CharOf(s[0])] + Chars(s[1..])
  }

  /** The digits up to the first character that is none. */
  function DigitsOf(str: string): (s: seq<nat>)
    ensures AllBelow(s, 58)
  {
    if str == "" || DigitOf(str[0]).None? then [] else [DigitOf(str[0]).value] + DigitsOf(str[1..])
  }

  predicate AllDigits(str: string) {
    forall i :: 0 <= i < |str| ==> DigitOf(str[i]).Some?
  }

  lemma {:induction false} DigitsOfChars(s: seq<nat>)
    requires AllBelow(s, 58)
    ensures DigitsOf(Chars(s)) == s
  {
    if s != [] {
      DigitOfChar(s[0]);
      assert Chars(s)[1..] == Chars(s[1..]);
      DigitsOfChars(s[1..]);
    }
  }

  lemma {:induction false} CharsOfDigits(str: string)
    requires AllDigits(str)
    ensures Chars(DigitsOf(str)) == str
  {
    if str != "" {
      CharOfDigit(str[0]);
      CharsOfDigits(str[1..]);
      assert DigitsOf(str)[1..] == DigitsOf(str[1..]);
    }
  }

  //////////////////////////////// Changing the base ////////////////////////////////

  function LeadingZeros(s: seq<nat>): (z: nat)
    ensures z <= |s| && (z < |s| ==> s[z] != 0) && forall i :: 0 <= i < z ==> s[i] == 0
  {
    if s == [] || s[0] != 0 then 0 else 1 + LeadingZeros(s[1..])
  }

  function Zeros(n: nat): seq<nat> {
    seq(n, i => 0)
  }

  /** A numeral in another base, each leading zero kept. */
  function Convert(s: seq<nat>, from: nat, to: nat): seq<nat>
    requires to >= 2
  {
    Zeros(LeadingZeros(s)) + Digits(Val(s, from), to)
  }

  lemma {:induction false} LeadingZerosAre(z: nat, t: seq<nat>)
    requires t != [] ==> t[0] != 0
    ensures LeadingZeros(Zeros(z) + t) == z
  {
    if z > 0 {
      assert (Zeros(z) + t)[1..] == Zeros(z - 1) + t;
      LeadingZerosAre(z - 1, t);
    }
  }

  lemma ZerosAddNothing(z: nat, t: seq<nat>, b: nat)
    ensures Val(Zeros(z) + t, b) == Val(t, b)
  {
    ValAppends(Zeros(z), t, b);
    ValOfZeros(Zeros(z), b);
  }

  /** Changing the base and back gives the same numeral. */
  lemma ConvertBack(s: seq<nat>, from: nat, to: nat)
    requires from >= 2 && to >= 2 && AllBelow(s, from)
    ensures Convert(Convert(s, from, to), to, from) == s
  {
    var z := LeadingZeros(s);
    var t, u := s[z..], Digits(Val(s, from), to);
    assert s == Zeros(z) + t;
    ZerosAddNothing(z, t, from);
    DigitsOfVal(t, from);
    LeadingZerosAre(z, u);
    ZerosAddNothing(z, u, to);
    ValOfDigits(Val(s, from), to);
  }

  lemma ConvertBelow(s: seq<nat>, from: nat, to: nat)
    requires to >= 2
    ensures AllBelow(Convert(s, from, to), to)
  {
    forall i | 0 <= i < |Convert(s, from, to)| ensures Convert(s, from, to)[i] < to {
      var z := LeadingZeros(s);
      if i >= z {
        assert Convert(s, from, to)[i] == Digits(Val(s, from), to)[i - z];
      }
    }
  }

  //////////////////////////////// What the codec promises ////////////////////////////////

  function Encoded(data: seq<nat>): string {
    ConvertBelow(data, 256, 58);
    Chars(Convert(data, 256, 58))
  }

  /** The bytes of the valid start of a string. */
  function Decoded(str: string): seq<nat> {
    Convert(DigitsOf(str), 58, 256)
  }

  lemma DecodedOfEncoded(data: seq<nat>)
    requires AllBelow(data, 256)
    ensures Decoded(Encoded(data)) == data
  {
    ConvertBelow(data, 256, 58);
    DigitsOfChars(Convert(data, 256, 58));
    ConvertBack(data, 256, 58);
  }

  lemma EncodedOfDecoded(str: string)
    requires AllDigits(str)
    ensures Encoded(Decoded(str)) == str
  {
    ConvertBack(DigitsOf(str), 58, 256);
    CharsOfDigits(str);
  }

  /** Base58Check: the encoding of the data with its checksum. */
  function CheckEncoded(data: seq<nat>, checksum: seq<nat> -> seq<nat>): string {
    Encoded(data + checksum(data))
  }

  function CheckDecoded(str: string, checksum: seq<nat> -> seq<nat>): Option<seq<nat>> {
    var bytes := Decoded(str);
    if |bytes| < 4 || bytes[|bytes| - 4..] != checksum(bytes[..|bytes| - 4]) then None else Some(bytes[..|bytes| - 4])
  }

  /** The alphabet: digits and letters in ascending order, without zero, capital I and O, and small l. */
  lemma AlphabetIs()
    ensures |CHARS| == 58 && forall i, j :: 0 <= i < j < 58 ==> CHARS[i] < CHARS[j]
    ensures forall c :: DigitOf(c).Some? <==>
                          && ('0' <= c <= '9' || 'A' <= c <= 'Z' || 'a' <= c <= 'z')
                          && c != '0' && c != 'I' && c != 'O' && c != 'l'
  {
    CharCode(0);
    forall i, j | 0 <= i < j < 58 ensures CHARS[i] < CHARS[j] {
      CharCode(i);
      CharCode(j);
    }
  }

  /** The checksum follows the data. */
  lemma ChecksumFollows(data: seq<nat>, checksum: seq<nat> -> seq<nat>)
    requires AllBelow(data, 256) && IsChecksum(checksum)
    ensures Decoded(CheckEncoded(data, checksum)) == data + checksum(data)
  {
    assert AllBelow(data + checksum(data), 256);
    DecodedOfEncoded(data + checksum(data));
  }

  /** A zero byte and three letters b are 1a3gV. */
  lemma ExampleIsRight()
    ensures Encoded([0, 0x62, 0x62, 0x62]) == "1a3gV" && Decoded("1a3gV") == [0, 0x62, 0x62, 0x62]
  {
    var data: seq<nat> := [0, 0x62, 0x62, 0x62];
    assert LeadingZeros(data) == 1 by {
      assert LeadingZeros(data[1..]) == 0;
    }
    ExampleValue();
    ExampleDigits();
    hide Digits, Val;
    assert Convert(data, 256, 58) == [0, 33, 2, 39, 28];
    DecodedOfEncoded(data);
    ExampleChars();
    hide Convert, Chars;
  }

  lemma ExampleValue()
    ensures Val([0, 0x62, 0x62, 0x62], 256) == 6447714
  {
    var data: seq<nat> := [0, 0x62, 0x62, 0x62];
    assert data[..3] == [0, 0x62, 0x62] && data[..3][..2] == [0, 0x62] && data[..3][..2][..1] == [0];
    assert Val([0], 256) == 0 && Val([0, 0x62], 256) == 0x62 && Val([0, 0x62, 0x62], 256) == 0x6262;
  }

  lemma ExampleDigits()
    ensures Digits(6447714, 58) == [33, 2, 39, 28]
  {
    assert Digits(0, 58) == [];
    assert Rem(33, 58) == 33 && Quot(33, 58) == 0 && Digits(33, 58) == [33];
    assert Rem(1916, 58) == 2 && Quot(1916, 58) == 33 && Digits(1916, 58) == [33, 2];
    assert Rem(111167, 58) == 39 && Quot(111167, 58) == 1916 && Digits(111167, 58) == [33, 2, 39];
    assert Rem(6447714, 58) == 28 && Quot(6447714, 58) == 111167;
  }

  lemma ExampleChars()
    ensures Chars([0, 33, 2, 39, 28]) == "1a3gV"
  {
    CharParts(0);
    CharParts(33);
    CharParts(2);
    CharParts(39);
    CharParts(28);
    var s: seq<nat> := [0, 33, 2, 39, 28];
    assert s[1..] == [33, 2, 39, 28] && s[1..][1..] == [2, 39, 28] && s[1..][1..][1..] == [39, 28];
    assert s[1..][1..][1..][1..] == [28] && s[1..][1..][1..][1..][1..] == [];
    assert Chars([28]) == "V" && Chars([39, 28]) == "gV" && Chars([2, 39, 28]) == "3gV";
    assert Chars([33, 2, 39, 28]) == "a3gV";
  }

  ghost predicate IsChecksum(checksum: seq<nat> -> seq<nat>) {
    forall s :: |checksum(s)| == 4 && AllBelow(checksum(s), 256)
  }

  /** A valid string decodes to some bytes if and only if it is their encoding. */
  lemma CheckDecodedIff(str: string, data: seq<nat>, checksum: seq<nat> -> seq<nat>)
    requires IsChecksum(checksum) && AllDigits(str) && AllBelow(data, 256)
    ensures CheckDecoded(str, checksum) == Some(data) <==> str == CheckEncoded(data, checksum)
  {
    var bytes := Decoded(str);
    EncodedOfDecoded(str);
    if CheckDecoded(str, checksum) == Some(data) {
      assert bytes == data + checksum(data);
    }
    if str == CheckEncoded(data, checksum) {
      var all := data + checksum(data);
      assert AllBelow(all, 256);
      DecodedOfEncoded(all);
      assert all[|all| - 4..] == checksum(data) && all[..|all| - 4] == data;
    }
  }

  //////////////////////////////// The buffers ////////////////////////////////

  lemma {:induction false} PowInto(b: nat, x: nat, m: nat, n: nat)
    requires Pow(b, m) == x
    ensures Pow(b, m * n) == Pow(x, n)
  {
    PowPow(b, m, n);
  }

  lemma FirstPowers()
    ensures Pow(58, 2) == 3364 && Pow(58, 3) == 195112 && Pow(2, 3) == 8 && Pow(2, 2) == 4
  {
    assert Pow(58, 1) == 58;
    assert Pow(2, 1) == 2;
  }

  lemma SmallPowers()
    ensures Pow(58, 7) == 2207984167552 && Pow(58, 5) == 656356768 && Pow(58, 10) == 430804206899405824
    ensures Pow(2, 41) == 2199023255552 && Pow(2, 29) == 536870912 && Pow(2, 59) == 576460752303423488
    ensures Pow(2, 8) == 256 && Pow(2, 11) == 2048
  {
    FirstPowers();
    hide Pow;
    PowAdds(58, 2, 3);
    PowAdds(58, 2, 5);
    PowAdds(58, 5, 5);
    PowAdds(2, 2, 3);
    PowAdds(2, 5, 3);
    PowAdds(2, 8, 3);
    PowAdds(2, 11, 11);
    PowAdds(2, 22, 8);
    PowAdds(2, 11, 30);
    PowAdds(2, 3, 8);
    PowAdds(2, 8, 10);
    PowAdds(2, 8, 2);
    PowAdds(2, 11, 18);
    PowAdds(2, 30, 29);
  }

  lemma MediumPowers()
    ensures Pow(58, 22) <= Pow(2, 129)
  {
    FirstPowers();
    SmallPowers();
    hide Pow;
    PowAdds(58, 10, 10);
    PowAdds(58, 20, 2);
    PowAdds(2, 59, 59);
    PowAdds(2, 118, 11);
  }

  /** One hundred bytes fit 138 base 58 digits. */
  lemma EncodeRatio()
    ensures Pow(58, 138) >= Pow(256, 100)
  {
    SmallPowers();
    hide Pow;
    PowAdds(58, 133, 5);
    PowInto(58, 2207984167552, 7, 19);
    PowMono(2199023255552, 2207984167552, 19);
    PowInto(2, 2199023255552, 41, 19);
    MulMono(Pow(2, 779), Pow(58, 133), Pow(2, 29), Pow(58, 5));
    PowAdds(2, 779, 29);
    PowGrows(2, 800, 808);
    PowInto(2, 256, 8, 100);
  }

  /** One thousand base 58 digits fit 733 bytes. */
  lemma DecodeRatio()
    ensures Pow(256, 733) >= Pow(58, 1000)
  {
    SmallPowers();
    MediumPowers();
    hide Pow;
    PowAdds(58, 990, 10);
    PowInto(58, Pow(58, 22), 22, 45);
    PowMono(Pow(58, 22), Pow(2, 129), 45);
    PowInto(2, Pow(2, 129), 129, 45);
    MulMono(Pow(58, 990), Pow(2, 5805), Pow(58, 10), Pow(2, 59));
    PowAdds(2, 5805, 59);
    PowInto(2, 256, 8, 733);
  }

  /** If p digits of base a fit q digits of base b, then n of them fit n * q / p + 1. */
  lemma RatioSuffices(a: nat, b: nat, p: nat, q: nat, n: nat)
    requires a >= 1 && b >= 1 && p >= 1 && Pow(b, q) >= Pow(a, p)
    ensures Pow(b, n * q / p + 1) >= Pow(a, n)
  {
    hide Pow;
    var m := n * q / p + 1;
    if Pow(b, m) < Pow(a, n) {
      PowStrict(Pow(b, m), Pow(a, n), p);
      PowPow(b, m, p);
      PowPow(a, n, p);
      RatioBound(n, q, p);
      PowGrows(b, n * q, m * p);
      Swap(n, q);
      Swap(n, p);
      PowPow(b, q, n);
      PowPow(a, p, n);
      PowMono(Pow(a, p), Pow(b, q), n);
    }
  }

  lemma Swap(x: nat, y: nat)
    ensures x * y == y * x
  {
  }

  lemma RatioBound(n: nat, q: nat, p: nat)
    requires p >= 1
    ensures 0 <= n * q <= (n * q / p + 1) * p
  {
    var x := n * q;
    assert x == x / p * p + x % p;
  }

  lemma EncodeFits(n: nat)
    ensures Pow(58, n * 138 / 100 + 1) >= Pow(256, n)
  {
    hide Pow;
    EncodeRatio();
    RatioSuffices(256, 58, 100, 138, n);
  }

  lemma DecodeFits(n: nat)
    ensures Pow(256, n * 733 / 1000 + 1) >= Pow(58, n)
  {
    hide Pow;
    DecodeRatio();
    RatioSuffices(58, 256, 1000, 733, n);
  }

  //////////////////////////////// The methods ////////////////////////////////

  lemma CarryBounds(digit: nat, carry: nat, factor: nat, base: nat)
    requires base >= 1 && carry < factor && digit < base
    ensures Quot(carry + digit * factor, base) < factor
  {
    hide Quot, Rem;
    var x := carry + digit * factor;
    MulMono(digit, base - 1, factor, factor);
    Distribute(base - 1, 1, factor);
    QuotRem(x, base);
    if Quot(x, base) >= factor {
      MulMono(factor, Quot(x, base), base, base);
      Swap(factor, base);
    }
  }

  lemma Distribute(x: nat, y: nat, z: nat)
    ensures (x + y) * z == x * z + y * z
  {
  }

  /** One place of the carry loop. */
  lemma CarryStep(p: nat, d: nat, carry: nat, factor: nat, base: nat, low: nat, high: nat, rest: nat, was: nat)
    requires carry + d * factor == high * base + low && rest + carry * p == was
    ensures low * p + rest + high * (base * p) == d * p * factor + was
  {
    Distribute(carry, d * factor, p);
    Distribute(high * base, low, p);
    MulAssoc(high, base, p);
    MulAssoc(d, factor, p);
    MulAssoc(d, p, factor);
    Swap(factor, p);
  }

  lemma ValFirst(s: seq<nat>, b: nat)
    requires s != []
    ensures Val(s, b) == s[0] * Pow(b, |s| - 1) + Val(s[1..], b)
  {
    assert s == [s[0]] + s[1..];
    ValAppends([s[0]], s[1..], b);
    assert Val([s[0]], b) == s[0];
  }

  /** Multiplies the number in the buffer by the factor and adds a digit, from the last place to the first. The
      carry stays below the factor. */
  method MultiplyAdd(buf: array<nat>, base: nat, factor: nat, digit: nat)
    requires base >= 1 && digit < factor && AllBelow(buf[..], base)
    requires Val(buf[..], base) * factor + digit < Pow(base, buf.Length)
    modifies buf
    ensures AllBelow(buf[..], base)
    ensures Val(buf[..], base) == Val(old(buf[..]), base) * factor + digit
  {
    hide Val, Pow, Quot, Rem;
    var carry: nat := digit;
    ghost var was := buf[..];
    var j := buf.Length;
    NoPlaces(base);
    assert buf[j..] == [] && was[j..] == [];
    while j > 0
      invariant 0 <= j <= buf.Length && carry < factor
      invariant buf[..j] == was[..j] && AllBelow(buf[..], base)
      invariant Val(buf[j..], base) + carry * Pow(base, buf.Length - j) == Val(was[j..], base) * factor + digit
    {
      ghost var rest := buf[j..];
      OnePlace(rest, was, j, carry, factor, base, digit);
      carry := carry + buf[j - 1] * factor;
      buf[j - 1] := Rem(carry, base);
      carry := Quot(carry, base);
      j := j - 1;
      assert buf[j..] == [buf[j]] + rest;
    }
    assert buf[0..] == buf[..] && was[0..] == was;
    NoCarry(Val(buf[..], base), carry, Pow(base, buf.Length));
  }

  lemma NoPlaces(base: nat)
    ensures Val([], base) == 0 && Pow(base, 0) == 1
  {
  }

  lemma NoCarry(v: nat, carry: nat, p: nat)
    requires v + carry * p < p
    ensures carry == 0
  {
    if carry > 0 {
      MulMono(1, carry, p, p);
    }
  }

  lemma OnePlace(rest: seq<nat>, was: seq<nat>, j: nat, carry: nat, factor: nat, base: nat, digit: nat)
    requires 0 < j <= |was| && |rest| == |was| - j && base >= 1 && carry < factor && was[j - 1] < base
    requires Val(rest, base) + carry * Pow(base, |rest|) == Val(was[j..], base) * factor + digit
    ensures var x := carry + was[j - 1] * factor;
            && Quot(x, base) < factor && Rem(x, base) < base
            && Val([Rem(x, base)] + rest, base) + Quot(x, base) * Pow(base, |rest| + 1) ==
              Val(was[j - 1..], base) * factor + digit
  {
    var d, p := was[j - 1], Pow(base, |rest|);
    var x := carry + d * factor;
    CarryBounds(d, carry, factor, base);
    assert was[j - 1..][1..] == was[j..];
    ValFirst(was[j - 1..], base);
    QuotRem(x, base);
    hide Quot, Rem;
    ValFirst([Rem(x, base)] + rest, base);
    assert ([Rem(x, base)] + rest)[1..] == rest;
    assert Pow(base, |rest| + 1) == base * p;
    hide Val, Pow;
    CarryStep(p, d, carry, factor, base, Rem(x, base), Quot(x, base), Val(rest, base),
              Val(was[j..], base) * factor + digit);
    Distribute(d * p, Val(was[j..], base), factor);
  }

  method CountZeros(s: seq<nat>) returns (z: nat)
    ensures z == LeadingZeros(s)
  {
    z := 0;
    while z < |s| && s[z] == 0
      invariant z <= |s| && LeadingZeros(s) == z + LeadingZeros(s[z..])
    {
      assert s[z..][1..] == s[z + 1..];
      z := z + 1;
    }
  }

  /** The buffer without its leading zeroes is the numeral of its value. */
  lemma TrimmedIs(s: seq<nat>, z: nat, b: nat)
    requires b >= 2 && AllBelow(s, b) && z == LeadingZeros(s)
    ensures s[z..] == Digits(Val(s, b), b)
  {
    assert s == Zeros(z) + s[z..];
    ZerosAddNothing(z, s[z..], b);
    DigitsOfVal(s[z..], b);
  }

  function Ones(n: nat): string {
    seq(n, i => '1')
  }

  lemma {:induction false} CharsJoin(a: seq<nat>, b: seq<nat>)
    requires AllBelow(a, 58) && AllBelow(b, 58)
    ensures AllBelow(a + b, 58) && Chars(a + b) == Chars(a) + Chars(b)
  {
    if a == [] {
      assert a + b == b;
    } else {
      assert (a + b)[1..] == a[1..] + b;
      CharsJoin(a[1..], b);
    }
  }

  lemma {:induction false} CharsOfZeros(n: nat)
    ensures AllBelow(Zeros(n), 58) && Chars(Zeros(n)) == Ones(n)
  {
    if n > 0 {
      assert Zeros(n)[1..] == Zeros(n - 1);
      CharsOfZeros(n - 1);
      CharCode(0);
      assert Ones(n) == ['1'] + Ones(n - 1);
    }
  }

  lemma {:induction false} CharsLength(s: seq<nat>)
    requires AllBelow(s, 58)
    ensures |Chars(s)| == |s|
  {
    if s != [] {
      CharsLength(s[1..]);
    }
  }

  lemma EncodedParts(data: seq<nat>, z: nat, buf: seq<nat>, i: nat)
    requires AllBelow(data, 256) && AllBelow(buf, 58) && z == LeadingZeros(data) && i == LeadingZeros(buf)
    requires Val(buf, 58) == Val(data[z..], 256)
    ensures Encoded(data) == Ones(z) + Chars(buf[i..]) && |Encoded(data)| == z + |buf| - i
  {
    assert data == Zeros(z) + data[z..];
    hide Val, Digits, Pow, Chars, LeadingZeros;
    ZerosAddNothing(z, data[z..], 256);
    TrimmedIs(buf, i, 58);
    ConvertBelow(data, 256, 58);
    CharsOfZeros(z);
    CharsJoin(Zeros(z), buf[i..]);
    CharsLength(buf[i..]);
  }

  lemma BufferStarts(s: seq<nat>, base: nat)
    requires base >= 1 && forall i :: 0 <= i < |s| ==> s[i] == 0
    ensures AllBelow(s, base) && Val(s, base) == 0 == Val([], 256) == Val([], 58)
  {
    ValOfZeros(s, base);
  }

  lemma OneMore(s: seq<nat>, from: nat, i: nat, b: nat)
    requires from <= i < |s| && b >= 1 && AllBelow(s, b)
    ensures Val(s[from..i + 1], b) == Val(s[from..i], b) * b + s[i]
    ensures Val(s[from..i + 1], b) < Pow(b, |s| - from)
  {
    assert s[from..i + 1][..i - from] == s[from..i];
    ValBelow(s[from..i + 1], b);
    PowGrows(b, i + 1 - from, |s| - from);
  }

  /** Encodes data: the length of the string with its final NUL, and the string if there is room for it. */
  method Encode(data: seq<nat>, room: Option<nat>) returns (len: nat, str: Option<string>)
    requires AllBelow(data, 256)
    ensures if room.Some? && room.value < |Encoded(data)| + 1 then len == 0 && str == None
            else len == |Encoded(data)| + 1 && str == if room.Some? then Some(Encoded(data)) else None
  {
    hide Val, Pow, Digits, Convert, Encoded, Chars, LeadingZeros;
    var zcount := CountZeros(data);
    var size := (|data| - zcount) * 138 / 100 + 1;
    var buf := new nat[size](_ => 0);
    BufferStarts(buf[..], 58);
    EncodeFits(|data| - zcount);
    assert data[zcount..zcount] == [];
    for i := zcount to |data|
      invariant AllBelow(buf[..], 58) && Val(buf[..], 58) == Val(data[zcount..i], 256)
    {
      OneMore(data, zcount, i, 256);
      MultiplyAdd(buf, 58, 256, data[i]);
    }
    assert data[zcount..|data|] == data[zcount..];
    var i := CountZeros(buf[..]);
    EncodedParts(data, zcount, buf[..], i);
    len := zcount + buf.Length - i + 1;
    str := None;
    if room.Some? && len <= room.value {
      var s := WriteChars(zcount, buf, i);
      str := Some(s);
    } else if room.Some? {
      len := 0;
    }
  }

  /** Writes a one for each leading zero and then the digits of the buffer from place i on. */
  method WriteChars(zcount: nat, buf: array<nat>, from: nat) returns (s: string)
    requires from <= buf.Length && AllBelow(buf[..], 58)
    ensures s == Ones(zcount) + Chars(buf[from..])
  {
    hide Chars;
    s := "";
    var z: nat := zcount;
    while z > 0
      invariant z <= zcount && s == Ones(zcount - z)
    {
      s := s + ['1'];
      z := z - 1;
    }
    var i := from;
    ghost var t := buf[from..];
    CharsOfNone();
    assert t[..0] == [] && Ones(zcount) + "" == Ones(zcount);
    while i < buf.Length
      invariant from <= i <= buf.Length && s == Ones(zcount) + Chars(t[..i - from])
    {
      CharsOfOne(t[i - from]);
      CharsJoin(t[..i - from], [t[i - from]]);
      assert t[..i + 1 - from] == t[..i - from] + [t[i - from]];
      s := s + [CharOf(buf[i])];
      i := i + 1;
    }
    assert t[..|t|] == t;
  }

  lemma CharsOfNone()
    ensures Chars([]) == ""
  {
  }

  lemma CharsOfOne(d: nat)
    requires d < 58
    ensures Chars([d]) == [CharOf(d)]
  {
    assert [d][1..] == [];
  }

  //////////////////////////////// Decoding ////////////////////////////////

  lemma DigitsFrom(str: string, z: nat)
    requires z < |str|
    ensures DigitsOf(str[z..]) ==
            if DigitOf(str[z]).None? then [] else [DigitOf(str[z]).value] + DigitsOf(str[z + 1..])
  {
    assert str[z..][1..] == str[z + 1..];
  }

  lemma OneIsZero(c: char)
    ensures c == '1' ==> DigitOf(c) == Some(0)
    ensures DigitOf(c) == Some(0) ==> c == '1'
  {
    CharCode(0);
    if DigitOf(c) == Some(0) {
      CharOfDigit(c);
    }
  }

  /** The parts the decoder works on: the leading ones and the digits after them. */
  lemma {:induction false} DigitsParts(str: string, z: nat)
    requires z <= |str| && (forall i :: 0 <= i < z ==> str[i] == '1') && (z < |str| ==> str[z] != '1')
    ensures DigitsOf(str) == Zeros(z) + DigitsOf(str[z..])
    ensures DigitsOf(str[z..]) != [] ==> DigitsOf(str[z..])[0] != 0
    decreases z
  {
    hide DigitOf;
    if z == 0 {
      assert str[0..] == str && Zeros(0) == [];
      if str != "" {
        OneIsZero(str[0]);
      }
    } else {
      DigitsParts(str[1..], z - 1);
      OneIsZero(str[0]);
      assert str[1..][z - 1..] == str[z..];
      assert Zeros(z) == [0] + Zeros(z - 1);
    }
  }

  lemma {:induction false} DigitsNoMore(str: string)
    ensures |DigitsOf(str)| <= |str|
  {
    if str != "" {
      DigitsNoMore(str[1..]);
    }
  }

  lemma DecodedParts(str: string, z: nat, buf: seq<nat>, i: nat)
    requires z <= |str| && (forall k :: 0 <= k < z ==> str[k] == '1') && (z < |str| ==> str[z] != '1')
    requires AllBelow(buf, 256) && i == LeadingZeros(buf) && Val(buf, 256) == Val(DigitsOf(str[z..]), 58)
    ensures Decoded(str) == Zeros(z) + buf[i..]
  {
    DigitsParts(str, z);
    LeadingZerosAre(z, DigitsOf(str[z..]));
    ZerosAddNothing(z, DigitsOf(str[z..]), 58);
    TrimmedIs(buf, i, 256);
  }

  /** Reads the digits of a string into a buffer, up to the first invalid character. */
  method ReadDigits(str: string, buf: array<nat>)
    requires (forall i :: 0 <= i < buf.Length ==> buf[i] == 0) && Pow(58, |str|) <= Pow(256, buf.Length)
    modifies buf
    ensures AllBelow(buf[..], 256) && Val(buf[..], 256) == Val(DigitsOf(str), 58)
  {
    hide Val, Pow, DigitsOf, DigitOf;
    ghost var digits := DigitsOf(str);
    DigitsNoMore(str);
    BufferStarts(buf[..], 256);
    var p := 0;
    while p < |str|
      invariant p <= |str| && p <= |digits|
      invariant AllBelow(buf[..], 256) && Val(buf[..], 256) == Val(digits[..p], 58)
      invariant digits[p..] == DigitsOf(str[p..])
    {
      var carry := DigitOf(str[p]);
      DigitsFrom(str, p);
      if carry.None? {
        assert digits[..p] == digits;
        return;
      }
      assert digits[p] == digits[p..][0] == carry.value && digits[p + 1..] == digits[p..][1..];
      OneMore(digits, 0, p, 58);
      PowGrows(58, |digits|, |str|);
      assert digits[0..p] == digits[..p] && digits[0..p + 1] == digits[..p + 1];
      MultiplyAdd(buf, 256, 58, carry.value);
      p := p + 1;
    }
    DigitsOfEmpty(str[p..]);
    assert digits[..p] == digits;
  }

  lemma DigitsOfEmpty(str: string)
    requires str == ""
    ensures DigitsOf(str) == []
  {
  }

  /** Decodes the start of a string up to the first invalid character: the number of bytes, and the bytes if there
      is room for them. */
  method Decode(room: Option<nat>, str: string) returns (len: nat, data: Option<seq<nat>>)
    ensures if room.Some? && room.value < |Decoded(str)| then len == 0 && data == None
            else len == |Decoded(str)| && data == if room.Some? then Some(Decoded(str)) else None
  {
    hide Val, Pow, Digits, Convert, Decoded, LeadingZeros, DigitsOf, DigitOf;
    var zcount := 0;
    while zcount < |str| && str[zcount] == '1'
      invariant zcount <= |str| && forall k :: 0 <= k < zcount ==> str[k] == '1'
    {
      zcount := zcount + 1;
    }
    var size := (|str| - zcount) * 733 / 1000 + 1;
    var buf := new nat[size](_ => 0);
    DecodeFits(|str| - zcount);
    ReadDigits(str[zcount..], buf);
    var i := CountZeros(buf[..]);
    DecodedParts(str, zcount, buf[..], i);
    len := zcount + buf.Length - i;
    data := None;
    if room.Some? && len <= room.value {
      data := Some(Zeros(zcount) + buf[i..]);
    } else if room.Some? {
      len := 0;
    }
  }

  /** Decoding never needs more bytes than the string has characters. */
  lemma DecodedLength(str: string)
    ensures |Decoded(str)| <= |str|
  {
    hide Val, Pow, Digits, DigitsOf;
    var s := DigitsOf(str);
    var z := LeadingZeros(s);
    assert s == Zeros(z) + s[z..];
    ZerosAddNothing(z, s[z..], 58);
    ValBelow(s[z..], 58);
    PowMono(58, 256, |s| - z);
    DigitsLength(Val(s, 58), 256, |s| - z);
    DigitsNoMore(str);
  }

  /** Encodes data followed by the first four bytes of its double hash. */
  method CheckEncode(data: seq<nat>, room: Option<nat>, checksum: seq<nat> -> seq<nat>)
    returns (len: nat, str: Option<string>)
    requires AllBelow(data, 256) && IsChecksum(checksum)
    ensures var all := CheckEncoded(data, checksum);
            if room.Some? && room.value < |all| + 1 then len == 0 && str == None
            else len == |all| + 1 && str == if room.Some? then Some(all) else None
  {
    var buf := data + checksum(data);
    len, str := Encode(buf, room);
  }

  /** Decodes and verifies the checksum; a failure gives length 0. */
  method CheckDecode(room: Option<nat>, str: string, checksum: seq<nat> -> seq<nat>)
    returns (len: nat, data: Option<seq<nat>>)
    ensures var r := CheckDecoded(str, checksum);
            if r.None? then len == 0 && (data == None || data == Some([]))
            else if room.Some? && room.value < |r.value| then len == 0 && data == None
            else len == |r.value| && (room.Some? ==> data == r)
  {
    hide Decoded;
    DecodedLength(str);
    var n, buf := Decode(Some(|str|), str);
    data := None;
    if n >= 4 {
      len := n - 4;
      if buf.value[len..] != checksum(buf.value[..len]) {
        len := 0;
      }
      if room.Some? && len <= room.value {
        data := Some(buf.value[..len]);
      }
    } else {
      len := 0;
    }
    if room.Some? && len > room.value {
      len := 0;
    }
  }
}
