/** Base58 strings (src/base58.cpp): printing bytes and reading them back. */
module Base58 {
  import opened Positional
  import opened Powers
  import opened Wrappers

  type Byte = x: nat | x < 256

  // ----- Characters -----

  /** All digits and letters but 0, I, O and l. */
  const ALPHABET: string := "123456789" + "ABCDEFGH" + "JKLMN" + "PQRSTUVWXYZ" + "abcdefghijk" + "mnopqrstuvwxyz"

  /** The character for a digit. */
  function Letter(i: nat): char
    requires i < 58
  {
    if i < 9 then '1' + i as char
    else if i < 17 then 'A' + (i - 9) as char
    else if i < 22 then 'J' + (i - 17) as char
    else if i < 33 then 'P' + (i - 22) as char
    else if i < 44 then 'a' + (i - 33) as char
    else 'm' + (i - 44) as char
  }

  lemma LetterIs(i: nat)
    requires i < 58
    ensures |ALPHABET| == 58 && Letter(i) == ALPHABET[i]
  {
  }

  /** No character stands for two digits. */
  lemma LettersDiffer(i: nat, j: nat)
    requires i < 58 && j < 58 && Letter(i) == Letter(j)
    ensures i == j
  {
  }

  lemma NoSpaces(i: nat)
    requires i < 58
    ensures !IsSpace(Letter(i)) && Letter(i) != '\0' && (Letter(i) == '1' <==> i == 0)
  {
  }

  /** The digit of a character, searching from i on; 58 when it is not in the alphabet. */
  function IndexFrom(c: char, i: nat): (r: nat)
    requires i <= 58
    ensures i <= r <= 58 && (r < 58 ==> Letter(r) == c)
    ensures forall k :: i <= k < r ==> Letter(k) != c
    decreases 58 - i
  {
    if i == 58 then 58 else if Letter(i) == c then i else IndexFrom(c, i + 1)
  }

  function IndexOf(c: char): (r: nat)
    ensures r <= 58 && (r < 58 ==> Letter(r) == c) && forall k :: 0 <= k < r ==> Letter(k) != c
  {
    IndexFrom(c, 0)
  }

  predicate InAlphabet(s: string) {
    forall i :: 0 <= i < |s| ==> IndexOf(s[i]) < 58
  }

  function Values(s: string): (d: seq<nat>)
    requires InAlphabet(s)
  {
    seq(|s|, i requires 0 <= i < |s| => IndexOf(s[i]))
  }

  function Letters(d: seq<nat>): string
    requires DigitsOk(d, 58)
  {
    seq(|d|, i requires 0 <= i < |d| => Letter(d[i]))
  }

  lemma ValuesOfLetters(d: seq<nat>)
    requires DigitsOk(d, 58)
    ensures InAlphabet(Letters(d)) && Values(Letters(d)) == d
  {
    hide Letter;
    forall i | 0 <= i < |d| ensures IndexOf(Letter(d[i])) == d[i] {
      var r := IndexOf(Letter(d[i]));
      if r < 58 {
        LettersDiffer(r, d[i]);
      }
    }
  }

  lemma LettersOfValues(s: string)
    requires InAlphabet(s)
    ensures DigitsOk(Values(s), 58) && Letters(Values(s)) == s
  {
    hide Letter;
  }

  // ----- What the strings mean -----

  function TrimStart(s: string): string {
    if s != [] && IsSpace(s[0]) then TrimStart(s[1..]) else s
  }

  function TrimEnd(s: string): string {
    if s != [] && IsSpace(s[|s| - 1]) then TrimEnd(s[..|s| - 1]) else s
  }

  /** Without surrounding whitespace. */
  function Trim(s: string): string {
    TrimEnd(TrimStart(s))
  }

  /** A string up to its first null character. */
  function CString(s: string): string {
    if s == [] || s[0] == '\0' then [] else [s[0]] + CString(s[1..])
  }

  function Encoded(bytes: seq<Byte>): string {
    EncodedOk(bytes);
    Letters(Rebased(bytes, 256, 58))
  }

  function Decoded(s: string): Option<seq<nat>> {
    if InAlphabet(Trim(s)) then Some(Rebased(Values(Trim(s)), 58, 256)) else None
  }

  lemma EncodedOk(bytes: seq<Byte>)
    ensures DigitsOk(Rebased(bytes, 256, 58), 58)
  {
    RebasedBack(bytes, 256, 58);
  }

  lemma {:induction false} NothingToTrim(s: string)
    requires forall i :: 0 <= i < |s| ==> !IsSpace(s[i]) && s[i] != '\0'
    ensures Trim(s) == s && CString(s) == s
  {
    if s != [] {
      NothingToTrim(s[1..]);
      assert s == [s[0]] + s[1..];
    }
  }

  /** Reading back what was printed gives the bytes. */
  lemma DecodeEncoded(bytes: seq<Byte>)
    ensures Decoded(CString(Encoded(bytes))) == Some(bytes)
  {
    hide Letter, Trim, CString, Rebased;
    var d := Rebased(bytes, 256, 58);
    EncodedOk(bytes);
    forall i | 0 <= i < |d| ensures !IsSpace(Letters(d)[i]) && Letters(d)[i] != '\0' {
      NoSpaces(d[i]);
    }
    NothingToTrim(Letters(d));
    ValuesOfLetters(d);
    RebasedBack(bytes, 256, 58);
  }

  /** Printing what was read gives the string without its surrounding whitespace. */
  lemma EncodeDecoded(s: string, bytes: seq<Byte>)
    requires Decoded(CString(s)) == Some(bytes)
    ensures Encoded(bytes) == Trim(CString(s))
  {
    hide Letter, Trim, CString, Rebased;
    var core := Trim(CString(s));
    LettersOfValues(core);
    RebasedBack(Values(core), 58, 256);
  }

  // ----- The digit buffer -----

  /** All places above the lowest length ones are zero. */
  ghost predicate Buffer(d: seq<nat>, base: nat, length: nat) {
    && length <= |d| && DigitsOk(d, base)
    && forall i :: 0 <= i < |d| - length ==> d[i] == 0
  }

  /** The lowest i places hold mult times what they held plus c, up to the carry. */
  ghost predicate Partway(d: seq<nat>, o: seq<nat>, base: nat, mult: nat, c: nat, i: nat, carry: nat) {
    && i <= |d| == |o| && DigitsOk(d, base)
    && d[..|d| - i] == o[..|d| - i]
    && Num(d[|d| - i..], base) + carry * Pow(base, i) == mult * Num(o[|d| - i..], base) + c
  }

  lemma PartwayNext(d: seq<nat>, o: seq<nat>, base: nat, mult: nat, c: nat, i: nat, carry: nat, n: nat)
    requires base >= 2 && Partway(d, o, base, mult, c, i, carry) && i < |d| && n == carry + mult * d[|d| - 1 - i]
    ensures Partway(d[|d| - 1 - i := n % base], o, base, mult, c, i + 1, n / base)
  {
    hide Num, Pow;
    var j := |d| - 1 - i;
    var x: nat := n % base;
    var e := d[j := x];
    assert e[j..] == [n % base] + d[j + 1..];
    assert o[j..] == [o[j]] + o[j + 1..];
    assert o[j] == d[j] by { assert d[..j + 1][j] == o[..j + 1][j]; }
    OneDigit(n % base, d[j + 1..], base);
    OneDigit(o[j], o[j + 1..], base);
    PowNext(base, i);
    StepAlgebra(Num(d[j + 1..], base), Num(o[j + 1..], base), carry, mult, o[j], c, Pow(base, i), base, n);
    assert e[..j] == d[..j + 1][..j] && o[..j] == o[..j + 1][..j];
  }

  lemma OneDigit(x: nat, d: seq<nat>, base: nat)
    ensures Num([x] + d, base) == x * Pow(base, |d|) + Num(d, base)
  {
    NumSplit([x], d, base);
    assert Num([x], base) == Num([], base) * base + x;
  }

  lemma PowNext(base: nat, i: nat)
    ensures Pow(base, i + 1) == base * Pow(base, i)
  {
  }

  lemma StepAlgebra(d: nat, o: nat, carry: nat, mult: nat, x: nat, c: nat, p: nat, base: nat, n: nat)
    requires base >= 2 && d + carry * p == mult * o + c && n == carry + mult * x
    ensures (n % base) * p + d + (n / base) * (base * p) == mult * (x * p + o) + c
  {
    assert n == n % base + (n / base) * base;
    assert n * p == (n % base) * p + ((n / base) * base) * p;
    assert ((n / base) * base) * p == (n / base) * (base * p);
    assert (carry + mult * x) * p == carry * p + mult * (x * p);
    assert mult * (x * p + o) == mult * (x * p) + mult * o;
  }

  lemma PartwayStart(o: seq<nat>, base: nat, mult: nat, c: nat)
    requires DigitsOk(o, base)
    ensures Partway(o, o, base, mult, c, 0, c)
  {
    assert o[|o|..] == [];
  }

  /** Where the loop stops, the carry is used up and the buffer holds the result. */
  lemma PartwayEnd(d: seq<nat>, o: seq<nat>, base: nat, mult: nat, c: nat, i: nat, carry: nat, length: nat)
    requires base >= 2 && Partway(d, o, base, mult, c, i, carry) && Buffer(o, base, length)
    requires (carry == 0 && i >= length) || i == |d|
    requires mult * Num(o, base) + c < Pow(base, |o|)
    ensures carry == 0 && Buffer(d, base, i) && Num(d, base) == mult * Num(o, base) + c
  {
    hide Num, Pow;
    var k := |d| - i;
    assert d == d[..k] + d[k..] && o == o[..k] + o[k..];
    NumSplit(d[..k], d[k..], base);
    NumSplit(o[..k], o[k..], base);
    if i == |d| {
      NumNothing(d[..k], base);
      CarryAtLeast(carry, Pow(base, i));
    } else {
      NumZeros(d[..k], base);
    }
    assert 0 * Pow(base, i) == 0;
  }

  lemma CarryAtLeast(carry: nat, p: nat)
    ensures carry > 0 ==> carry * p >= p
  {
  }

  lemma NumNothing(d: seq<nat>, base: nat)
    requires d == []
    ensures Num(d, base) == 0
  {
  }

  /** Multiply the number in the buffer and add a digit; the carry always runs out. */
  method MulAdd(buf: array<nat>, length: nat, base: nat, mult: nat, c: nat) returns (len: nat)
    requires base >= 2 && Buffer(buf[..], base, length)
    requires mult * Num(buf[..], base) + c < Pow(base, buf.Length)
    modifies buf
    ensures Buffer(buf[..], base, len)
    ensures Num(buf[..], base) == mult * old(Num(buf[..], base)) + c
  {
    hide Num, Pow, Partway;
    ghost var o := buf[..];
    var carry: nat := c;
    var i := 0;
    PartwayStart(o, base, mult, c);
    while (carry != 0 || i < length) && i < buf.Length
      invariant 0 <= i <= buf.Length
      invariant Partway(buf[..], o, base, mult, c, i, carry)
      decreases buf.Length - i
    {
      var j := buf.Length - 1 - i;
      ghost var d := buf[..];
      PartwayNext(d, o, base, mult, c, i, carry, carry + mult * buf[j]);
      carry := carry + mult * buf[j];
      var digit: nat := carry % base;
      buf[j] := digit;
      assert buf[..] == d[j := digit];
      carry := carry / base;
      i := i + 1;
    }
    PartwayEnd(buf[..], o, base, mult, c, i, carry, length);
    assert carry == 0;
    len := i;
  }

  /** Skip the leading zeros: the rest is the digits of the number. */
  method Significant(buf: array<nat>, length: nat, base: nat) returns (k: nat)
    requires base >= 2 && Buffer(buf[..], base, length)
    ensures k <= buf.Length && buf[k..] == Digits(Num(buf[..], base), base)
  {
    hide Num, Digits;
    k := buf.Length - length;
    while k < buf.Length && buf[k] == 0
      invariant 0 <= k <= buf.Length
      invariant forall i :: 0 <= i < k ==> buf[i] == 0
    {
      k := k + 1;
    }
    assert buf[..] == Zeros(k) + buf[k..];
    NumAfterZeros(k, buf[k..], base);
    DigitsUnique(buf[k..], base);
  }

  // ----- Printing -----

  lemma {:induction false} LeadingIs(d: seq<nat>, z: nat)
    requires z <= |d| && (forall i :: 0 <= i < z ==> d[i] == 0) && (z < |d| ==> d[z] != 0)
    ensures LeadingZeros(d) == z
  {
    if z > 0 {
      LeadingIs(d[1..], z - 1);
    }
  }

  /** A number built from k digits of one base has room in the buffer. */
  lemma Room(d: seq<nat>, from: nat, n: nat, base: nat, size: nat)
    requires from >= 1 && DigitsOk(d, from) && |d| <= n && Pow(from, n) <= Pow(base, size)
    ensures Num(d, from) < Pow(base, size)
  {
    NumBound(d, from);
    PowMono(from, |d|, n);
  }

  lemma NumAppend(d: seq<nat>, x: nat, base: nat)
    ensures Num(d + [x], base) == Num(d, base) * base + x
  {
    assert (d + [x])[..|d|] == d;
  }

  /** Feed bytes into a base 58 buffer, one by one, and take the digits out. */
  method BytesToDigits(rest: seq<Byte>) returns (digits: seq<nat>)
    ensures digits == Digits(Num(rest, 256), 58)
  {
    hide Num, Pow, Digits;
    var size := |rest| * 138 / 100 + 1;
    EncodeRoom(|rest|);
    var b58 := new nat[size](_ => 0);
    var length := 0;
    NumNothing(rest[..0], 256);
    NumZeros(b58[..], 58);
    var p := 0;
    while p < |rest|
      invariant 0 <= p <= |rest| && Buffer(b58[..], 58, length)
      invariant Num(b58[..], 58) == Num(rest[..p], 256)
    {
      assert rest[..p + 1] == rest[..p] + [rest[p]];
      NumAppend(rest[..p], rest[p], 256);
      Room(rest[..p + 1], 256, |rest|, 58, size);
      length := MulAdd(b58, length, 58, 256, rest[p]);
      p := p + 1;
    }
    assert rest[..|rest|] == rest;
    var k := Significant(b58, length, 58);
    digits := b58[k..];
  }

  method ToLetters(digits: seq<nat>) returns (str: string)
    requires DigitsOk(digits, 58)
    ensures str == Letters(digits)
  {
    hide Letter;
    str := "";
    for k := 0 to |digits|
      invariant str == Letters(digits[..k])
    {
      assert Letters(digits[..k + 1]) == Letters(digits[..k]) + [Letter(digits[k])];
      str := str + [Letter(digits[k])];
    }
    assert digits[..|digits|] == digits;
  }

  method EncodeBase58(bytes: seq<Byte>) returns (str: string)
    ensures str == Encoded(bytes)
  {
    hide Num, Digits, Letter, LeadingZeros, Letters, Encoded;
    var zeroes := 0;
    while zeroes < |bytes| && bytes[zeroes] == 0
      invariant 0 <= zeroes <= |bytes|
      invariant forall i :: 0 <= i < zeroes ==> bytes[i] == 0
    {
      zeroes := zeroes + 1;
    }
    LeadingIs(bytes, zeroes);
    var digits := BytesToDigits(bytes[zeroes..]);
    DigitsValue(Num(bytes[zeroes..], 256), 58);
    Assemble(bytes, zeroes, digits);
    var tail := ToLetters(digits);
    str := seq(zeroes, _ => '1') + tail;
  }

  /** Leading ones for leading zeros, then the letters of the digits. */
  lemma Assemble(bytes: seq<Byte>, zeroes: nat, digits: seq<nat>)
    requires zeroes == LeadingZeros(bytes) && digits == Digits(Num(bytes[zeroes..], 256), 58) && DigitsOk(digits, 58)
    ensures Encoded(bytes) == seq(zeroes, _ => '1') + Letters(digits)
  {
    hide Num, Digits;
    var rest: seq<nat> := bytes[zeroes..];
    assert bytes == Zeros(zeroes) + rest;
    NumAfterZeros(zeroes, rest, 256);
    EncodedOk(bytes);
  }

  // ----- Reading -----

  lemma {:induction false} TrimStartAt(s: string, i: nat)
    requires i <= |s| && (forall k :: 0 <= k < i ==> IsSpace(s[k])) && (i < |s| ==> !IsSpace(s[i]))
    ensures TrimStart(s) == s[i..]
  {
    if i > 0 {
      TrimStartAt(s[1..], i - 1);
    }
  }

  lemma {:induction false} TrimEndAt(s: string, j: nat)
    requires j <= |s| && (forall k :: j <= k < |s| ==> IsSpace(s[k])) && (j > 0 ==> !IsSpace(s[j - 1]))
    ensures TrimEnd(s) == s[..j]
  {
    if j < |s| {
      TrimEndAt(s[..|s| - 1], j);
    }
  }

  /** Trimming the end keeps everything up to any character that is not a space. */
  lemma {:induction false} TrimEndKeeps(s: string, k: nat)
    requires k < |s| && !IsSpace(s[k])
    ensures k < |TrimEnd(s)| <= |s| && TrimEnd(s) == s[..|TrimEnd(s)|]
  {
    if IsSpace(s[|s| - 1]) {
      TrimEndKeeps(s[..|s| - 1], k);
    }
  }

  /** A character outside the alphabet, with a non-space at or after it: the string is refused. */
  lemma Refused(s: string, i: nat, bad: nat, k: nat)
    requires i <= bad <= k < |s| && (forall m :: 0 <= m < i ==> IsSpace(s[m])) && !IsSpace(s[i])
    requires IndexOf(s[bad]) == 58 && !IsSpace(s[k])
    ensures Decoded(s) == None
  {
    hide IndexOf, Letter, Rebased;
    TrimStartAt(s, i);
    TrimEndKeeps(s[i..], k - i);
    assert Trim(s)[bad - i] == s[bad];
  }

  lemma SpaceIndex(c: char)
    requires IsSpace(c)
    ensures IndexOf(c) == 58
  {
    hide Letter;
    if IndexOf(c) < 58 {
      NoSpaces(IndexOf(c));
    }
  }

  /** From leading ones and the digits of the rest to what the string means. */
  lemma Read(s: string, i: nat, m: nat, j: nat, digits: seq<nat>)
    requires i <= m <= j <= |s|
    requires (forall k :: 0 <= k < i ==> IsSpace(s[k])) && (forall k :: j <= k < |s| ==> IsSpace(s[k]))
    requires (forall k :: i <= k < m ==> s[k] == '1') && (m < j ==> s[m] != '1')
    requires InAlphabet(s[m..j]) && digits == Digits(Num(Values(s[m..j]), 58), 256)
    ensures Decoded(s) == Some(Zeros(m - i) + digits)
  {
    hide Letter, Num, Digits, IndexOf, LeadingZeros;
    var core := s[i..j];
    CoreValues(s, i, m, j);
    var rest := Values(s[m..j]);
    Trimmed(s, i, j);
    NumAfterZeros(m - i, rest, 58);
    LeadingIs(Values(core), m - i);
  }

  lemma OneIsZero()
    ensures IndexOf('1') == 0
  {
    assert Letter(0) == '1';
  }

  lemma CoreValues(s: string, i: nat, m: nat, j: nat)
    requires i <= m <= j <= |s| && (forall k :: i <= k < m ==> s[k] == '1') && (m < j ==> s[m] != '1')
    requires InAlphabet(s[m..j])
    ensures InAlphabet(s[i..j]) && Values(s[i..j]) == Zeros(m - i) + Values(s[m..j])
    ensures m < j ==> Values(s[m..j])[0] != 0
  {
    hide Letter, IndexOf;
    OneIsZero();
    var core := s[i..j];
    var d := Zeros(m - i) + Values(s[m..j]);
    forall q | 0 <= q < |core| ensures IndexOf(core[q]) == d[q] && d[q] < 58 {
      if q < m - i {
        assert core[q] == s[i + q];
      } else {
        assert core[q] == s[m..j][q - (m - i)];
      }
    }
    if m < j {
      assert s[m..j][0] == s[m];
      FirstNotOne(s[m]);
    }
  }

  lemma FirstNotOne(c: char)
    ensures IndexOf(c) == 0 ==> c == '1'
  {
  }

  lemma Trimmed(s: string, i: nat, j: nat)
    requires i <= j <= |s| && InAlphabet(s[i..j])
    requires (forall k :: 0 <= k < i ==> IsSpace(s[k])) && (forall k :: j <= k < |s| ==> IsSpace(s[k]))
    ensures Trim(s) == s[i..j]
  {
    hide Letter, IndexOf;
    if i == j {
      AllSpaces(s);
    } else {
      assert s[i..j][0] == s[i] && s[i..j][j - 1 - i] == s[j - 1];
      NotSpace(s[i]);
      NotSpace(s[j - 1]);
      TrimStartAt(s, i);
      TrimEndAt(s[i..], j - i);
    }
  }

  lemma NotSpace(c: char)
    requires IndexOf(c) < 58
    ensures !IsSpace(c)
  {
    hide Letter;
    NoSpaces(IndexOf(c));
  }

  lemma AllSpaces(s: string)
    requires forall k :: 0 <= k < |s| ==> IsSpace(s[k])
    ensures Trim(s) == []
  {
    TrimStartAt(s, |s|);
    assert s[|s|..] == [];
  }

  method SkipSpaces(s: string, start: nat) returns (p: nat)
    requires start <= |s|
    ensures start <= p <= |s| && (forall k :: start <= k < p ==> IsSpace(s[k])) && (p < |s| ==> !IsSpace(s[p]))
  {
    p := start;
    while p < |s| && IsSpace(s[p])
      invariant start <= p <= |s|
      invariant forall k :: start <= k < p ==> IsSpace(s[k])
    {
      p := p + 1;
    }
  }

  method SkipOnes(s: string, start: nat) returns (p: nat)
    requires start <= |s|
    ensures start <= p <= |s| && (forall k :: start <= k < p ==> s[k] == '1') && (p < |s| ==> s[p] != '1')
  {
    p := start;
    while p < |s| && s[p] == '1'
      invariant start <= p <= |s|
      invariant forall k :: start <= k < p ==> s[k] == '1'
    {
      p := p + 1;
    }
  }

  /** Reading a string: whitespace around it is skipped, anything else unknown refuses it. */
  method DecodeBase58(str: string) returns (ok: bool, vch: seq<nat>)
    ensures Decoded(CString(str)) == if ok then Some(vch) else None
  {
    hide Num, Pow, Digits, Letter, IndexOf, Decoded, Zeros;
    var psz := CString(str);
    vch := [];
    var i := SkipSpaces(psz, 0);
    var m := SkipOnes(psz, i);
    var zeroes, p := m - i, m;
    var size := (|psz| - p) * 733 / 1000 + 1;
    DecodeRoom(|psz| - p);
    var b256 := new nat[size](_ => 0);
    var length := 0;
    NumZeros(b256[..], 256);
    NumNothing(Values(psz[m..m]), 58);
    while p < |psz| && !IsSpace(psz[p])
      invariant m <= p <= |psz| && InAlphabet(psz[m..p]) && Buffer(b256[..], 256, length)
      invariant Num(b256[..], 256) == Num(Values(psz[m..p]), 58)
    {
      var ch := IndexOf(psz[p]);
      if ch == 58 {
        Refused(psz, i, p, p);
        return false, [];
      }
      OneMore(psz, m, p, |psz| - m, size);
      length := MulAdd(b256, length, 256, 58, ch);
      p := p + 1;
    }
    ghost var j := p;
    p := SkipSpaces(psz, p);
    if p != |psz| {
      SpaceIndex(psz[j]);
      Refused(psz, i, j, p);
      return false, [];
    }
    var k := Significant(b256, length, 256);
    Read(psz, i, m, j, b256[k..]);
    ok, vch := true, Zeros(zeroes) + b256[k..];
  }

  lemma OneMore(s: string, m: nat, p: nat, n: nat, size: nat)
    requires m <= p < |s| && InAlphabet(s[m..p]) && IndexOf(s[p]) < 58
    requires p + 1 - m <= n && Pow(58, n) <= Pow(256, size)
    ensures InAlphabet(s[m..p + 1])
    ensures Num(Values(s[m..p + 1]), 58) == 58 * Num(Values(s[m..p]), 58) + IndexOf(s[p]) < Pow(256, size)
  {
    hide Num, Pow, Letter, IndexOf;
    var t := s[m..p + 1];
    assert t == s[m..p] + [s[p]];
    assert InAlphabet(t);
    assert Values(t) == Values(s[m..p]) + [IndexOf(s[p])];
    NumAppend(Values(s[m..p]), IndexOf(s[p]), 58);
    Room(Values(t), 58, n, 256, size);
  }
}
