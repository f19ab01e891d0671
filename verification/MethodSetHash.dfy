/**
The method-set hash that gates the capability handshake: FNV-1a with a 64-bit state (draft-eastlake-fnv,
section 2), written once in the client and once in the host contract.

Strings are sequences of UTF-16 code units, as in JavaScript, and the hash state is an unbounded integer that
is masked to 64 bits after each multiplication, as the BigInt code does. `localeCompare` is any total preorder
that separates the names at hand.
*/
module MethodSetHash {
  import Ordering

  type Byte = x: int | 0 <= x < 0x100
  type CodeUnit = x: int | 0 <= x < 0x1_0000
  type Name = seq<CodeUnit>

  const OFFSET_BASIS: nat := 0xcbf2_9ce4_8422_2325
  const PRIME: nat := 0x100_0000_01b3
  const PRIME_INVERSE: nat := 0xce96_5057_aff6_957b
  const TWO_64: nat := 0x1_0000_0000_0000_0000
  const SEPARATOR: Byte := 0xff

  // ---- One step of the fold ----

  /** Bitwise exclusive or of two integers. */
  function Xor(x: nat, y: nat): nat
    decreases x + y
  {
    if x == 0 && y == 0 then 0 else (if x % 2 == y % 2 then 0 else 1) + 2 * Xor(x / 2, y / 2)
  }

  function FnvStep(hash: nat, b: Byte): nat {
    (Xor(hash, b) * PRIME) % TWO_64
  }

  /** The step backwards: the prime is odd, so it has an inverse modulo 2^64. */
  function FnvUnstep(hash: nat, b: Byte): nat {
    Xor((hash * PRIME_INVERSE) % TWO_64, b)
  }

  function Fold(hash: nat, bytes: seq<Byte>): nat {
    if bytes == [] then hash else FnvStep(Fold(hash, bytes[..|bytes| - 1]), bytes[|bytes| - 1])
  }

  // ---- From names to bytes ----

  function Utf8(units: Name): seq<Byte> {
    if units == [] then []
    else
      var c := units[0];
      if c < 0x80 then [c] + Utf8(units[1..])
      else if c < 0x800 then [0xc0 + c / 0x40, 0x80 + c % 0x40] + Utf8(units[1..])
      else if 0xd800 <= c < 0xdc00 && |units| >= 2 && 0xdc00 <= units[1] < 0xe000 then
        var p: int := 0x1_0000 + (c - 0xd800) * 0x400 + (units[1] - 0xdc00);
        [0xf0 + p / 0x4_0000, 0x80 + p / 0x1000 % 0x40, 0x80 + p / 0x40 % 0x40, 0x80 + p % 0x40] + Utf8(units[2..])
      else if 0xd800 <= c < 0xe000 then [0xef, 0xbf, 0xbd] + Utf8(units[1..])
      else [0xe0 + c / 0x1000, 0x80 + c / 0x40 % 0x40, 0x80 + c % 0x40] + Utf8(units[1..])
  }

  /** `charCodeAt(index) & 0xff` for each index. */
  function LowBytes(units: Name): (r: seq<Byte>)
    ensures |r| == |units| && forall i | 0 <= i < |r| :: r[i] == units[i] % 0x100
  {
    seq(|units|, i requires 0 <= i < |units| => units[i] % 0x100)
  }

  function ClientBytes(names: seq<Name>): seq<Byte> {
    if names == [] then []
    else ClientBytes(names[..|names| - 1]) + Utf8(names[|names| - 1]) + [SEPARATOR]
  }

  function ContractBytes(names: seq<Name>): seq<Byte> {
    if names == [] then []
    else ContractBytes(names[..|names| - 1]) + LowBytes(names[|names| - 1]) + [SEPARATOR]
  }

  predicate Ascii(name: Name) {
    forall i | 0 <= i < |name| :: name[i] < 0x80
  }

  predicate AllAscii(names: seq<Name>) {
    forall i | 0 <= i < |names| :: Ascii(names[i])
  }

  // ---- Hexadecimal ----

  const HEX_DIGITS := "0123456789abcdef"

  function ToHex(n: nat): string {
    if n < 16 then [HEX_DIGITS[n]] else ToHex(n / 16) + [HEX_DIGITS[n % 16]]
  }

  function PadStart(s: string, width: nat): string
    decreases width - |s|
  {
    if |s| < width then PadStart("0" + s, width) else s
  }

  function Hex16(n: nat): string {
    PadStart(ToHex(n), 16)
  }

  // ---- Normalising the names ----

  /** White space and line terminators, as `trim` sees them. */
  predicate IsSpace(c: CodeUnit) {
    || 9 <= c <= 13 || c == 0x20 || c == 0xa0 || c == 0x1680 || 0x2000 <= c <= 0x200a || 0x2028 <= c <= 0x2029
    || c == 0x202f || c == 0x205f || c == 0x3000 || c == 0xfeff
  }

  function Trim(name: Name): Name {
    if name == [] then []
    else if IsSpace(name[0]) then Trim(name[1..])
    else if IsSpace(name[|name| - 1]) then Trim(name[..|name| - 1])
    else name
  }

  function TrimmedNonEmpty(entries: seq<Name>): seq<Name> {
    if entries == [] then []
    else
      var t := Trim(entries[|entries| - 1]);
      TrimmedNonEmpty(entries[..|entries| - 1]) + if t == [] then [] else [t]
  }

  /** The distinct elements in order of first appearance, as a JavaScript set keeps them. */
  function Distinct(entries: seq<Name>): (r: seq<Name>)
    ensures forall n :: n in r <==> n in entries
    ensures forall i, j | 0 <= i < j < |r| :: r[i] != r[j]
  {
    if entries == [] then []
    else
      var before, last := Distinct(entries[..|entries| - 1]), entries[|entries| - 1];
      if last in before then before else before + [last]
  }

  function ClientHash(methods: seq<Name>, leq: (Name, Name) -> bool): string {
    Hex16(Fold(OFFSET_BASIS, ClientBytes(Ordering.Sort(methods, leq))))
  }

  function ContractHash(entries: seq<Name>, leq: (Name, Name) -> bool): string {
    Hex16(Fold(OFFSET_BASIS, ContractBytes(Ordering.Sort(Distinct(TrimmedNonEmpty(entries)), leq))))
  }

  // ---- The two implementations ----

  /** The two assignments both loops repeat for each byte. */
  method Absorb(hash: nat, b: Byte) returns (next: nat)
    ensures next == FnvStep(hash, b)
  {
    next := Xor(hash, b);
    next := (next * PRIME) % TWO_64;
  }

  method AbsorbUtf8(hash: nat, name: Name) returns (next: nat)
    ensures next == Fold(hash, Utf8(name) + [SEPARATOR])
  {
    var bytes := Utf8(name);
    next := hash;
    for j := 0 to |bytes|
      invariant next == Fold(hash, bytes[..j])
    {
      assert bytes[..j + 1] == bytes[..j] + [bytes[j]];
      FoldSnoc(hash, bytes[..j], bytes[j]);
      next := Absorb(next, bytes[j]);
    }
    assert bytes[..|bytes|] == bytes;
    FoldSnoc(hash, bytes, SEPARATOR);
    next := Absorb(next, SEPARATOR);
  }

  method AbsorbCharCodes(hash: nat, name: Name) returns (next: nat)
    ensures next == Fold(hash, LowBytes(name) + [SEPARATOR])
  {
    ghost var bytes := LowBytes(name);
    next := hash;
    for index := 0 to |name|
      invariant next == Fold(hash, bytes[..index])
    {
      assert bytes[..index + 1] == bytes[..index] + [bytes[index]];
      FoldSnoc(hash, bytes[..index], bytes[index]);
      next := Absorb(next, name[index] % 0x100);
    }
    assert bytes[..|bytes|] == bytes;
    FoldSnoc(hash, bytes, SEPARATOR);
    next := Absorb(next, SEPARATOR);
  }

  method ComputeRuntimeRpcMethodSetHash(methods: seq<Name>, leq: (Name, Name) -> bool) returns (hex: string)
    ensures hex == ClientHash(methods, leq)
  {
    var entries := Ordering.Sort(methods, leq);
    var hash := OFFSET_BASIS;
    for i := 0 to |entries|
      invariant hash == Fold(OFFSET_BASIS, ClientBytes(entries[..i]))
    {
      OneMoreEntry(entries, i);
      hash := AbsorbUtf8(hash, entries[i]);
    }
    assert entries[..|entries|] == entries;
    hex := Hex16(hash);
  }

  method ComputeCodeRuntimeRpcMethodSetHash(methods: seq<Name>, leq: (Name, Name) -> bool) returns (hex: string)
    ensures hex == ContractHash(methods, leq)
  {
    var normalized := Ordering.Sort(Distinct(TrimmedNonEmpty(methods)), leq);
    var hash := OFFSET_BASIS;
    for i := 0 to |normalized|
      invariant hash == Fold(OFFSET_BASIS, ContractBytes(normalized[..i]))
    {
      OneMoreEntry(normalized, i);
      hash := AbsorbCharCodes(hash, normalized[i]);
    }
    assert normalized[..|normalized|] == normalized;
    hex := Hex16(hash);
  }

  /** Both folds take up the bytes of one more name. */
  lemma {:induction false} OneMoreEntry(names: seq<Name>, i: nat)
    requires i < |names|
    ensures Fold(OFFSET_BASIS, ClientBytes(names[..i + 1]))
            == Fold(Fold(OFFSET_BASIS, ClientBytes(names[..i])), Utf8(names[i]) + [SEPARATOR])
    ensures Fold(OFFSET_BASIS, ContractBytes(names[..i + 1]))
            == Fold(Fold(OFFSET_BASIS, ContractBytes(names[..i])), LowBytes(names[i]) + [SEPARATOR])
  {
    assert names[..i + 1][..i] == names[..i];
    FoldThrice(OFFSET_BASIS, ClientBytes(names[..i]), Utf8(names[i]), [SEPARATOR]);
    FoldThrice(OFFSET_BASIS, ContractBytes(names[..i]), LowBytes(names[i]), [SEPARATOR]);
  }

  lemma {:induction false} FoldThrice(hash: nat, a: seq<Byte>, b: seq<Byte>, c: seq<Byte>)
    ensures Fold(hash, a + b + c) == Fold(Fold(hash, a), b + c)
  {
    assert a + b + c == a + (b + c);
    FoldConcat(hash, a, b + c);
  }

  lemma {:induction false} FoldSnoc(hash: nat, bytes: seq<Byte>, b: Byte)
    ensures Fold(hash, bytes + [b]) == FnvStep(Fold(hash, bytes), b)
  {
    assert (bytes + [b])[..|bytes|] == bytes;
  }

  // ---- The step is a bijection on 64-bit states ----

  lemma {:induction false} XorBits(x: nat, y: nat)
    ensures Xor(x, y) % 2 == (if x % 2 == y % 2 then 0 else 1) && Xor(x, y) / 2 == Xor(x / 2, y / 2)
  {
  }

  lemma {:induction false} XorCancels(x: nat, y: nat)
    ensures Xor(Xor(x, y), y) == x
    decreases x + y
  {
    if x != 0 || y != 0 {
      XorBits(x, y);
      XorBits(Xor(x, y), y);
      XorCancels(x / 2, y / 2);
    }
  }

  lemma {:induction false} XorCommutes(x: nat, y: nat)
    ensures Xor(x, y) == Xor(y, x)
    decreases x + y
  {
    if x != 0 || y != 0 { XorCommutes(x / 2, y / 2); }
  }

  function Pow(base: nat, k: nat): nat {
    if k == 0 then 1 else base * Pow(base, k - 1)
  }

  lemma {:induction false} PowAdds(base: nat, m: nat, n: nat)
    ensures Pow(base, m + n) == Pow(base, m) * Pow(base, n)
  {
    if m > 0 {
      PowAdds(base, m - 1, n);
      assert base * (Pow(base, m - 1) * Pow(base, n)) == (base * Pow(base, m - 1)) * Pow(base, n);
    }
  }

  lemma {:induction false} TwoToThe64()
    ensures Pow(2, 64) == TWO_64 && Pow(16, 16) == TWO_64
  {
    assert Pow(2, 1) == 2 && Pow(16, 1) == 16;
    PowAdds(2, 1, 1);
    PowAdds(2, 2, 2);
    PowAdds(2, 4, 4);
    PowAdds(2, 8, 8);
    PowAdds(2, 16, 16);
    PowAdds(2, 32, 32);
    PowAdds(16, 1, 1);
    PowAdds(16, 2, 2);
    PowAdds(16, 4, 4);
    PowAdds(16, 8, 8);
  }

  lemma {:induction false} XorFits(x: nat, y: nat, k: nat)
    requires x < Pow(2, k) && y < Pow(2, k)
    ensures Xor(x, y) < Pow(2, k)
  {
    if k > 0 {
      XorBits(x, y);
      XorFits(x / 2, y / 2, k - 1);
    }
  }

  lemma {:induction false} XorFits64(x: nat, b: Byte)
    requires x < TWO_64
    ensures Xor(x, b) < TWO_64
  {
    TwoToThe64();
    XorFits(x, b, 64);
  }

  lemma {:induction false} ResidueIs(x: nat, multiple: int, y: nat)
    requires x < TWO_64 && y == x + TWO_64 * multiple
    ensures y % TWO_64 == x
  {
  }

  /** Multiplying by p and then by q, with p * q = 1 modulo 2^64, changes nothing. */
  lemma {:induction false} MultiplyBack(x: nat, p: nat, q: nat, k: nat)
    requires x < TWO_64 && p * q == 1 + TWO_64 * k
    ensures ((x * p) % TWO_64 * q) % TWO_64 == x
  {
    var t := (x * p) / TWO_64;
    var y := (x * p) % TWO_64 * q;
    assert (x * p) % TWO_64 == x * p - t * TWO_64;
    assert y == x * (p * q) - t * TWO_64 * q == x + TWO_64 * (x * k - t * q);
    ResidueIs(x, x * k - t * q, y);
  }

  lemma {:induction false} StepIsBijective(hash: nat, b: Byte)
    requires hash < TWO_64
    ensures FnvStep(hash, b) < TWO_64 && FnvUnstep(FnvStep(hash, b), b) == hash
    ensures FnvUnstep(hash, b) < TWO_64 && FnvStep(FnvUnstep(hash, b), b) == hash
  {
    var k := PRIME * PRIME_INVERSE / TWO_64;
    XorFits64(hash, b);
    MultiplyBack(Xor(hash, b), PRIME, PRIME_INVERSE, k);
    XorCancels(hash, b);
    var h := (hash * PRIME_INVERSE) % TWO_64;
    XorFits64(h, b);
    XorCancels(h, b);
    MultiplyBack(hash, PRIME_INVERSE, PRIME, k);
  }

  /** From one state, different bytes lead to different states. */
  lemma {:induction false} StepSeparatesBytes(hash: nat, b: Byte, c: Byte)
    requires hash < TWO_64 && FnvStep(hash, b) == FnvStep(hash, c)
    ensures b == c
  {
    XorFits64(hash, b);
    XorFits64(hash, c);
    ProductsDiffer(Xor(hash, b), Xor(hash, c));
    XorSeparates(hash, b, c);
  }

  lemma {:induction false} ProductsDiffer(x: nat, y: nat)
    requires x < TWO_64 && y < TWO_64 && (x * PRIME) % TWO_64 == (y * PRIME) % TWO_64
    ensures x == y
  {
    var k := PRIME * PRIME_INVERSE / TWO_64;
    MultiplyBack(x, PRIME, PRIME_INVERSE, k);
    MultiplyBack(y, PRIME, PRIME_INVERSE, k);
  }

  lemma {:induction false} XorSeparates(hash: nat, b: nat, c: nat)
    requires Xor(hash, b) == Xor(hash, c)
    ensures b == c
  {
    XorCommutes(hash, b);
    XorCommutes(hash, c);
    XorCancels(b, hash);
    XorCancels(c, hash);
  }

  lemma {:induction false} StepIsInjective(g: nat, h: nat, b: Byte)
    requires g < TWO_64 && h < TWO_64
    ensures FnvStep(h, b) < TWO_64
    ensures FnvStep(g, b) == FnvStep(h, b) ==> g == h
  {
    StepIsBijective(g, b);
    StepIsBijective(h, b);
  }

  lemma {:induction false} FoldIsInjective(g: nat, h: nat, bytes: seq<Byte>)
    requires g < TWO_64 && h < TWO_64
    ensures Fold(h, bytes) < TWO_64
    ensures Fold(g, bytes) == Fold(h, bytes) ==> g == h
    decreases |bytes|
  {
    if bytes != [] {
      var before, last := bytes[..|bytes| - 1], bytes[|bytes| - 1];
      FoldIsInjective(g, h, before);
      FoldIsInjective(h, g, before);
      StepIsInjective(Fold(g, before), Fold(h, before), last);
    }
  }

  lemma {:induction false} FoldConcat(hash: nat, a: seq<Byte>, b: seq<Byte>)
    ensures Fold(hash, a + b) == Fold(Fold(hash, a), b)
  {
    if b == [] {
      assert a + b == a;
    } else {
      assert (a + b)[..|a + b| - 1] == a + b[..|b| - 1];
      FoldConcat(hash, a, b[..|b| - 1]);
    }
  }

  /** Byte strings that differ in one place only never collide. */
  lemma {:induction false} OneByteAlwaysTells(before: seq<Byte>, b: Byte, c: Byte, after: seq<Byte>)
    requires b != c
    ensures Fold(OFFSET_BASIS, before + [b] + after) != Fold(OFFSET_BASIS, before + [c] + after)
  {
    var h := Fold(OFFSET_BASIS, before);
    FoldIsInjective(OFFSET_BASIS, OFFSET_BASIS, before);
    FoldConcat(OFFSET_BASIS, before + [b], after);
    FoldConcat(OFFSET_BASIS, before + [c], after);
    FoldSnoc(OFFSET_BASIS, before, b);
    FoldSnoc(OFFSET_BASIS, before, c);
    StepIsBijective(h, b);
    StepIsBijective(h, c);
    FoldIsInjective(FnvStep(h, b), FnvStep(h, c), after);
    if FnvStep(h, b) == FnvStep(h, c) { StepSeparatesBytes(h, b, c); }
  }

  // ---- Sixteen hexadecimal digits that determine the state ----

  function FromHex(s: string): nat
    requires IsHex(s)
  {
    if s == "" then 0 else 16 * FromHex(s[..|s| - 1]) + DigitValue(s[|s| - 1])
  }

  function DigitValue(c: char): nat {
    if '0' <= c <= '9' then c as nat - '0' as nat else if 'a' <= c then c as nat - 'a' as nat + 10 else 0
  }

  predicate IsHexDigit(c: char) {
    '0' <= c <= '9' || 'a' <= c <= 'f'
  }

  predicate IsHex(s: string) {
    forall i | 0 <= i < |s| :: IsHexDigit(s[i])
  }

  lemma {:induction false} DigitReadsBack(d: nat)
    requires d < 16
    ensures IsHexDigit(HEX_DIGITS[d]) && DigitValue(HEX_DIGITS[d]) == d
  {
  }

  lemma {:induction false} FromHexSnoc(s: string, c: char)
    requires IsHex(s) && IsHexDigit(c)
    ensures IsHex(s + [c]) && FromHex(s + [c]) == 16 * FromHex(s) + DigitValue(c)
  {
    assert (s + [c])[..|s|] == s;
  }

  lemma {:induction false} DroppingADigit(n: nat, k: nat)
    requires 16 <= n < Pow(16, k)
    ensures k > 1 && n / 16 < Pow(16, k - 1)
  {
    assert Pow(16, 0) == 1 && Pow(16, 1) == 16;
  }

  lemma {:induction false} OneDigit(n: nat)
    requires n < 16
    ensures IsHex(ToHex(n)) && FromHex(ToHex(n)) == n && |ToHex(n)| == 1
  {
    DigitReadsBack(n);
    FromHexSnoc("", HEX_DIGITS[n]);
    assert "" + [HEX_DIGITS[n]] == [HEX_DIGITS[n]];
  }

  lemma {:induction false} ToHexReadsBack(n: nat)
    ensures IsHex(ToHex(n)) && FromHex(ToHex(n)) == n && ToHex(n) != ""
  {
    if n < 16 {
      OneDigit(n);
    } else {
      ToHexReadsBack(n / 16);
      DigitReadsBack(n % 16);
      FromHexSnoc(ToHex(n / 16), HEX_DIGITS[n % 16]);
    }
  }

  lemma {:induction false} ToHexIsShort(n: nat, k: nat)
    requires k > 0 && n < Pow(16, k)
    ensures |ToHex(n)| <= k
  {
    if n >= 16 {
      DroppingADigit(n, k);
      ToHexIsShort(n / 16, k - 1);
    }
  }

  lemma {:induction false} LeadingZero(s: string)
    requires IsHex(s)
    ensures IsHex("0" + s) && FromHex("0" + s) == FromHex(s)
  {
    if s == "" {
      FromHexSnoc("", '0');
      assert "0" + s == "" + ['0'];
    } else {
      var before, last := s[..|s| - 1], s[|s| - 1];
      LeadingZero(before);
      FromHexSnoc("0" + before, last);
      assert "0" + s == ("0" + before) + [last];
    }
  }

  lemma {:induction false} PaddingReadsBack(s: string, width: nat)
    requires IsHex(s)
    ensures IsHex(PadStart(s, width)) && FromHex(PadStart(s, width)) == FromHex(s)
    ensures |PadStart(s, width)| == if |s| < width then width else |s|
    decreases width - |s|
  {
    if |s| < width {
      LeadingZero(s);
      PaddingReadsBack("0" + s, width);
    }
  }

  lemma {:induction false} Hex16ReadsBack(n: nat)
    requires n < TWO_64
    ensures |Hex16(n)| == 16 && IsHex(Hex16(n)) && FromHex(Hex16(n)) == n
  {
    TwoToThe64();
    ToHexReadsBack(n);
    ToHexIsShort(n, 16);
    PaddingReadsBack(ToHex(n), 16);
  }

  /** Both hashes are 16 hexadecimal digits. */
  lemma {:induction false} HashesAreSixteenDigits(names: seq<Name>, leq: (Name, Name) -> bool)
    ensures |ClientHash(names, leq)| == 16 && IsHex(ClientHash(names, leq))
    ensures |ContractHash(names, leq)| == 16 && IsHex(ContractHash(names, leq))
  {
    var a := ClientBytes(Ordering.Sort(names, leq));
    var b := ContractBytes(Ordering.Sort(Distinct(TrimmedNonEmpty(names)), leq));
    FoldIsInjective(OFFSET_BASIS, OFFSET_BASIS, a);
    FoldIsInjective(OFFSET_BASIS, OFFSET_BASIS, b);
    Hex16ReadsBack(Fold(OFFSET_BASIS, a));
    Hex16ReadsBack(Fold(OFFSET_BASIS, b));
  }

  // ---- The two byte streams ----

  /** A name encodes to its low bytes exactly when it is ASCII; any other name takes more bytes than code units. */
  lemma {:induction false} Utf8IsLowBytesForAscii(name: Name)
    ensures |Utf8(name)| >= |name|
    ensures Ascii(name) ==> Utf8(name) == LowBytes(name)
    ensures !Ascii(name) ==> |Utf8(name)| > |name|
  {
    if name != [] {
      Utf8IsLowBytesForAscii(name[1..]);
      if |name| >= 2 { Utf8IsLowBytesForAscii(name[2..]); }
      assert Ascii(name) <==> name[0] < 0x80 && Ascii(name[1..]);
      if Ascii(name) { assert LowBytes(name) == [name[0]] + LowBytes(name[1..]); }
    }
  }

  lemma {:induction false} StreamsAgreeExactlyOnAscii(names: seq<Name>)
    ensures |ClientBytes(names)| >= |ContractBytes(names)|
    ensures ClientBytes(names) == ContractBytes(names) <==> AllAscii(names)
    ensures !AllAscii(names) ==> |ClientBytes(names)| > |ContractBytes(names)|
  {
    if names != [] {
      StreamsAgreeExactlyOnAscii(names[..|names| - 1]);
      Utf8IsLowBytesForAscii(names[|names| - 1]);
      assert AllAscii(names) <==> AllAscii(names[..|names| - 1]) && Ascii(names[|names| - 1]);
    }
  }

  // ---- The implementations agree ----

  lemma {:induction false} SortKeepsAscii(names: seq<Name>, leq: (Name, Name) -> bool)
    requires Ordering.TotalPreorder(leq) && AllAscii(names)
    ensures AllAscii(Ordering.Sort(names, leq))
  {
    Ordering.SortSorts(names, leq);
    var s := Ordering.Sort(names, leq);
    forall i | 0 <= i < |s| ensures Ascii(s[i]) {
      assert s[i] in multiset(s);
      assert s[i] in names;
    }
  }

  /**
  For any enumeration of the set of trimmed non-empty names, and any list of entries that trims to that set, the
  client's hash and the contract's hash are the same string, whatever the order, repetitions and padding.
  */
  lemma {:induction false} ImplementationsAgree(methods: seq<Name>, entries: seq<Name>, leq: (Name, Name) -> bool)
    requires Ordering.TotalPreorder(leq) && Ordering.AntisymmetricOn(leq, multiset(methods))
    requires Ordering.NoDuplicates(methods) && AllAscii(methods)
    requires forall n :: n in methods <==> n in TrimmedNonEmpty(entries)
    ensures ClientHash(methods, leq) == ContractHash(entries, leq)
  {
    var normalized := Distinct(TrimmedNonEmpty(entries));
    Ordering.SameElementsSameMultiset(methods, normalized);
    Ordering.SortForgetsOrder(methods, normalized, leq);
    SortKeepsAscii(methods, leq);
    StreamsAgreeExactlyOnAscii(Ordering.Sort(methods, leq));
  }

  // ---- Beyond ASCII ----

  function OddBytes(bytes: seq<Byte>): nat {
    if bytes == [] then 0 else OddBytes(bytes[..|bytes| - 1]) + bytes[|bytes| - 1] % 2
  }

  lemma {:induction false} EvenDifference(n: int, x: int, j: int)
    requires n == 2 * j + x
    ensures n % 2 == x % 2
  {
  }

  lemma {:induction false} EvenModulus(x: nat)
    ensures (x * PRIME) % TWO_64 % 2 == x % 2
  {
    var y, q := x * PRIME, x * PRIME / TWO_64;
    assert y % TWO_64 == y - TWO_64 * q;
    EvenDifference(y % TWO_64, y, -(TWO_64 / 2 * q));
    EvenDifference(y, x, x * (PRIME / 2));
  }

  lemma {:induction false} StepParity(hash: nat, b: Byte)
    ensures FnvStep(hash, b) % 2 == (hash + b) % 2
  {
    XorBits(hash, b);
    EvenModulus(Xor(hash, b));
  }

  lemma {:induction false} ParityAdds(start: int, odd: int, state: int, b: int, next: int)
    requires state % 2 == (start + odd) % 2 && next % 2 == (state + b) % 2
    ensures next % 2 == (start + (odd + b % 2)) % 2
  {
  }

  /**
  The prime is odd and the modulus even, so each step adds the lowest bit of its byte to the lowest bit of the state.
  */
  lemma {:induction false} FoldParity(hash: nat, bytes: seq<Byte>)
    ensures Fold(hash, bytes) % 2 == (hash + OddBytes(bytes)) % 2
  {
    if bytes != [] {
      var before, b := bytes[..|bytes| - 1], bytes[|bytes| - 1];
      FoldParity(hash, before);
      StepParity(Fold(hash, before), b);
      ParityAdds(hash, OddBytes(before), Fold(hash, before), b, Fold(hash, bytes));
    }
  }

  lemma {:induction false} Hex16Separates(m: nat, n: nat)
    requires m < TWO_64 && n < TWO_64 && m != n
    ensures Hex16(m) != Hex16(n)
  {
    Hex16ReadsBack(m);
    Hex16ReadsBack(n);
  }

  lemma {:induction false} FoldFits(start: nat, bytes: seq<Byte>)
    requires start < TWO_64
    ensures Fold(start, bytes) < TWO_64
  {
    FoldIsInjective(start, start, bytes);
  }

  lemma {:induction false} ParitiesDiffer(start: int, a: int, b: int, x: int, y: int)
    requires a % 2 != b % 2 && x % 2 == (start + a) % 2 && y % 2 == (start + b) % 2
    ensures x != y
  {
  }

  lemma {:induction false} FoldsDifferByParity(start: nat, a: seq<Byte>, b: seq<Byte>)
    requires OddBytes(a) % 2 != OddBytes(b) % 2
    ensures Fold(start, a) != Fold(start, b)
  {
    FoldParity(start, a);
    FoldParity(start, b);
    ParitiesDiffer(start, OddBytes(a), OddBytes(b), Fold(start, a), Fold(start, b));
  }

  lemma {:induction false} ParitySeparates(a: seq<Byte>, b: seq<Byte>)
    requires OddBytes(a) % 2 != OddBytes(b) % 2
    ensures Hex16(Fold(OFFSET_BASIS, a)) != Hex16(Fold(OFFSET_BASIS, b))
  {
    FoldsDifferByParity(OFFSET_BASIS, a, b);
    FoldFits(OFFSET_BASIS, a);
    FoldFits(OFFSET_BASIS, b);
    Hex16Separates(Fold(OFFSET_BASIS, a), Fold(OFFSET_BASIS, b));
  }

  /**
  Outside ASCII the two hashes need not agree: they differ whenever one of the two byte streams has an even and the
  other an odd number of odd bytes.
  */
  lemma {:induction false} HashesDifferByParity(methods: seq<Name>, entries: seq<Name>, leq: (Name, Name) -> bool)
    requires OddBytes(ClientBytes(Ordering.Sort(methods, leq))) % 2
             != OddBytes(ContractBytes(Ordering.Sort(Distinct(TrimmedNonEmpty(entries)), leq))) % 2
    ensures ClientHash(methods, leq) != ContractHash(entries, leq)
  {
    ParitySeparates(ClientBytes(Ordering.Sort(methods, leq)),
                    ContractBytes(Ordering.Sort(Distinct(TrimmedNonEmpty(entries)), leq)));
  }

  lemma {:induction false} SortingOne(name: Name, leq: (Name, Name) -> bool)
    ensures Ordering.Sort([name], leq) == [name]
  {
    assert [name][1..] == [];
  }

  lemma {:induction false} OneTrimmedName(name: Name)
    requires name != [] && Trim(name) == name
    ensures Distinct(TrimmedNonEmpty([name])) == [name]
  {
    assert [name][..0] == [];
    assert TrimmedNonEmpty([name]) == [] + [name];
    assert Distinct([name]) == [] + [name];
  }

  lemma {:induction false} OddBytesOneMore(bytes: seq<Byte>, b: Byte)
    ensures OddBytes(bytes + [b]) == OddBytes(bytes) + b % 2
  {
    assert (bytes + [b])[..|bytes|] == bytes;
  }

  lemma {:induction false} LeadByteCounts(x: Byte, c: Byte)
    requires x % 2 == c % 2
    ensures OddBytes([0xc3, x, SEPARATOR]) == OddBytes([c, SEPARATOR]) + 1
  {
    assert [c] == [] + [c] && [c, SEPARATOR] == [c] + [SEPARATOR];
    assert [0xc3] == [] + [0xc3] && [0xc3, x] == [0xc3] + [x] && [0xc3, x, SEPARATOR] == [0xc3, x] + [SEPARATOR];
    OddBytesOneMore([], c);
    OddBytesOneMore([c], SEPARATOR);
    OddBytesOneMore([], 0xc3);
    OddBytesOneMore([0xc3], x);
    OddBytesOneMore([0xc3, x], SEPARATOR);
  }

  lemma {:induction false} BytesOfOneLetter(c: Byte, x: Byte)
    requires 0xc0 <= c && x == 0x80 + c % 0x40
    ensures ClientBytes([[c]]) == [0xc3, x, SEPARATOR]
    ensures ContractBytes([[c]]) == [c, SEPARATOR]
  {
    assert [[c]][..0] == [] && [c][1..] == [];
    assert c / 0x40 == 3;
    assert Utf8([c]) == [0xc3, x] + [];
    assert LowBytes([c]) == [c];
    assert ClientBytes([[c]]) == [] + Utf8([c]) + [SEPARATOR];
    assert ContractBytes([[c]]) == [] + LowBytes([c]) + [SEPARATOR];
  }

  /**
  On the accented letters from U+00C0 to U+00FF, such as a single e with an acute accent, the two hashes always
  differ.
  */
  lemma {:induction false} AccentedLettersSeparateTheHashes(c: Byte, leq: (Name, Name) -> bool)
    requires 0xc0 <= c
    ensures ClientHash([[c]], leq) != ContractHash([[c]], leq)
  {
    OneTrimmedName([c]);
    SortingOne([c], leq);
    BytesOfOneLetter(c, 0x80 + c % 0x40);
    LeadByteCounts(0x80 + c % 0x40, c);
    HashesDifferByParity([[c]], [[c]], leq);
  }

  // ---- Changing one byte of one name ----

  lemma {:induction false} ContractBytesConcat(a: seq<Name>, b: seq<Name>)
    ensures ContractBytes(a + b) == ContractBytes(a) + ContractBytes(b)
  {
    if b == [] {
      assert a + b == a && ContractBytes(a) + [] == ContractBytes(a);
    } else {
      var front, last := b[..|b| - 1], b[|b| - 1];
      ContractBytesConcat(a, front);
      ContractBytesSnoc(a + front, last);
      ContractBytesSnoc(front, last);
      assert (a + front) + [last] == a + b && front + [last] == b;
      var x, y, z := ContractBytes(a), ContractBytes(front), LowBytes(last) + [SEPARATOR];
      assert x + (y + z) == (x + y) + z;
    }
  }

  lemma {:induction false} ContractBytesSnoc(names: seq<Name>, name: Name)
    ensures ContractBytes(names + [name]) == ContractBytes(names) + (LowBytes(name) + [SEPARATOR])
  {
    assert (names + [name])[..|names|] == names;
  }

  lemma {:induction false} BytesAround(before: seq<Name>, head: Name, c: CodeUnit, tail: Name, after: seq<Name>)
    requires c < 0x80
    ensures ContractBytes(before + [head + [c] + tail] + after)
            == (ContractBytes(before) + LowBytes(head)) + [c] + (LowBytes(tail) + [SEPARATOR] + ContractBytes(after))
  {
    var name := head + [c] + tail;
    ContractBytesConcat(before + [name], after);
    ContractBytesConcat(before, [name]);
    BytesOfOne(name);
    assert LowBytes(name) == LowBytes(head) + [c] + LowBytes(tail);
    Regroup(ContractBytes(before), LowBytes(head), [c], LowBytes(tail), [SEPARATOR], ContractBytes(after));
  }

  lemma {:induction false} BytesOfOne(name: Name)
    ensures ContractBytes([name]) == LowBytes(name) + [SEPARATOR]
  {
    assert [name][..0] == [];
    assert ContractBytes([name]) == [] + LowBytes(name) + [SEPARATOR];
  }

  lemma {:induction false} Regroup<T>(a: seq<T>, b: seq<T>, c: seq<T>, d: seq<T>, e: seq<T>, f: seq<T>)
    ensures (a + ((b + c + d) + e)) + f == (a + b) + c + (d + e + f)
  {
    assert (a + ((b + c + d) + e)) + f == a + b + c + d + e + f;
    assert (a + b) + c + (d + e + f) == a + b + c + d + e + f;
  }

  /**
  Two sets of ASCII names whose sorted lists differ in one byte of one name always have different hashes.
  */
  lemma {:induction false} OneChangedByteChangesTheHash(xs: seq<Name>, ys: seq<Name>, leq: (Name, Name) -> bool,
                                      before: seq<Name>, head: Name, c: CodeUnit, d: CodeUnit, tail: Name,
                                      after: seq<Name>)
    requires c != d
    requires Ordering.Sort(xs, leq) == before + [head + [c] + tail] + after
    requires Ordering.Sort(ys, leq) == before + [head + [d] + tail] + after
    requires AllAscii(Ordering.Sort(xs, leq)) && AllAscii(Ordering.Sort(ys, leq))
    ensures ClientHash(xs, leq) != ClientHash(ys, leq)
  {
    var sx, sy := Ordering.Sort(xs, leq), Ordering.Sort(ys, leq);
    assert sx[|before|][|head|] == c && sy[|before|][|head|] == d;
    BytesAround(before, head, c, tail, after);
    BytesAround(before, head, d, tail, after);
    StreamsAgreeExactlyOnAscii(sx);
    StreamsAgreeExactlyOnAscii(sy);
    OneByteAlwaysTells(ContractBytes(before) + LowBytes(head), c, d,
                       LowBytes(tail) + [SEPARATOR] + ContractBytes(after));
    FoldIsInjective(OFFSET_BASIS, OFFSET_BASIS, ClientBytes(sx));
    FoldIsInjective(OFFSET_BASIS, OFFSET_BASIS, ClientBytes(sy));
    Hex16ReadsBack(Fold(OFFSET_BASIS, ClientBytes(sx)));
    Hex16ReadsBack(Fold(OFFSET_BASIS, ClientBytes(sy)));
  }

  /** The separator makes the byte stream of a list of ASCII names decodable: no two lists share one. */
  lemma {:induction false} StreamDeterminesNames(xs: seq<Name>, ys: seq<Name>)
    requires AllAscii(xs) && AllAscii(ys) && ContractBytes(xs) == ContractBytes(ys)
    ensures xs == ys
  {
    if xs != [] && ys != [] {
      var x, y := xs[|xs| - 1], ys[|ys| - 1];
      var p, q := ContractBytes(xs[..|xs| - 1]), ContractBytes(ys[..|ys| - 1]);
      LastNameIs(p, x, q, y);
      StreamDeterminesNames(xs[..|xs| - 1], ys[..|ys| - 1]);
      assert xs == xs[..|xs| - 1] + [x] && ys == ys[..|ys| - 1] + [y];
    }
  }

  predicate Terminated(bytes: seq<Byte>) {
    bytes == [] || bytes[|bytes| - 1] == SEPARATOR
  }

  lemma {:induction false} LastNameIs(p: seq<Byte>, x: Name, q: seq<Byte>, y: Name)
    requires Ascii(x) && Ascii(y) && Terminated(p) && Terminated(q)
    requires p + LowBytes(x) + [SEPARATOR] == q + LowBytes(y) + [SEPARATOR]
    ensures x == y && p == q
  {
    SplitAlike(p + LowBytes(x), [SEPARATOR], q + LowBytes(y), [SEPARATOR]);
    FrontOf(p, x);
    FrontOf(q, y);
    FrontIsUnique(p + LowBytes(x), |p|, |q|);
    FrontIsUnique(p + LowBytes(x), |q|, |p|);
    SplitAlike(p, LowBytes(x), q, LowBytes(y));
    LowBytesTell(x, y);
  }

  lemma {:induction false} SplitAlike<T>(a: seq<T>, b: seq<T>, c: seq<T>, d: seq<T>)
    requires a + b == c + d && (|a| == |c| || |b| == |d|)
    ensures a == c && b == d
  {
    assert a == (a + b)[..|a|] && c == (c + d)[..|c|];
    assert b == (a + b)[|a|..] && d == (c + d)[|c|..];
  }

  lemma {:induction false} LowBytesTell(x: Name, y: Name)
    requires Ascii(x) && Ascii(y) && LowBytes(x) == LowBytes(y)
    ensures x == y
  {
    forall i | 0 <= i < |x| ensures x[i] == y[i] {
      assert LowBytes(x)[i] == LowBytes(y)[i];
    }
  }

  /** The front of the bytes ends at the last separator. */
  ghost predicate IsFront(bytes: seq<Byte>, n: nat) {
    && n <= |bytes| && (n > 0 ==> bytes[n - 1] == SEPARATOR)
    && forall i | n <= i < |bytes| :: bytes[i] != SEPARATOR
  }

  lemma {:induction false} FrontOf(p: seq<Byte>, x: Name)
    requires Ascii(x) && Terminated(p)
    ensures IsFront(p + LowBytes(x), |p|)
  {
    var s := p + LowBytes(x);
    forall i | |p| <= i < |s| ensures s[i] != SEPARATOR {
      assert s[i] == LowBytes(x)[i - |p|];
    }
  }

  lemma {:induction false} FrontIsUnique(bytes: seq<Byte>, m: nat, n: nat)
    requires IsFront(bytes, m) && IsFront(bytes, n)
    ensures m <= n
  {
  }
}
