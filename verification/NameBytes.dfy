/** What the bytes and the texts that go into a method-set hash stand for. */
module NameBytes {
  import opened MethodSetHash

  // ---- UTF-8 reads back ----

  predicate IsHigh(c: CodeUnit) {
    0xd800 <= c < 0xdc00
  }

  predicate IsLow(c: CodeUnit) {
    0xdc00 <= c < 0xe000
  }

  /** The text with U+FFFD for each surrogate that is not part of a pair. */
  function Scrubbed(units: Name): Name {
    if units == [] then []
    else if IsHigh(units[0]) && |units| >= 2 && IsLow(units[1]) then units[..2] + Scrubbed(units[2..])
    else if IsHigh(units[0]) || IsLow(units[0]) then [0xfffd] + Scrubbed(units[1..])
    else [units[0]] + Scrubbed(units[1..])
  }

  /** A text whose surrogates all come in pairs is its own scrubbing. */
  ghost predicate Paired(units: Name) {
    if units == [] then true
    else if IsHigh(units[0]) && |units| >= 2 && IsLow(units[1]) then Paired(units[2..])
    else !IsHigh(units[0]) && !IsLow(units[0]) && Paired(units[1..])
  }

  lemma {:induction false} PairedIsScrubbed(units: Name)
    requires Paired(units)
    ensures Scrubbed(units) == units
  {
    if units != [] {
      if IsHigh(units[0]) && |units| >= 2 && IsLow(units[1]) {
        PairedIsScrubbed(units[2..]);
        assert units == units[..2] + units[2..];
      } else {
        PairedIsScrubbed(units[1..]);
        assert units == [units[0]] + units[1..];
      }
    }
  }

  /** The bits after the marker of a following byte. */
  function Tail(b: Byte): int {
    b % 0x40
  }

  function Unit(n: int): CodeUnit {
    if 0 <= n < 0x1_0000 then n else 0
  }

  /** Decoding as in section 3 of RFC 3629, into UTF-16 code units. */
  function Decode(bytes: seq<Byte>): Name
    decreases |bytes|
  {
    if bytes == [] then []
    else if bytes[0] < 0x80 then [bytes[0]] + Decode(bytes[1..])
    else if bytes[0] < 0xe0 && |bytes| >= 2 then
      [Unit((bytes[0] - 0xc0) * 0x40 + Tail(bytes[1]))] + Decode(bytes[2..])
    else if bytes[0] < 0xf0 && |bytes| >= 3 then
      [Unit((bytes[0] - 0xe0) * 0x1000 + Tail(bytes[1]) * 0x40 + Tail(bytes[2]))] + Decode(bytes[3..])
    else if |bytes| >= 4 then
      var p := (bytes[0] - 0xf0) * 0x4_0000 + Tail(bytes[1]) * 0x1000 + Tail(bytes[2]) * 0x40 + Tail(bytes[3])
               - 0x1_0000;
      [Unit(0xd800 + p / 0x400), Unit(0xdc00 + p % 0x400)] + Decode(bytes[4..])
    else []
  }

  lemma {:induction false} DecodeOne(b: Byte, rest: seq<Byte>)
    requires b < 0x80
    ensures Decode([b] + rest) == [b] + Decode(rest)
  {
    assert ([b] + rest)[1..] == rest;
  }

  lemma {:induction false} DecodeTwo(c: CodeUnit, rest: seq<Byte>)
    requires 0x80 <= c < 0x800
    ensures Decode([0xc0 + c / 0x40, 0x80 + c % 0x40] + rest) == [c] + Decode(rest)
  {
    var bytes: seq<Byte> := [0xc0 + c / 0x40, 0x80 + c % 0x40];
    assert (bytes + rest)[2..] == rest;
    assert Tail(0x80 + c % 0x40) == c % 0x40;
  }

  lemma {:induction false} DecodeThree(c: CodeUnit, rest: seq<Byte>)
    requires 0x800 <= c
    ensures Decode([0xe0 + c / 0x1000, 0x80 + c / 0x40 % 0x40, 0x80 + c % 0x40] + rest) == [c] + Decode(rest)
  {
    var bytes: seq<Byte> := [0xe0 + c / 0x1000, 0x80 + c / 0x40 % 0x40, 0x80 + c % 0x40];
    assert (bytes + rest)[3..] == rest;
    assert Tail(0x80 + c / 0x40 % 0x40) == c / 0x40 % 0x40 && Tail(0x80 + c % 0x40) == c % 0x40;
    assert c / 0x40 / 0x40 == c / 0x1000;
  }

  lemma {:induction false} DecodeFour(high: CodeUnit, low: CodeUnit, rest: seq<Byte>)
    requires IsHigh(high) && IsLow(low)
    ensures var p: int := 0x1_0000 + (high - 0xd800) * 0x400 + (low - 0xdc00);
            Decode([0xf0 + p / 0x4_0000, 0x80 + p / 0x1000 % 0x40, 0x80 + p / 0x40 % 0x40, 0x80 + p % 0x40] + rest)
            == [high, low] + Decode(rest)
  {
    var p: int := 0x1_0000 + (high - 0xd800) * 0x400 + (low - 0xdc00);
    var bytes: seq<Byte> := [0xf0 + p / 0x4_0000, 0x80 + p / 0x1000 % 0x40, 0x80 + p / 0x40 % 0x40, 0x80 + p % 0x40];
    assert (bytes + rest)[4..] == rest;
    FourParts(p);
    PairParts(high, low, p);
  }

  lemma {:induction false} FourParts(p: int)
    requires 0 <= p < 0x11_0000
    ensures p == p / 0x4_0000 * 0x4_0000 + p / 0x1000 % 0x40 * 0x1000 + p / 0x40 % 0x40 * 0x40 + p % 0x40
    ensures (0x80 + p / 0x1000 % 0x40) % 0x40 == p / 0x1000 % 0x40
    ensures (0x80 + p / 0x40 % 0x40) % 0x40 == p / 0x40 % 0x40 && (0x80 + p % 0x40) % 0x40 == p % 0x40
  {
    assert p / 0x40 / 0x40 == p / 0x1000 && p / 0x1000 / 0x40 == p / 0x4_0000;
  }

  lemma {:induction false} PairParts(high: CodeUnit, low: CodeUnit, p: int)
    requires IsHigh(high) && IsLow(low) && p == 0x1_0000 + (high - 0xd800) * 0x400 + (low - 0xdc00)
    ensures Unit(0xd800 + (p - 0x1_0000) / 0x400) == high && Unit(0xdc00 + (p - 0x1_0000) % 0x400) == low
  {
  }

  /** The bytes of a code unit on its own. */
  function Single(c: CodeUnit): seq<Byte> {
    if c < 0x80 then [c]
    else if c < 0x800 then [0xc0 + c / 0x40, 0x80 + c % 0x40]
    else if IsHigh(c) || IsLow(c) then [0xef, 0xbf, 0xbd]
    else [0xe0 + c / 0x1000, 0x80 + c / 0x40 % 0x40, 0x80 + c % 0x40]
  }

  /** The bytes of a pair of surrogates. */
  function Pair(high: CodeUnit, low: CodeUnit): seq<Byte>
    requires IsHigh(high) && IsLow(low)
  {
    var p: int := 0x1_0000 + (high - 0xd800) * 0x400 + (low - 0xdc00);
    [0xf0 + p / 0x4_0000, 0x80 + p / 0x1000 % 0x40, 0x80 + p / 0x40 % 0x40, 0x80 + p % 0x40]
  }

  predicate StartsWithPair(units: Name) {
    |units| >= 2 && IsHigh(units[0]) && IsLow(units[1])
  }

  lemma {:induction false} Utf8Unfolds(units: Name)
    requires units != []
    ensures Utf8(units) == if StartsWithPair(units) then Pair(units[0], units[1]) + Utf8(units[2..])
                           else Single(units[0]) + Utf8(units[1..])
  {
  }

  lemma {:induction false} DecodeSingle(c: CodeUnit, rest: seq<Byte>)
    ensures Decode(Single(c) + rest) == [if IsHigh(c) || IsLow(c) then 0xfffd else c] + Decode(rest)
  {
    if c < 0x80 {
      DecodeOne(c, rest);
    } else if c < 0x800 {
      DecodeTwo(c, rest);
    } else if IsHigh(c) || IsLow(c) {
      DecodeThree(0xfffd, rest);
    } else {
      DecodeThree(c, rest);
    }
  }

  /** Decoding the bytes of a name gives the name back, with lone surrogates replaced. */
  lemma {:induction false} Utf8ReadsBack(units: Name)
    ensures Decode(Utf8(units)) == Scrubbed(units)
  {
    if units != [] {
      Utf8Unfolds(units);
      if StartsWithPair(units) {
        Utf8ReadsBack(units[2..]);
        DecodeFour(units[0], units[1], Utf8(units[2..]));
        assert units[..2] == [units[0], units[1]];
      } else {
        Utf8ReadsBack(units[1..]);
        DecodeSingle(units[0], Utf8(units[1..]));
      }
    }
  }

  // ---- The fold's operations ----

  /** Bit k of a number. */
  function Bit(n: nat, k: nat): int {
    if k == 0 then n % 2 else Bit(n / 2, k - 1)
  }

  /** Each bit of the exclusive or is set exactly when it is set in one of the two. */
  lemma {:induction false} XorIsBitwise(x: nat, y: nat, k: nat)
    ensures Bit(Xor(x, y), k) == 1 <==> Bit(x, k) != Bit(y, k)
    ensures Bit(x, k) == 0 || Bit(x, k) == 1
  {
    if x == 0 && y == 0 {
      ZeroHasNoBits(k);
    } else if k > 0 {
      XorIsBitwise(x / 2, y / 2, k - 1);
      assert Xor(x, y) / 2 == Xor(x / 2, y / 2);
    }
  }

  lemma {:induction false} ZeroHasNoBits(k: nat)
    ensures Bit(0, k) == 0
  {
    if k > 0 {
      ZeroHasNoBits(k - 1);
    }
  }

  /** The constants of the 64-bit hash, in decimal as well. */
  lemma {:induction false} FoldIsFnv(hash: nat, b: Byte)
    ensures FnvStep(hash, b) == (Xor(hash, b) * 1099511628211) % 18446744073709551616
    ensures OFFSET_BASIS == 14695981039346656037 && SEPARATOR == 255
  {
  }

  // ---- The names ----

  /** Below 256 these are tab to carriage return, the space and the no-break space; above, eighteen more. */
  lemma {:induction false} SpacesAre(c: CodeUnit)
    ensures c < 0x100 ==> (IsSpace(c) <==> c == 9 || c == 10 || c == 11 || c == 12 || c == 13 || c == 32 || c == 160)
    ensures c >= 0x100 ==>
              (IsSpace(c) <==>
                 || c == 5760 || 8192 <= c <= 8202 || c == 8232 || c == 8233 || c == 8239 || c == 8287 || c == 12288
                 || c == 65279)
  {
  }

  ghost predicate AllSpaces(name: Name) {
    forall i | 0 <= i < |name| :: IsSpace(name[i])
  }

  lemma {:induction false} SpacesTogether(a: Name, b: Name)
    requires AllSpaces(a) && AllSpaces(b)
    ensures AllSpaces(a + b)
  {
  }

  lemma {:induction false} SpaceInFront(name: Name)
    requires name != [] && IsSpace(name[0])
    ensures Trim(name) == Trim(name[1..]) && name == [name[0]] + name[1..] && AllSpaces([name[0]])
  {
  }

  lemma {:induction false} SpaceBehind(name: Name)
    requires name != [] && !IsSpace(name[0]) && IsSpace(name[|name| - 1])
    ensures Trim(name) == Trim(name[..|name| - 1]) && name == name[..|name| - 1] + [name[|name| - 1]]
    ensures AllSpaces([name[|name| - 1]])
  {
  }

  lemma {:induction false} NoSpaces(name: Name)
    requires name != [] ==> !IsSpace(name[0]) && !IsSpace(name[|name| - 1])
    ensures Trim(name) == name && name == [] + name + [] && AllSpaces([])
  {
  }

  lemma {:induction false} Regrouped<T>(a: seq<T>, b: seq<T>, c: seq<T>, d: seq<T>)
    ensures a + (b + c + d) == (a + b) + c + d
    ensures (b + c + d) + a == b + c + (d + a)
  {
  }

  /** Trimming takes white space off both ends and nothing else, as far as it goes. */
  lemma {:induction false} TrimIsTheMiddle(name: Name) returns (front: Name, back: Name)
    ensures name == front + Trim(name) + back && AllSpaces(front) && AllSpaces(back)
    ensures Trim(name) != [] ==> !IsSpace(Trim(name)[0]) && !IsSpace(Trim(name)[|Trim(name)| - 1])
    decreases |name|
  {
    hide *;
    if name != [] && IsSpace(name[0]) {
      var inner;
      inner, back := TrimIsTheMiddle(name[1..]);
      front := [name[0]] + inner;
      SpaceInFront(name);
      SpacesTogether([name[0]], inner);
      Regrouped([name[0]], inner, Trim(name), back);
    } else if name != [] && IsSpace(name[|name| - 1]) {
      var n := |name| - 1;
      var inner;
      front, inner := TrimIsTheMiddle(name[..n]);
      back := inner + [name[n]];
      SpaceBehind(name);
      SpacesTogether(inner, [name[n]]);
      Regrouped([name[n]], front, Trim(name), inner);
    } else {
      front, back := [], [];
      NoSpaces(name);
    }
  }

  lemma {:induction false} TrimmedNamesAre(entries: seq<Name>, n: Name)
    ensures n in TrimmedNonEmpty(entries) <==> n != [] && IsTrimmedOf(entries, n)
  {
    hide Trim;
    if entries != [] {
      var before, last := entries[..|entries| - 1], entries[|entries| - 1];
      TrimmedNamesAre(before, n);
      if i :| 0 <= i < |entries| && Trim(entries[i]) == n && i < |before| {
        assert Trim(before[i]) == n;
      }
      if i :| 0 <= i < |before| && Trim(before[i]) == n {
        assert Trim(entries[i]) == n;
      }
    }
  }

  ghost predicate IsTrimmedOf(entries: seq<Name>, n: Name) {
    exists i | 0 <= i < |entries| :: Trim(entries[i]) == n
  }

  /** The contract hashes each name that some entry is once trimmed, unless nothing is left of it, and each once. */
  lemma {:induction false} HashedNamesAre(entries: seq<Name>, n: Name)
    ensures n in Distinct(TrimmedNonEmpty(entries)) <==> n != [] && IsTrimmedOf(entries, n)
  {
    TrimmedNamesAre(entries, n);
  }
}
