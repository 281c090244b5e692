/** Bytes as text in a JSON body: base64 (section 4 of RFC 4648), written by
    hand. */
module Base64 {
  import opened Basics

  /** The alphabet: upper case, lower case, digits, plus and slash. */
  function Letter(i: nat): char
    requires i < 64
  {
    if i < 26 then ('A' as int + i) as char
    else if i < 52 then ('a' as int + i - 26) as char
    else if i < 62 then ('0' as int + i - 52) as char
    else if i == 62 then '+'
    else '/'
  }

  /** The first place of a character in the alphabet from `i` on, or 64. */
  function PositionFrom(c: char, i: nat): (r: nat)
    requires i <= 64
    ensures i <= r <= 64 && (r < 64 ==> Letter(r) == c)
    ensures forall j :: i <= j < r ==> Letter(j) != c
    decreases 64 - i
  {
    if i == 64 || Letter(i) == c then i else PositionFrom(c, i + 1)
  }

  function Position(c: char): (r: nat)
    ensures r <= 64
  {
    PositionFrom(c, 0)
  }

  /** No letter is there twice, and the padding is none. */
  lemma LettersDiffer(i: nat, j: nat)
    requires i < 64 && j < 64
    ensures i != j ==> Letter(i) != Letter(j)
    ensures Letter(i) != '='
  {
  }

  lemma PositionFinds(i: nat)
    requires i < 64
    ensures Position(Letter(i)) == i && Letter(i) != '='
  {
    var r := Position(Letter(i));
    assert r <= i;
    LettersDiffer(r, i);
  }

  // ----- Writing -----

  function Byte(chunk: seq<u8>, i: nat): u8 {
    if i < |chunk| then chunk[i] else 0
  }

  function Word(chunk: seq<u8>): (n: nat)
    ensures n < 0x100_0000
  {
    Byte(chunk, 0) * 0x1_0000 + Byte(chunk, 1) * 0x100 + Byte(chunk, 2)
  }

  /** Four characters for up to three bytes. */
  function Quad(chunk: seq<u8>): (text: string)
    requires 0 < |chunk| <= 3
    ensures |text| == 4
  {
    var n := Word(chunk);
    [Letter(n / 0x4_0000 % 64),
     Letter(n / 0x1000 % 64),
     if |chunk| > 1 then Letter(n / 64 % 64) else '=',
     if |chunk| > 2 then Letter(n % 64) else '=']
  }

  function Encoded(bytes: seq<u8>): string {
    if bytes == [] then ""
    else if |bytes| <= 3 then Quad(bytes)
    else Quad(bytes[..3]) + Encoded(bytes[3..])
  }

  /** Table 1 of RFC 4648: three runs of letters and two signs. */
  lemma LettersAreTheAlphabet(i: nat)
    requires i < 64
    ensures Letter(0) == 'A' && Letter(25) == 'Z' && Letter(26) == 'a' && Letter(51) == 'z'
    ensures Letter(52) == '0' && Letter(61) == '9' && Letter(62) == '+' && Letter(63) == '/'
    ensures i != 25 && i != 51 && i < 61 ==> Letter(i + 1) as int == Letter(i) as int + 1
  {
  }

  /** Four letters that stand for a number of 24 bits, the first for its highest six. */
  ghost predicate Spells(text: string, n: nat) {
    exists a, b, c, d :: SpelledBy(text, n, a, b, c, d)
  }

  predicate SpelledBy(text: string, n: nat, a: nat, b: nat, c: nat, d: nat) {
    && a < 64 && b < 64 && c < 64 && d < 64
    && n == ((a * 64 + b) * 64 + c) * 64 + d
    && text == [Letter(a), Letter(b), Letter(c), Letter(d)]
  }

  lemma SixBits(n: nat)
    requires n < 0x100_0000
    ensures n == ((n / 0x4_0000 % 64 * 64 + n / 0x1000 % 64) * 64 + n / 64 % 64) * 64 + n % 64
  {
    assert n / 0x1000 == n / 64 / 64 && n / 0x4_0000 == n / 64 / 64 / 64;
  }

  /** Three bytes are spelled first to last. */
  lemma ThreeAreSpelled(chunk: seq<u8>)
    requires |chunk| == 3
    ensures Spells(Quad(chunk), chunk[0] as int * 0x1_0000 + chunk[1] as int * 0x100 + chunk[2] as int)
  {
    hide Letter;
    var n := Word(chunk);
    SixBits(n);
    assert SpelledBy(Quad(chunk), n, n / 0x4_0000 % 64, n / 0x1000 % 64, n / 64 % 64, n % 64);
  }

  /** Of fewer the rest counts as zero, and each byte that is missing is a padding sign
      instead of a letter. */
  lemma TwoAreSpelled(chunk: seq<u8>)
    requires |chunk| == 2
    ensures Spells(Quad(chunk)[..3] + "A", chunk[0] as int * 0x1_0000 + chunk[1] as int * 0x100)
    ensures Quad(chunk)[3..] == "="
  {
    LettersAreTheAlphabet(0);
    hide Letter;
    var n := Word(chunk);
    SixBits(n);
    LastIsZero(chunk[0] as int * 0x100 + chunk[1] as int);
    assert SpelledBy(Quad(chunk)[..3] + "A", n, n / 0x4_0000 % 64, n / 0x1000 % 64, n / 64 % 64, 0);
  }

  lemma OneIsSpelled(chunk: seq<u8>)
    requires |chunk| == 1
    ensures Spells(Quad(chunk)[..2] + "AA", chunk[0] as int * 0x1_0000)
    ensures Quad(chunk)[2..] == "=="
  {
    LettersAreTheAlphabet(0);
    hide Letter;
    var n := Word(chunk);
    SixBits(n);
    LastTwoAreZero(chunk[0]);
    assert SpelledBy(Quad(chunk)[..2] + "AA", n, n / 0x4_0000 % 64, n / 0x1000 % 64, 0, 0);
  }

  lemma LastIsZero(k: nat)
    ensures k * 0x100 % 64 == 0
  {
    assert k * 0x100 == k * 4 * 64;
  }

  lemma LastTwoAreZero(b: nat)
    ensures b * 0x1_0000 % 64 == 0 && b * 0x1_0000 / 64 % 64 == 0
  {
    assert b * 0x1_0000 == b * 0x400 * 64 && b * 0x400 == b * 16 * 64;
    assert b * 0x1_0000 / 64 == b * 0x400;
  }

  /** A text is its chunks of three bytes, in order. */
  lemma {:induction false} ChunkIsQuad(bytes: seq<u8>, k: nat)
    requires 3 * k < |bytes|
    ensures 4 * k + 4 <= |Encoded(bytes)|
    ensures Encoded(bytes)[4 * k..4 * k + 4] == Quad(bytes[3 * k..Min(3 * k + 3, |bytes|)])
    decreases k
  {
    if k > 0 {
      ChunkIsQuad(bytes[3..], k - 1);
      assert bytes[3..][3 * (k - 1)..Min(3 * (k - 1) + 3, |bytes[3..]|)] == bytes[3 * k..Min(3 * k + 3, |bytes|)];
    } else {
      assert |bytes| <= 3 ==> bytes[..|bytes|] == bytes;
    }
  }

  method Serialize(bytes: seq<u8>) returns (out: string)
    ensures out == Encoded(bytes)
  {
    out := "";
    var rest := bytes;
    while rest != []
      invariant out + Encoded(rest) == Encoded(bytes)
      decreases |rest|
    {
      var count := if |rest| > 3 then 3 else |rest|;
      ghost var before := out;
      assert |rest| <= 3 ==> rest[..count] == rest && rest[count..] == [];
      out := out + Quad(rest[..count]);
      assert before + Encoded(rest) == out + Encoded(rest[count..]);
      rest := rest[count..];
    }
  }

  // ----- Reading -----

  /** `acc` is never masked: what was read before stays in its upper bits until it
      is shifted out at the top. */
  datatype State = State(acc: u32, bits: nat, out: seq<u8>)

  function Power(bits: nat): (p: nat)
    ensures p > 0
  {
    if bits == 0 then 1 else 2 * Power(bits - 1)
  }

  function Read(s: State, c: char): (r: State)
    requires s.bits < 8
    ensures r.bits < 8
  {
    var v := Position(c);
    if v == 64 then s
    else
      var acc: u32 := (s.acc * 64 + v) % 0x1_0000_0000;
      var bits := s.bits + 6;
      if bits >= 8 then State(acc, bits - 8, s.out + [acc / Power(bits - 8) % 256])
      else State(acc, bits, s.out)
  }

  function DecodedFrom(s: State, text: string): seq<u8>
    requires s.bits < 8
    decreases |text|
  {
    if text == "" || text[0] == '=' then s.out
    else DecodedFrom(Read(s, text[0]), text[1..])
  }

  function Decoded(text: string): seq<u8> {
    DecodedFrom(State(0, 0, []), text)
  }

  /** What is no letter of the alphabet is passed over. */
  lemma {:induction false} OthersArePassedOver(s: State, before: string, c: char, after: string)
    requires s.bits < 8 && c != '=' && forall i: nat :: i < 64 ==> Letter(i) != c
    ensures DecodedFrom(s, before + [c] + after) == DecodedFrom(s, before + after)
    decreases |before|
  {
    var longer, shorter := before + [c] + after, before + after;
    if before == "" {
      assert longer[1..] == after && shorter == after;
      assert Position(c) == 64;
    } else {
      assert longer[1..] == before[1..] + [c] + after && shorter[1..] == before[1..] + after;
      if before[0] != '=' { OthersArePassedOver(Read(s, before[0]), before[1..], c, after); }
    }
  }

  /** What comes after a padding sign is not read. */
  lemma {:induction false} PaddingEnds(s: State, before: string, after: string)
    requires s.bits < 8
    ensures DecodedFrom(s, before + "=" + after) == DecodedFrom(s, before)
    decreases |before|
  {
    var longer := before + "=" + after;
    if before == "" {
      assert longer[0] == '=';
    } else {
      assert longer[1..] == before[1..] + "=" + after;
      if before[0] != '=' { PaddingEnds(Read(s, before[0]), before[1..], after); }
    }
  }

  method Deserialize(text: string) returns (out: seq<u8>)
    ensures out == Decoded(text)
  {
    hide Power;
    out := [];
    var acc: u32, bits := 0, 0;
    for i := 0 to |text|
      invariant 0 <= bits < 8
      invariant DecodedFrom(State(acc, bits, out), text[i..]) == Decoded(text)
    {
      assert text[i..][1..] == text[i + 1..];
      if text[i] == '=' {
        return;
      }
      var v := Position(text[i]);
      if v < 64 {
        acc := (acc * 64 + v) % 0x1_0000_0000;
        bits := bits + 6;
        if bits >= 8 {
          bits := bits - 8;
          out := out + [acc / Power(bits) % 256];
        }
      }
    }
  }

  // ----- There and back -----

  lemma DivMod(x: nat, q: nat, r: nat, m: nat)
    requires m > 0 && r < m && x == q * m + r
    ensures x % m == r && x / m == q
  {
    var d := x / m - q;
    assert d * m == r - x % m;
    Multiples(d, m);
  }

  lemma Multiples(d: int, m: nat)
    ensures d > 0 ==> d * m >= m
    ensures d < 0 ==> d * m + m <= 0
  {
  }

  lemma Collect(q: nat, k: nat, a: nat, m: nat)
    ensures q * (m * k) + a * m == (q * k + a) * m
  {
  }

  /** Cutting off at the top does not touch what is below. */
  lemma ModOfMod(x: nat, m: nat, k: nat, mk: nat)
    requires m > 0 && k > 0 && mk == m * k && mk > 0
    ensures x % mk % m == x % m
  {
    var q, r := x / mk, x % mk;
    var a, b := r / m, r % m;
    Collect(q, k, a, m);
    assert x == q * mk + r && r == a * m + b;
    DivMod(x, q * k + a, b, m);
  }

  lemma DivDiv(x: nat, m: nat, k: nat, mk: nat)
    requires m > 0 && k > 0 && mk == m * k && mk > 0
    ensures x / m / k == x / mk
  {
    var q, r := x / mk, x % mk;
    var a, b := r / m, r % m;
    Collect(q, k, a, m);
    assert x == q * mk + r && r == a * m + b;
    DivMod(x, q * k + a, b, m);
    SmallQuotient(r, m, k, mk);
    DivMod(q * k + a, q, a, k);
  }

  lemma SmallQuotient(r: nat, m: nat, k: nat, mk: nat)
    requires m > 0 && mk == m * k && r < mk
    ensures r / m < k
  {
    TimesIsMonotone(k, r / m, m);
  }

  lemma TimesIsMonotone(a: nat, b: nat, m: nat)
    ensures a <= b ==> a * m <= b * m
  {
  }

  /** Whatever is above, the lower bits are what was read last. */
  lemma LowBits(acc: u32, low: nat, v: nat, width: nat, k: nat)
    requires width > 0 && acc % width == low && v < 64 && k > 0 && (width * 64) * k == 0x1_0000_0000
    ensures (acc * 64 + v) % 0x1_0000_0000 % (width * 64) == low * 64 + v
  {
    var high, m := acc / width, width * 64;
    ModOfMod(acc * 64 + v, m, k, 0x1_0000_0000);
    assert acc == high * width + low;
    assert acc * 64 + v == high * m + (low * 64 + v);
    DivMod(acc * 64 + v, high, low * 64 + v, m);
  }

  lemma ByteAbove4(acc: nat, low: nat)
    requires acc % 0x1000 == low
    ensures acc / 16 % 256 == low / 16
  {
    var k := acc / 0x1000;
    assert acc == (k * 256 + low / 16) * 16 + low % 16;
    DivMod(acc, k * 256 + low / 16, low % 16, 16);
    DivMod(k * 256 + low / 16, k, low / 16, 256);
  }

  lemma ByteAbove2(acc: nat, low: nat)
    requires acc % 0x4_0000 == low
    ensures acc / 4 % 256 == low / 4 % 256
  {
    var k, h := acc / 0x4_0000, low / 4;
    assert acc == (k * 0x1_0000 + h) * 4 + low % 4;
    DivMod(acc, k * 0x1_0000 + h, low % 4, 4);
    assert k * 0x1_0000 + h == (k * 256 + h / 256) * 256 + h % 256;
    DivMod(k * 0x1_0000 + h, k * 256 + h / 256, h % 256, 256);
  }

  lemma ByteAbove0(acc: nat, low: nat)
    requires acc % 0x100_0000 == low
    ensures acc % 256 == low % 256
  {
    var k := acc / 0x100_0000;
    assert acc == (k * 0x1_0000 + low / 256) * 256 + low % 256;
    DivMod(acc, k * 0x1_0000 + low / 256, low % 256, 256);
  }

  lemma StepReads(s: State, i: nat)
    requires s.bits < 8 && i < 64
    ensures var acc: u32 := (s.acc * 64 + i) % 0x1_0000_0000;
            Read(s, Letter(i)) ==
            if s.bits < 2 then State(acc, s.bits + 6, s.out)
            else State(acc, s.bits - 2, s.out + [acc / Power(s.bits - 2) % 256])
  {
    PositionFinds(i);
  }

  /** What a word is made of. */
  lemma WordBytes(a: u8, b: u8, c: u8)
    ensures var n := a * 0x1_0000 + b * 0x100 + c;
            n / 0x1000 / 16 == a && n / 64 / 4 % 256 == b && n % 256 == c
  {
    var n := a * 0x1_0000 + b * 0x100 + c;
    DivDiv(n, 0x1000, 16, 0x1_0000);
    DivMod(n, a, b * 0x100 + c, 0x1_0000);
    DivDiv(n, 64, 4, 0x100);
    DivMod(n, a * 0x100 + b, c, 0x100);
    DivMod(a * 0x100 + b, a, b, 0x100);
  }

  /** A number in four sextets. */
  lemma WordSextets(n: nat) returns (i: nat, j: nat, k: nat, l: nat)
    requires n < 0x100_0000
    ensures i < 64 && j < 64 && k < 64 && l < 64
    ensures i == n / 0x4_0000 % 64 && j == n / 0x1000 % 64 && k == n / 64 % 64 && l == n % 64
    ensures i * 64 + j == n / 0x1000
    ensures (i * 64 + j) * 64 + k == n / 64
    ensures ((i * 64 + j) * 64 + k) * 64 + l == n
  {
    var a, b := n / 64, n / 0x1000;
    DivDiv(n, 64, 64, 0x1000);
    DivDiv(n, 0x1000, 64, 0x4_0000);
    SmallQuotient(n, 0x4_0000, 64, 0x100_0000);
    i := b / 64;
    j, k, l := b % 64, a % 64, n % 64;
    DivMod(i, 0, i, 64);
  }

  /** The four sextets of a quad, and what they add up to. */
  lemma Sextets(chunk: seq<u8>) returns (i: nat, j: nat, k: nat, l: nat)
    requires 0 < |chunk| <= 3
    ensures i < 64 && j < 64 && k < 64 && l < 64
    ensures Quad(chunk)[0] == Letter(i) && Quad(chunk)[1] == Letter(j)
    ensures |chunk| > 1 ==> Quad(chunk)[2] == Letter(k)
    ensures |chunk| > 2 ==> Quad(chunk)[3] == Letter(l)
    ensures (i * 64 + j) / 16 == Byte(chunk, 0)
    ensures ((i * 64 + j) * 64 + k) / 4 % 256 == Byte(chunk, 1)
    ensures (((i * 64 + j) * 64 + k) * 64 + l) % 256 == Byte(chunk, 2)
  {
    hide Letter;
    var n := Word(chunk);
    WordBytes(Byte(chunk, 0), Byte(chunk, 1), Byte(chunk, 2));
    i, j, k, l := WordSextets(n);
  }

  lemma StepText(s: State, i: nat, tail: string)
    requires s.bits < 8 && i < 64
    ensures DecodedFrom(s, [Letter(i)] + tail) == DecodedFrom(Read(s, Letter(i)), tail)
  {
    PositionFinds(i);
    assert ([Letter(i)] + tail)[1..] == tail;
  }

  /** The first two characters of a quad give its first byte. */
  lemma FirstByte(s: State, i: nat, j: nat, tail: string) returns (acc: u32)
    requires s.bits == 0 && i < 64 && j < 64
    ensures acc % 0x1000 == i * 64 + j
    ensures DecodedFrom(s, [Letter(i)] + ([Letter(j)] + tail))
         == DecodedFrom(State(acc, 4, s.out + [(i * 64 + j) / 16]), tail)
  {
    hide Read, DecodedFrom, Position, Letter;
    StepReads(s, i);
    StepText(s, i, [Letter(j)] + tail);
    var one := Read(s, Letter(i));
    StepReads(one, j);
    StepText(one, j, tail);
    var two := Read(one, Letter(j));
    LowBits(s.acc, 0, i, 1, 0x400_0000);
    LowBits(one.acc, i, j, 64, 0x10_0000);
    ByteAbove4(two.acc, i * 64 + j);
    assert Power(4) == 16;
    acc := two.acc;
  }

  lemma SecondByte(s: State, low: nat, k: nat, tail: string) returns (acc: u32)
    requires s.bits == 4 && s.acc % 0x1000 == low && k < 64
    ensures acc % 0x4_0000 == low * 64 + k
    ensures DecodedFrom(s, [Letter(k)] + tail)
         == DecodedFrom(State(acc, 2, s.out + [(low * 64 + k) / 4 % 256]), tail)
  {
    hide Read, DecodedFrom, Position, Letter;
    StepReads(s, k);
    StepText(s, k, tail);
    var one := Read(s, Letter(k));
    LowBits(s.acc, low, k, 0x1000, 0x4000);
    ByteAbove2(one.acc, low * 64 + k);
    assert Power(2) == 4;
    acc := one.acc;
  }

  lemma ThirdByte(s: State, low: nat, l: nat, tail: string) returns (acc: u32)
    requires s.bits == 2 && s.acc % 0x4_0000 == low && l < 64
    ensures DecodedFrom(s, [Letter(l)] + tail) == DecodedFrom(State(acc, 0, s.out + [(low * 64 + l) % 256]), tail)
  {
    hide Read, DecodedFrom, Position, Letter;
    StepReads(s, l);
    StepText(s, l, tail);
    var one := Read(s, Letter(l));
    LowBits(s.acc, low, l, 0x4_0000, 0x100);
    ByteAbove0(one.acc, low * 64 + l);
    assert Power(0) == 1;
    acc := one.acc;
  }

  /** A full quad gives back its bytes, whatever `acc` held before, and leaves the
      state as clean as it was. */
  lemma FullQuadDecodes(s: State, chunk: seq<u8>, tail: string) returns (acc: u32)
    requires s.bits == 0 && |chunk| == 3
    ensures DecodedFrom(s, Quad(chunk) + tail) == DecodedFrom(State(acc, 0, s.out + chunk), tail)
  {
    hide Read, DecodedFrom, Quad, Word, Letter;
    var q := Quad(chunk);
    var i, j, k, l := Sextets(chunk);
    assert q + tail == [q[0]] + ([q[1]] + ([q[2]] + ([q[3]] + tail)));
    var a := FirstByte(s, i, j, [q[2]] + ([q[3]] + tail));
    var b := SecondByte(State(a, 4, s.out + [chunk[0]]), i * 64 + j, k, [q[3]] + tail);
    acc := ThirdByte(State(b, 2, s.out + [chunk[0]] + [chunk[1]]), (i * 64 + j) * 64 + k, l, tail);
    assert s.out + [chunk[0]] + [chunk[1]] + [chunk[2]] == s.out + chunk;
  }

  /** A short one ends at its padding. */
  lemma ShortQuadDecodes(s: State, chunk: seq<u8>)
    requires s.bits == 0 && 0 < |chunk| < 3
    ensures DecodedFrom(s, Quad(chunk)) == s.out + chunk
  {
    hide Read, Word, Letter;
    var q := Quad(chunk);
    var i, j, k, l := Sextets(chunk);
    assert q == [q[0]] + ([q[1]] + [q[2], q[3]]);
    var a := FirstByte(s, i, j, [q[2], q[3]]);
    if |chunk| == 1 {
      assert s.out + [chunk[0]] == s.out + chunk;
    } else {
      assert [q[2], q[3]] == [q[2]] + [q[3]];
      var b := SecondByte(State(a, 4, s.out + [chunk[0]]), i * 64 + j, k, [q[3]]);
      assert s.out + [chunk[0]] + [chunk[1]] == s.out + chunk;
    }
  }

  lemma {:induction false} DecodesFrom(s: State, bytes: seq<u8>)
    requires s.bits == 0
    ensures DecodedFrom(s, Encoded(bytes)) == s.out + bytes
    decreases |bytes|
  {
    hide Read, Quad;
    if bytes == [] {
    } else if |bytes| < 3 {
      ShortQuadDecodes(s, bytes);
    } else if |bytes| == 3 {
      assert Quad(bytes) + "" == Quad(bytes);
      var acc := FullQuadDecodes(s, bytes, "");
    } else {
      var acc := FullQuadDecodes(s, bytes[..3], Encoded(bytes[3..]));
      DecodesFrom(State(acc, 0, s.out + bytes[..3]), bytes[3..]);
      assert s.out + bytes[..3] + bytes[3..] == s.out + bytes;
    }
  }

  /** Decoding an encoding gives the bytes back, for every length. */
  lemma RoundTrip(bytes: seq<u8>)
    ensures Decoded(Encoded(bytes)) == bytes
  {
    DecodesFrom(State(0, 0, []), bytes);
  }
}
