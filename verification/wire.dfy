/** Fixed-width integers as bytes, in network order unless it says otherwise. */
module Wire {
  import opened Basics

  type U32 = n: int | 0 <= n < 0x1_0000_0000

  /** Unsigned 32-bit addition. */
  function Add32(a: U32, b: U32): U32 {
    (a + b) % 0x1_0000_0000
  }

  function BE16(n: nat): seq<Byte> {
    [(n / 256) % 256, n % 256]
  }

  function BE24(n: nat): seq<Byte> {
    [(n / 65536) % 256, (n / 256) % 256, n % 256]
  }

  function BE32(n: nat): seq<Byte> {
    [(n / 16777216) % 256, (n / 65536) % 256, (n / 256) % 256, n % 256]
  }

  function LE32(n: nat): seq<Byte> {
    [n % 256, (n / 256) % 256, (n / 65536) % 256, (n / 16777216) % 256]
  }

  function Join16(a: Byte, b: Byte): nat {
    a * 256 + b
  }

  function Join24(a: Byte, b: Byte, c: Byte): nat {
    a * 65536 + b * 256 + c
  }

  function Join32(a: Byte, b: Byte, c: Byte, d: Byte): U32 {
    a * 16777216 + b * 65536 + c * 256 + d
  }

  /** Reading back what was written keeps the low bits. */
  lemma JoinBE16(n: nat)
    ensures Join16(BE16(n)[0], BE16(n)[1]) == n % 65536
  {
    var q := n / 256;
    assert n == q * 256 + n % 256 && q == q / 256 * 256 + q % 256;
    Remainder16(q / 256, q % 256 * 256 + n % 256, n);
  }

  lemma Remainder16(q: nat, r: nat, n: nat)
    requires n == q * 65536 + r && r < 65536
    ensures n % 65536 == r
  {
  }

  lemma JoinBE24(n: nat)
    ensures Join24(BE24(n)[0], BE24(n)[1], BE24(n)[2]) == n % 16777216
  {
    var q := n / 256;
    assert q / 256 == n / 65536;
    assert n == 256 * q + n % 256;
    JoinBE16(q);
    Remainder24(q / 65536, q % 65536 * 256 + n % 256, n);
  }

  lemma Remainder24(q: nat, r: nat, n: nat)
    requires n == q * 16777216 + r && r < 16777216
    ensures n % 16777216 == r
  {
  }

  lemma JoinBE32(n: nat)
    ensures Join32(BE32(n)[0], BE32(n)[1], BE32(n)[2], BE32(n)[3]) == n % 0x1_0000_0000
  {
    Quotients(n);
    var b := n / 65536;
    Remainder(b / 65536, b % 65536 * 65536 + n % 65536, n);
    JoinBE16(b);
    JoinBE16(n);
  }

  lemma Quotients(n: nat)
    ensures n / 65536 / 256 == n / 16777216
  {
    var a := n / 65536;
    assert 65536 * a <= n < 65536 * a + 65536;
    assert 256 * (a / 256) <= a < 256 * (a / 256) + 256;
  }

  lemma Remainder(q: nat, r: nat, n: nat)
    requires n == q * 0x1_0000_0000 + r && r < 0x1_0000_0000
    ensures n % 0x1_0000_0000 == r
  {
  }

  lemma JoinLE32(n: nat)
    ensures Join32(LE32(n)[3], LE32(n)[2], LE32(n)[1], LE32(n)[0]) == n % 0x1_0000_0000
  {
    JoinBE32(n);
  }

  /** Network order: the most significant byte comes first; little-endian is the reverse. */
  lemma BytesTell(n: U32)
    ensures var b := BE32(n);
            |b| == 4 && b[0] as int * 16777216 + b[1] as int * 65536 + b[2] as int * 256 + b[3] as int == n
    ensures var b := LE32(n);
            |b| == 4 && b[3] as int * 16777216 + b[2] as int * 65536 + b[1] as int * 256 + b[0] as int == n
    ensures n < 16777216 ==>
              var b := BE24(n); |b| == 3 && b[0] as int * 65536 + b[1] as int * 256 + b[2] as int == n
    ensures n < 65536 ==> var b := BE16(n); |b| == 2 && b[0] as int * 256 + b[1] as int == n
  {
    JoinBE32(n);
    JoinBE24(n);
    JoinBE16(n);
    Remainder(0, n, n);
  }

  /** The same where the bytes are found inside a longer stretch. */
  lemma JoinAt16(s: seq<Byte>, i: nat, n: nat)
    requires i + 2 <= |s| && s[i..i + 2] == BE16(n)
    ensures Join16(s[i], s[i + 1]) == n % 65536
  {
    var b := s[i..i + 2];
    assert b[0] == s[i] && b[1] == s[i + 1];
    JoinBE16(n);
  }

  lemma LittleAt32(s: seq<Byte>, i: nat, n: U32)
    requires i + 4 <= |s| && s[i..i + 4] == LE32(n)
    ensures Join32(s[i + 3], s[i + 2], s[i + 1], s[i]) == n
  {
    var b := s[i..i + 4];
    assert b[0] == s[i] && b[1] == s[i + 1] && b[2] == s[i + 2] && b[3] == s[i + 3];
    JoinLE32(n);
    Remainder(0, n, n);
  }

  lemma SmallAt16(s: seq<Byte>, i: nat, n: nat)
    requires i + 2 <= |s| && s[i..i + 2] == BE16(n) && n < 65536
    ensures Join16(s[i], s[i + 1]) == n
  {
    JoinAt16(s, i, n);
    Remainder16(0, n, n);
  }

  lemma JoinAt24(s: seq<Byte>, i: nat, n: nat)
    requires i + 3 <= |s| && s[i..i + 3] == BE24(n) && n < 16777216
    ensures Join24(s[i], s[i + 1], s[i + 2]) == n
  {
    var b := s[i..i + 3];
    assert b[0] == s[i] && b[1] == s[i + 1] && b[2] == s[i + 2];
    JoinBE24(n);
    Remainder24(0, n, n);
  }

  lemma JoinAt32(s: seq<Byte>, i: nat, n: U32)
    requires i + 4 <= |s| && s[i..i + 4] == BE32(n)
    ensures Join32(s[i], s[i + 1], s[i + 2], s[i + 3]) == n
  {
    var b := s[i..i + 4];
    Remainder(0, n, n);
    JoinBE32(n);
    assert b[0] == s[i] && b[1] == s[i + 1] && b[2] == s[i + 2] && b[3] == s[i + 3];
  }

  lemma JoinAtLE32(s: seq<Byte>, i: nat, n: U32)
    requires i + 4 <= |s| && s[i..i + 4] == LE32(n)
    ensures Join32(s[i + 3], s[i + 2], s[i + 1], s[i]) == n
  {
    var b := s[i..i + 4];
    Remainder(0, n, n);
    JoinLE32(n);
    assert b[0] == s[i] && b[1] == s[i + 1] && b[2] == s[i + 2] && b[3] == s[i + 3];
  }
}
