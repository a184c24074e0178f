/** `java.util.UUID` as the service uses it: a 128-bit value, its canonical
    text form (`toString` / `fromString`), its `hashCode`, and the order in
    which PostgreSQL compares `uuid` columns (unsigned, byte by byte, which is
    the numeric order of the 128-bit value). */
module Uuids {
  import opened Wrappers
  import opened Jvm

  const UUID_BOUND: int := 0x1_0000_0000_0000_0000_0000_0000_0000_0000

  type Uuid = x: nat | x < UUID_BOUND

  function Pow16(n: nat): (p: nat)
    ensures p >= 1
  {
    if n == 0 then 1 else 16 * Pow16(n - 1)
  }

  lemma Pow16Step(n: nat)
    ensures Pow16(n + 4) == 0x1_0000 * Pow16(n)
  {
    assert Pow16(n + 4) == 16 * Pow16(n + 3);
    assert Pow16(n + 3) == 16 * Pow16(n + 2);
    assert Pow16(n + 2) == 16 * Pow16(n + 1);
  }

  /** 32 hexadecimal digits hold exactly the 128-bit values. */
  lemma Pow16Of32()
    ensures Pow16(32) == UUID_BOUND
  {
    Pow16Step(0); Pow16Step(4); Pow16Step(8); Pow16Step(12);
    Pow16Step(16); Pow16Step(20); Pow16Step(24); Pow16Step(28);
  }

  /** The lower-case hexadecimal digit of `d`. */
  function HexDigit(d: nat): char
    requires d < 16
  {
    if d < 10 then ('0' as int + d) as char else ('a' as int + d - 10) as char
  }

  /** The value of a hexadecimal digit of either case, or None. */
  function DigitValue(c: char): (r: Option<nat>)
    ensures r.Some? ==> r.value < 16
  {
    if '0' <= c <= '9' then Some(c as int - '0' as int)
    else if 'a' <= c <= 'f' then Some(c as int - 'a' as int + 10)
    else if 'A' <= c <= 'F' then Some(c as int - 'A' as int + 10)
    else None
  }

  /** The last `n` hexadecimal digits of `x`, most significant first. */
  function Hex(x: nat, n: nat): (s: string)
    ensures |s| == n
  {
    if n == 0 then [] else Hex(x / 16, n - 1) + [HexDigit(x % 16)]
  }

  /** The value of a string of hexadecimal digits, or None if one is not a digit. */
  function ParseHex(s: string): (r: Option<nat>)
    ensures r.Some? ==> r.value < Pow16(|s|)
  {
    if s == [] then Some(0)
    else
      match (ParseHex(s[..|s| - 1]), DigitValue(s[|s| - 1]))
      case (Some(high), Some(d)) => Some(16 * high + d)
      case _ => None
  }

  lemma {:induction false} ParseHexOfHex(x: nat, n: nat)
    requires x < Pow16(n)
    ensures ParseHex(Hex(x, n)) == Some(x)
  {
    if n > 0 {
      var s := Hex(x, n);
      assert s[..n - 1] == Hex(x / 16, n - 1);
      ParseHexOfHex(x / 16, n - 1);
      var d := x % 16;
      assert DigitValue(HexDigit(d)) == Some(d);
    }
  }

  /** 32 digits grouped 8-4-4-4-12 with dashes between the groups. */
  function Grouped(h: string): (s: string)
    requires |h| == 32
    ensures |s| == 36
  {
    h[..8] + "-" + h[8..12] + "-" + h[12..16] + "-" + h[16..20] + "-" + h[20..]
  }

  /** `UUID.toString`: 32 lower-case hexadecimal digits grouped 8-4-4-4-12. */
  function ToString(u: Uuid): (s: string)
    ensures |s| == 36
  {
    Grouped(Hex(u, 32))
  }

  /** The digits of a 36-character canonical form with its four dashes removed. */
  function Digits(s: string): (d: string)
    requires |s| == 36
    ensures |d| == 32
  {
    s[..8] + s[9..13] + s[14..18] + s[19..23] + s[24..]
  }

  /** `UUID.fromString` on the canonical 36-character form (digits of either
      case); anything else is rejected, as Java rejects it with an
      IllegalArgumentException. */
  function FromString(s: string): (r: Option<Uuid>)
    ensures r.Some? ==> |s| == 36 && s[8] == s[13] == s[18] == s[23] == '-'
  {
    if |s| == 36 && s[8] == '-' && s[13] == '-' && s[18] == '-' && s[23] == '-' then
      match ParseHex(Digits(s))
      case Some(x) => Pow16Of32(); Some(x)
      case None => None
    else None
  }

  lemma DigitsOfGrouped(h: string)
    requires |h| == 32
    ensures Digits(Grouped(h)) == h
  {
    var s := Grouped(h);
    assert s[..8] == h[..8];
    assert s[9..13] == h[8..12];
    assert s[14..18] == h[12..16];
    assert s[19..23] == h[16..20];
    assert s[24..] == h[20..];
    assert h == h[..8] + h[8..12] + h[12..16] + h[16..20] + h[20..];
  }

  /** The canonical text form reads back as the same UUID. */
  lemma FromStringOfToString(u: Uuid)
    ensures FromString(ToString(u)) == Some(u)
  {
    var h := Hex(u, 32);
    DigitsOfGrouped(h);
    Pow16Of32();
    ParseHexOfHex(u, 32);
  }

  /** Two UUIDs with the same text are the same UUID. */
  lemma ToStringInjective(u: Uuid, v: Uuid)
    requires ToString(u) == ToString(v)
    ensures u == v
  {
    FromStringOfToString(u);
    FromStringOfToString(v);
  }

  /** The 32-bit word `k` (0 = least significant) of a UUID. */
  function Word(u: Uuid, k: nat): (w: bv32)
    requires k < 4
  {
    var shifted := if k == 0 then u else if k == 1 then u / 0x1_0000_0000
                   else if k == 2 then u / 0x1_0000_0000_0000_0000
                   else u / 0x1_0000_0000_0000_0000_0000_0000;
    (shifted % 0x1_0000_0000) as bv32
  }

  /** `UUID.hashCode`: `hilo = msb ^ lsb; (int)(hilo >> 32) ^ (int) hilo`, which
      is the exclusive or of the four 32-bit words. */
  function Hash(u: Uuid): Int {
    SignedInt(Word(u, 3) ^ Word(u, 2) ^ Word(u, 1) ^ Word(u, 0))
  }
}
