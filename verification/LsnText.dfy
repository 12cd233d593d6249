/** LSNs as PostgreSQL writes them: two hexadecimal halves around a slash. */
module LsnText {
  import opened Wrappers

  function Digit(d: nat): (c: char)
    requires d < 16
    ensures c == "0123456789ABCDEF"[d]
  {
    if d < 10 then ('0' as int + d) as char else ('A' as int + d - 10) as char
  }

  /** `v` in upper-case hexadecimal, without leading zeros. */
  function Hex(v: nat): (text: string) {
    if v < 16 then [Digit(v)] else Hex(v / 16) + [Digit(v % 16)]
  }

  function LsnTextOf(lsn: bv64): string {
    Hex((lsn >> 32) as nat) + "/" + Hex((lsn & 0xFFFF_FFFF) as nat)
  }

  function DigitValue(c: char): Option<nat> {
    if '0' <= c <= '9' then Some(c as int - '0' as int)
    else if 'A' <= c <= 'F' then Some(c as int - 'A' as int + 10)
    else if 'a' <= c <= 'f' then Some(c as int - 'a' as int + 10)
    else None
  }

  const U64_RANGE: nat := 0x1_0000_0000_0000_0000

  /** The digits of `text`, most significant first; overflow of 64 bits is no number. */
  function HexValue(text: string): (v: Option<nat>)
    ensures v.Some? ==> v.value < U64_RANGE
  {
    if text == [] then Some(0)
    else
      var front, last := HexValue(text[..|text| - 1]), DigitValue(text[|text| - 1]);
      if front.Some? && last.Some? && 16 * front.value + last.value < U64_RANGE
      then Some(16 * front.value + last.value) else None
  }

  /** An unsigned 64-bit number in base 16: an optional `+`, then at least one digit. */
  function FromHex(text: string): (v: Option<nat>)
    ensures v.Some? ==> v.value < U64_RANGE
  {
    var digits := if text != [] && text[0] == '+' then text[1..] else text;
    if digits == [] then None else HexValue(digits)
  }

  function SlashAt(text: string): (i: nat)
    ensures i <= |text| && (i < |text| ==> text[i] == '/')
  {
    if text == [] || text[0] == '/' then 0 else 1 + SlashAt(text[1..])
  }

  function ParseLsn(text: string): Option<bv64> {
    var i := SlashAt(text);
    if i == |text| then None
    else
      var high, low := FromHex(text[..i]), FromHex(text[i + 1..]);
      if high.Some? && low.Some? then Some(Joined(high.value, low.value))
      else None
  }

  lemma {:induction false} HexReads(v: nat)
    requires v < U64_RANGE
    ensures HexValue(Hex(v)) == Some(v)
    ensures Hex(v) != [] && '/' !in Hex(v) && Hex(v)[0] != '+'
  {
    if v < 16 {
      assert Hex(v)[..0] == [];
    } else {
      HexReads(v / 16);
      assert Hex(v)[..|Hex(v)| - 1] == Hex(v / 16);
    }
  }

  lemma {:induction false} SlashFound(a: string, b: string)
    requires '/' !in a
    ensures SlashAt(a + "/" + b) == |a|
  {
    if a != [] {
      SlashFound(a[1..], b);
      assert (a + "/" + b)[1..] == a[1..] + "/" + b;
    }
  }

  lemma BitsReadBack(b: bv64)
    ensures b as nat < U64_RANGE && (b as nat) as bv64 == b
  {
  }

  lemma HalvesJoin(lsn: bv64)
    ensures ((lsn >> 32) << 32) | (lsn & 0xFFFF_FFFF) == lsn
  {
  }

  function Joined(high: nat, low: nat): bv64
    requires high < U64_RANGE && low < U64_RANGE
  {
    ((high as bv64) << 32) | (low as bv64)
  }

  lemma ParseHalves(high: nat, low: nat)
    requires high < U64_RANGE && low < U64_RANGE
    ensures ParseLsn(Hex(high) + "/" + Hex(low)) == Some(Joined(high, low))
  {
    HexReads(high);
    HexReads(low);
    SlashFound(Hex(high), Hex(low));
    var text := Hex(high) + "/" + Hex(low);
    assert text[..|Hex(high)|] == Hex(high) && text[|Hex(high)| + 1..] == Hex(low);
  }

  lemma JoinedBits(high: bv64, low: bv64)
    ensures high as nat < U64_RANGE && low as nat < U64_RANGE
    ensures Joined(high as nat, low as nat) == (high << 32) | low
  {
    BitsReadBack(high);
    BitsReadBack(low);
  }

  /** Every 64-bit LSN is read back from its text. */
  lemma LsnRoundTrip(lsn: bv64)
    ensures ParseLsn(LsnTextOf(lsn)) == Some(lsn)
  {
    JoinedBits(lsn >> 32, lsn & 0xFFFF_FFFF);
    ParseHalves((lsn >> 32) as nat, (lsn & 0xFFFF_FFFF) as nat);
    HalvesJoin(lsn);
  }

  /** Digits and upper-case letters, with no zero in front of others. */
  predicate UpperHex(text: string) {
    && text != [] && (forall c :: c in text ==> '0' <= c <= '9' || 'A' <= c <= 'F')
    && (text[0] == '0' ==> |text| == 1)
  }

  lemma {:induction false} HexIsUpper(v: nat)
    ensures UpperHex(Hex(v)) && (v > 0 ==> Hex(v)[0] != '0')
  {
    if v >= 16 {
      HexIsUpper(v / 16);
      assert forall c :: c in Hex(v) ==> c in Hex(v / 16) || c == Digit(v % 16);
    }
  }

  /** The text of an LSN is its high half, one slash and its low half, in upper-case hexadecimal. */
  lemma LsnIsWritten(lsn: bv64) returns (high: string, low: string)
    ensures LsnTextOf(lsn) == high + "/" + low && UpperHex(high) && UpperHex(low)
    ensures HexValue(high) == Some((lsn >> 32) as nat) && HexValue(low) == Some((lsn & 0xFFFF_FFFF) as nat)
  {
    BitsReadBack(lsn >> 32);
    BitsReadBack(lsn & 0xFFFF_FFFF);
    high, low := Hex((lsn >> 32) as nat), Hex((lsn & 0xFFFF_FFFF) as nat);
    HexReads((lsn >> 32) as nat);
    HexReads((lsn & 0xFFFF_FFFF) as nat);
    HexIsUpper((lsn >> 32) as nat);
    HexIsUpper((lsn & 0xFFFF_FFFF) as nat);
  }
}
