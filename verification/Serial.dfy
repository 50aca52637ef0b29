/** Endpoint serials: a 64-bit counter rendered as sixteen hexadecimal digits. */
module Serial {

  const WIDTH := 16
  const UINT64 := 0x1_0000_0000_0000_0000

  const DIGITS := "0123456789abcdef"

  /** The last `width` hexadecimal digits of n. */
  function Hex(n: nat, width: nat): (s: string)
    ensures |s| == width
  {
    if width == 0 then "" else Hex(n / 16, width - 1) + [DIGITS[n % 16]]
  }

  function Rendered(n: nat): (s: string)
    ensures |s| == WIDTH
  {
    Hex(n, WIDTH)
  }

  function DigitValue(c: char): nat {
    if '0' <= c <= '9' then c as nat - '0' as nat else if 'a' <= c <= 'f' then c as nat - 'a' as nat + 10 else 0
  }

  function Value(s: string): nat {
    if s == "" then 0 else 16 * Value(s[..|s| - 1]) + DigitValue(s[|s| - 1])
  }

  function Pow16(width: nat): nat {
    if width == 0 then 1 else 16 * Pow16(width - 1)
  }

  lemma {:induction false} ValueOfHex(n: nat, width: nat)
    requires n < Pow16(width)
    ensures Value(Hex(n, width)) == n
  {
    if width > 0 {
      ValueOfHex(n / 16, width - 1);
      assert Hex(n, width)[..width - 1] == Hex(n / 16, width - 1);
      assert DigitValue(DIGITS[n % 16]) == n % 16;
    }
  }

  lemma {:induction false} SixteenDigits()
    ensures Pow16(WIDTH) == UINT64
  {
    assert Pow16(4) == 0x1_0000;
    assert Pow16(8) == 0x1_0000_0000;
    assert Pow16(12) == 0x1_0000_0000_0000;
  }

  /** Two different 64-bit counts never render alike. */
  lemma {:induction false} RenderedInjective(m: nat, n: nat)
    requires m < UINT64 && n < UINT64 && Rendered(m) == Rendered(n)
    ensures m == n
  {
    SixteenDigits();
    ValueOfHex(m, WIDTH);
    ValueOfHex(n, WIDTH);
  }

  /** zmqBridge_generateSerial on the counter it is given. */
  class Counter {
    var id: nat

    constructor ()
      ensures id == 0
    {
      id := 0;
    }

    method GenerateSerial() returns (serial: string)
      requires id < UINT64
      modifies this
      ensures id == (old(id) + 1) % UINT64
      ensures serial == Rendered(id)
    {
      id := (id + 1) % UINT64;
      serial := Hex(id, WIDTH);
    }
  }
}
