/** C's bitwise operators on 32-bit words, bit by bit on their values. */
module Words {
  const WORD: nat := 0x1_0000_0000

  type Word = x: int | 0 <= x < WORD

  function And(a: nat, b: nat): (r: nat)
    ensures r <= a && r <= b
  {
    if a == 0 || b == 0 then 0 else
      (if a % 2 == 1 && b % 2 == 1 then 1 else 0) + 2 * And(a / 2, b / 2)
  }

  function Or(a: nat, b: nat): (r: nat)
    ensures a <= r && b <= r <= a + b
  {
    if a == 0 then b else if b == 0 then a else
      (if a % 2 == 1 || b % 2 == 1 then 1 else 0) + 2 * Or(a / 2, b / 2)
  }

  function Not(a: Word): Word {
    WORD - 1 - a
  }

  /** The value of a word read as a C int. */
  function Signed(a: Word): int {
    if a < 0x8000_0000 then a else a - WORD
  }

  function Power2(n: nat): (r: nat)
    ensures r >= 1
  {
    if n == 0 then 1 else 2 * Power2(n - 1)
  }

  /** Or stays below any power of two both sides are below. */
  lemma {:induction false} OrBelow(a: nat, b: nat, k: nat)
    requires a < Power2(k) && b < Power2(k)
    ensures Or(a, b) < Power2(k)
  {
    if a != 0 && b != 0 && k > 0 {
      OrBelow(a / 2, b / 2, k - 1);
    }
  }

  lemma AndHalves(x: nat, h: nat)
    requires h % 2 == 1
    ensures And(x, h) == 2 * And(x / 2, h / 2) + x % 2
  {
  }

  lemma OrHalves(a: nat, b: nat)
    requires a % 2 == 0
    ensures Or(a, b) / 2 == Or(a / 2, b / 2) && Or(a, b) % 2 == b % 2
  {
  }

  /** A number within the low bits put into a network that leaves those bits clear
      comes back out of them. */
  lemma {:induction false} HostBits(net: nat, idx: nat, k: nat)
    requires And(net, Power2(k) - 1) == 0 && idx < Power2(k)
    ensures And(Or(net, idx), Power2(k) - 1) == idx
  {
    hide And, Or;
    if k > 0 {
      var h := Power2(k) - 1;
      assert h / 2 == Power2(k - 1) - 1 && h % 2 == 1;
      AndHalves(net, h);
      OrHalves(net, idx);
      AndHalves(Or(net, idx), h);
      HostBits(net / 2, idx / 2, k - 1);
    }
  }

  lemma {:induction false} LowBits(x: nat, k: nat)
    requires x < Power2(k)
    ensures And(x, Power2(k) - 1) == x
  {
    if k > 0 {
      var h := Power2(k) - 1;
      assert h / 2 == Power2(k - 1) - 1 && h % 2 == 1;
      LowBits(x / 2, k - 1);
    }
  }
}
