/**
 * Inventory entries (`Item` in lib/client_interfacer.py) and the bitmask of
 * status flags the client packs into one integer.
 *
 * Python's `flags & bit` and `flags | bit` work on unbounded two's-complement
 * integers. For a mask `2^i`, `(flags & 2^i) != 0` is bit `i` of
 * `floor(flags / 2^i)`, and Dafny's `/` by a positive divisor is floor
 * division, so the flags are modelled exactly on `int`.
 */
module Items {

  /** The ten flags, most significant first (0x0200 down to 0x0001). */
  datatype Flag = Unidentified | Magical | Cursed | Damned | Unpaid
                | Locked | Applied | Open | WasOpen | InvUpdated

  /** The position of a flag's bit in the mask. */
  function BitIndex(f: Flag): (i: nat)
    ensures i < 10
  {
    match f
    case Unidentified => 9
    case Magical => 8
    case Cursed => 7
    case Damned => 6
    case Unpaid => 5
    case Locked => 4
    case Applied => 3
    case Open => 2
    case WasOpen => 1
    case InvUpdated => 0
  }

  lemma BitIndexInjective(f: Flag, g: Flag)
    ensures BitIndex(f) == BitIndex(g) ==> f == g
  {
  }

  function Pow2(i: nat): (p: nat)
    ensures p >= 1
  {
    if i == 0 then 1 else 2 * Pow2(i - 1)
  }

  /** `(x & 2^i) != 0`. */
  predicate Bit(x: int, i: nat)
    decreases i
  {
    if i == 0 then x % 2 == 1 else Bit(x / 2, i - 1)
  }

  /** Dividing by 2 and then by `k` is dividing by `2 * k`. */
  lemma DivTwice(x: int, k: nat)
    requires k >= 1
    ensures (x / 2) / k == x / (2 * k)
  {
    var q, r := x / 2, x % 2;
    var a, b := q / k, q % k;
    assert q == k * a + b;
    assert x == (2 * k) * a + (2 * b + r);
    assert 0 <= 2 * b + r < 2 * k;
    DivOfDecomposition(x, 2 * k, a, 2 * b + r);
  }

  lemma DivOfDecomposition(x: int, d: nat, a: int, m: int)
    requires d >= 1 && 0 <= m < d && x == d * a + m
    ensures x / d == a
  {
    var a', m' := x / d, x % d;
    if a' < a {
      MulDistance(d, a', a);
      assert false;
    } else if a' > a {
      MulDistance(d, a, a');
      assert false;
    }
  }

  /** Two multiples of `d` with different factors are at least `d` apart. */
  lemma MulDistance(d: nat, lo: int, hi: int)
    requires lo < hi
    ensures d * lo + d <= d * hi
  {
    var n := hi - lo;
    assert d * hi == d * lo + d * n;
    MulAtLeast(d, n);
  }

  lemma {:induction false} MulAtLeast(d: nat, n: nat)
    requires n >= 1
    ensures d * n >= d
    decreases n
  {
    if n > 1 {
      MulAtLeast(d, n - 1);
      assert d * n == d * (n - 1) + d;
    }
  }

  /** `Bit` is Python's `(x & 2**i) != 0`: bit `i` of the floor quotient by `2**i`. */
  lemma {:induction false} BitQuotient(x: int, i: nat)
    ensures Bit(x, i) <==> (x / Pow2(i)) % 2 == 1
    decreases i
  {
    if i > 0 {
      BitQuotient(x / 2, i - 1);
      DivTwice(x, Pow2(i - 1));
    }
  }

  /** `x | 2^i` when `val` holds, `x & ~2^i` otherwise. */
  function SetBit(x: int, i: nat, val: bool): int {
    if val == Bit(x, i) then x
    else if val then x + Pow2(i)
    else x - Pow2(i)
  }

  /** Adding `2^i` to a number whose bit `i` is clear sets that bit and no other. */
  lemma {:induction false} BitOfAddPow2(x: int, i: nat, j: nat)
    requires !Bit(x, i)
    ensures Bit(x + Pow2(i), j) == (j == i || Bit(x, j))
    decreases i, j
  {
    if i == 0 {
      assert x % 2 == 0;
      if j > 0 {
        assert (x + 1) / 2 == x / 2;
      }
    } else {
      var k := Pow2(i - 1);
      assert Pow2(i) == 2 * k;
      assert (x + 2 * k) % 2 == x % 2;
      if j > 0 {
        assert (x + 2 * k) / 2 == x / 2 + k;
        BitOfAddPow2(x / 2, i - 1, j - 1);
      }
    }
  }

  /** Subtracting `2^i` from a number whose bit `i` is set clears that bit. */
  lemma {:induction false} BitOfSubPow2(x: int, i: nat)
    requires Bit(x, i)
    ensures !Bit(x - Pow2(i), i)
    decreases i
  {
    if i > 0 {
      var k := Pow2(i - 1);
      assert Pow2(i) == 2 * k;
      assert (x - 2 * k) / 2 == x / 2 - k;
      BitOfSubPow2(x / 2, i - 1);
    }
  }

  /** Setting or clearing bit `i` makes that bit `val` and leaves every other bit alone. */
  lemma SetBitSpec(x: int, i: nat, val: bool, j: nat)
    ensures Bit(SetBit(x, i, val), j) == if j == i then val else Bit(x, j)
  {
    if val != Bit(x, i) {
      if val {
        BitOfAddPow2(x, i, j);
      } else {
        BitOfSubPow2(x, i);
        BitOfAddPow2(x - Pow2(i), i, j);
      }
    }
  }

  /** Clearing a bit and then setting it again gives back the original flags, and vice versa. */
  lemma SetBitRestores(x: int, i: nat)
    ensures SetBit(SetBit(x, i, !Bit(x, i)), i, Bit(x, i)) == x
  {
    SetBitSpec(x, i, !Bit(x, i), i);
  }

  /** One entry of an item list: tag, stack size, weight, flags, client type, display name. */
  class Item {
    const tag: int
    const num: int
    const weight: int
    const clientType: int
    const name: string
    var flags: int

    constructor (tag: int, num: int, weight: int, flags: int, clientType: int, name: string)
      ensures this.tag == tag && this.num == num && this.weight == weight
      ensures this.flags == flags && this.clientType == clientType && this.name == name
    {
      this.tag := tag;
      this.num := num;
      this.weight := weight;
      this.flags := flags;
      this.clientType := clientType;
      this.name := name;
    }

    /** The getter properties `unidentified` .. `invUpdated`. */
    predicate Has(f: Flag): (b: bool)
      reads this
      ensures b <==> (flags / Pow2(BitIndex(f))) % 2 == 1
    {
      BitQuotient(flags, BitIndex(f));
      Bit(flags, BitIndex(f))
    }

    /** The setter properties `unidentified` .. `invUpdated`. */
    method Set(f: Flag, val: bool)
      modifies this
      ensures flags == SetBit(old(flags), BitIndex(f), val)
      ensures Has(f) == val
      ensures forall g :: g != f ==> Has(g) == old(Has(g))
    {
      flags := SetBit(flags, BitIndex(f), val);
      SetBitSpec(old(flags), BitIndex(f), val, BitIndex(f));
      forall g | g != f
        ensures Has(g) == old(Has(g))
      {
        BitIndexInjective(f, g);
        SetBitSpec(old(flags), BitIndex(f), val, BitIndex(g));
      }
    }
  }

  /** Flags 0x0110 report locked and magical and nothing else; clearing locked leaves 0x0100. */
  lemma LockedMagicalExample()
    ensures forall f :: Bit(0x0110, BitIndex(f)) <==> f == Locked || f == Magical
    ensures SetBit(0x0110, BitIndex(Locked), false) == 0x0100
  {
    assert !Bit(0x0110, 0) && !Bit(0x0110, 1) && !Bit(0x0110, 2) && !Bit(0x0110, 3);
    assert Bit(0x0110, 4) && !Bit(0x0110, 5) && !Bit(0x0110, 6) && !Bit(0x0110, 7);
    assert Bit(0x0110, 8) && !Bit(0x0110, 9);
    assert Pow2(4) == 16;
  }
}
