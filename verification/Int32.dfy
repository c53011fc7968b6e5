/** 32-bit two's complement arithmetic as the compiled C programs use it: every result wraps. */
module Int32s {
  import opened Arithmetics

  type Int32 = x: int | -0x8000_0000 <= x < 0x8000_0000

  function Wrap32(x: int): Int32 {
    (x + TWO_31) % TWO_32 - TWO_31
  }

  lemma Fits(x: int)
    requires -TWO_31 <= x < TWO_31
    ensures Wrap32(x) == x
  {
  }

  lemma WrapTurns(x: int, k: int)
    ensures Wrap32(x + k * TWO_32) == Wrap32(x)
  {
  }

  lemma Turns(x: int) returns (k: int)
    ensures Wrap32(x) == x + k * TWO_32
  {
    k := -((x + TWO_31) / TWO_32);
  }

  /** Wrapping the parts of a sum or product first makes no difference to the wrapped result. */
  lemma WrapAdd(x: int, y: int)
    ensures Wrap32(Wrap32(x) + y) == Wrap32(x + y)
    ensures Wrap32(y + Wrap32(x)) == Wrap32(x + y)
  {
    var k := Turns(x);
    assert Wrap32(x) + y == (x + y) + k * TWO_32;
    WrapTurns(x + y, k);
  }

  lemma WrapNeg(x: int)
    ensures Wrap32(0 - Wrap32(x)) == Wrap32(-x)
  {
    var k := Turns(x);
    assert 0 - Wrap32(x) == -x + (-k) * TWO_32;
    WrapTurns(-x, -k);
  }

  lemma WrapMul(x: int, y: int)
    ensures Wrap32(Wrap32(x) * y) == Wrap32(x * y)
  {
    var k := Turns(x);
    assert Wrap32(x) * y == x * y + (k * y) * TWO_32 by {
      assert (x + k * TWO_32) * y == x * y + (k * TWO_32) * y;
      assert (k * TWO_32) * y == (k * y) * TWO_32;
    }
    WrapTurns(x * y, k * y);
  }
}
