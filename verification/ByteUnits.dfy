/** Human-readable byte counts (cmd/wg.go). */
module ByteUnits {
  import opened Collections

  const UNIT := 1024
  const UNITS := "KMGTPE"

  function Power(e: nat): (p: nat)
    ensures p > 0
  {
    if e == 0 then 1 else UNIT * Power(e - 1)
  }

  lemma {:induction false} PowerGrows(e: nat, f: nat)
    requires e <= f
    ensures Power(e) <= Power(f)
  {
    if e < f {
      PowerGrows(e, f - 1);
    }
  }

  lemma PowersInInt64()
    ensures Power(6) <= MAX_INT64 < Power(7)
  {
  }

  /** Dividing by the unit `k` times. */
  function Down(x: nat, k: nat): nat {
    if k == 0 then x else Down(x / UNIT, k - 1)
  }

  lemma {:induction false} DownStep(x: nat, k: nat)
    ensures Down(x, k) / UNIT == Down(x, k + 1)
  {
    if k > 0 {
      DownStep(x / UNIT, k - 1);
    }
  }

  lemma {:induction false} DownPositive(x: nat, k: nat)
    ensures Down(x, k) >= 1 <==> x >= Power(k)
  {
    if k > 0 {
      DownPositive(x / UNIT, k - 1);
    }
  }

  /** The unit loop of formatBytes: it stops at the power of 1024 below the count, no
      product leaves 64 bits, and the unit letter always exists. */
  method Scale(b: int) returns (div: int, exp: nat)
    requires UNIT <= b <= MAX_INT64
    ensures div == Power(exp + 1) && div <= b < UNIT * div
    ensures exp < |UNITS| && div <= MAX_INT64
  {
    div, exp := UNIT, 0;
    var n := b / UNIT;
    assert Power(1) == UNIT * Power(0) && Down(b, 1) == Down(b / UNIT, 0);
    while n >= UNIT
      invariant div == Power(exp + 1) && n == Down(b, exp + 1) >= 1
      decreases n
    {
      DownStep(b, exp + 1);
      div := div * UNIT;
      exp := exp + 1;
      n := n / UNIT;
    }
    DownPositive(b, exp + 1);
    DownStep(b, exp + 1);
    DownPositive(b, exp + 2);
    PowersInInt64();
    if exp >= 6 {
      PowerGrows(7, exp + 1);
    }
  }
}
