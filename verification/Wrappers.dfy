/** Types shared by all modules. */
module Wrappers {
  newtype byte = x: int | 0 <= x < 256

  datatype Option<+T> = None | Some(value: T)

  datatype Result<+T, +E> = Ok(value: T) | Err(error: E)
}

/** Remainders of naturals. */
module Modulo {
  lemma ModUnique(n: nat, m: nat, q: nat, r: nat)
    requires r < m && n == q * m + r
    ensures n % m == r
  {
    var q' := n / m;
    assert (q - q') * m == n % m - r;
    assert q - q' >= 1 ==> (q - q') * m >= m;
    assert q' - q >= 1 ==> (q' - q) * m >= m;
  }

  lemma DivUnique(n: nat, m: nat, q: nat, r: nat)
    requires r < m && n == q * m + r
    ensures n / m == q && n % m == r
  {
    ModUnique(n, m, q, r);
    assert (n / m - q) * m == 0;
  }

  lemma ModStep(n: nat, m: nat)
    requires m > 0
    ensures (n + 1) % m == if n % m + 1 < m then n % m + 1 else 0
  {
    var q, r := n / m, n % m;
    assert n + 1 == q * m + (r + 1);
    if r + 1 < m {
      ModUnique(n + 1, m, q, r + 1);
    } else {
      assert n + 1 == (q + 1) * m + 0;
      ModUnique(n + 1, m, q + 1, 0);
    }
  }
}
