// What several modules share: optional values, and the powers of two of a doubling delay.
module Options {

  datatype Option<+T> = None | Some(value: T)
}

module Powers {

  function Pow2(n: nat): nat {
    if n == 0 then 1 else 2 * Pow2(n - 1)
  }

  lemma {:induction false} PowGrows(m: nat, n: nat)
    requires m <= n
    ensures 1 <= Pow2(m) <= Pow2(n)
    decreases n
  {
    if m < n {
      PowGrows(m, n - 1);
    } else if n > 0 {
      PowGrows(m - 1, n - 1);
    }
  }
}
