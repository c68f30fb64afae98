/** Small definitions shared by the modules. */
module Common {

  datatype Option<+T> = None | Some(value: T)

  function Min(a: int, b: int): int {
    if a <= b then a else b
  }

  function Max(a: int, b: int): int {
    if a <= b then b else a
  }

  function Pow2(n: nat): (r: nat)
    ensures 1 <= r && (n >= 1 ==> 2 <= r)
  {
    if n == 0 then 1 else 2 * Pow2(n - 1)
  }
}
