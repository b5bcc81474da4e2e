/** Positions on a circle of `n` places: array slots of a queue, nodes of a ring. */
module Circle {

  function After(i: nat, n: nat): nat
    requires i < n
  {
    if i + 1 == n then 0 else i + 1
  }

  function Before(i: nat, n: nat): nat
    requires i < n
  {
    if i == 0 then n - 1 else i - 1
  }

  function Wrap(i: nat, n: nat): nat
    requires i < 2 * n
  {
    if i < n then i else i - n
  }

  /** Steps along `next` from place `a` to place `b`. */
  function Distance(a: nat, b: nat, n: nat): nat
    requires a < n && b < n
  {
    if a <= b then b - a else b + n - a
  }

  /** The element `j` steps along the circle from place `from`. */
  function Ahead<T>(s: seq<T>, from: nat, j: nat): T
    requires from < |s| && j <= |s|
  {
    s[Wrap(from + j, |s|)]
  }
}
