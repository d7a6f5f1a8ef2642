// Widths of the source's unsigned integers, and bounds.

module Numbers {
  const U16: int := 0x1_0000
  const U32: int := 0x1_0000_0000

  function Least(a: nat, b: nat): (least: nat)
    ensures least <= a && least <= b && least in {a, b}
  {
    if a < b then a else b
  }

  function Greatest(a: nat, b: nat): (greatest: nat)
    ensures greatest >= a && greatest >= b && greatest in {a, b}
  {
    if a > b then a else b
  }
}
