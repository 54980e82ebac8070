/** Where a symbol's function patterns, format and version information go, and what they show. */
module QrSymbol {
  import opened QrStream
  import opened QrPath

  function Size(v: nat): (size: nat)
    ensures size % 2 == 1
  {
    OddIsOdd(2 * v + 8);
    4 * v + 17
  }

  lemma OddIsOdd(k: nat)
    ensures (2 * k + 1) % 2 == 1
  {
  }

  // ---------- The layout ----------

  function AlignmentCentres(v: nat): seq<nat>
    requires IsVersion(v)
  {
    match v
    case 1 => []
    case 2 => [6, 18]
    case 3 => [6, 22]
    case 4 => [6, 26]
    case 5 => [6, 30]
    case 6 => [6, 34]
    case 7 => [6, 22, 38]
    case 8 => [6, 24, 42]
    case 9 => [6, 26, 46]
    case _ => [6, 28, 50]
  }

  /** Alignment patterns leave the three finder corners alone. */
  predicate NearFinder(size: nat, row: nat, column: nat) {
    || (row <= 8 && column <= 8)
    || (row <= 8 && column + 9 >= size)
    || (row + 9 >= size && column <= 8)
  }

  /** An alignment pattern is centred here. */
  predicate IsCentre(v: nat, row: nat, column: nat)
    requires IsVersion(v)
  {
    row in AlignmentCentres(v) && column in AlignmentCentres(v) && !NearFinder(Size(v), row, column)
  }

  function Abs(n: int): nat {
    if n < 0 then -n else n
  }

  /** The ring a module is on, seen from a centre. */
  function Ring(row: int, column: int, centreRow: int, centreColumn: int): nat {
    if Abs(row - centreRow) > Abs(column - centreColumn) then Abs(row - centreRow) else Abs(column - centreColumn)
  }

  /** A finder pattern with its separator, or the format information beside it. */
  predicate InCorner(size: nat, r: nat, c: nat) {
    || (r < 9 && c < 9)
    || (r < 9 && c + 8 >= size)
    || (r + 8 >= size && c < 9)
  }

  predicate OnTiming(r: nat, c: nat) {
    r == 6 || c == 6
  }

  predicate InAlignment(v: nat, r: nat, c: nat)
    requires IsVersion(v)
  {
    exists i, j :: 0 <= i < |AlignmentCentres(v)| && 0 <= j < |AlignmentCentres(v)|
      && IsCentre(v, AlignmentCentres(v)[i], AlignmentCentres(v)[j])
      && Ring(r, c, AlignmentCentres(v)[i], AlignmentCentres(v)[j]) <= 2
  }

  predicate InVersionArea(v: nat, r: nat, c: nat) {
    v >= 7 && ((r < 6 && Size(v) - 11 <= c < Size(v) - 8) || (c < 6 && Size(v) - 11 <= r < Size(v) - 8))
  }

  /** The modules that carry no data. */
  predicate IsReserved(v: nat, r: nat, c: nat)
    requires IsVersion(v)
  {
    InCorner(Size(v), r, c) || OnTiming(r, c) || InAlignment(v, r, c) || InVersionArea(v, r, c)
  }

  function ReservedMap(v: nat): Reserved
    requires IsVersion(v)
  {
    (r: nat, c: nat) => IsReserved(v, r, c)
  }
}
