/** Stacking values. New assets take the next value of a global counter
    that starts at 1; the per-asset up and down buttons shift an asset's
    value by 3 in either direction, never below 1. Nothing renumbers the
    other assets, so values can collide and leave gaps. */
module ZOrder {

  /** Initial value of `zIndexCounter`. */
  const InitialCounter: int := 1

  /** `moveLayer` never goes below this. */
  const Floor: int := 1

  /** Directions passed by the up and down buttons. */
  const UpStep: int := 3
  const DownStep: int := -3

  /** `moveLayer`: shift z by direction, floored at 1. */
  function MoveLayer(z: int, direction: int): (r: int)
    ensures r >= Floor
    ensures r >= z + direction
    ensures z + direction >= Floor ==> r == z + direction
    ensures z + direction < Floor ==> r == Floor
  {
    if z + direction < Floor then Floor else z + direction
  }

  /** Up then down returns any reachable value to where it was. */
  lemma UpThenDownRestores(z: int)
    requires z >= Floor
    ensures MoveLayer(MoveLayer(z, UpStep), DownStep) == z
  {
  }

  /** Down from 4 or below lands on the floor. */
  lemma DownNearFloor(z: int)
    requires z <= Floor - DownStep
    ensures MoveLayer(z, DownStep) == Floor
  {
  }

  /** Down then up is not an inverse near the floor: 2 goes to 1, then to 4. */
  lemma DownThenUpOvershoots()
    ensures MoveLayer(MoveLayer(2, DownStep), UpStep) == 4
  {
  }

  /** Moving never reverses the order of two values (it may merge them). */
  lemma MoveLayerMonotone(z1: int, z2: int, direction: int)
    requires z1 <= z2
    ensures MoveLayer(z1, direction) <= MoveLayer(z2, direction)
  {
  }
}
