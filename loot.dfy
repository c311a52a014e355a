/** The loot table a crate's payload is rolled from (main.js `_rollLoot`). */
module LootTable {
  import opened Draws

  /** A crate's payload: reserve rounds and a medkit level 0..2. */
  datatype Payload = Payload(ammo: int, med: int)

  /** The payloads the table can produce: the three bands. */
  predicate LootOk(l: Payload) {
    || (l.med == 0 && 8 <= l.ammo <= 18)
    || (l.med == 1 && 6 <= l.ammo <= 14)
    || (l.med == 2 && 12 <= l.ammo <= 24)
  }

  /** `r` picks the band (55% / 30% / 15%), `u` the ammo within it. */
  function RollLoot(r: real, u: real): (l: Payload)
    requires IsDraw(r) && IsDraw(u)
    ensures LootOk(l)
    ensures l.med == 0 <==> r < 0.55
    ensures l.med == 2 <==> 0.85 <= r
  {
    if r < 0.55 then Payload(Between(8, 18, u), 0)
    else if r < 0.85 then Payload(Between(6, 14, u), 1)
    else Payload(Between(12, 24, u), 2)
  }

  /** Conversely, every payload of the table is rolled by some pair of draws,
      so `LootOk` is exactly the set of payloads `RollLoot` can return. */
  lemma RollLootOnto(l: Payload)
    requires LootOk(l)
    ensures exists r, u :: IsDraw(r) && IsDraw(u) && RollLoot(r, u) == l
  {
    var r: real;
    var lo, hi: int;
    if l.med == 0 { r, lo, hi := 0.0, 8, 18; }
    else if l.med == 1 { r, lo, hi := 0.55, 6, 14; }
    else { r, lo, hi := 0.85, 12, 24; }
    BetweenOnto(lo, hi, l.ammo);
    var u :| IsDraw(u) && Between(lo, hi, u) == l.ammo;
    assert RollLoot(r, u) == l;
  }
}
