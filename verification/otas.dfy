/** The list of supported booking sites (src/render/config/availableOTAs.js)
    and the switch the main window keeps per site, `handleToggleOTA`
    (src/render/App.js). */
module Otas {

  /** `availableOTAs`, in declaration order. */
  const AvailableOtas: seq<string> := ["Yanolja", "GoodHotel", "GoodMotel", "Agoda", "CoolStay", "Booking", "Expedia"]

  /** `otaToggles`: a missing key reads as `undefined`, which is falsy. */
  type Toggles = map<string, bool>

  function IsOn(t: Toggles, ota: string): bool
  {
    ota in t && t[ota]
  }

  /** The initial switches: every available site off. */
  function AllOff(): (t: Toggles)
    ensures forall ota :: ota in AvailableOtas <==> ota in t
    ensures forall ota :: !IsOn(t, ota)
  {
    map ota | ota in AvailableOtas :: false
  }

  /** The state right after the click: `{ ...prev, [ota]: !prev[ota] }`, or
      `prev` itself for a site that is not supported. */
  function Toggle(prev: Toggles, ota: string): (r: Toggles)
    ensures ota !in AvailableOtas ==> r == prev
    ensures ota in AvailableOtas ==> ota in r && IsOn(r, ota) == !IsOn(prev, ota)
    ensures forall o :: o != ota ==> (o in r <==> o in prev) && IsOn(r, o) == IsOn(prev, o)
  {
    if ota !in AvailableOtas then prev else prev[ota := !IsOn(prev, ota)]
  }

  /** The state once the server update settles. On failure the site's
      switch is set to the negation of the value the click stored, applied
      to whatever the state is by then (`current`). */
  function Settle(current: Toggles, clicked: Toggles, ota: string, updateOk: bool): (r: Toggles)
    requires ota in clicked
  {
    if updateOk then current else current[ota := !clicked[ota]]
  }

  /** With no other change in between, a failed update restores the
      site's original switch, and every other switch is untouched; a
      successful one leaves exactly that switch flipped. */
  lemma RollbackRestores(prev: Toggles, ota: string, updateOk: bool)
    requires ota in AvailableOtas
    ensures var clicked := Toggle(prev, ota);
            var r := Settle(clicked, clicked, ota, updateOk);
            && (!updateOk ==> IsOn(r, ota) == IsOn(prev, ota))
            && (updateOk ==> IsOn(r, ota) == !IsOn(prev, ota))
            && forall o :: o != ota ==> IsOn(r, o) == IsOn(prev, o)
  {
  }
}
