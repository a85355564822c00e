/** The viewport-width breakpoints every responsive component of the site uses:
    below 768 px is a phone, from 768 px up to 1024 px a tablet, and 1024 px and
    wider a desktop. Widths are whole CSS pixels (`window.innerWidth`). */
module Viewport {

  const MobileBelow: int := 768
  const DesktopFrom: int := 1024

  datatype DeviceClass = Mobile | Tablet | Desktop

  /** The device class of a viewport width. */
  function Classify(width: int): (d: DeviceClass)
    ensures d == Mobile <==> width < MobileBelow
    ensures d == Tablet <==> MobileBelow <= width < DesktopFrom
    ensures d == Desktop <==> DesktopFrom <= width
  {
    if width < MobileBelow then Mobile
    else if width < DesktopFrom then Tablet
    else Desktop
  }

  /** The `isMobile` test shared by the events layout, the event detail view, the
      events list and the registration page: `window.innerWidth < 768`. */
  predicate IsMobile(width: int)
  {
    width < MobileBelow
  }
}
