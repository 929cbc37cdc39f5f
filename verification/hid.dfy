/**
 * The controller input report that the HID transport sends to the host on
 * every polling tick, with symbolic hat and stick values.
 *
 * The numeric values of HAT_*, STICK_* and SWITCH_* live in Joystick.h, which
 * is not part of this model.  Hat directions and stick positions are kept as
 * enumerations.  Each SWITCH_* is its own bit of the 16-bit button mask;
 * nothing in the model depends on the bit positions beyond "one bit each,
 * pairwise distinct", so a mask is the set of buttons whose bits are set.
 */
module Hid {
  import opened Basics

  /** The nine hat values: eight compass directions and the centre. */
  datatype Hat =
    | Top | TopRight | Right | BottomRight | Bottom | BottomLeft | Left | TopLeft
    | Center

  /** The three stick positions the scripts ever use on an axis. */
  datatype Stick = StickMin | StickCenter | StickMax

  /** The fourteen SWITCH_* bits; ORing masks is the union of their sets. */
  datatype Button = Y | B | A | X | L | R | ZL | ZR | Minus | Plus | LClick | RClick | Home | Capture

  /** One input report: button mask, hat, both sticks and the vendor byte. */
  datatype Report = Report(
    button: set<Button>,
    hat: Hat,
    lx: Stick,
    ly: Stick,
    rx: Stick,
    ry: Stick,
    vendorSpec: u8)

  /** No button held, both sticks centred, hat centred, vendor byte clear. */
  const Neutral: Report := Report({}, Center, StickCenter, StickCenter, StickCenter, StickCenter, 0)

  /** The neutral report with only the given buttons and hat asserted. */
  function Press(button: set<Button>, hat: Hat): Report
  {
    Neutral.(button := button, hat := hat)
  }

  /** Both sticks centred and the vendor byte clear: only buttons and hat may differ from neutral. */
  predicate SticksCentered(r: Report) {
    r.lx == StickCenter && r.ly == StickCenter && r.rx == StickCenter && r.ry == StickCenter
    && r.vendorSpec == 0
  }
}
