/**
 * The action vocabulary of the scripts (`ACTION_t` with its numeric codes,
 * the `BUTTON_MAP_t` script step) and the action encoder `setButton`, which
 * writes one action into a report.
 */
module Action {
  import opened Basics
  import opened Hid

  /** One value per enumerator of `ACTION_t`. */
  datatype Action =
    | ButtonReset
    | PadTop | PadTopLeft | PadTopRight | PadBottom
    | PadBottomLeft | PadBottomRight | PadLeft | PadRight
    | ButtonA | ButtonB | ButtonX | ButtonY | ButtonL | ButtonR | ButtonZL | ButtonZR
    | ButtonPlus | ButtonMinus | ButtonHome | ButtonCapture | ButtonLStick | ButtonRStick
    | LStickTop | LStickTopLeft | LStickTopRight | LStickBottom
    | LStickBottomLeft | LStickBottomRight | LStickLeft | LStickRight
    | RStickTop | RStickTopLeft | RStickTopRight | RStickBottom
    | RStickBottomLeft | RStickBottomRight | RStickLeft | RStickRight
  {
    predicate IsPad() {
      PadTop? || PadTopLeft? || PadTopRight? || PadBottom?
      || PadBottomLeft? || PadBottomRight? || PadLeft? || PadRight?
    }

    predicate IsButton() {
      ButtonA? || ButtonB? || ButtonX? || ButtonY? || ButtonL? || ButtonR? || ButtonZL? || ButtonZR?
      || ButtonPlus? || ButtonMinus? || ButtonHome? || ButtonCapture? || ButtonLStick? || ButtonRStick?
    }

    predicate IsLeftStick() {
      LStickTop? || LStickTopLeft? || LStickTopRight? || LStickBottom?
      || LStickBottomLeft? || LStickBottomRight? || LStickLeft? || LStickRight?
    }

    predicate IsRightStick() {
      RStickTop? || RStickTopLeft? || RStickTopRight? || RStickBottom?
      || RStickBottomLeft? || RStickBottomRight? || RStickLeft? || RStickRight?
    }
  }

  /** `BUTTON_MAP_t`: one script step, an action and the time to wait after it. */
  datatype Step = Step(action: Action, waitTime: u16)

  // ---------------------------------------------------------------------------
  // Numeric codes

  /** The numeric value of each enumerator of `ACTION_t`. */
  function Code(a: Action): nat {
    match a
    case ButtonReset => 0x00
    case PadTop => 0x01
    case PadTopLeft => 0x02
    case PadTopRight => 0x03
    case PadBottom => 0x04
    case PadBottomLeft => 0x05
    case PadBottomRight => 0x06
    case PadLeft => 0x07
    case PadRight => 0x08
    case ButtonA => 0x09
    case ButtonB => 0x0A
    case ButtonX => 0x0B
    case ButtonY => 0x0C
    case ButtonL => 0x0D
    case ButtonR => 0x0E
    case ButtonZL => 0x0F
    case ButtonZR => 0x10
    case ButtonPlus => 0x11
    case ButtonMinus => 0x12
    case ButtonHome => 0x13
    case ButtonCapture => 0x14
    case ButtonLStick => 0x15
    case ButtonRStick => 0x16
    case LStickTop => 0x17
    case LStickTopLeft => 0x18
    case LStickTopRight => 0x19
    case LStickBottom => 0x1A
    case LStickBottomLeft => 0x1B
    case LStickBottomRight => 0x1C
    case LStickLeft => 0x1D
    case LStickRight => 0x1E
    case RStickTop => 0x1F
    case RStickTopLeft => 0x21
    case RStickTopRight => 0x22
    case RStickBottom => 0x23
    case RStickBottomLeft => 0x24
    case RStickBottomRight => 0x25
    case RStickLeft => 0x26
    case RStickRight => 0x27
  }

  /** The enumerator, if any, whose numeric value is `c`. */
  function Decode(c: int): Option<Action> {
    if c == 0x00 then Some(ButtonReset)
    else if c == 0x01 then Some(PadTop)
    else if c == 0x02 then Some(PadTopLeft)
    else if c == 0x03 then Some(PadTopRight)
    else if c == 0x04 then Some(PadBottom)
    else if c == 0x05 then Some(PadBottomLeft)
    else if c == 0x06 then Some(PadBottomRight)
    else if c == 0x07 then Some(PadLeft)
    else if c == 0x08 then Some(PadRight)
    else if c == 0x09 then Some(ButtonA)
    else if c == 0x0A then Some(ButtonB)
    else if c == 0x0B then Some(ButtonX)
    else if c == 0x0C then Some(ButtonY)
    else if c == 0x0D then Some(ButtonL)
    else if c == 0x0E then Some(ButtonR)
    else if c == 0x0F then Some(ButtonZL)
    else if c == 0x10 then Some(ButtonZR)
    else if c == 0x11 then Some(ButtonPlus)
    else if c == 0x12 then Some(ButtonMinus)
    else if c == 0x13 then Some(ButtonHome)
    else if c == 0x14 then Some(ButtonCapture)
    else if c == 0x15 then Some(ButtonLStick)
    else if c == 0x16 then Some(ButtonRStick)
    else if c == 0x17 then Some(LStickTop)
    else if c == 0x18 then Some(LStickTopLeft)
    else if c == 0x19 then Some(LStickTopRight)
    else if c == 0x1A then Some(LStickBottom)
    else if c == 0x1B then Some(LStickBottomLeft)
    else if c == 0x1C then Some(LStickBottomRight)
    else if c == 0x1D then Some(LStickLeft)
    else if c == 0x1E then Some(LStickRight)
    else if c == 0x1F then Some(RStickTop)
    else if c == 0x21 then Some(RStickTopLeft)
    else if c == 0x22 then Some(RStickTopRight)
    else if c == 0x23 then Some(RStickBottom)
    else if c == 0x24 then Some(RStickBottomLeft)
    else if c == 0x25 then Some(RStickBottomRight)
    else if c == 0x26 then Some(RStickLeft)
    else if c == 0x27 then Some(RStickRight)
    else None
  }

  /** Every enumerator decodes back from its own code. */
  lemma DecodeCode(a: Action)
    ensures Decode(Code(a)) == Some(a)
  {
  }

  /** A successful decode returns the enumerator with that very code. */
  lemma CodeDecode(c: int)
    ensures Decode(c).Some? ==> Code(Decode(c).value) == c
  {
    if c < 0x0A {
    } else if c < 0x14 {
    } else if c < 0x1E {
    }
  }

  /** Decoding succeeds exactly on the codes of enumerators. */
  lemma DecodeSomeIffCode(c: int)
    ensures Decode(c).Some? <==> exists a: Action :: Code(a) == c
  {
    CodeDecode(c);
    if a: Action :| Code(a) == c {
      DecodeCode(a);
    }
  }

  /** The codes are pairwise distinct, and every one fits in a byte. */
  lemma CodeInjective(a: Action, b: Action)
    ensures Code(a) == Code(b) ==> a == b
    ensures Code(a) < 0x100
  {
    DecodeCode(a);
    DecodeCode(b);
  }

  /** `BUTTON_RESET` is code 0; 0x20 is the one gap in the range, between the right-stick codes. */
  lemma CodeLandmarks()
    ensures Code(ButtonReset) == 0
    ensures Code(RStickTop) == 0x1F && Code(RStickTopLeft) == 0x21
    ensures Decode(0x20) == None
    ensures forall c :: 0x28 <= c ==> Decode(c) == None
  {
  }

  /** The codes are grouped by kind: reset is 0x00, the pad 0x01-0x08, the buttons 0x09-0x16. */
  lemma CodeGroups(a: Action)
    ensures a == ButtonReset <==> Code(a) == 0
    ensures a.IsPad() <==> 0x01 <= Code(a) <= 0x08
    ensures a.IsButton() <==> 0x09 <= Code(a) <= 0x16
  {
  }

  /** The stick codes follow: left stick 0x17-0x1E, right stick 0x1F-0x27. */
  lemma StickCodeGroups(a: Action)
    ensures a.IsLeftStick() <==> 0x17 <= Code(a) <= 0x1E
    ensures a.IsRightStick() <==> 0x1F <= Code(a) <= 0x27
  {
  }

  // ---------------------------------------------------------------------------
  // The encoder

  /** `setButton`: write one action into a report (its meaning, group by group, is `SetButtonMeaning`). */
  function SetButton(r: Report, a: Action): Report {
    match a
    case ButtonReset =>
      r.(button := {}, lx := StickCenter, ly := StickCenter, rx := StickCenter, ry := StickCenter,
         hat := Center, vendorSpec := 0)
    case PadTop => r.(hat := Top)
    case PadTopLeft => r.(hat := TopLeft)
    case PadTopRight => r.(hat := TopRight)
    case PadBottom => r.(hat := Bottom)
    case PadBottomLeft => r.(hat := BottomLeft)
    case PadBottomRight => r.(hat := BottomRight)
    case PadLeft => r.(hat := Left)
    case PadRight => r.(hat := TopRight)
    case ButtonA => r.(button := r.button + {A})
    case ButtonB => r.(button := r.button + {B})
    case ButtonX => r.(button := r.button + {X})
    case ButtonY => r.(button := r.button + {Y})
    case ButtonL => r.(button := r.button + {L})
    case ButtonR => r.(button := r.button + {R})
    case ButtonZL => r.(button := r.button + {ZL})
    case ButtonZR => r.(button := r.button + {ZR})
    case ButtonPlus => r.(button := r.button + {Plus})
    case ButtonMinus => r.(button := r.button + {Minus})
    case ButtonHome => r.(button := r.button + {Home})
    case ButtonCapture => r.(button := r.button + {Capture})
    case ButtonLStick => r.(button := r.button + {LClick})
    case ButtonRStick => r.(button := r.button + {RClick})
    case LStickTop => r.(lx := StickCenter, ly := StickMin)
    case LStickTopLeft => r.(lx := StickMin, ly := StickMin)
    case LStickTopRight => r.(lx := StickMax, ly := StickMin)
    case LStickBottom => r.(lx := StickCenter, ly := StickMax)
    case LStickBottomLeft => r.(lx := StickMin, ly := StickMax)
    case LStickBottomRight => r.(lx := StickMax, ly := StickMax)
    case LStickLeft => r.(lx := StickMin, ly := StickCenter)
    case LStickRight => r.(lx := StickMax, ly := StickCenter)
    case RStickTop => r.(rx := StickCenter, ry := StickMin)
    case RStickTopLeft => r.(rx := StickMin, ry := StickMin)
    case RStickTopRight => r.(rx := StickMax, ry := StickMin)
    case RStickBottom => r.(rx := StickCenter, ry := StickMax)
    case RStickBottomLeft => r.(rx := StickMin, ry := StickMax)
    case RStickBottomRight => r.(rx := StickMax, ry := StickMax)
    case RStickLeft => r.(rx := StickMin, ry := StickCenter)
    case RStickRight => r.(rx := StickMax, ry := StickCenter)
  }

  /**
   * `setButton` applied to a raw `ACTION_t` value: a value that names no
   * enumerator (0x20, say) falls through the switch and changes nothing.
   */
  function SetButtonCode(r: Report, c: int): (r': Report)
    ensures Decode(c) == None ==> r' == r
    ensures forall a: Action :: Code(a) == c ==> r' == SetButton(r, a)
  {
    match Decode(c)
    case None =>
      DecodeSomeIffCode(c);
      r
    case Some(a) =>
      CodeDecode(c);
      assert forall b: Action :: Code(b) == c ==> b == a by {
        forall b: Action | Code(b) == c ensures b == a {
          CodeInjective(a, b);
        }
      }
      SetButton(r, a)
  }

  // ---------------------------------------------------------------------------
  // Reference meanings of the actions, stated independently of `setButton`

  /** The eight compass directions shared by the pad and the two sticks. */
  datatype Compass = North | NorthWest | NorthEast | South | SouthWest | SouthEast | West | East {
    predicate Northern() { North? || NorthWest? || NorthEast? }
    predicate Southern() { South? || SouthWest? || SouthEast? }
    predicate Western() { West? || NorthWest? || SouthWest? }
    predicate Eastern() { East? || NorthEast? || SouthEast? }
  }

  /** The direction named by a pad or stick action. */
  function Direction(a: Action): Compass
    requires a.IsPad() || a.IsLeftStick() || a.IsRightStick()
  {
    match a
    case PadTop | LStickTop | RStickTop => North
    case PadTopLeft | LStickTopLeft | RStickTopLeft => NorthWest
    case PadTopRight | LStickTopRight | RStickTopRight => NorthEast
    case PadBottom | LStickBottom | RStickBottom => South
    case PadBottomLeft | LStickBottomLeft | RStickBottomLeft => SouthWest
    case PadBottomRight | LStickBottomRight | RStickBottomRight => SouthEast
    case PadLeft | LStickLeft | RStickLeft => West
    case PadRight | LStickRight | RStickRight => East
  }

  /** The hat value that points in a compass direction. */
  function HatOf(d: Compass): Hat {
    match d
    case North => Top
    case NorthWest => TopLeft
    case NorthEast => TopRight
    case South => Bottom
    case SouthWest => BottomLeft
    case SouthEast => BottomRight
    case West => Left
    case East => Right
  }

  /** A stick deflected towards `d`: x is min to the west and max to the east, y is min to the north and max to the south. */
  function Deflect(d: Compass): (Stick, Stick) {
    (if d.Western() then StickMin else if d.Eastern() then StickMax else StickCenter,
     if d.Northern() then StickMin else if d.Southern() then StickMax else StickCenter)
  }

  /** The `SWITCH_*` bit a button action sets. */
  function ButtonBit(a: Action): Button
    requires a.IsButton()
  {
    match a
    case ButtonA => A
    case ButtonB => B
    case ButtonX => X
    case ButtonY => Y
    case ButtonL => L
    case ButtonR => R
    case ButtonZL => ZL
    case ButtonZR => ZR
    case ButtonPlus => Plus
    case ButtonMinus => Minus
    case ButtonHome => Home
    case ButtonCapture => Capture
    case ButtonLStick => LClick
    case ButtonRStick => RClick
  }

  /** The button action that sets a given bit. */
  function BitAction(x: Button): (a: Action)
    ensures a.IsButton()
  {
    match x
    case A => ButtonA
    case B => ButtonB
    case X => ButtonX
    case Y => ButtonY
    case L => ButtonL
    case R => ButtonR
    case ZL => ButtonZL
    case ZR => ButtonZR
    case Plus => ButtonPlus
    case Minus => ButtonMinus
    case Home => ButtonHome
    case Capture => ButtonCapture
    case LClick => ButtonLStick
    case RClick => ButtonRStick
  }

  /** Button actions and bits correspond one to one: each bit belongs to exactly one button action. */
  lemma ButtonBitRoundTrip(a: Action, x: Button)
    ensures a.IsButton() ==> BitAction(ButtonBit(a)) == a
    ensures ButtonBit(BitAction(x)) == x
  {
  }

  /** Distinct button actions set distinct bits. */
  lemma ButtonBitInjective(a: Action, b: Action)
    requires a.IsButton() && b.IsButton() && a != b
    ensures ButtonBit(a) != ButtonBit(b)
  {
    ButtonBitRoundTrip(a, ButtonBit(a));
    ButtonBitRoundTrip(b, ButtonBit(b));
  }

  // ---------------------------------------------------------------------------
  // Properties of the encoder

  /** Reset yields the neutral report whatever the input, so it is idempotent. */
  lemma ResetIsNeutral(r: Report)
    ensures SetButton(r, ButtonReset) == Neutral
    ensures SetButton(SetButton(r, ButtonReset), ButtonReset) == SetButton(r, ButtonReset)
  {
  }

  /** A button action sets exactly its own bit in the mask and leaves hat, sticks and vendor byte alone. */
  lemma ButtonSetsBit(r: Report, a: Action)
    requires a.IsButton()
    ensures SetButton(r, a) == r.(button := r.button + {ButtonBit(a)})
  {
  }

  /** Pressing the same button twice is pressing it once. */
  lemma ButtonIdempotent(r: Report, a: Action)
    requires a.IsButton()
    ensures SetButton(SetButton(r, a), a) == SetButton(r, a)
  {
    ButtonSetsBit(r, a);
    ButtonSetsBit(SetButton(r, a), a);
    assert r.button + {ButtonBit(a)} + {ButtonBit(a)} == r.button + {ButtonBit(a)};
  }

  /** Two button actions give the same report in either order. */
  lemma ButtonsCommute(r: Report, a: Action, b: Action)
    requires a.IsButton() && b.IsButton()
    ensures SetButton(SetButton(r, a), b) == SetButton(SetButton(r, b), a)
  {
    ButtonSetsBit(r, a);
    ButtonSetsBit(r, b);
    ButtonSetsBit(SetButton(r, a), b);
    ButtonSetsBit(SetButton(r, b), a);
    assert r.button + {ButtonBit(a)} + {ButtonBit(b)} == r.button + {ButtonBit(b)} + {ButtonBit(a)};
  }

  /** A pad action other than `PAD_RIGHT` points the hat its way and changes nothing else. */
  lemma PadSetsHat(r: Report, a: Action)
    requires a.IsPad() && a != PadRight
    ensures SetButton(r, a) == r.(hat := HatOf(Direction(a)))
  {
  }

  /** `PAD_RIGHT` writes the top-right hat, not the right one: it behaves exactly like `PAD_TOP_RIGHT`. */
  lemma PadRightIsTopRight(r: Report)
    ensures SetButton(r, PadRight) == SetButton(r, PadTopRight)
    ensures SetButton(r, PadRight).hat == TopRight != HatOf(Direction(PadRight))
  {
  }

  /** A left-stick action deflects (LX, LY) its way and changes nothing else. */
  lemma LeftStickDeflects(r: Report, a: Action)
    requires a.IsLeftStick()
    ensures SetButton(r, a) == r.(lx := Deflect(Direction(a)).0, ly := Deflect(Direction(a)).1)
  {
  }

  /** A right-stick action deflects (RX, RY) its way and changes nothing else. */
  lemma RightStickDeflects(r: Report, a: Action)
    requires a.IsRightStick()
    ensures SetButton(r, a) == r.(rx := Deflect(Direction(a)).0, ry := Deflect(Direction(a)).1)
  {
  }

  /**
   * What an action means, group by group: the reset clears the whole report;
   * a button ORs in its own bit; a pad action points the hat its way, except
   * that `PAD_RIGHT` points it to the top right; a stick action deflects its
   * stick its way.  Each leaves every other field alone.
   */
  function Written(r: Report, a: Action): Report {
    if a == ButtonReset then Neutral
    else if a.IsButton() then r.(button := r.button + {ButtonBit(a)})
    else if a.IsPad() then r.(hat := if a == PadRight then TopRight else HatOf(Direction(a)))
    else if a.IsLeftStick() then r.(lx := Deflect(Direction(a)).0, ly := Deflect(Direction(a)).1)
    else if a.IsRightStick() then r.(rx := Deflect(Direction(a)).0, ry := Deflect(Direction(a)).1)
    else r
  }

  /** `setButton`'s forty cases agree with the group-by-group meaning. */
  lemma SetButtonMeaning(r: Report, a: Action)
    ensures SetButton(r, a) == Written(r, a)
  {
    if a == ButtonReset {
      ResetIsNeutral(r);
    } else if a.IsButton() {
      ButtonSetsBit(r, a);
    } else if a.IsPad() {
      if a == PadRight {
        PadRightIsTopRight(r);
      } else {
        PadSetsHat(r, a);
      }
    } else if a.IsLeftStick() {
      LeftStickDeflects(r, a);
    } else if a.IsRightStick() {
      RightStickDeflects(r, a);
    } else {
      StickCodeGroups(a);
      CodeGroups(a);
      assert false;
    }
  }

  /** From the neutral report, one action changes at most one of the groups buttons, hat, sticks. */
  lemma OneFieldGroup(a: Action)
    ensures var r := SetButton(Neutral, a);
      && (r.button != {} ==> r.hat == Center && SticksCentered(r))
      && (r.hat != Center ==> r.button == {} && SticksCentered(r))
      && (!SticksCentered(r) ==> r.button == {} && r.hat == Center)
      && r.vendorSpec == 0
  {
    if a.IsButton() {
      ButtonSetsBit(Neutral, a);
    } else if a.IsPad() {
      if a == PadRight { PadRightIsTopRight(Neutral); } else { PadSetsHat(Neutral, a); }
    } else if a.IsLeftStick() {
      LeftStickDeflects(Neutral, a);
    } else if a.IsRightStick() {
      RightStickDeflects(Neutral, a);
    }
  }

  /** An action whose code names no enumerator, 0x20 among them, leaves the report unchanged. */
  lemma UnassignedCodeIsNoOp(r: Report)
    ensures SetButtonCode(r, 0x20) == r
    ensures forall c :: c < 0 || 0x27 < c ==> SetButtonCode(r, c) == r
  {
  }

  // ---------------------------------------------------------------------------
  // Script steps

  /** The report a script step asserts: its action written into the cleared report. */
  function Play(st: Step): Report {
    SetButton(Neutral, st.action)
  }

  /** The reports a table of steps asserts, row by row. */
  function Played(t: seq<Step>): seq<Report> {
    seq(|t|, i requires 0 <= i < |t| => Play(t[i]))
  }
}
