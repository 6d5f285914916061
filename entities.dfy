/**
 * The records main.py keys by point or segment (its named tuples), and the
 * kinds of support and load that `load_data` groups them by.
 */
module Entities {
  import opened Wrappers

  /** A drawing colour index; materials are keyed by it. */
  type Color = int

  /** `Element(color)`: one structural member. */
  datatype Element = Element(color: Color)

  /** `Support(rotation)`. */
  datatype Support = Support(rotation: real)

  /** `Force(value, rotation)`; the magnitude is `None` when its text had no number. */
  datatype Force = Force(value: Option<real>, rotation: real)

  /** `Q_force(value, rotation)`: a distributed load over a segment. */
  datatype QForce = QForce(value: Option<real>, rotation: real)

  /** `Moment(value)`, already signed. */
  datatype Moment = Moment(value: real)

  /** `Material(EA, EI)`; the placeholder for an unknown colour holds `None` twice. */
  datatype Material = Material(ea: Option<real>, ei: Option<real>)

  /** The three support block names, `support_fixed`, `support_hinged`, `support_roll`. */
  datatype SupportKind = Fixed | Hinged | Roll
}
