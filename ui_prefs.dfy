/** The main process's stored UI preferences: the back button's position as
    fractions of the window, clamped into [0, 1] on every write. */
module UiPrefs {
  import opened Outcomes
  import opened JsNumbers

  const DefaultX := 0.03
  const DefaultY := 0.2

  /** clampPct: a finite number (anything else, or nothing, falls back) cut
      into [0, 1]. `None` stands for a value that is not a number. */
  function ClampPct(v: Option<JsNumber>, fallback: real): (r: real)
    ensures 0.0 <= r <= 1.0
    ensures (v.None? || !v.value.IsFinite()) && 0.0 <= fallback <= 1.0 ==> r == fallback
    ensures v.Some? && v.value.IsFinite() && 0.0 <= v.value.value <= 1.0 ==> r == v.value.value
    ensures v.Some? && v.value.IsFinite() && v.value.value < 0.0 ==> r == 0.0
    ensures v.Some? && v.value.IsFinite() && v.value.value > 1.0 ==> r == 1.0
  {
    var n := if v.Some? && v.value.IsFinite() then v.value.value else fallback;
    MaxReal(0.0, MinReal(1.0, n))
  }

  /** Clamping a clamped value changes nothing, whatever the fallback. */
  lemma ClampPctIdempotent(v: Option<JsNumber>, fallback: real, other: real)
    ensures ClampPct(Some(Finite(ClampPct(v, fallback))), other) == ClampPct(v, fallback)
  {
  }

  /** The set request's arguments; either may be missing, and so may both. */
  datatype PosArgs = PosArgs(xPct: Option<JsNumber>, yPct: Option<JsNumber>)

  /** The preference store's two fields. */
  class BackButtonStore {
    var xPct: real
    var yPct: real

    /** Both fractions are in [0, 1]. */
    predicate Valid()
      reads this
    {
      0.0 <= xPct <= 1.0 && 0.0 <= yPct <= 1.0
    }

    /** A new store holds the defaults. */
    constructor ()
      ensures Valid() && xPct == DefaultX && yPct == DefaultY
    {
      xPct := DefaultX;
      yPct := DefaultY;
    }

    /** The get handler: the stored pair. */
    method Get() returns (x: real, y: real)
      requires Valid()
      ensures x == xPct && y == yPct
      ensures 0.0 <= x <= 1.0 && 0.0 <= y <= 1.0
    {
      x, y := xPct, yPct;
    }

    /** The set handler: each side clamped (with its default as fallback),
        stored, and the stored pair returned. */
    method Set(args: Option<PosArgs>) returns (x: real, y: real)
      modifies this
      ensures Valid()
      ensures x == xPct && y == yPct
      ensures xPct == ClampPct(if args.Some? then args.value.xPct else None, DefaultX)
      ensures yPct == ClampPct(if args.Some? then args.value.yPct else None, DefaultY)
    {
      x := ClampPct(if args.Some? then args.value.xPct else None, DefaultX);
      y := ClampPct(if args.Some? then args.value.yPct else None, DefaultY);
      xPct := x;
      yPct := y;
    }
  }
}
