/** The flash debouncer: at most one flash animation per view at a time. */
module UiFlash {
  import opened UiSelectable

  /** A tcell colour. */
  datatype Color = Rgb(r: nat, g: nat, b: nat) | White | Red | Yellow

  /** A queued SetBackgroundColor on a view. */
  datatype Paint = Paint(view: SelectableTextView, color: Color)

  class FlashController {
    /** The views whose flash is running. In Go this is a set; here each entry also
        carries the base colour that the view's one pending clear callback restores,
        since the entry is made when that callback is scheduled and removed when it
        fires. */
    var flashing: map<SelectableTextView, Color>

    constructor ()
      ensures flashing == map[]
    {
      flashing := map[];
    }

    /** Flash: a view already flashing is left alone, and its pending clear keeps the
        colour it had; otherwise the view is painted in the flash colour and its one
        clear back to `base` is scheduled. */
    method Flash(tv: SelectableTextView, base: Color, flash: Color) returns (painted: seq<Paint>)
      modifies this
      ensures old(tv in flashing) ==> flashing == old(flashing) && painted == []
      ensures old(tv !in flashing) ==> flashing == old(flashing)[tv := base] && painted == [Paint(tv, flash)]
    {
      if tv in flashing {
        return [];
      }
      flashing := flashing[tv := base];
      painted := [Paint(tv, flash)];
    }

    /** The clear callback of a flashing view firing: the colour it captured is
        painted back and the view leaves the set, so it may flash again. */
    method Expire(tv: SelectableTextView) returns (painted: seq<Paint>)
      requires tv in flashing
      modifies this
      ensures painted == [Paint(tv, old(flashing)[tv])]
      ensures flashing == old(flashing) - {tv}
    {
      painted := [Paint(tv, flashing[tv])];
      flashing := flashing - {tv};
    }

    method IsFlashing(tv: SelectableTextView) returns (b: bool)
      ensures b <==> tv in flashing
    {
      b := tv in flashing;
    }
  }

  /** Two changes in a row on one view give one flash, and a second base colour does
      not replace the first; once its clear fires the view can flash again. */
  method FlashTwiceThenExpire(tv: SelectableTextView, other: SelectableTextView, base: Color, base2: Color, flash: Color)
    requires tv != other
  {
    var fc := new FlashController();
    var p1 := fc.Flash(tv, base, flash);
    var p2 := fc.Flash(tv, base2, flash);
    assert p1 == [Paint(tv, flash)] && p2 == [];
    assert fc.flashing == map[tv := base];
    var p3 := fc.Flash(other, base, flash);
    assert fc.flashing.Keys == {tv, other};
    var p4 := fc.Expire(tv);
    assert p4 == [Paint(tv, base)];
    assert fc.flashing.Keys == {other};
    var b := fc.IsFlashing(tv);
    assert !b;
    var p5 := fc.Flash(tv, base2, flash);
    assert p5 == [Paint(tv, flash)];
  }
}
