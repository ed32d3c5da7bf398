/** The PIN indicator widget as an object: its configuration fields, the
    counter `mPreviousLength` and the row of child dots, updated in place.
    Every method is proved to change the fields exactly as the functions of
    DotPolicy say, so the properties proved there hold of the widget.
 */
module IndicatorWidget {
  import opened DotPolicy

  class IndicatorDots {
    /** `mIndicatorType`: FIXED (0) selects the fixed-slot policy, any
        other value the fill policy. */
    var indicatorType: int
    /** `mPinLength`: the number of slots a FIXED row is built with. */
    var pinLength: int
    /** `mPrimaryColor`: only recorded; the recolouring it drives is not
        modelled. */
    var primaryColor: int
    /** `mPreviousLength`: the length reported by the last `updateDot`. */
    var previousLength: int
    /** The child dots in layout order; `true` shows the filled template. */
    var dots: seq<bool>

    /** The part of the state that `updateDot` reads and writes. */
    function State(): View
      reads this
    {
      View(dots, previousLength)
    }

    /** A widget with no children yet, the style's indicator type and colour
        (the dot sizes and drawables are left out), the default pin length,
        built by `initView`. */
    constructor (indicatorType: int, primaryColor: int)
      ensures this.indicatorType == indicatorType && this.primaryColor == primaryColor
      ensures pinLength == DefaultPinLength && previousLength == 0
      ensures dots == Init(indicatorType, DefaultPinLength, [])
    {
      this.indicatorType := indicatorType;
      this.primaryColor := primaryColor;
      pinLength := DefaultPinLength;
      previousLength := 0;
      dots := [];
      new;
      InitView();
    }

    /** `initView`: in FIXED mode appends `pinLength` empty dots to the
        row; in any other mode the row is left as it is. */
    method InitView()
      modifies this`dots
      ensures dots == Init(indicatorType, pinLength, old(dots))
    {
      if indicatorType == Fixed {
        var i := 0;
        while i < pinLength
          invariant 0 <= i && (i <= pinLength || i == 0)
          invariant dots == old(dots) + Blank(i)
        {
          assert Blank(i + 1) == Blank(i) + [false];
          dots := dots + [false];
          i := i + 1;
        }
      }
    }

    /** `fillDot(getChildAt(i))`: child `i` shows the filled template. */
    method FillDot(i: int)
      requires 0 <= i < |dots|
      modifies this`dots
      ensures dots == old(dots)[i := true]
    {
      dots := dots[i := true];
    }

    /** `emptyDot(getChildAt(i))`: child `i` shows the empty template. */
    method EmptyDot(i: int)
      requires 0 <= i < |dots|
      modifies this`dots
      ensures dots == old(dots)[i := false]
    {
      dots := dots[i := false];
    }

    /** `updateDot(length)`, called by the keypad with the new input
        length.  The requires is the range of indices the Java code touches
        without throwing. */
    method UpdateDot(length: int)
      requires InRange(indicatorType, State(), length)
      modifies this`dots, this`previousLength
      ensures State() == Update(indicatorType, old(State()), length)
    {
      if indicatorType == Fixed {
        if length > 0 {
          if length > previousLength {
            FillDot(length - 1);
          } else {
            EmptyDot(length);
          }
          previousLength := length;
        } else {
          // a reset empties every child
          var i := 0;
          while i < |dots|
            invariant 0 <= i <= |dots| == |old(dots)|
            invariant forall j :: 0 <= j < i ==> !dots[j]
            invariant forall j :: i <= j < |dots| ==> dots[j] == old(dots)[j]
          {
            EmptyDot(i);
            i := i + 1;
          }
          previousLength := 0;
          assert dots == Blank(|old(dots)|);
        }
      } else {
        if length > 0 {
          if length > previousLength {
            // a new child made with the filled template, added at length - 1
            dots := InsertAt(dots, length - 1, true);
          } else {
            dots := RemoveAt(dots, length);
          }
          previousLength := length;
        } else {
          dots := [];
          previousLength := 0;
        }
      }
    }

    /** `getPinLength`. */
    method GetPinLength() returns (n: int)
      ensures n == pinLength
    {
      n := pinLength;
    }

    /** `setPinLength`: records the pin length and rebuilds the row from
        nothing; the counter is kept. */
    method SetPinLength(pinLength: int)
      modifies this`pinLength, this`dots
      ensures this.pinLength == pinLength
      ensures previousLength == old(previousLength)
      ensures dots == Init(indicatorType, pinLength, [])
    {
      this.pinLength := pinLength;
      dots := [];
      InitView();
    }

    /** `getIndicatorType`. */
    method GetIndicatorType() returns (t: int)
      ensures t == indicatorType
    {
      t := indicatorType;
    }

    /** `setIndicatorType`: records the mode and rebuilds the row from
        nothing; the counter is kept. */
    method SetIndicatorType(t: int)
      modifies this`indicatorType, this`dots
      ensures indicatorType == t
      ensures previousLength == old(previousLength)
      ensures dots == Init(t, pinLength, [])
    {
      indicatorType := t;
      dots := [];
      InitView();
    }

    /** `setPrimaryColor`: records the colour and rebuilds the row from
        nothing; the counter is kept. */
    method SetPrimaryColor(c: int)
      modifies this`primaryColor, this`dots
      ensures primaryColor == c
      ensures previousLength == old(previousLength)
      ensures dots == Init(indicatorType, pinLength, [])
    {
      primaryColor := c;
      dots := [];
      InitView();
    }
  }

  /** A keypad session against a FIXED widget with four slots: the row
      after each call is determined by the method contracts alone. */
  method FixedSession() returns (rows: seq<seq<bool>>)
    ensures rows == [[true, false, false, false], [true, true, false, false],
                     [true, false, false, false], [false, false, false, false]]
  {
    var w := new IndicatorDots(Fixed, 0);
    assert w.dots == [false, false, false, false];
    w.UpdateDot(1);
    var r1 := w.dots;
    assert r1 == [true, false, false, false];
    w.UpdateDot(2);
    var r2 := w.dots;
    assert r2 == [true, true, false, false];
    w.UpdateDot(1);
    var r3 := w.dots;
    assert r3 == [true, false, false, false];
    w.UpdateDot(0);
    assert w.dots == [false, false, false, false];
    rows := [r1, r2, r3, w.dots];
  }

  /** A keypad session against a FILL widget, switched to FIXED half way:
      the switch discards the filled dots but keeps the counter. */
  method SwitchSession() returns (before: seq<bool>, after: seq<bool>, counter: int)
    ensures before == [true, true] && after == [false, false, false, false] && counter == 2
  {
    var w := new IndicatorDots(Fill, 0);
    w.UpdateDot(1);
    w.UpdateDot(2);
    before := w.dots;
    w.SetIndicatorType(Fixed);
    after := w.dots;
    counter := w.previousLength;
  }
}
