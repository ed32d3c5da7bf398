/** The dot-state update policy of the PIN indicator widget, stated on values.

    A `View` is what the widget keeps between two calls of `updateDot`: the
    ordered row of child dots (`true` = filled template, `false` = empty
    template) and the counter `mPreviousLength`.  The widget class in
    indicator_dots.dfy is proved to change its fields exactly as `Update`
    and `Init` say; this module states and proves what those functions mean.
 */
module DotPolicy {

  /** Values of `IndicatorDots.IndicatorType`. */
  const Fixed: int := 0
  const Fill: int := 1
  const FillWithAnimation: int := 2

  /** The pin length a widget starts with (`DEFAULT_PIN_LENGTH`). */
  const DefaultPinLength: int := 4

  datatype Option<T> = None | Some(value: T)

  /** The dot row and the previous-length counter. */
  datatype View = View(dots: seq<bool>, prevLength: int)

  // ---------------------------------------------------------------------
  // Row primitives: the view-group operations the widget calls
  // ---------------------------------------------------------------------

  /** A row of `n` freshly made empty dots; none at all when `n <= 0`,
      as the `for (i = 0; i < n; i++)` loop of `initView` makes none. */
  function Blank(n: int): (r: seq<bool>)
    ensures |r| == (if n <= 0 then 0 else n)
    ensures forall i :: 0 <= i < |r| ==> !r[i]
  {
    if n <= 0 then [] else seq(n, i => false)
  }

  /** `addView(dot, i)`: the dot is placed at index `i`, the dots from `i`
      on move one place to the right and keep their order. */
  function InsertAt(s: seq<bool>, i: nat, x: bool): (r: seq<bool>)
    requires i <= |s|
    ensures |r| == |s| + 1 && r[i] == x
    ensures forall j :: 0 <= j < i ==> r[j] == s[j]
    ensures forall j :: i < j < |r| ==> r[j] == s[j - 1]
    ensures multiset(r) == multiset(s) + multiset{x}
  {
    assert s == s[..i] + s[i..];
    s[..i] + [x] + s[i..]
  }

  /** `removeViewAt(i)`: the dot at index `i` disappears, the dots after it
      move one place to the left and keep their order. */
  function RemoveAt(s: seq<bool>, i: nat): (r: seq<bool>)
    requires i < |s|
    ensures |r| == |s| - 1
    ensures forall j :: 0 <= j < i ==> r[j] == s[j]
    ensures forall j :: i <= j < |r| ==> r[j] == s[j + 1]
    ensures multiset(r) == multiset(s) - multiset{s[i]}
  {
    assert s == s[..i] + [s[i]] + s[i + 1..];
    s[..i] + s[i + 1..]
  }

  /** Number of filled dots in a row (`CountFilledIsMultiplicity` relates it
      to the multiset of the row). */
  function CountFilled(s: seq<bool>): (n: nat)
    ensures n <= |s|
    ensures n == 0 <==> forall i :: 0 <= i < |s| ==> !s[i]
    ensures n == |s| <==> forall i :: 0 <= i < |s| ==> s[i]
  {
    if s == [] then 0
    else CountFilled(s[..|s| - 1]) + (if s[|s| - 1] then 1 else 0)
  }

  // ---------------------------------------------------------------------
  // initView and updateDot
  // ---------------------------------------------------------------------

  /** The row after `initView` runs on a row `before`: in FIXED mode it
      appends `pinLength` empty dots; every other mode adds nothing. */
  function Init(mode: int, pinLength: int, before: seq<bool>): (r: seq<bool>)
    ensures mode != Fixed ==> r == before
    ensures mode == Fixed ==> |r| == |before| + (if pinLength <= 0 then 0 else pinLength)
    ensures |before| <= |r| && r[..|before|] == before
    ensures forall i :: |before| <= i < |r| ==> !r[i]
  {
    if mode == Fixed then before + Blank(pinLength) else before
  }

  /** The calls `updateDot(length)` can make without indexing outside the
      row.  The source checks no index.  In FIXED mode `getChildAt` past the
      last slot yields null and `fillDot`/`emptyDot` then throw; in the other
      modes `addView(dot, length - 1)` throws past the row end and
      `removeViewAt(length)` throws at or past it.  Every other call, a
      multi-step jump included, succeeds. */
  predicate InRange(mode: int, v: View, length: int)
  {
    if length <= 0 then true
    else if mode == Fixed then
      if length > v.prevLength then length - 1 < |v.dots| else length < |v.dots|
    else
      if length > v.prevLength then length - 1 <= |v.dots| else length < |v.dots|
  }

  /** `updateDot(length)`: the new row and counter. */
  function Update(mode: int, v: View, length: int): (r: View)
    requires InRange(mode, v, length)
    // every branch leaves the counter at the new length, or at 0 on a reset
    ensures r.prevLength == if length > 0 then length else 0
    // FIXED: the row keeps its size
    ensures mode == Fixed ==> |r.dots| == |v.dots|
    // FIXED, increase: slot length-1 becomes filled, no other slot changes
    ensures mode == Fixed && 0 < length && v.prevLength < length ==>
      r.dots[length - 1] && forall j :: 0 <= j < |r.dots| && j != length - 1 ==> r.dots[j] == v.dots[j]
    // FIXED, decrease or repeat: slot length becomes empty, no other slot changes
    ensures mode == Fixed && 0 < length <= v.prevLength ==>
      !r.dots[length] && forall j :: 0 <= j < |r.dots| && j != length ==> r.dots[j] == v.dots[j]
    // FIXED, reset: every slot is empty
    ensures mode == Fixed && length <= 0 ==> forall j :: 0 <= j < |r.dots| ==> !r.dots[j]
    // other modes, increase: one filled dot is inserted at length-1
    ensures mode != Fixed && 0 < length && v.prevLength < length ==>
      |r.dots| == |v.dots| + 1 && r.dots[length - 1] &&
      r.dots[..length - 1] == v.dots[..length - 1] && r.dots[length..] == v.dots[length - 1..] &&
      multiset(r.dots) == multiset(v.dots) + multiset{true}
    // other modes, decrease or repeat: the dot at index length is removed
    ensures mode != Fixed && 0 < length <= v.prevLength ==>
      |r.dots| == |v.dots| - 1 &&
      r.dots[..length] == v.dots[..length] && r.dots[length..] == v.dots[length + 1..]
    // other modes, reset: the row is empty
    ensures mode != Fixed && length <= 0 ==> r.dots == []
  {
    if mode == Fixed then
      if length > 0 then
        View(if length > v.prevLength then v.dots[length - 1 := true] else v.dots[length := false], length)
      else
        View(Blank(|v.dots|), 0)
    else
      if length > 0 then
        View(if length > v.prevLength then InsertAt(v.dots, length - 1, true) else RemoveAt(v.dots, length), length)
      else
        View([], 0)
  }

  /** A sequence of `updateDot` calls; `None` when one of them would index
      outside the row (the Java code throws there). */
  function Run(mode: int, v: View, lengths: seq<int>): (r: Option<View>)
    ensures r.Some? && lengths != [] ==>
      r.value.prevLength == (if lengths[|lengths| - 1] > 0 then lengths[|lengths| - 1] else 0)
    ensures r.Some? && lengths == [] ==> r.value == v
    ensures r.Some? && mode == Fixed ==> |r.value.dots| == |v.dots|
    decreases |lengths|
  {
    if lengths == [] then Some(v)
    else if !InRange(mode, v, lengths[0]) then None
    else Run(mode, Update(mode, v, lengths[0]), lengths[1..])
  }

  // ---------------------------------------------------------------------
  // The counter invariant
  // ---------------------------------------------------------------------

  /** The counter says how many dots are filled, and they are the leading
      ones: FIXED keeps its slots and fills a prefix of them; the other
      modes hold exactly `prevLength` dots, all filled. */
  predicate Consistent(mode: int, v: View)
  {
    if mode == Fixed then
      0 <= v.prevLength <= |v.dots| &&
      forall i :: 0 <= i < |v.dots| ==> (v.dots[i] <==> i < v.prevLength)
    else
      |v.dots| == v.prevLength &&
      forall i :: 0 <= i < |v.dots| ==> v.dots[i]
  }

  /** One keypad event: a digit typed, a digit deleted, or the input cleared. */
  predicate SingleStep(prev: int, length: int)
  {
    length <= 0 || length == prev + 1 || length == prev - 1
  }

  /** Every call of the sequence is a single step from the previous one. */
  predicate SingleSteps(prev: int, lengths: seq<int>)
    decreases |lengths|
  {
    lengths == [] ||
    (SingleStep(prev, lengths[0]) &&
     SingleSteps(if lengths[0] > 0 then lengths[0] else 0, lengths[1..]))
  }

  /** The filled count is the number of `true` occurrences in the row. */
  lemma {:induction false} CountFilledIsMultiplicity(s: seq<bool>)
    ensures CountFilled(s) == multiset(s)[true]
    decreases |s|
  {
    if s != [] {
      var t := s[..|s| - 1];
      assert s == t + [s[|s| - 1]];
      CountFilledIsMultiplicity(t);
    }
  }

  /** A row filled as a prefix of `p` dots holds exactly `p` filled dots. */
  lemma {:induction false} CountFilledPrefix(s: seq<bool>, p: int)
    requires 0 <= p <= |s|
    requires forall i :: 0 <= i < |s| ==> (s[i] <==> i < p)
    ensures CountFilled(s) == p
    decreases |s|
  {
    if s != [] {
      var t := s[..|s| - 1];
      if p == |s| {
        CountFilledPrefix(t, p - 1);
      } else {
        CountFilledPrefix(t, p);
      }
    }
  }

  /** In a consistent state the counter equals the number of filled dots. */
  lemma ConsistentCount(mode: int, v: View)
    requires Consistent(mode, v)
    ensures CountFilled(v.dots) == v.prevLength
    ensures mode != Fixed ==> |v.dots| == v.prevLength
  {
    CountFilledPrefix(v.dots, v.prevLength);
  }

  /** A single-step call is always in range (FIXED: when it does not go past
      the last slot) and keeps the state consistent. */
  lemma StepKeepsConsistent(mode: int, v: View, length: int)
    requires Consistent(mode, v) && SingleStep(v.prevLength, length)
    requires mode == Fixed ==> length <= |v.dots|
    ensures InRange(mode, v, length)
    ensures Consistent(mode, Update(mode, v, length))
  {
  }

  /** From a consistent state, a run of single-step calls never indexes out
      of range, and at its end the counter still equals the number of filled
      dots (in the non-FIXED modes, the number of dots). */
  lemma {:induction false} SingleStepRunConsistent(mode: int, v: View, lengths: seq<int>)
    requires Consistent(mode, v) && SingleSteps(v.prevLength, lengths)
    requires mode == Fixed ==> forall i :: 0 <= i < |lengths| ==> lengths[i] <= |v.dots|
    ensures Run(mode, v, lengths).Some?
    ensures Consistent(mode, Run(mode, v, lengths).value)
    ensures CountFilled(Run(mode, v, lengths).value.dots) == Run(mode, v, lengths).value.prevLength
    decreases |lengths|
  {
    if lengths == [] {
      ConsistentCount(mode, v);
    } else {
      StepKeepsConsistent(mode, v, lengths[0]);
      var w := Update(mode, v, lengths[0]);
      assert mode == Fixed ==> forall i :: 0 <= i < |lengths[1..]| ==> lengths[1..][i] <= |w.dots|;
      SingleStepRunConsistent(mode, w, lengths[1..]);
    }
  }

  /** A freshly built widget (counter 0, row from `initView` on an empty
      row) is consistent in every mode. */
  lemma FreshConsistent(mode: int, pinLength: int)
    ensures Consistent(mode, View(Init(mode, pinLength, []), 0))
  {
  }

  /** Starting from a fresh widget and receiving only single-step calls (in
      FIXED mode never above the pin length), the counter always equals the
      number of filled dots, and in the non-FIXED modes the row holds exactly
      that many dots. */
  lemma FreshWidgetTracksLength(mode: int, pinLength: int, lengths: seq<int>)
    requires SingleSteps(0, lengths)
    requires mode == Fixed ==> forall i :: 0 <= i < |lengths| ==> lengths[i] <= pinLength
    ensures Run(mode, View(Init(mode, pinLength, []), 0), lengths).Some?
    ensures var r := Run(mode, View(Init(mode, pinLength, []), 0), lengths).value;
      CountFilled(r.dots) == r.prevLength &&
      (mode != Fixed ==> |r.dots| == r.prevLength)
  {
    var v := View(Init(mode, pinLength, []), 0);
    FreshConsistent(mode, pinLength);
    SingleStepRunConsistent(mode, v, lengths);
    ConsistentCount(mode, Run(mode, v, lengths).value);
  }

  // ---------------------------------------------------------------------
  // Increments from zero in FIXED mode
  // ---------------------------------------------------------------------

  /** The lengths `from + 1, from + 2, ..., from + k`: typing `k` digits. */
  function Ramp(from: int, k: nat): seq<int>
  {
    seq(k, i => from + i + 1)
  }

  lemma {:induction false} RampIsSingleSteps(from: nat, k: nat)
    ensures SingleSteps(from, Ramp(from, k))
    decreases k
  {
    if k > 0 {
      RampIsSingleSteps(from + 1, k - 1);
      assert Ramp(from, k)[1..] == Ramp(from + 1, k - 1);
    }
  }

  /** In FIXED mode with `n` slots, after `k` single-step increments from 0
      (k <= n) exactly the first `k` slots are filled. */
  lemma FixedIncrementsFillPrefix(n: int, k: nat)
    requires k <= n
    ensures Run(Fixed, View(Init(Fixed, n, []), 0), Ramp(0, k)).Some?
    ensures var r := Run(Fixed, View(Init(Fixed, n, []), 0), Ramp(0, k)).value;
      r.prevLength == k && |r.dots| == n &&
      forall i :: 0 <= i < n ==> (r.dots[i] <==> i < k)
  {
    var v := View(Init(Fixed, n, []), 0);
    RampIsSingleSteps(0, k);
    FreshConsistent(Fixed, n);
    SingleStepRunConsistent(Fixed, v, Ramp(0, k));
  }

  // ---------------------------------------------------------------------
  // The two non-FIXED modes
  // ---------------------------------------------------------------------

  /** FILL and FILL_WITH_ANIMATION (indeed every mode other than FIXED) make
      the same change to the row and the counter. */
  lemma NonFixedModesAgree(m1: int, m2: int, v: View, length: int)
    requires m1 != Fixed && m2 != Fixed && InRange(m1, v, length)
    ensures InRange(m2, v, length)
    ensures Update(m1, v, length) == Update(m2, v, length)
  {
  }

  /** The same holds of any sequence of calls. */
  lemma {:induction false} NonFixedRunsAgree(m1: int, m2: int, v: View, lengths: seq<int>)
    requires m1 != Fixed && m2 != Fixed
    ensures Run(m1, v, lengths) == Run(m2, v, lengths)
    decreases |lengths|
  {
    if lengths != [] && InRange(m1, v, lengths[0]) {
      NonFixedRunsAgree(m1, m2, Update(m1, v, lengths[0]), lengths[1..]);
    }
  }

  // ---------------------------------------------------------------------
  // Where the single-step assumption matters
  // ---------------------------------------------------------------------

  /** FIXED: a decrease by two steps empties only the slot at the new
      length, so a filled dot stays behind and the counter no longer
      equals the number of filled dots. */
  lemma FixedJumpLeavesStaleDot()
    ensures var r := Update(Fixed, View([true, true, true, false], 3), 1);
      r == View([true, false, true, false], 1) &&
      CountFilled(r.dots) == 2 && !Consistent(Fixed, r)
  {
    var r := Update(Fixed, View([true, true, true, false], 3), 1);
    assert r.dots == [true, false, true, false];
  }

  /** FIXED: a jump upward from 0 to 3 succeeds and fills slot 2 alone. */
  lemma FixedUpwardJumpFillsOneSlot()
    ensures InRange(Fixed, View([false, false, false, false], 0), 3)
    ensures var r := Update(Fixed, View([false, false, false, false], 0), 3);
      r == View([false, false, true, false], 3) && !Consistent(Fixed, r)
  {
    var r := Update(Fixed, View([false, false, false, false], 0), 3);
    assert r.dots == [false, false, true, false];
    assert !r.dots[0];
  }

  /** Non-FIXED: a decrease by two steps also succeeds; it removes one dot
      only, so the counter falls behind the number of dots. */
  lemma FillJumpLeavesStaleDot()
    ensures InRange(Fill, View([true, true, true], 3), 1)
    ensures var r := Update(Fill, View([true, true, true], 3), 1);
      r == View([true, true], 1) && CountFilled(r.dots) == 2 && !Consistent(Fill, r)
  {
    var r := Update(Fill, View([true, true, true], 3), 1);
    assert r.dots == [true, true];
  }

  /** Non-FIXED: the calls that do fail.  A jump upward from an empty row
      asks `addView` for an index past the end, and repeating the current
      length on a row of exactly that many dots asks `removeViewAt` for one;
      a repeat on a longer row is in range. */
  lemma FillJumpOutOfRange()
    ensures !InRange(Fill, View([], 0), 2)
    ensures !InRange(Fill, View([true, true], 2), 2)
    ensures InRange(Fill, View([true, true, true], 2), 2)
  {
  }

  /** The rebuild done by the setters keeps the counter, so the rebuilt
      widget is consistent exactly when the counter was already 0. */
  lemma RebuildConsistentOnlyAtZero(mode: int, pinLength: int, prev: int)
    ensures Consistent(mode, View(Init(mode, pinLength, []), prev)) <==> prev == 0
  {
    var d := Init(mode, pinLength, []);
    if mode == Fixed && 0 < prev <= |d| {
      assert !d[0];
    }
  }

  // ---------------------------------------------------------------------
  // Concrete call sequences
  // ---------------------------------------------------------------------

  /** FILL: updateDot(1), (2), (0) give rows of 1, 2 and 0 dots. */
  lemma FillScenario()
    ensures var v1 := Update(Fill, View([], 0), 1);
      var v2 := Update(Fill, v1, 2);
      var v3 := Update(Fill, v2, 0);
      |v1.dots| == 1 && |v2.dots| == 2 && |v3.dots| == 0
  {
  }
}
