/**
 * The `RangePicker` component: two text fields and the button handler that emits the
 * range string read by the card list's range filter.
 */
module RangePicker {
  import opened Wrappers
  import JsNumbers
  import CardRange

  /** The `minHp`/`maxHp` state of the component. */
  class RangePicker {
    var minHp: string
    var maxHp: string

    /** Both fields start empty. */
    constructor()
      ensures minHp == "" && maxHp == ""
    {
      minHp := "";
      maxHp := "";
    }

    /** `onChangeText={setMinHp}`: replaces the lower field only. */
    method SetMinHp(text: string)
      modifies this
      ensures minHp == text && maxHp == old(maxHp)
    {
      minHp := text;
    }

    /** `onChangeText={setMaxHp}`: replaces the upper field only. */
    method SetMaxHp(text: string)
      modifies this
      ensures maxHp == text && minHp == old(minHp)
    {
      maxHp := text;
    }

    /**
     * `handleRangeChange`: the argument of the single `onRangeSelect` call, or `None` when
     * the callback is not called. It is called only when both fields are non-empty, with
     * `minHp + "-" + maxHp`; for digit-only fields the card list parses that string back to
     * the two values. The fields are not changed.
     */
    method HandleRangeChange() returns (selected: Option<string>)
      ensures selected.Some? <==> minHp != "" && maxHp != ""
      ensures selected.Some? ==> selected.value == minHp + "-" + maxHp
      ensures selected.Some? && JsNumbers.AllDigits(minHp) && JsNumbers.AllDigits(maxHp) ==>
        CardRange.ParseRange(selected.value) ==
          (JsNumbers.Int(JsNumbers.DigitsValue(minHp)), JsNumbers.Int(JsNumbers.DigitsValue(maxHp)))
    {
      if minHp != "" && maxHp != "" {
        selected := Some(minHp + "-" + maxHp);
        if JsNumbers.AllDigits(minHp) && JsNumbers.AllDigits(maxHp) {
          CardRange.ParseDigitRange(minHp, maxHp);
        }
      } else {
        selected := None;
      }
    }
  }
}
