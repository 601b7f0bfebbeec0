/**
 * The selection map both grid pages keep: a JavaScript object from slot key
 * `${fullDate}-${time}` to a boolean. A key that was never toggled is absent
 * (`undefined`), which the pages treat as "not selected".
 */
module SlotSelection {

  type Selection = map<string, bool>

  /** The composite key `${fullDate}-${time}` that both `toggleSlot` and `isSelected` use. */
  function SlotKey(fullDate: string, time: string): (key: string)
    ensures |key| == |fullDate| + 1 + |time|
    ensures key[..|fullDate|] == fullDate && key[|fullDate|] == '-' && key[|fullDate| + 1..] == time
  {
    fullDate + "-" + time
  }

  /** `isSelected`: the truthiness of `selectedSlots[key]` (absent reads as false). */
  function IsSelected(sel: Selection, fullDate: string, time: string): (r: bool)
    ensures SlotKey(fullDate, time) !in sel ==> !r
    ensures r <==> SlotKey(fullDate, time) in sel && sel[SlotKey(fullDate, time)]
  {
    var key := SlotKey(fullDate, time);
    key in sel && sel[key]
  }

  /** `toggleSlot`: `{ ...prev, [key]: !prev[key] }`. */
  function Toggle(sel: Selection, fullDate: string, time: string): (r: Selection)
    ensures r.Keys == sel.Keys + {SlotKey(fullDate, time)}
    ensures IsSelected(r, fullDate, time) == !IsSelected(sel, fullDate, time)
    ensures forall k :: k in sel && k != SlotKey(fullDate, time) ==> r[k] == sel[k]
  {
    var key := SlotKey(fullDate, time);
    sel[key := !(key in sel && sel[key])]
  }

  /**
   * Dates rendered to a fixed width (ISO `YYYY-MM-DD` is always ten characters) make
   * the key injective: two cells share a key exactly when they are the same cell.
   */
  lemma SlotKeyInjective(d1: string, t1: string, d2: string, t2: string)
    requires |d1| == |d2|
    ensures SlotKey(d1, t1) == SlotKey(d2, t2) <==> d1 == d2 && t1 == t2
  {
  }

  /** Toggling a cell flips what `isSelected` reports for it and for no other cell of the same date width. */
  lemma ToggleFlipsOnlyThatCell(sel: Selection, d: string, t: string, d': string, t': string)
    requires |d| == |d'|
    ensures IsSelected(Toggle(sel, d, t), d', t') ==
      if d' == d && t' == t then !IsSelected(sel, d', t') else IsSelected(sel, d', t')
  {
    SlotKeyInjective(d, t, d', t');
  }

  /** Toggling the same cell twice restores what `isSelected` reports everywhere. */
  lemma ToggleTwiceRestores(sel: Selection, d: string, t: string, d': string, t': string)
    ensures IsSelected(Toggle(Toggle(sel, d, t), d, t), d', t') == IsSelected(sel, d', t')
  {
  }

  /** ... and restores the map itself once the key has been written at least once. */
  lemma ToggleTwiceIsIdentity(sel: Selection, d: string, t: string)
    requires SlotKey(d, t) in sel
    ensures Toggle(Toggle(sel, d, t), d, t) == sel
  {
  }
}
