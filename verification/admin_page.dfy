/**
 * The administrator's scheduling page: a half-hourly grid of time labels,
 * the per-cell selection map, and the two-step "delete event" confirmation.
 */
module AdminPage {
  import opened Wrappers
  import opened ClockLabels
  import opened SlotSelection

  /** The shape `generateTimeSlots` promises: "09:00", "09:30", ..., "23:30", then "00:00". */
  ghost predicate HalfHourGrid(slots: seq<string>)
  {
    && |slots| == 31
    && (forall i :: 0 <= i < 30 ==> slots[i] == Label(9 + i / 2, i % 2 == 1))
    && slots[30] == "00:00"
  }

  /** `generateTimeSlots`: two labels per hour from 9 to 23, then midnight. */
  method GenerateTimeSlots() returns (slots: seq<string>)
    ensures |slots| == 31
    ensures forall i :: 0 <= i < 30 ==> slots[i] == Label(9 + i / 2, i % 2 == 1)
    ensures slots[30] == "00:00"
  {
    slots := [];
    for hour := 9 to 24
      invariant |slots| == 2 * (hour - 9)
      invariant forall i :: 0 <= i < |slots| ==> slots[i] == Label(9 + i / 2, i % 2 == 1)
    {
      var paddedHour := PadHour(hour);
      slots := slots + [paddedHour + ":00"];
      slots := slots + [paddedHour + ":30"];
    }
    slots := slots + ["00:00"];
  }

  /** Label i of the grid stands for 09:00 plus 30 * i minutes. */
  lemma HalfHourLabelTime(i: nat)
    requires i < 30
    ensures 9 + i / 2 < 100
    ensures |Label(9 + i / 2, i % 2 == 1)| == 5
    ensures ParseClock(Label(9 + i / 2, i % 2 == 1)) == Some(540 + 30 * i)
  {
  }

  /** Every label is a well-formed, zero-padded `HH:MM`; the grid runs 09:00 ... 23:30, 00:00. */
  lemma TimeSlotsWellFormed(slots: seq<string>)
    requires HalfHourGrid(slots)
    ensures forall i :: 0 <= i < |slots| ==> |slots[i]| == 5 && slots[i][2] == ':' && ParseClock(slots[i]).Some?
    ensures slots[0] == "09:00" && slots[1] == "09:30" && slots[29] == "23:30"
  {
  }

  /** The first 30 labels are strictly increasing in time of day; the last is midnight. */
  lemma TimeSlotsIncreasing(slots: seq<string>)
    requires HalfHourGrid(slots)
    ensures forall i :: 0 <= i < 30 ==> ParseClock(slots[i]) == Some(540 + 30 * i)
    ensures forall i, j :: 0 <= i < j < 30 ==> ParseClock(slots[i]).value < ParseClock(slots[j]).value
    ensures ParseClock(slots[30]) == Some(0)
  {
    forall i | 0 <= i < 30
      ensures ParseClock(slots[i]) == Some(540 + 30 * i)
    {
      HalfHourLabelTime(i);
    }
  }

  /** No label occurs twice. */
  lemma TimeSlotsDistinct(slots: seq<string>)
    requires HalfHourGrid(slots)
    ensures forall i, j :: 0 <= i < j < |slots| ==> slots[i] != slots[j]
  {
    TimeSlotsIncreasing(slots);
  }

  // ---------------------------------------------------------------------------
  // Delete confirmation

  /**
   * The `{ type, text }` banner shown at the top of the page. Every banner this
   * page sets has type `'success'`, so only the text is kept.
   */
  datatype Notice = Notice(text: string)

  /** The banner set once deletion is confirmed. */
  function DeletionNotice(eventName: string): Notice
  {
    Notice("Event \"" + eventName + "\" has been marked for deletion (Admin action simulated).")
  }

  /** The three buttons of the flow: "Delete Event", "Yes, Delete" and "Cancel". */
  datatype DeleteClick = OpenConfirm | Confirm | Cancel

  /** The part of the page state the flow touches: `isConfirmingDelete` and `message`. */
  datatype DeleteState = DeleteState(confirming: bool, message: Option<Notice>)

  const InitialDeleteState := DeleteState(false, None)

  /**
   * One click: "Delete Event" is `handleDeleteEvent(false)`, "Yes, Delete" is
   * `handleDeleteEvent(true)`, "Cancel" is `setIsConfirmingDelete(false)`.
   */
  function Step(s: DeleteState, click: DeleteClick, eventName: string): (r: DeleteState)
    ensures r.confirming <==> click == OpenConfirm
    ensures click == OpenConfirm ==> r.message.None?
    ensures click == Confirm ==> r.message == Some(DeletionNotice(eventName))
    ensures click == Cancel ==> r.message == s.message
  {
    match click
    case OpenConfirm => DeleteState(true, None)
    case Confirm => DeleteState(false, Some(DeletionNotice(eventName)))
    case Cancel => s.(confirming := false)
  }

  /** The state after a sequence of clicks. */
  function Run(s: DeleteState, clicks: seq<DeleteClick>, eventName: string): (r: DeleteState)
    ensures clicks == [] ==> r == s
    ensures clicks != [] ==> (r.confirming <==> clicks[|clicks| - 1] == OpenConfirm)
    ensures r.message.Some? ==> r.message == s.message || Confirm in clicks
    decreases |clicks|
  {
    if clicks == [] then s
    else Step(Run(s, clicks[..|clicks| - 1], eventName), clicks[|clicks| - 1], eventName)
  }

  /**
   * Whether the button for a click is on screen: "Delete Event" only for an
   * administrator, "Yes, Delete" and "Cancel" only inside the open confirmation dialog.
   */
  predicate Shown(s: DeleteState, click: DeleteClick, isAdmin: bool)
    ensures Shown(s, click, isAdmin) && click == OpenConfirm ==> isAdmin
    ensures click != OpenConfirm ==> (Shown(s, click, isAdmin) <==> s.confirming)
  {
    match click
    case OpenConfirm => isAdmin
    case Confirm => s.confirming
    case Cancel => s.confirming
  }

  /** Every click of the sequence hits a button that was on screen at that moment. */
  predicate ShownRun(s: DeleteState, clicks: seq<DeleteClick>, isAdmin: bool, eventName: string)
    decreases |clicks|
  {
    clicks == [] ||
    (ShownRun(s, clicks[..|clicks| - 1], isAdmin, eventName) &&
     Shown(Run(s, clicks[..|clicks| - 1], eventName), clicks[|clicks| - 1], isAdmin))
  }

  /** The last click that was not "Cancel", if any. */
  function LastDecision(clicks: seq<DeleteClick>): (d: Option<DeleteClick>)
    ensures d.Some? ==> d.value != Cancel && d.value in clicks
    ensures d.None? ==> forall i :: 0 <= i < |clicks| ==> clicks[i] == Cancel
    decreases |clicks|
  {
    if clicks == [] then None
    else if clicks[|clicks| - 1] != Cancel then Some(clicks[|clicks| - 1])
    else LastDecision(clicks[..|clicks| - 1])
  }

  /** The confirmation dialog is open exactly when the latest click was "Delete Event". */
  lemma DialogOpenIffLastClickOpens(clicks: seq<DeleteClick>, eventName: string)
    ensures Run(InitialDeleteState, clicks, eventName).confirming <==>
      |clicks| > 0 && clicks[|clicks| - 1] == OpenConfirm
  {
  }

  /**
   * The success banner is shown exactly when the latest click other than "Cancel"
   * was "Yes, Delete": opening the dialog clears it and cancelling keeps it.
   */
  lemma {:induction false} NoticeIffLastDecisionConfirms(clicks: seq<DeleteClick>, eventName: string)
    ensures Run(InitialDeleteState, clicks, eventName).message ==
      if LastDecision(clicks) == Some(Confirm) then Some(DeletionNotice(eventName)) else None
  {
    if clicks != [] {
      NoticeIffLastDecisionConfirms(clicks[..|clicks| - 1], eventName);
    }
  }

  /** The dialog and the banner are never shown together. */
  lemma DialogAndNoticeExclusive(clicks: seq<DeleteClick>, eventName: string)
    ensures var s := Run(InitialDeleteState, clicks, eventName);
      !(s.confirming && s.message.Some?)
  {
  }

  /**
   * Clicking only buttons on screen, every "Yes, Delete" directly follows "Delete Event",
   * and a page without administrator rights never enters the flow at all.
   */
  lemma {:induction false} ConfirmFollowsOpen(clicks: seq<DeleteClick>, isAdmin: bool, eventName: string)
    requires ShownRun(InitialDeleteState, clicks, isAdmin, eventName)
    ensures forall i :: 0 <= i < |clicks| && clicks[i] == Confirm ==> 0 < i && clicks[i - 1] == OpenConfirm
    ensures !isAdmin ==> clicks == []
  {
    if clicks != [] {
      var prefix := clicks[..|clicks| - 1];
      ConfirmFollowsOpen(prefix, isAdmin, eventName);
      DialogOpenIffLastClickOpens(prefix, eventName);
      forall i | 0 <= i < |clicks| && clicks[i] == Confirm
        ensures 0 < i && clicks[i - 1] == OpenConfirm
      {
        if i < |clicks| - 1 {
          assert prefix[i] == clicks[i];
        } else {
          assert prefix[|prefix| - 1] == clicks[i - 1];
        }
      }
    }
  }

  /** The page's state: the selection map and the delete flow. */
  class AdminPageState {
    const eventName: string
    const isAdmin: bool
    var selectedSlots: Selection
    var isConfirmingDelete: bool
    var message: Option<Notice>

    constructor (eventName: string, isAdmin: bool)
      ensures this.eventName == eventName && this.isAdmin == isAdmin
      ensures selectedSlots == map[] && !isConfirmingDelete && message == None
    {
      this.eventName := eventName;
      this.isAdmin := isAdmin;
      selectedSlots := map[];
      isConfirmingDelete := false;
      message := None;
    }

    function DeleteFlow(): DeleteState
      reads this
    {
      DeleteState(isConfirmingDelete, message)
    }

    /** A click on a grid cell: `toggleSlot(fullDate, time)`. */
    method ToggleSlot(fullDate: string, time: string)
      modifies this
      ensures selectedSlots == Toggle(old(selectedSlots), fullDate, time)
      ensures isConfirmingDelete == old(isConfirmingDelete) && message == old(message)
    {
      selectedSlots := Toggle(selectedSlots, fullDate, time);
    }

    /** `handleDeleteEvent(confirm)`. */
    method HandleDeleteEvent(confirm: bool)
      modifies this
      ensures !confirm ==> isConfirmingDelete && message == None
      ensures confirm ==> !isConfirmingDelete && message == Some(DeletionNotice(eventName))
      ensures DeleteFlow() == Step(old(DeleteFlow()), if confirm then Confirm else OpenConfirm, eventName)
      ensures selectedSlots == old(selectedSlots)
    {
      if !confirm {
        isConfirmingDelete := true;
        message := None;
      } else {
        isConfirmingDelete := false;
        message := Some(DeletionNotice(eventName));
      }
    }

    /** The dialog's "Cancel" button: `setIsConfirmingDelete(false)`. */
    method CancelDelete()
      modifies this
      ensures !isConfirmingDelete && message == old(message)
      ensures DeleteFlow() == Step(old(DeleteFlow()), Cancel, eventName)
      ensures selectedSlots == old(selectedSlots)
    {
      isConfirmingDelete := false;
    }
  }
}
