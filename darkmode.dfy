/** The dark-mode variant of the timeline screen. Its list, conflict,
    monthly-time, height, placement, toggle and remove logic is the
    timeline's (see module Timeline); it differs in its add form, which has
    no description, and in the label of its daily checkbox. */
module DarkMode {
  import opened Time
  import opened Schedule
  import Timeline

  /** The dark-mode add form: the timeline form without a description. */
  datatype DarkDraft = DarkDraft(
    name: string,
    startTime: string,
    endTime: string,
    color: string,
    manual: bool,
    isDaily: bool)

  /** The number of days the daily checkbox's label promises. */
  const LabelDays := 28

  function AsDraft(f: DarkDraft): Draft
  {
    Draft(f.name, f.startTime, f.endTime, f.color, f.manual, f.isDaily, None)
  }

  /** `addRobot`: nothing when a required field is empty; otherwise one
      create request per day 1..30 for a daily form, or one for the
      selected day, none of them with a description. */
  function AddRobot(form: DarkDraft, selectedDay: int): (o: Option<seq<Payload>>)
    ensures o.None? <==> form.name == "" || form.startTime == "" || form.endTime == ""
    ensures o.Some? ==> |o.value| == (if form.isDaily then 30 else 1)
    ensures o.Some? ==> forall i :: 0 <= i < |o.value| ==>
              var p := o.value[i];
              && p.name == form.name && p.startTime == form.startTime && p.endTime == form.endTime
              && p.color == form.color && p.manual == form.manual && !p.isDaily && p.description.None?
              && p.day == (if form.isDaily then i + 1 else selectedDay)
  {
    Timeline.AddRobot(AsDraft(form), selectedDay)
  }

  /** A daily add posts a robot for every one of the 30 days, two more than
      the 28 the checkbox label announces. */
  lemma DailyAddExceedsLabel(form: DarkDraft, selectedDay: int)
    requires form.isDaily && form.name != "" && form.startTime != "" && form.endTime != ""
    ensures AddRobot(form, selectedDay).Some?
    ensures var ps := AddRobot(form, selectedDay).value;
            |ps| == LabelDays + 2 && ps[LabelDays].day == 29 && ps[LabelDays + 1].day == 30
    ensures (set p | p in AddRobot(form, selectedDay).value :: p.day) == (set d | d in MonthDays)
  {
    DailyPayloadsCoverMonth(AsDraft(form), selectedDay);
  }
}
