/** The reminder page as one state machine: every user action and every poll
    tick is a step, and a run is a sequence of steps from the loaded page. */
module Engine {
  import opened Options
  import opened Reminders
  import opened Poller

  /** What can happen to the page: typing into the text fields, choosing a
      times-per-day count, editing one slot, submitting the form at a given
      millisecond time, deleting a reminder, a poll tick, and the popup's OK. */
  datatype Event =
    | Type(medicine: string, dosage: string, date: string)
    | ChooseTimesPerDay(n: nat)
    | EditSlot(index: nat, value: string)
    | Submit(stamp: nat)
    | Remove(id: nat)
    | Poll(now: Clock)
    | Ok

  /** One step of the page. Each event touches only its own part: form
      events only the form; a submission the store and the form, growing the
      store by at most one reminder; delete and OK only the store and the
      popup, never growing the store; a tick only the popup and the
      remembered key. */
  function Apply(app: App, e: Event): (r: App)
    ensures e.Type? || e.ChooseTimesPerDay? || e.EditSlot? ==>
              r.reminders == app.reminders && r.active == app.active && r.lastSpoken == app.lastSpoken
    ensures e.Submit? ==>
              && r.active == app.active && r.lastSpoken == app.lastSpoken
              && app.reminders <= r.reminders && |r.reminders| <= |app.reminders| + 1
    ensures e.Remove? || e.Ok? ==>
              r.form == app.form && r.lastSpoken == app.lastSpoken && |r.reminders| <= |app.reminders|
    ensures e.Poll? ==> r.reminders == app.reminders && r.form == app.form
  {
    match e
    case Type(m, d, dt) => app.(form := app.form.(medicine := m, dosage := d, date := dt))
    case ChooseTimesPerDay(n) => app.(form := SetTimesPerDay(app.form, n))
    case EditSlot(i, v) => app.(form := SetTime(app.form, i, v))
    case Submit(stamp) => Add(app, stamp)
    case Remove(id) => DeleteReminder(app, id)
    case Poll(now) => Tick(app, now).app
    case Ok => Acknowledge(app)
  }

  function Run(app: App, es: seq<Event>): App
    decreases |es|
  {
    if |es| == 0 then app else Run(Apply(app, es[0]), es[1..])
  }

  /** The choices the times-per-day selector offers are 1, 2 and 3. */
  predicate Offered(e: Event) {
    e.ChooseTimesPerDay? ==> 1 <= e.n <= 3
  }

  /** Every stored reminder has a slot, and the form has at least one slot. */
  predicate Consistent(app: App) {
    && (forall i :: 0 <= i < |app.reminders| ==> |app.reminders[i].times| > 0)
    && |app.form.times| > 0
  }

  /** A loaded page is consistent when what was stored is. */
  lemma InitConsistent(saved: seq<Reminder>)
    requires forall i :: 0 <= i < |saved| ==> |saved[i].times| > 0
    ensures Consistent(Init(saved))
  {
  }

  /** Every step the page offers keeps it consistent. */
  lemma ApplyConsistent(app: App, e: Event)
    requires Consistent(app) && Offered(e)
    ensures Consistent(Apply(app, e))
  {
    match e
    case Ok =>
      if app.active.Some? {
        var r := AcknowledgeAll(app.reminders, app.active.value);
        assert forall i :: 0 <= i < |r| ==> |r[i].times| > 0;
      }
    case Remove(id) =>
      var r := Delete(app.reminders, id);
      forall i | 0 <= i < |r| ensures |r[i].times| > 0 {
        var k :| 0 <= k < |app.reminders| && app.reminders[k] == r[i];
      }
    case _ =>
  }

  /** No reachable page holds a reminder with an empty slot list: a reminder
      either has a slot or has been removed. */
  lemma {:induction false} RunConsistent(app: App, es: seq<Event>)
    requires Consistent(app)
    requires forall i :: 0 <= i < |es| ==> Offered(es[i])
    ensures Consistent(Run(app, es))
    decreases |es|
  {
    if |es| > 0 {
      ApplyConsistent(app, es[0]);
      RunConsistent(Apply(app, es[0]), es[1..]);
    }
  }

  const Aspirin := Reminder(1, "Aspirin", "1 tablet", "2025-01-01", ["08:00", "20:00"])
  const Morning := Clock("2025-01-01", "08:00")
  const Evening := Clock("2025-01-01", "20:00")

  /** At 08:00 the first tick speaks once and shows the 08:00 occurrence; the
      next tick of that minute is silent. */
  lemma AspirinMorning()
    ensures var t1 := Tick(Init([Aspirin]), Morning);
            var t2 := Tick(t1.app, Morning);
            && |t1.announces| == 1 && t2.announces == []
            && t2.app == t1.app
            && t2.app.active == Some(Occurrence(Aspirin, "08:00"))
            && t2.app.reminders == [Aspirin]
  {
    var app := Init([Aspirin]);
    SpeakingAll([Aspirin], Morning, None);
    TickAnnounces(app, Morning);
    TickActive(app, Morning);
    SecondTickSilent(app, Morning);
  }

  /** OK on the 08:00 occurrence leaves only the 20:00 slot. */
  lemma AspirinMorningOk(app: App)
    requires app.reminders == [Aspirin] && app.active == Some(Occurrence(Aspirin, "08:00"))
    ensures Acknowledge(app).reminders == [Aspirin.(times := ["20:00"])]
  {
    var occ := Occurrence(Aspirin, "08:00");
    assert Without(["08:00", "20:00"], "08:00") == ["20:00"];
    assert StripAll([Aspirin], occ) == [Aspirin.(times := ["20:00"])];
  }

  /** At 20:00 the remaining slot speaks once and is shown; OK on it removes
      the reminder. */
  lemma AspirinEvening(app: App)
    requires app.reminders == [Aspirin.(times := ["20:00"])]
    requires app.lastSpoken != Some(Key(1, "20:00"))
    ensures var t := Tick(app, Evening);
            |t.announces| == 1 && Acknowledge(t.app).reminders == []
  {
    var r1 := Aspirin.(times := ["20:00"]);
    SpeakingAll([r1], Evening, app.lastSpoken);
    TickAnnounces(app, Evening);
    TickActive(app, Evening);
    assert Without(["20:00"], "20:00") == [];
    assert StripAll([r1], Occurrence(r1, "20:00")) == [r1.(times := [])];
  }

  /** One reminder taken through its day: Aspirin at 08:00 and 20:00. */
  lemma AspirinDay()
    ensures var t1 := Tick(Init([Aspirin]), Morning);
            var t2 := Tick(t1.app, Morning);
            var a1 := Acknowledge(t2.app);
            var t3 := Tick(a1, Evening);
            && |t1.announces| == 1 && t2.announces == []
            && a1.reminders == [Aspirin.(times := ["20:00"])]
            && |t3.announces| == 1
            && Acknowledge(t3.app).reminders == []
  {
    AspirinMorning();
    var t1 := Tick(Init([Aspirin]), Morning);
    var t2 := Tick(t1.app, Morning);
    AspirinMorningOk(t2.app);
    var a1 := Acknowledge(t2.app);
    TickAnnounces(Init([Aspirin]), Morning);
    assert Aspirin in Speaking([Aspirin], Morning, None);
    assert a1.lastSpoken == Some(Key(1, "08:00")) by {
      assert [Aspirin][0] == Aspirin;
    }
    assert Key(1, "08:00") != Key(1, "20:00") by {
      assert Key(1, "08:00")[|Key(1, "08:00")| - 5] == '0';
      assert Key(1, "20:00")[|Key(1, "20:00")| - 5] == '2';
    }
    AspirinEvening(a1);
  }
}
