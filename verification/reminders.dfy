/** The reminder store of the medication-reminder page and the user actions
    that change it: the slot form, adding a reminder, deleting one, and
    acknowledging the reminder shown in the popup. */
module Reminders {
  import opened Options
  import opened Seqs

  /** One medication schedule. `id` is the millisecond timestamp taken when
      it was added; `times` holds "HH:MM" slot strings. */
  datatype Reminder = Reminder(
    id: nat,
    medicine: string,
    dosage: string,
    date: string,
    times: seq<string>)

  /** The reminder shown in the popup together with the minute it matched. */
  datatype Occurrence = Occurrence(reminder: Reminder, currentTime: string)

  /** The add-reminder form: its text fields, the times-per-day choice and one
      string per time slot. */
  datatype Form = Form(
    medicine: string,
    dosage: string,
    date: string,
    timesPerDay: nat,
    times: seq<string>)

  /** The page's state: the form, the stored reminders, the popup's reminder
      (`null` when closed) and the key of the last spoken announcement. */
  datatype App = App(
    form: Form,
    reminders: seq<Reminder>,
    active: Option<Occurrence>,
    lastSpoken: Option<string>)

  /** The form as the page starts and as a successful add leaves it. */
  const EmptyForm := Form("", "", "", 1, [""])

  /** The page right after it loaded `saved` from storage. */
  function Init(saved: seq<Reminder>): (r: App)
    ensures r.reminders == saved && r.active.None? && r.lastSpoken.None?
    ensures r.form == EmptyForm
  {
    App(EmptyForm, saved, None, None)
  }

  // ------------------------------------------------------------ slot form

  /** Choosing a times-per-day count. The slot list is rebuilt only when the
      count changes: it becomes that many empty slots. Choosing the current
      count changes nothing. The text fields are kept in every case. */
  function SetTimesPerDay(f: Form, n: nat): (r: Form)
    ensures n == f.timesPerDay ==> r == f
    ensures n != f.timesPerDay ==> && r.timesPerDay == n && |r.times| == n
                                   && forall i :: 0 <= i < n ==> r.times[i] == ""
    ensures r.timesPerDay == n
    ensures r.medicine == f.medicine && r.dosage == f.dosage && r.date == f.date
  {
    if n == f.timesPerDay then f else f.(timesPerDay := n, times := seq(n, _ => ""))
  }

  /** Editing slot `i`: that slot reads `v` afterwards and every other slot
      keeps its value. Writing past the end grows the list, the skipped
      positions becoming holes, modelled as empty slots. */
  function SetTime(f: Form, i: nat, v: string): (r: Form)
    ensures |r.times| == if i < |f.times| then |f.times| else i + 1
    ensures r.times[i] == v
    ensures forall j :: 0 <= j < |f.times| && j != i ==> r.times[j] == f.times[j]
    ensures forall j :: |f.times| <= j < i ==> r.times[j] == ""
    ensures r.medicine == f.medicine && r.dosage == f.dosage && r.date == f.date
    ensures r.timesPerDay == f.timesPerDay
  {
    if i < |f.times| then f.(times := f.times[i := v])
    else f.(times := f.times + seq(i - |f.times|, _ => "") + [v])
  }

  /** Editing slots 0, 1, ... in turn with the values `vs`. */
  function EditAll(f: Form, vs: seq<string>): Form
    decreases |vs|
  {
    if |vs| == 0 then f else SetTime(EditAll(f, vs[..|vs| - 1]), |vs| - 1, vs[|vs| - 1])
  }

  /** Editing the first slots in turn leaves exactly those values in front of
      the untouched remaining slots. */
  lemma {:induction false} EditAllSlots(f: Form, vs: seq<string>)
    requires |vs| <= |f.times|
    ensures EditAll(f, vs).times == vs + f.times[|vs|..]
    ensures EditAll(f, vs).timesPerDay == f.timesPerDay
    decreases |vs|
  {
    if |vs| > 0 {
      var m := |vs| - 1;
      var init := vs[..m];
      EditAllSlots(f, init);
      var g := EditAll(f, init);
      assert g.times == init + f.times[m..];
      assert g.times[m := vs[m]] == vs + f.times[m + 1..];
    }
  }

  // ------------------------------------------------------------------ add

  /** The add guard: a medicine name, a date, and no empty slot. */
  predicate Submittable(f: Form) {
    f.medicine != "" && f.date != "" && "" !in f.times
  }

  /** The reminder a submitted form becomes, stamped with `stamp`. */
  function FromForm(f: Form, stamp: nat): Reminder {
    Reminder(stamp, f.medicine, f.dosage, f.date, f.times)
  }

  /** Submitting the form at time `stamp` (the new reminder's id). A form
      with an empty medicine, an empty date or some empty slot changes
      nothing at all; otherwise exactly one reminder carrying the form's
      fields is appended after the unchanged earlier ones, and the form is
      reset. */
  function Add(app: App, stamp: nat): (r: App)
    ensures (app.form.medicine == "" || app.form.date == ""
             || exists i :: 0 <= i < |app.form.times| && app.form.times[i] == "")
            ==> r == app
    ensures (app.form.medicine != "" && app.form.date != ""
             && forall i :: 0 <= i < |app.form.times| ==> app.form.times[i] != "")
            ==> && |r.reminders| == |app.reminders| + 1
                && r.reminders[..|app.reminders|] == app.reminders
                && r.reminders[|app.reminders|] ==
                   Reminder(stamp, app.form.medicine, app.form.dosage, app.form.date, app.form.times)
                && r.form == EmptyForm
    ensures r.active == app.active && r.lastSpoken == app.lastSpoken
  {
    if !Submittable(app.form) then app
    else app.(reminders := app.reminders + [FromForm(app.form, stamp)], form := EmptyForm)
  }

  /** A freshly chosen count leaves only empty slots, so the form cannot be
      added until its slots are filled in. */
  lemma FreshSlotsBlockAdd(app: App, n: nat, stamp: nat)
    requires n != app.form.timesPerDay && n > 0
    ensures var a := app.(form := SetTimesPerDay(app.form, n));
            Add(a, stamp) == a
  {
    var a := app.(form := SetTimesPerDay(app.form, n));
    assert a.form.times[0] == "";
  }

  /** Choosing a new count and filling every slot with a non-empty time makes
      a form with a medicine and a date addable, carrying those times. */
  lemma FilledSlotsAdd(app: App, vs: seq<string>, stamp: nat)
    requires |vs| > 0 && |vs| != app.form.timesPerDay
    requires app.form.medicine != "" && app.form.date != ""
    requires forall i :: 0 <= i < |vs| ==> vs[i] != ""
    ensures var a := app.(form := EditAll(SetTimesPerDay(app.form, |vs|), vs));
            var r := Add(a, stamp);
            && |r.reminders| == |app.reminders| + 1
            && r.reminders[|app.reminders|].times == vs
  {
    var f := SetTimesPerDay(app.form, |vs|);
    EditAllSlots(f, vs);
    assert vs + f.times[|vs|..] == vs;
    EditAllText(f, vs);
  }

  /** Editing slots leaves the text fields alone. */
  lemma {:induction false} EditAllText(f: Form, vs: seq<string>)
    ensures var g := EditAll(f, vs);
            g.medicine == f.medicine && g.dosage == f.dosage && g.date == f.date
    decreases |vs|
  {
    if |vs| > 0 {
      EditAllText(f, vs[..|vs| - 1]);
    }
  }

  // --------------------------------------------------------------- delete

  /** The reminders whose id differs from `id`, in their original order. */
  function Delete(rs: seq<Reminder>, id: nat): (r: seq<Reminder>)
    ensures forall i :: 0 <= i < |r| ==> r[i] in rs && r[i].id != id
    ensures forall i :: 0 <= i < |rs| && rs[i].id != id ==> rs[i] in r
  {
    Filter(rs, (x: Reminder) => x.id != id)
  }

  /** Deleting distributes over concatenation, so the survivors keep their
      relative order. */
  lemma DeleteKeepsOrder(a: seq<Reminder>, b: seq<Reminder>, id: nat)
    ensures Delete(a + b, id) == Delete(a, id) + Delete(b, id)
  {
    FilterAppend(a, b, (x: Reminder) => x.id != id);
  }

  /** Deleting an id no reminder carries changes nothing, so deleting twice
      is the same as deleting once. */
  lemma DeleteAbsent(rs: seq<Reminder>, id: nat)
    requires forall i :: 0 <= i < |rs| ==> rs[i].id != id
    ensures Delete(rs, id) == rs
  {
    FilterKeepsAll(rs, (x: Reminder) => x.id != id);
  }

  lemma DeleteIdempotent(rs: seq<Reminder>, id: nat)
    ensures Delete(Delete(rs, id), id) == Delete(rs, id)
  {
    DeleteAbsent(Delete(rs, id), id);
  }

  /** The delete button of a reminder card: only the store changes; the popup
      stays as it is, even when it shows the deleted reminder. */
  function DeleteReminder(app: App, id: nat): (r: App)
    ensures r.reminders == Delete(app.reminders, id)
    ensures r.form == app.form && r.active == app.active && r.lastSpoken == app.lastSpoken
  {
    app.(reminders := Delete(app.reminders, id))
  }

  // ---------------------------------------------------------- acknowledge

  /** The slots of `ts` other than `t`, in their original order. */
  function Without(ts: seq<string>, t: string): (r: seq<string>)
    ensures forall i :: 0 <= i < |r| ==> r[i] in ts && r[i] != t
    ensures forall i :: 0 <= i < |ts| && ts[i] != t ==> ts[i] in r
  {
    Filter(ts, (u: string) => u != t)
  }

  /** Dropping the matched minute keeps a single slot exactly when it is
      another minute, and distributes over concatenation; together these fix
      the order and the number of copies of every kept slot. */
  lemma WithoutKeepsOrder(a: seq<string>, u: string, b: seq<string>, t: string)
    ensures Without([u], t) == if u == t then [] else [u]
    ensures Without(a + b, t) == Without(a, t) + Without(b, t)
  {
    FilterAppend(a, b, (v: string) => v != t);
  }

  /** The reminder after acknowledging `occ`: the popup's reminder loses the
      matched slot, every other reminder is left alone. */
  function Strip(x: Reminder, occ: Occurrence): Reminder {
    if x.id == occ.reminder.id then x.(times := Without(x.times, occ.currentTime)) else x
  }

  function StripAll(rs: seq<Reminder>, occ: Occurrence): seq<Reminder> {
    seq(|rs|, i requires 0 <= i < |rs| => Strip(rs[i], occ))
  }

  /** The reminders that still have at least one slot. */
  function Slotted(rs: seq<Reminder>): seq<Reminder> {
    Filter(rs, (x: Reminder) => |x.times| > 0)
  }

  /** The store after acknowledging `occ`. */
  function AcknowledgeAll(rs: seq<Reminder>, occ: Occurrence): (r: seq<Reminder>)
    ensures |r| <= |rs|
    ensures forall i :: 0 <= i < |r| ==> |r[i].times| > 0
    ensures forall i :: 0 <= i < |r| && r[i].id == occ.reminder.id ==> occ.currentTime !in r[i].times
    ensures forall i :: 0 <= i < |rs| && rs[i].id != occ.reminder.id && |rs[i].times| > 0 ==> rs[i] in r
    ensures forall i :: 0 <= i < |rs| && rs[i].id == occ.reminder.id
              && (exists u :: u in rs[i].times && u != occ.currentTime)
              ==> rs[i].(times := Without(rs[i].times, occ.currentTime)) in r
    ensures forall i :: 0 <= i < |r| ==>
              (r[i] in rs && r[i].id != occ.reminder.id)
              || (exists x :: x in rs && x.id == occ.reminder.id
                              && r[i] == x.(times := Without(x.times, occ.currentTime)))
  {
    var stripped := StripAll(rs, occ);
    StripAllFrom(rs, occ);
    StripAllKeeps(rs, occ);
    Slotted(stripped)
  }

  /** Every stripped reminder comes from the store: unchanged with another
      id, or with the matched minute removed. */
  lemma StripAllFrom(rs: seq<Reminder>, occ: Occurrence)
    ensures forall x :: x in StripAll(rs, occ) ==>
              (x in rs && x.id != occ.reminder.id)
              || (exists y :: y in rs && y.id == occ.reminder.id
                              && x == y.(times := Without(y.times, occ.currentTime)))
  {
    var stripped := StripAll(rs, occ);
    forall x | x in stripped
      ensures (x in rs && x.id != occ.reminder.id)
              || (exists y :: y in rs && y.id == occ.reminder.id
                              && x == y.(times := Without(y.times, occ.currentTime)))
    {
      var j :| 0 <= j < |stripped| && stripped[j] == x;
      assert x == Strip(rs[j], occ);
    }
  }

  /** A reminder of another id with a slot, or the popup's reminder with a
      slot other than the matched minute, is still slotted after stripping. */
  lemma StripAllKeeps(rs: seq<Reminder>, occ: Occurrence)
    ensures forall i :: 0 <= i < |rs| && rs[i].id != occ.reminder.id && |rs[i].times| > 0
              ==> rs[i] in StripAll(rs, occ) && |rs[i].times| > 0
    ensures forall i :: 0 <= i < |rs| && rs[i].id == occ.reminder.id
              && (exists u :: u in rs[i].times && u != occ.currentTime)
              ==> var y := rs[i].(times := Without(rs[i].times, occ.currentTime));
                  y in StripAll(rs, occ) && |y.times| > 0
  {
    var stripped := StripAll(rs, occ);
    forall i | 0 <= i < |rs| && rs[i].id != occ.reminder.id && |rs[i].times| > 0
      ensures rs[i] in stripped
    {
      assert stripped[i] == rs[i];
    }
    forall i | 0 <= i < |rs| && rs[i].id == occ.reminder.id
      && (exists u :: u in rs[i].times && u != occ.currentTime)
      ensures var y := rs[i].(times := Without(rs[i].times, occ.currentTime));
              y in stripped && |y.times| > 0
    {
      var u :| u in rs[i].times && u != occ.currentTime;
      var k :| 0 <= k < |rs[i].times| && rs[i].times[k] == u;
      assert stripped[i] == Strip(rs[i], occ);
    }
  }

  /** Acknowledging keeps the store's order: it distributes over
      concatenation. */
  lemma AcknowledgeKeepsOrder(a: seq<Reminder>, b: seq<Reminder>, occ: Occurrence)
    ensures AcknowledgeAll(a + b, occ) == AcknowledgeAll(a, occ) + AcknowledgeAll(b, occ)
  {
    assert StripAll(a + b, occ) == StripAll(a, occ) + StripAll(b, occ);
    FilterAppend(StripAll(a, occ), StripAll(b, occ), (x: Reminder) => |x.times| > 0);
  }

  /** When every slot of the popup's reminder is the matched one, no reminder
      with its id survives: a reminder whose last slot is acknowledged is
      removed, not kept with an empty slot list. */
  lemma AcknowledgeLastSlot(rs: seq<Reminder>, occ: Occurrence)
    requires forall x :: x in rs && x.id == occ.reminder.id ==>
               forall k :: 0 <= k < |x.times| ==> x.times[k] == occ.currentTime
    ensures forall i :: 0 <= i < |AcknowledgeAll(rs, occ)| ==>
              AcknowledgeAll(rs, occ)[i].id != occ.reminder.id
  {
    var r := AcknowledgeAll(rs, occ);
    forall i | 0 <= i < |r| ensures r[i].id != occ.reminder.id {
      if r[i].id == occ.reminder.id {
        var x :| x in rs && x.id == occ.reminder.id
                 && r[i] == x.(times := Without(x.times, occ.currentTime));
        FilterDropsAll(x.times, (u: string) => u != occ.currentTime);
        assert false;
      }
    }
  }

  /** The popup's OK button. With a reminder shown, the store is
      acknowledged; in every case the popup closes. */
  function Acknowledge(app: App): (r: App)
    ensures r.active.None?
    ensures app.active.None? ==> r == app
    ensures app.active.Some? ==> r.reminders == AcknowledgeAll(app.reminders, app.active.value)
    ensures r.form == app.form && r.lastSpoken == app.lastSpoken
  {
    match app.active
    case None => app
    case Some(occ) => app.(reminders := AcknowledgeAll(app.reminders, occ), active := None)
  }

  /** A second OK in a row does nothing. */
  lemma AcknowledgeTwice(app: App)
    ensures Acknowledge(Acknowledge(app)) == Acknowledge(app)
  {
  }
}
