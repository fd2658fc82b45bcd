/** One run of the per-second reminder check: match the store against the
    current date and minute, show the due reminder in the popup, and ask for
    a spoken announcement unless the single remembered key says it was
    already spoken. */
module Poller {
  import opened Options
  import opened Seqs
  import opened Strings
  import opened Reminders

  /** The current date ("YYYY-MM-DD") and minute ("HH:MM"), taken from the
      host clock by the caller. */
  datatype Clock = Clock(date: string, time: string)

  /** What the scan over the store has produced so far. */
  datatype Poll = Poll(active: Option<Occurrence>, lastSpoken: Option<string>, announces: seq<string>)

  /** The page after a tick, and the texts handed to the speech service. */
  datatype Ticked = Ticked(app: App, announces: seq<string>)

  /** A reminder is due when its date is today and one of its slots is this minute. */
  predicate Due(x: Reminder, now: Clock) {
    x.date == now.date && now.time in x.times
  }

  /** The announcement key: the id's decimal digits followed by the minute. */
  function Key(id: nat, time: string): (r: string)
    ensures |time| < |r| && r[|r| - |time|..] == time
    ensures forall i :: 0 <= i < |r| - |time| ==> '0' <= r[i] <= '9'
  {
    NatToString(id) + time
  }

  /** A due reminder is spoken when its key differs from the key remembered
      when the tick began. */
  predicate Speaks(x: Reminder, now: Clock, seen: Option<string>) {
    Due(x, now) && seen != Some(Key(x.id, now.time))
  }

  /** The spoken announcement: a greeting naming the minute, then the dosage
      and the medicine separated by one space, closed by a full stop. */
  function VoiceText(x: Reminder, time: string): (r: string)
    ensures StartsWith(r, Greeting) && OccursAt(r, time, |Greeting|)
    ensures var tail := x.dosage + " " + x.medicine + ".";
            |tail| < |r| && r[|r| - |tail|..] == tail
  {
    var r := Greeting + time + ". Time to take " + x.dosage + " " + x.medicine + ".";
    assert r == Greeting + (time + ". Time to take ") + (x.dosage + " " + x.medicine + ".");
    r
  }

  const Greeting := "Hi, it is "

  /** One reminder of the scan. Every reminder is compared with `seen`, the
      key captured when the tick began, not with what earlier reminders of
      the same tick wrote. */
  function Step(p: Poll, x: Reminder, now: Clock, seen: Option<string>): (r: Poll)
    ensures !Due(x, now) ==> r == p
    ensures Due(x, now) ==> r.active == Some(Occurrence(x, now.time))
    ensures Speaks(x, now, seen) ==>
              r.lastSpoken == Some(Key(x.id, now.time)) && r.announces == p.announces + [VoiceText(x, now.time)]
    ensures !Speaks(x, now, seen) ==> r.lastSpoken == p.lastSpoken && r.announces == p.announces
  {
    if !Due(x, now) then p
    else
      var shown := p.(active := Some(Occurrence(x, now.time)));
      if seen == Some(Key(x.id, now.time)) then shown
      else shown.(lastSpoken := Some(Key(x.id, now.time)),
                  announces := p.announces + [VoiceText(x, now.time)])
  }

  /** The scan over the store, in store order. Announcements are only
      appended, at most one per reminder, and a store with nothing due leaves
      the scan as it was; ScanActive, ScanSpoken and ScanAnnounces give its
      full effect. */
  function Scan(rs: seq<Reminder>, now: Clock, seen: Option<string>, p: Poll): (r: Poll)
    ensures p.announces <= r.announces
    ensures |r.announces| <= |p.announces| + |rs|
    ensures (forall i :: 0 <= i < |rs| ==> !Due(rs[i], now)) ==> r == p
    decreases |rs|
  {
    if |rs| == 0 then p else Scan(rs[1..], now, seen, Step(p, rs[0], now, seen))
  }

  /** One tick. The store and the form are untouched, and there is at most one
      announcement per reminder. */
  function Tick(app: App, now: Clock): (r: Ticked)
    ensures r.app.reminders == app.reminders && r.app.form == app.form
    ensures |r.announces| <= |app.reminders|
  {
    var p := Scan(app.reminders, now, app.lastSpoken, Poll(app.active, app.lastSpoken, []));
    ScanAnnounces(app.reminders, now, app.lastSpoken, Poll(app.active, app.lastSpoken, []));
    Ticked(app.(active := p.active, lastSpoken := p.lastSpoken), p.announces)
  }

  // ------------------------------------------------ reference definitions

  /** The due reminders, in store order: every one kept is due, and every
      due reminder is kept. */
  function DueOnly(rs: seq<Reminder>, now: Clock): (r: seq<Reminder>)
    ensures forall i :: 0 <= i < |r| ==> r[i] in rs && Due(r[i], now)
    ensures forall i :: 0 <= i < |rs| && Due(rs[i], now) ==> rs[i] in r
  {
    Filter(rs, (x: Reminder) => Due(x, now))
  }

  /** The reminders a tick speaks for, in store order. */
  function Speaking(rs: seq<Reminder>, now: Clock, seen: Option<string>): seq<Reminder> {
    Filter(rs, (x: Reminder) => Speaks(x, now, seen))
  }

  /** When every reminder is spoken for, all of them are, in order. */
  lemma SpeakingAll(rs: seq<Reminder>, now: Clock, seen: Option<string>)
    requires forall i :: 0 <= i < |rs| ==> Speaks(rs[i], now, seen)
    ensures Speaking(rs, now, seen) == rs
  {
    FilterKeepsAll(rs, (x: Reminder) => Speaks(x, now, seen));
  }

  function Texts(rs: seq<Reminder>, time: string): (r: seq<string>)
    ensures |r| == |rs|
    ensures forall i :: 0 <= i < |rs| ==> r[i] == VoiceText(rs[i], time)
  {
    seq(|rs|, i requires 0 <= i < |rs| => VoiceText(rs[i], time))
  }

  // ------------------------------------------------------- scan lemmas

  /** Scanning one more reminder is one more step. */
  lemma {:induction false} ScanSnoc(rs: seq<Reminder>, x: Reminder, now: Clock, seen: Option<string>, p: Poll)
    ensures Scan(rs + [x], now, seen, p) == Step(Scan(rs, now, seen, p), x, now, seen)
    decreases |rs|
  {
    if |rs| == 0 {
      assert rs + [x] == [x];
    } else {
      assert (rs + [x])[1..] == rs[1..] + [x];
      ScanSnoc(rs[1..], x, now, seen, Step(p, rs[0], now, seen));
    }
  }

  /** The popup ends up showing the last due reminder of the store; with no
      reminder due it keeps what it showed. */
  lemma {:induction false} ScanActive(rs: seq<Reminder>, now: Clock, seen: Option<string>, p: Poll)
    ensures (forall i :: 0 <= i < |rs| ==> !Due(rs[i], now)) ==> Scan(rs, now, seen, p).active == p.active
    ensures forall i :: 0 <= i < |rs| && Due(rs[i], now) && (forall j :: i < j < |rs| ==> !Due(rs[j], now))
              ==> Scan(rs, now, seen, p).active == Some(Occurrence(rs[i], now.time))
    decreases |rs|
  {
    if |rs| > 0 {
      var n := |rs|;
      var init := rs[..n - 1];
      var x := rs[n - 1];
      assert rs == init + [x];
      ScanSnoc(init, x, now, seen, p);
      ScanActive(init, now, seen, p);
      var q := Scan(init, now, seen, p);
      forall i | 0 <= i < n && Due(rs[i], now) && (forall j :: i < j < n ==> !Due(rs[j], now))
        ensures Scan(rs, now, seen, p).active == Some(Occurrence(rs[i], now.time))
      {
        if i < n - 1 {
          assert !Due(x, now);
          assert init[i] == rs[i];
          assert forall j :: i < j < n - 1 ==> init[j] == rs[j];
        }
      }
      if forall i :: 0 <= i < n ==> !Due(rs[i], now) {
        assert !Due(x, now);
        assert forall i :: 0 <= i < n - 1 ==> init[i] == rs[i];
      }
    }
  }

  /** The remembered key ends up as the key of the last reminder spoken for;
      when nothing is spoken it is kept. */
  lemma {:induction false} ScanSpoken(rs: seq<Reminder>, now: Clock, seen: Option<string>, p: Poll)
    ensures (forall i :: 0 <= i < |rs| ==> !Speaks(rs[i], now, seen)) ==>
              Scan(rs, now, seen, p).lastSpoken == p.lastSpoken
    ensures forall i :: 0 <= i < |rs| && Speaks(rs[i], now, seen)
              && (forall j :: i < j < |rs| ==> !Speaks(rs[j], now, seen))
              ==> Scan(rs, now, seen, p).lastSpoken == Some(Key(rs[i].id, now.time))
    decreases |rs|
  {
    if |rs| > 0 {
      var n := |rs|;
      var init := rs[..n - 1];
      var x := rs[n - 1];
      assert rs == init + [x];
      ScanSnoc(init, x, now, seen, p);
      ScanSpoken(init, now, seen, p);
      forall i | 0 <= i < n && Speaks(rs[i], now, seen) && (forall j :: i < j < n ==> !Speaks(rs[j], now, seen))
        ensures Scan(rs, now, seen, p).lastSpoken == Some(Key(rs[i].id, now.time))
      {
        if i < n - 1 {
          assert !Speaks(x, now, seen);
          assert init[i] == rs[i];
          assert forall j :: i < j < n - 1 ==> init[j] == rs[j];
        }
      }
      if forall i :: 0 <= i < n ==> !Speaks(rs[i], now, seen) {
        assert !Speaks(x, now, seen);
        assert forall i :: 0 <= i < n - 1 ==> init[i] == rs[i];
      }
    }
  }

  /** The announcements are the voice texts of the reminders spoken for, in
      store order, after those already collected. */
  lemma {:induction false} ScanAnnounces(rs: seq<Reminder>, now: Clock, seen: Option<string>, p: Poll)
    ensures Scan(rs, now, seen, p).announces == p.announces + Texts(Speaking(rs, now, seen), now.time)
    decreases |rs|
  {
    if |rs| > 0 {
      var n := |rs|;
      var init := rs[..n - 1];
      var x := rs[n - 1];
      assert rs == init + [x];
      ScanSnoc(init, x, now, seen, p);
      ScanAnnounces(init, now, seen, p);
      SpeakingSnoc(init, x, now, seen);
      StepAnnounces(Scan(init, now, seen, p), x, now, seen, p.announces, Speaking(init, now, seen));
    }
  }

  /** The reminders spoken for among `rs + [x]`: those of `rs`, then `x` when
      it is spoken for. */
  lemma SpeakingSnoc(rs: seq<Reminder>, x: Reminder, now: Clock, seen: Option<string>)
    ensures Speaking(rs + [x], now, seen) == Speaking(rs, now, seen) + if Speaks(x, now, seen) then [x] else []
  {
    FilterAppend(rs, [x], (y: Reminder) => Speaks(y, now, seen));
    if Speaks(x, now, seen) {
      assert Speaking([x], now, seen) == [x];
    } else {
      assert Speaking([x], now, seen) == [];
    }
  }

  /** One step extends the announcements by the text of `x` exactly when `x`
      is spoken for. */
  lemma StepAnnounces(q: Poll, x: Reminder, now: Clock, seen: Option<string>, start: seq<string>, before: seq<Reminder>)
    requires q.announces == start + Texts(before, now.time)
    ensures Step(q, x, now, seen).announces
            == start + Texts(before + if Speaks(x, now, seen) then [x] else [], now.time)
  {
    if Speaks(x, now, seen) {
      TextsSnoc(before, x, now.time);
    } else {
      assert before + [] == before;
    }
  }

  lemma TextsSnoc(rs: seq<Reminder>, x: Reminder, time: string)
    ensures Texts(rs + [x], time) == Texts(rs, time) + [VoiceText(x, time)]
  {
    assert (rs + [x])[|rs|] == x;
    assert forall i :: 0 <= i < |rs| ==> (rs + [x])[i] == rs[i];
  }

  /** Reminders that are not due take no part in a scan. */
  lemma {:induction false} ScanIgnoresNonDue(rs: seq<Reminder>, now: Clock, seen: Option<string>, p: Poll)
    ensures Scan(rs, now, seen, p) == Scan(DueOnly(rs, now), now, seen, p)
    decreases |rs|
  {
    if |rs| > 0 {
      ScanIgnoresNonDue(rs[1..], now, seen, Step(p, rs[0], now, seen));
      if Due(rs[0], now) {
        var d := DueOnly(rs, now);
        assert d == [rs[0]] + DueOnly(rs[1..], now);
        assert d[1..] == DueOnly(rs[1..], now);
      }
    }
  }

  // ------------------------------------------------------- tick lemmas

  /** A tick shows the last due reminder with the matched minute, and leaves
      the popup alone when nothing is due. */
  lemma TickActive(app: App, now: Clock)
    ensures (forall i :: 0 <= i < |app.reminders| ==> !Due(app.reminders[i], now))
              ==> Tick(app, now).app.active == app.active
    ensures forall i :: 0 <= i < |app.reminders| && Due(app.reminders[i], now)
              && (forall j :: i < j < |app.reminders| ==> !Due(app.reminders[j], now))
              ==> Tick(app, now).app.active == Some(Occurrence(app.reminders[i], now.time))
  {
    ScanActive(app.reminders, now, app.lastSpoken, Poll(app.active, app.lastSpoken, []));
  }

  /** A tick announces, in store order, exactly the due reminders whose key
      differs from the key remembered before the tick, and then remembers
      the key of the last of them. */
  lemma TickAnnounces(app: App, now: Clock)
    ensures Tick(app, now).announces == Texts(Speaking(app.reminders, now, app.lastSpoken), now.time)
    ensures (forall i :: 0 <= i < |app.reminders| ==> !Speaks(app.reminders[i], now, app.lastSpoken))
              ==> Tick(app, now).app.lastSpoken == app.lastSpoken
    ensures forall i :: 0 <= i < |app.reminders| && Speaks(app.reminders[i], now, app.lastSpoken)
              && (forall j :: i < j < |app.reminders| ==> !Speaks(app.reminders[j], now, app.lastSpoken))
              ==> Tick(app, now).app.lastSpoken == Some(Key(app.reminders[i].id, now.time))
  {
    ScanAnnounces(app.reminders, now, app.lastSpoken, Poll(app.active, app.lastSpoken, []));
    TickSpoken(app, now);
  }

  /** The key a tick leaves: that of the last reminder spoken for, or the old
      key when none is. */
  lemma TickSpoken(app: App, now: Clock)
    ensures (forall i :: 0 <= i < |app.reminders| ==> !Speaks(app.reminders[i], now, app.lastSpoken))
              ==> Tick(app, now).app.lastSpoken == app.lastSpoken
    ensures forall i :: 0 <= i < |app.reminders| && Speaks(app.reminders[i], now, app.lastSpoken)
              && (forall j :: i < j < |app.reminders| ==> !Speaks(app.reminders[j], now, app.lastSpoken))
              ==> Tick(app, now).app.lastSpoken == Some(Key(app.reminders[i].id, now.time))
  {
    ScanSpoken(app.reminders, now, app.lastSpoken, Poll(app.active, app.lastSpoken, []));
  }

  /** Reminders that are not due neither open the popup nor produce an
      announcement: dropping them changes nothing in the tick. */
  lemma TickIgnoresNonDue(app: App, now: Clock)
    ensures var t := Tick(app, now);
            var u := Tick(app.(reminders := DueOnly(app.reminders, now)), now);
            t.announces == u.announces && t.app.active == u.app.active
            && t.app.lastSpoken == u.app.lastSpoken
  {
    ScanIgnoresNonDue(app.reminders, now, app.lastSpoken, Poll(app.active, app.lastSpoken, []));
  }

  /** Keys of the same minute are equal only for equal ids. */
  lemma KeyInjective(a: nat, b: nat, time: string)
    requires Key(a, time) == Key(b, time)
    ensures a == b
  {
    var s := Key(a, time);
    assert |NatToString(a)| == |NatToString(b)|;
    assert NatToString(a) == s[..|NatToString(a)|] == NatToString(b);
    NatToStringInjective(a, b);
  }

  /** All due reminders carry the same id. */
  predicate OneDueId(rs: seq<Reminder>, now: Clock) {
    forall i, j :: 0 <= i < |rs| && 0 <= j < |rs| && Due(rs[i], now) && Due(rs[j], now)
      ==> rs[i].id == rs[j].id
  }

  /** When the due reminders share one id, the key a tick leaves silences
      every reminder in the same minute. */
  lemma {:induction false} FirstTickSilences(app: App, now: Clock)
    requires OneDueId(app.reminders, now)
    ensures var seen := Tick(app, now).app.lastSpoken;
            forall i :: 0 <= i < |app.reminders| ==> !Speaks(app.reminders[i], now, seen)
  {
    var rs := app.reminders;
    if exists k :: 0 <= k < |rs| && Speaks(rs[k], now, app.lastSpoken) {
      var k := KeyOfLastSpoken(app, now);
      SilencedBy(rs, now, k, Tick(app, now).app.lastSpoken);
    } else {
      TickSpoken(app, now);
    }
  }

  /** When some reminder is spoken for, a tick remembers the key of a due
      reminder. */
  lemma {:induction false} KeyOfLastSpoken(app: App, now: Clock) returns (k: nat)
    requires exists k :: 0 <= k < |app.reminders| && Speaks(app.reminders[k], now, app.lastSpoken)
    ensures k < |app.reminders| && Due(app.reminders[k], now)
    ensures Tick(app, now).app.lastSpoken == Some(Key(app.reminders[k].id, now.time))
  {
    TickSpoken(app, now);
    k := LastSpeaking(app.reminders, now, app.lastSpoken);
  }

  /** The key of one due reminder silences every due reminder, when they
      share one id. */
  lemma {:induction false} SilencedBy(rs: seq<Reminder>, now: Clock, k: nat, seen: Option<string>)
    requires OneDueId(rs, now)
    requires k < |rs| && Due(rs[k], now) && seen == Some(Key(rs[k].id, now.time))
    ensures forall i :: 0 <= i < |rs| ==> !Speaks(rs[i], now, seen)
  {
    forall i | 0 <= i < |rs| && Due(rs[i], now) ensures rs[i].id == rs[k].id {
    }
  }

  /** A second tick in a minute shows what the first one showed. */
  lemma SecondTickSameActive(app: App, now: Clock)
    ensures var first := Tick(app, now).app;
            Tick(first, now).app.active == first.active
  {
    var rs := app.reminders;
    var first := Tick(app, now).app;
    TickActive(app, now);
    TickActive(first, now);
    if exists k :: 0 <= k < |rs| && Due(rs[k], now) {
      var k := LastDue(rs, now);
    }
  }

  /** When the due reminders share one id, the tick after a tick in the same
      minute speaks nothing and changes nothing: announcing is once per
      minute. */
  lemma SecondTickSilent(app: App, now: Clock)
    requires OneDueId(app.reminders, now)
    ensures var first := Tick(app, now).app;
            Tick(first, now) == Ticked(first, [])
  {
    var rs := app.reminders;
    var first := Tick(app, now).app;
    FirstTickSilences(app, now);
    FilterDropsAll(rs, (x: Reminder) => Speaks(x, now, first.lastSpoken));
    TickAnnounces(first, now);
    SecondTickSameActive(app, now);
    var second := Tick(first, now);
    assert second.app.reminders == first.reminders && second.app.form == first.form;
    assert second.app.lastSpoken == first.lastSpoken;
  }

  /** The last index of a reminder spoken for, when there is one. */
  lemma LastSpeaking(rs: seq<Reminder>, now: Clock, seen: Option<string>) returns (k: nat)
    requires exists i :: 0 <= i < |rs| && Speaks(rs[i], now, seen)
    ensures k < |rs| && Speaks(rs[k], now, seen)
    ensures forall j :: k < j < |rs| ==> !Speaks(rs[j], now, seen)
  {
    k := |rs| - 1;
    while !Speaks(rs[k], now, seen)
      invariant 0 <= k < |rs|
      invariant forall j :: k < j < |rs| ==> !Speaks(rs[j], now, seen)
      invariant exists i :: 0 <= i <= k && Speaks(rs[i], now, seen)
      decreases k
    {
      k := k - 1;
    }
  }

  /** The last index of a due reminder, when there is one. */
  lemma LastDue(rs: seq<Reminder>, now: Clock) returns (k: nat)
    requires exists i :: 0 <= i < |rs| && Due(rs[i], now)
    ensures k < |rs| && Due(rs[k], now)
    ensures forall j :: k < j < |rs| ==> !Due(rs[j], now)
  {
    k := |rs| - 1;
    while !Due(rs[k], now)
      invariant 0 <= k < |rs|
      invariant forall j :: k < j < |rs| ==> !Due(rs[j], now)
      invariant exists i :: 0 <= i <= k && Due(rs[i], now)
      decreases k
    {
      k := k - 1;
    }
  }

  /** Two due reminders with different ids are never both silenced by one
      remembered key: every tick of that minute, whatever was spoken
      before, announces again. */
  lemma DistinctDueAlwaysAnnounce(app: App, now: Clock, i: nat, j: nat)
    requires i < |app.reminders| && j < |app.reminders|
    requires Due(app.reminders[i], now) && Due(app.reminders[j], now)
    requires app.reminders[i].id != app.reminders[j].id
    ensures |Tick(app, now).announces| >= 1
  {
    var rs := app.reminders;
    if Key(rs[i].id, now.time) == Key(rs[j].id, now.time) {
      KeyInjective(rs[i].id, rs[j].id, now.time);
    }
    var k := if Speaks(rs[i], now, app.lastSpoken) then i else j;
    assert rs[k] in Speaking(rs, now, app.lastSpoken);
    TickAnnounces(app, now);
  }

  /** The second tick of a minute is silent exactly when the due reminders
      share one id. */
  lemma SecondTickSilentIff(app: App, now: Clock)
    ensures Tick(Tick(app, now).app, now).announces == [] <==> OneDueId(app.reminders, now)
  {
    if OneDueId(app.reminders, now) {
      SecondTickSilent(app, now);
    } else {
      var rs := app.reminders;
      var i, j :| 0 <= i < |rs| && 0 <= j < |rs| && Due(rs[i], now) && Due(rs[j], now)
                  && rs[i].id != rs[j].id;
      DistinctDueAlwaysAnnounce(Tick(app, now).app, now, i, j);
    }
  }

  /** After the popup's OK, the reminder it showed is no longer due in that
      minute, so the acknowledged occurrence cannot be shown again. */
  lemma AcknowledgedNotDueAgain(app: App, now: Clock)
    requires app.active.Some? && now.time == app.active.value.currentTime
    ensures forall x :: x in Acknowledge(app).reminders && x.id == app.active.value.reminder.id
              ==> !Due(x, now)
  {
  }
}
