/** The announce-once tick the page's comment asks for ("speak only once per
    reminder"), with the single remembered key replaced by the set of
    (id, minute) pairs already announced. Matching and the popup work as in
    `Poller`; only the dedup differs. */
module OnceTracker {
  import opened Options
  import opened Reminders
  import opened Poller

  /** The scan state: the popup, the announced pairs, the texts so far. */
  datatype OncePoll = OncePoll(active: Option<Occurrence>, announced: set<(nat, string)>, announces: seq<string>)

  /** One reminder of the scan: a due reminder is announced when its pair is
      not yet recorded, and its pair is recorded at once, so a later
      reminder of the same tick with the same pair stays silent. */
  function OnceStep(p: OncePoll, x: Reminder, now: Clock): OncePoll {
    if !Due(x, now) then p
    else
      var shown := p.(active := Some(Occurrence(x, now.time)));
      if (x.id, now.time) in p.announced then shown
      else shown.(announced := p.announced + {(x.id, now.time)},
                  announces := p.announces + [VoiceText(x, now.time)])
  }

  function OnceScan(rs: seq<Reminder>, now: Clock, p: OncePoll): OncePoll
    decreases |rs|
  {
    if |rs| == 0 then p else OnceScan(rs[1..], now, OnceStep(p, rs[0], now))
  }

  /** The pairs of the reminders due now. */
  function DuePairs(rs: seq<Reminder>, now: Clock): set<(nat, string)> {
    set i | 0 <= i < |rs| && Due(rs[i], now) :: (rs[i].id, now.time)
  }

  /** One tick of the corrected poll: afterwards every due pair is recorded,
      and exactly one announcement is made per pair that was new. */
  function OnceTick(rs: seq<Reminder>, active: Option<Occurrence>, announced: set<(nat, string)>, now: Clock): (r: OncePoll)
    ensures r.announced == announced + DuePairs(rs, now)
    ensures |r.announces| == |DuePairs(rs, now) - announced|
  {
    var p := OncePoll(active, announced, []);
    OnceScanRecords(rs, now, p);
    OnceScanCounts(rs, now, p);
    var r := OnceScan(rs, now, p);
    assert announced + DuePairs(rs, now) == announced + (DuePairs(rs, now) - announced);
    r
  }

  lemma {:induction false} OnceScanSnoc(rs: seq<Reminder>, x: Reminder, now: Clock, p: OncePoll)
    ensures OnceScan(rs + [x], now, p) == OnceStep(OnceScan(rs, now, p), x, now)
    decreases |rs|
  {
    if |rs| == 0 {
      assert rs + [x] == [x];
    } else {
      assert (rs + [x])[1..] == rs[1..] + [x];
      OnceScanSnoc(rs[1..], x, now, OnceStep(p, rs[0], now));
    }
  }

  /** The scan records exactly the due pairs. */
  lemma {:induction false} OnceScanRecords(rs: seq<Reminder>, now: Clock, p: OncePoll)
    ensures OnceScan(rs, now, p).announced == p.announced + DuePairs(rs, now)
    decreases |rs|
  {
    if |rs| == 0 {
      assert DuePairs(rs, now) == {};
    } else {
      var n := |rs|;
      var init := rs[..n - 1];
      var x := rs[n - 1];
      assert rs == init + [x];
      OnceScanSnoc(init, x, now, p);
      OnceScanRecords(init, now, p);
      if Due(x, now) {
        assert DuePairs(rs, now) == DuePairs(init, now) + {(x.id, now.time)};
      } else {
        assert DuePairs(rs, now) == DuePairs(init, now);
      }
    }
  }

  /** Each announcement records one new pair and nothing else does. */
  lemma {:induction false} OnceScanCounts(rs: seq<Reminder>, now: Clock, p: OncePoll)
    ensures var r := OnceScan(rs, now, p);
            p.announced <= r.announced
            && |r.announces| + |p.announced| == |p.announces| + |r.announced|
    decreases |rs|
  {
    if |rs| > 0 {
      var n := |rs|;
      var init := rs[..n - 1];
      assert rs == init + [rs[n - 1]];
      OnceScanSnoc(init, rs[n - 1], now, p);
      OnceScanCounts(init, now, p);
    }
  }

  /** Once every due pair is recorded, a scan announces nothing. */
  lemma {:induction false} OnceScanSilent(rs: seq<Reminder>, now: Clock, p: OncePoll)
    requires DuePairs(rs, now) <= p.announced
    ensures OnceScan(rs, now, p).announces == p.announces
    ensures OnceScan(rs, now, p).announced == p.announced
    decreases |rs|
  {
    if |rs| > 0 {
      var q := OnceStep(p, rs[0], now);
      assert DuePairs(rs[1..], now) <= DuePairs(rs, now) by {
        forall k | k in DuePairs(rs[1..], now) ensures k in DuePairs(rs, now) {
          var i :| 0 <= i < |rs[1..]| && Due(rs[1..][i], now) && k == (rs[1..][i].id, now.time);
          assert rs[i + 1] == rs[1..][i];
        }
      }
      if Due(rs[0], now) {
        assert (rs[0].id, now.time) in DuePairs(rs, now);
      }
      OnceScanSilent(rs[1..], now, q);
    }
  }

  /** Announce-once: however many reminders are due, the tick after a tick
      of the same minute speaks nothing. */
  lemma OnceSecondTickSilent(rs: seq<Reminder>, active: Option<Occurrence>, announced: set<(nat, string)>, now: Clock)
    ensures var first := OnceTick(rs, active, announced, now);
            OnceTick(rs, first.active, first.announced, now).announces == []
  {
    var first := OnceTick(rs, active, announced, now);
    OnceScanSilent(rs, now, OncePoll(first.active, first.announced, []));
  }

  /** Two reminders due in the same minute with different ids are both
      announced by the first tick. */
  lemma OnceAnnouncesBoth(rs: seq<Reminder>, active: Option<Occurrence>, now: Clock, i: nat, j: nat)
    requires i < |rs| && j < |rs|
    requires Due(rs[i], now) && Due(rs[j], now) && rs[i].id != rs[j].id
    ensures |OnceTick(rs, active, {}, now).announces| >= 2
  {
    var d := DuePairs(rs, now);
    assert (rs[i].id, now.time) in d && (rs[j].id, now.time) in d;
    assert {(rs[i].id, now.time), (rs[j].id, now.time)} <= d - {};
    assert |{(rs[i].id, now.time), (rs[j].id, now.time)}| == 2;
    SubsetCard({(rs[i].id, now.time), (rs[j].id, now.time)}, d - {});
  }

  lemma SubsetCard<T>(a: set<T>, b: set<T>)
    requires a <= b
    ensures |a| <= |b|
  {
    assert b == a + (b - a);
  }

  /** The page as written, on two reminders due at 09:00: the first tick
      speaks for both, and so does every later tick of that minute speak
      again, whatever key it starts from. */
  lemma ScalarKeyRepeats()
    ensures var a := Reminder(1, "A", "", "2025-01-01", ["09:00"]);
            var b := Reminder(2, "B", "", "2025-01-01", ["09:00"]);
            var now := Clock("2025-01-01", "09:00");
            var first := Tick(Init([a, b]), now);
            && first.announces == [VoiceText(a, "09:00"), VoiceText(b, "09:00")]
            && Tick(first.app, now).announces != []
  {
    var a := Reminder(1, "A", "", "2025-01-01", ["09:00"]);
    var b := Reminder(2, "B", "", "2025-01-01", ["09:00"]);
    var now := Clock("2025-01-01", "09:00");
    assert Due(a, now) && Due(b, now);
    TwoDueRepeat(a, b, now);
  }

  /** Two due reminders of different ids in a freshly loaded page: the first
      tick speaks for both, in order, and the next tick speaks again. */
  lemma TwoDueRepeat(a: Reminder, b: Reminder, now: Clock)
    requires Due(a, now) && Due(b, now) && a.id != b.id
    ensures var first := Tick(Init([a, b]), now);
            && first.announces == [VoiceText(a, now.time), VoiceText(b, now.time)]
            && Tick(first.app, now).announces != []
  {
    var app := Init([a, b]);
    var first := Tick(app, now);
    TickAnnounces(app, now);
    SpeakingAll([a, b], now, None);
    TextsPair(a, b, now.time);
    DistinctDueAlwaysAnnounce(first.app, now, 0, 1);
  }

  lemma TextsPair(a: Reminder, b: Reminder, time: string)
    ensures Texts([a, b], time) == [VoiceText(a, time), VoiceText(b, time)]
  {
  }

  /** The corrected poll on the same two reminders: both are spoken once, and
      the next tick is silent. */
  lemma SetKeyOnce()
    ensures var a := Reminder(1, "A", "", "2025-01-01", ["09:00"]);
            var b := Reminder(2, "B", "", "2025-01-01", ["09:00"]);
            var now := Clock("2025-01-01", "09:00");
            var first := OnceTick([a, b], None, {}, now);
            && |first.announces| == 2
            && OnceTick([a, b], first.active, first.announced, now).announces == []
  {
    var a := Reminder(1, "A", "", "2025-01-01", ["09:00"]);
    var b := Reminder(2, "B", "", "2025-01-01", ["09:00"]);
    var now := Clock("2025-01-01", "09:00");
    OnceAnnouncesBoth([a, b], None, now, 0, 1);
    OnceSecondTickSilent([a, b], None, {}, now);
    assert |DuePairs([a, b], now)| <= 2 by {
      assert DuePairs([a, b], now) <= {(1, "09:00"), (2, "09:00")};
      SubsetCard(DuePairs([a, b], now), {(1, "09:00"), (2, "09:00")});
    }
  }
}
