/** Worked calendars: what the normaliser makes of small parser results. */
module IcsScenarios {
  import opened JsObjects
  import opened Seqs
  import opened IcsNormalize
  import opened IcsProperties

  const Display: Value := Obj([("type", Str("VALARM")), ("action", Str("DISPLAY"))])
  const Stamped: Value := Obj([("type", Str("VALARM")), ("action", Str("DISPLAY")), ("id", Str("a1"))])

  const Plain: Fields := [("type", Str("VEVENT")), ("summary", Str("Meeting"))]
  const Meeting: Fields := [("type", Str("VEVENT")), ("summary", Str("Meeting")), ("a1", Display)]
  const Zone: Fields := [("type", Str("VTIMEZONE")), ("tzid", Str("UTC"))]

  /** A one-entry calendar contributes that entry's record if it is an event. */
  lemma OneEntry(key: string, entry: Fields)
    ensures Normalize([(key, entry)]) ==
      if IsEvent(NormalizeEntry(key, entry)) then [NormalizeEntry(key, entry)] else []
  {
    EntryContributionIsLocal([], key, entry, []);
    assert [] + [(key, entry)] + [] == [(key, entry)];
  }

  /** A two-entry calendar: the concatenation of what each entry contributes. */
  lemma TwoEntries(k1: string, e1: Fields, k2: string, e2: Fields)
    ensures Normalize([(k1, e1), (k2, e2)]) ==
      (if IsEvent(NormalizeEntry(k1, e1)) then [NormalizeEntry(k1, e1)] else []) +
      (if IsEvent(NormalizeEntry(k2, e2)) then [NormalizeEntry(k2, e2)] else [])
  {
    EntryContributionIsLocal([], k1, e1, [(k2, e2)]);
    EntryContributionIsLocal([], k2, e2, []);
    assert [] + [(k1, e1)] + [(k2, e2)] == [(k1, e1), (k2, e2)];
    assert [] + [(k2, e2)] + [] == [(k2, e2)];
  }

  /** Stamping the plain meeting's fields with `id` and a given `alarms` list. */
  lemma PlainStamped(alarms: seq<Value>)
    ensures Set(Set(Plain, "id", Str("k1")), "alarms", Arr(alarms)) ==
      [("type", Str("VEVENT")), ("summary", Str("Meeting")), ("id", Str("k1")), ("alarms", Arr(alarms))]
    ensures IsEvent(Set(Set(Plain, "id", Str("k1")), "alarms", Arr(alarms)))
  {
    LookupFinds(Plain, "id");
    SetAbsent(Plain, "id", Str("k1"));
    var withId := Plain + [("id", Str("k1"))];
    LookupFinds(withId, "alarms");
    SetAbsent(withId, "alarms", Arr(alarms));
    var rec := withId + [("alarms", Arr(alarms))];
    assert Lookup(rec, "type") == Some(Str("VEVENT"));
  }

  lemma PlainKept()
    ensures Kept(Plain) == Plain && Alarms(Plain) == []
  {
    assert !IsAlarm(Plain[0].1) && !IsAlarm(Plain[1].1);
    NoAlarmFieldsNoAlarms(Plain);
    FilterAll(Plain, IsKeptField);
  }

  lemma PlainRecord()
    ensures NormalizeEntry("k1", Plain) ==
      [("type", Str("VEVENT")), ("summary", Str("Meeting")), ("id", Str("k1")), ("alarms", Arr([]))]
    ensures IsEvent(NormalizeEntry("k1", Plain))
  {
    PlainKept();
    PlainStamped([]);
  }

  /** An event without alarms comes back with its key as `id` and an empty `alarms`. */
  lemma PlainEvent()
    ensures Normalize([("k1", Plain)]) ==
      [[("type", Str("VEVENT")), ("summary", Str("Meeting")), ("id", Str("k1")), ("alarms", Arr([]))]]
  {
    OneEntry("k1", Plain);
    PlainRecord();
  }

  lemma DisplayStamped()
    ensures IsAlarm(Display) && AlarmRecord("a1", Display) == Stamped
  {
    assert Lookup(Display.fields, "type") == Some(Str("VALARM"));
    assert Set(Display.fields[1..], "id", Str("a1")) == [("action", Str("DISPLAY")), ("id", Str("a1"))];
  }

  lemma MeetingSplit()
    ensures Alarms(Meeting) == [Stamped] && Kept(Meeting) == Plain
  {
    DisplayStamped();
    assert !IsAlarm(Meeting[0].1) && !IsAlarm(Meeting[1].1);
    assert Alarms(Meeting[2..]) == [Stamped];
    assert Alarms(Meeting[1..]) == [Stamped];
    assert Filter(Meeting[2..], IsKeptField) == [];
    assert Filter(Meeting[1..], IsKeptField) == [Meeting[1]];
  }

  lemma MeetingRecord()
    ensures NormalizeEntry("k1", Meeting) ==
      [("type", Str("VEVENT")), ("summary", Str("Meeting")), ("id", Str("k1")), ("alarms", Arr([Stamped]))]
    ensures IsEvent(NormalizeEntry("k1", Meeting))
  {
    MeetingSplit();
    PlainStamped([Stamped]);
  }

  /** An event with one alarm field: the field moves into `alarms`, stamped with
      its field key as `id`, and is gone from the event's own properties. */
  lemma EventWithAlarm()
    ensures Normalize([("k1", Meeting)]) ==
      [[("type", Str("VEVENT")), ("summary", Str("Meeting")), ("id", Str("k1")),
        ("alarms", Arr([Obj([("type", Str("VALARM")), ("action", Str("DISPLAY")), ("id", Str("a1"))])]))]]
  {
    OneEntry("k1", Meeting);
    MeetingRecord();
  }

  lemma ZoneDropped()
    ensures !IsEvent(NormalizeEntry("tz", Zone))
  {
    assert Lookup(Zone, "type") == Some(Str("VTIMEZONE"));
    KeptLookup(Zone, "type");
  }

  /** A time-zone entry is not an event and is dropped. */
  lemma TimezoneDropped()
    ensures Normalize([("tz", Zone)]) == []
  {
    OneEntry("tz", Zone);
    ZoneDropped();
  }

  /** A time zone before an event: only the event's record comes out. */
  lemma MixedCalendar()
    ensures Normalize([("tz", Zone), ("k1", Meeting)]) ==
      [[("type", Str("VEVENT")), ("summary", Str("Meeting")), ("id", Str("k1")), ("alarms", Arr([Stamped]))]]
  {
    TwoEntries("tz", Zone, "k1", Meeting);
    ZoneDropped();
    MeetingRecord();
  }

  const Stale: Fields := [("id", Str("old")), ("type", Str("VEVENT")), ("alarms", Num(3))]

  lemma StaleKept()
    ensures Kept(Stale) == Stale && Alarms(Stale) == []
  {
    assert !IsAlarm(Stale[0].1) && !IsAlarm(Stale[1].1) && !IsAlarm(Stale[2].1);
    NoAlarmFieldsNoAlarms(Stale);
    FilterAll(Stale, IsKeptField);
  }

  lemma StaleWithId()
    ensures Set(Stale, "id", Str("ev2")) == [("id", Str("ev2")), ("type", Str("VEVENT")), ("alarms", Num(3))]
  {
    var tail := [("type", Str("VEVENT")), ("alarms", Num(3))];
    SetPresent([], "id", Str("old"), tail, Str("ev2"));
    assert [] + [("id", Str("old"))] + tail == Stale;
  }

  lemma StaleWithAlarms()
    ensures Set([("id", Str("ev2")), ("type", Str("VEVENT")), ("alarms", Num(3))], "alarms", Arr([])) ==
      [("id", Str("ev2")), ("type", Str("VEVENT")), ("alarms", Arr([]))]
  {
    var front := [("id", Str("ev2")), ("type", Str("VEVENT"))];
    LookupFinds(front, "alarms");
    SetPresent(front, "alarms", Num(3), [], Arr([]));
  }

  lemma StaleRecord()
    ensures NormalizeEntry("ev2", Stale) == [("id", Str("ev2")), ("type", Str("VEVENT")), ("alarms", Arr([]))]
    ensures IsEvent(NormalizeEntry("ev2", Stale))
  {
    StaleKept();
    StaleWithId();
    StaleWithAlarms();
    var rec := [("id", Str("ev2")), ("type", Str("VEVENT")), ("alarms", Arr([]))];
    assert Lookup(rec, "type") == Some(Str("VEVENT"));
  }

  /** A parser-supplied `id` or `alarms` property is overwritten in place. */
  lemma ExistingIdOverwritten()
    ensures Normalize([("ev2", [("id", Str("old")), ("type", Str("VEVENT")), ("alarms", Num(3))])]) ==
      [[("id", Str("ev2")), ("type", Str("VEVENT")), ("alarms", Arr([]))]]
  {
    OneEntry("ev2", Stale);
    StaleRecord();
  }

  const ArrayTyped: Fields := [("type", Arr([Str("VEVENT")]))]

  lemma ArrayTypedKept()
    ensures Kept(ArrayTyped) == ArrayTyped && Alarms(ArrayTyped) == []
  {
    assert !IsAlarm(ArrayTyped[0].1);
    NoAlarmFieldsNoAlarms(ArrayTyped);
    FilterAll(ArrayTyped, IsKeptField);
  }

  lemma ArrayTypedStamped()
    ensures Set(Set(ArrayTyped, "id", Str("ev3")), "alarms", Arr([])) ==
      [("type", Arr([Str("VEVENT")])), ("id", Str("ev3")), ("alarms", Arr([]))]
    ensures IsEvent(Set(Set(ArrayTyped, "id", Str("ev3")), "alarms", Arr([])))
  {
    LookupFinds(ArrayTyped, "id");
    SetAbsent(ArrayTyped, "id", Str("ev3"));
    var withId := ArrayTyped + [("id", Str("ev3"))];
    LookupFinds(withId, "alarms");
    SetAbsent(withId, "alarms", Arr([]));
    var rec := withId + [("alarms", Arr([]))];
    assert Lookup(rec, "type") == Some(Arr([Str("VEVENT")]));
  }

  /** A one-element array holding the tag is loosely equal to it, so the entry is selected. */
  lemma ArrayTagSelects()
    ensures Normalize([("ev3", [("type", Arr([Str("VEVENT")]))])]) ==
      [[("type", Arr([Str("VEVENT")])), ("id", Str("ev3")), ("alarms", Arr([]))]]
  {
    OneEntry("ev3", ArrayTyped);
    ArrayTypedKept();
    ArrayTypedStamped();
  }

  const Dated: Fields :=
    [("type", Str("VEVENT")), ("start", Opaque("Tue Oct 14 2026 09:00:00 GMT+0000")), ("location", Undefined)]

  lemma DatedKept()
    ensures Kept(Dated) == Dated && Alarms(Dated) == []
  {
    assert !IsAlarm(Dated[0].1) && !IsAlarm(Dated[1].1) && !IsAlarm(Dated[2].1);
    NoAlarmFieldsNoAlarms(Dated);
    FilterAll(Dated, IsKeptField);
  }

  lemma DatedStamped()
    ensures Set(Set(Dated, "id", Str("ev4")), "alarms", Arr([])) ==
      Dated + [("id", Str("ev4")), ("alarms", Arr([]))]
    ensures IsEvent(Set(Set(Dated, "id", Str("ev4")), "alarms", Arr([])))
  {
    LookupFinds(Dated, "id");
    SetAbsent(Dated, "id", Str("ev4"));
    var withId := Dated + [("id", Str("ev4"))];
    LookupFinds(withId, "alarms");
    SetAbsent(withId, "alarms", Arr([]));
    var rec := withId + [("alarms", Arr([]))];
    assert rec == Dated + [("id", Str("ev4")), ("alarms", Arr([]))];
    assert Lookup(rec, "type") == Some(Str("VEVENT"));
  }

  /** Class instances such as a `Date`, and properties holding `undefined`, are
      neither alarms nor dropped: they pass through unchanged. */
  lemma DatesAndUndefinedPassThrough()
    ensures Normalize([("ev4", Dated)]) == [Dated + [("id", Str("ev4")), ("alarms", Arr([]))]]
  {
    OneEntry("ev4", Dated);
    DatedKept();
    DatedStamped();
  }

  /** An alarm nested inside an alarm is not extracted: it stays on its parent. */
  lemma NestedAlarmStays()
    ensures Alarms([("outer", Obj([("type", Str("VALARM")), ("inner", Display)]))]) ==
      [Obj([("type", Str("VALARM")), ("inner", Display), ("id", Str("outer"))])]
  {
    var fs := [("type", Str("VALARM")), ("inner", Display)];
    assert Lookup(fs, "type") == Some(Str("VALARM"));
    assert IsAlarm(Obj(fs));
    assert Set(fs[1..], "id", Str("outer")) == [("inner", Display), ("id", Str("outer"))];
    assert Set(fs, "id", Str("outer")) == [("type", Str("VALARM")), ("inner", Display), ("id", Str("outer"))];
  }
}
