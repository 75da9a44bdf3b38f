/** What the normalisation guarantees: about the alarms of one entry, about the
    record built for one entry, and about the whole output. */
module IcsProperties {
  import opened JsObjects
  import opened Seqs
  import opened IcsNormalize

  /** Every top-level entry is a JavaScript object, so its keys are distinct. */
  ghost predicate WellFormed(graph: Graph) {
    forall e :: e in graph ==> DistinctKeys(e.1)
  }

  // ---------------------------------------------------------------------------
  // The alarms of one entry

  /** Every collected alarm is the stamped copy of an alarm-typed direct field. */
  lemma {:induction false} AlarmsProvenance(entry: Fields)
    ensures forall a :: a in Alarms(entry) ==>
      exists p :: p in entry && IsAlarm(p.1) && a == AlarmRecord(p.0, p.1)
  {
    if entry != [] {
      AlarmsProvenance(entry[1..]);
      assert forall p :: p in entry[1..] ==> p in entry;
      assert entry[0] in entry;
    }
  }

  /** Every alarm-typed direct field yields its stamped copy among the alarms. */
  lemma {:induction false} AlarmsComplete(entry: Fields)
    ensures forall p :: p in entry && IsAlarm(p.1) ==> AlarmRecord(p.0, p.1) in Alarms(entry)
  {
    if entry != [] {
      AlarmsComplete(entry[1..]);
      forall p | p in entry && IsAlarm(p.1) ensures AlarmRecord(p.0, p.1) in Alarms(entry) {
        if p != entry[0] {
          assert p in entry[1..];
        }
      }
    }
  }

  /** A collected alarm still has `type` VALARM, carries the field key as `id`,
      and keeps every other property of the sub-object, nested alarms included. */
  lemma AlarmsAreStampedAlarms(entry: Fields)
    ensures forall a :: a in Alarms(entry) ==>
      a.Obj? && IsAlarm(a) &&
      exists p :: p in entry && IsAlarm(p.1) &&
        Lookup(a.fields, "id") == Some(Str(p.0)) &&
        forall j :: j != "id" ==> Lookup(a.fields, j) == Lookup(p.1.fields, j)
  {
    AlarmsProvenance(entry);
    forall a | a in Alarms(entry) ensures a.Obj? && IsAlarm(a) {
      var p :| p in entry && IsAlarm(p.1) && a == AlarmRecord(p.0, p.1);
      assert Lookup(a.fields, "type") == Lookup(p.1.fields, "type");
    }
  }

  lemma {:induction false} AlarmsLength(entry: Fields)
    ensures |Alarms(entry)| == |Filter(entry, IsAlarmField)|
  {
    if entry != [] {
      AlarmsLength(entry[1..]);
    }
  }

  /** There are as many alarms as direct fields holding an alarm-typed object. */
  lemma AlarmsCount(entry: Fields)
    ensures |Alarms(entry)| == |set i | 0 <= i < |entry| && IsAlarm(entry[i].1)|
  {
    AlarmsLength(entry);
    FilterCount(entry, IsAlarmField);
    assert Passing(entry, IsAlarmField) == set i | 0 <= i < |entry| && IsAlarm(entry[i].1);
  }

  /** `alarms` is empty exactly when no direct field holds an alarm-typed object. */
  lemma NoAlarmFieldsNoAlarms(entry: Fields)
    ensures Alarms(entry) == [] <==> forall p :: p in entry ==> !IsAlarm(p.1)
  {
    AlarmsCount(entry);
    var alarming := set i | 0 <= i < |entry| && IsAlarm(entry[i].1);
    if Alarms(entry) == [] {
      forall p | p in entry ensures !IsAlarm(p.1) {
        var i :| 0 <= i < |entry| && entry[i] == p;
        assert i !in alarming;
      }
    } else {
      var i :| i in alarming;
      assert entry[i] in entry;
    }
  }

  // ---------------------------------------------------------------------------
  // The record built for one entry

  /** Reading a property of the entry without its alarms: an alarm field is gone,
      any other field reads as before. */
  lemma {:induction false} KeptLookup(entry: Fields, j: string)
    requires DistinctKeys(entry)
    ensures Lookup(Kept(entry), j) ==
      if Lookup(entry, j).Some? && IsAlarm(Lookup(entry, j).value) then None else Lookup(entry, j)
  {
    if entry != [] {
      var rest := entry[1..];
      assert DistinctKeys(rest) by {
        forall m, n | 0 <= m < n < |rest| ensures rest[m].0 != rest[n].0 {
          assert rest[m] == entry[m + 1] && rest[n] == entry[n + 1];
        }
      }
      KeptLookup(rest, j);
      assert Kept(entry) == (if IsKeptField(entry[0]) then [entry[0]] else []) + Kept(rest);
      LookupAppend(if IsKeptField(entry[0]) then [entry[0]] else [], Kept(rest), j);
      if entry[0].0 == j {
        LookupFinds(rest, j);
        assert forall m :: 0 <= m < |rest| ==> rest[m] == entry[m + 1];
      }
    }
  }

  /** Apart from `id` and `alarms`, the record has the entry's fields with
      their values unchanged, minus the alarm fields. */
  lemma EventKeepsFields(key: string, entry: Fields)
    requires DistinctKeys(entry)
    ensures forall j :: j != "id" && j != "alarms" ==>
      Lookup(NormalizeEntry(key, entry), j) ==
        if Lookup(entry, j).Some? && IsAlarm(Lookup(entry, j).value) then None else Lookup(entry, j)
  {
    forall j | j != "id" && j != "alarms"
      ensures Lookup(NormalizeEntry(key, entry), j) ==
        if Lookup(entry, j).Some? && IsAlarm(Lookup(entry, j).value) then None else Lookup(entry, j)
    {
      KeptLookup(entry, j);
    }
  }

  /** No property left on the record is an alarm-typed object. */
  lemma EventHasNoAlarmFields(key: string, entry: Fields)
    ensures forall p :: p in NormalizeEntry(key, entry) ==> !IsAlarm(p.1)
  {
    var withId := Set(Kept(entry), "id", Str(key));
    SetFields(Kept(entry), "id", Str(key));
    SetFields(withId, "alarms", Arr(Alarms(entry)));
  }

  /** The record's keys: the kept fields in order, then `id` and `alarms` unless
      the entry already had them, in which case they keep their place. */
  lemma EventKeys(key: string, entry: Fields)
    ensures Keys(NormalizeEntry(key, entry)) ==
      var withId := if Lookup(Kept(entry), "id").Some? then Keys(Kept(entry)) else Keys(Kept(entry)) + ["id"];
      if Lookup(Kept(entry), "alarms").Some? then withId else withId + ["alarms"]
  {
    var kept := Kept(entry);
    var withId := Set(kept, "id", Str(key));
    SetKeys(kept, "id", Str(key));
    assert Keys(withId) == if Lookup(kept, "id").Some? then Keys(kept) else Keys(kept) + ["id"];
    SetKeys(withId, "alarms", Arr(Alarms(entry)));
    assert Lookup(withId, "alarms") == Lookup(kept, "alarms");
    assert NormalizeEntry(key, entry) == Set(withId, "alarms", Arr(Alarms(entry)));
  }

  /** The record is an event exactly when the entry is: the type tag is never
      overwritten, and an alarm object under `type` was never an event tag. */
  lemma EventTypeUnchanged(key: string, entry: Fields)
    requires DistinctKeys(entry)
    ensures IsEvent(NormalizeEntry(key, entry)) <==> IsEvent(entry)
  {
    KeptLookup(entry, "type");
    assert Lookup(NormalizeEntry(key, entry), "type") == Lookup(Kept(entry), "type");
  }

  // ---------------------------------------------------------------------------
  // The whole output

  /** The output is the records of exactly the VEVENT-typed entries, in input order. */
  lemma NormalizeSelectsEvents(graph: Graph)
    requires WellFormed(graph)
    ensures Normalize(graph) == Map(Filter(graph, IsEventEntry), NormalizeKeyed)
  {
    forall e | e in graph ensures IsEvent(NormalizeKeyed(e)) <==> IsEventEntry(e) {
      EventTypeUnchanged(e.0, e.1);
    }
    FilterMapCommute(graph, NormalizeKeyed, IsEvent, IsEventEntry);
  }

  /** One output record per VEVENT-typed entry. */
  lemma NormalizeCount(graph: Graph)
    requires WellFormed(graph)
    ensures |Normalize(graph)| == |set i | 0 <= i < |graph| && IsEvent(graph[i].1)|
  {
    NormalizeSelectsEvents(graph);
    var events := Filter(graph, IsEventEntry);
    assert |Normalize(graph)| == |events|;
    FilterCount(graph, IsEventEntry);
    EventPositions(graph);
  }

  lemma EventPositions(graph: Graph)
    ensures Passing(graph, IsEventEntry) == set i | 0 <= i < |graph| && IsEvent(graph[i].1)
  {
  }

  /** The i-th output record belongs to the i-th VEVENT entry: its `id` is that
      entry's key and its `alarms` are that entry's alarms. */
  lemma NormalizeIds(graph: Graph)
    requires WellFormed(graph)
    ensures var events := Filter(graph, IsEventEntry);
      |Normalize(graph)| == |events| &&
      forall i :: 0 <= i < |events| ==>
        Lookup(Normalize(graph)[i], "id") == Some(Str(events[i].0)) &&
        Lookup(Normalize(graph)[i], "alarms") == Some(Arr(Alarms(events[i].1)))
  {
    NormalizeSelectsEvents(graph);
  }

  /** With distinct top-level keys, no two output records share an `id`: each event appears once. */
  lemma NormalizeIdsDistinct(graph: Graph)
    requires WellFormed(graph) && DistinctBy(graph, EntryKey)
    ensures forall i, j :: 0 <= i < j < |Normalize(graph)| ==>
      Lookup(Normalize(graph)[i], "id") != Lookup(Normalize(graph)[j], "id")
  {
    NormalizeIds(graph);
    FilterKeepsDistinct(graph, IsEventEntry, EntryKey);
  }

  /** An entry contributes the same thing wherever it stands and whatever
      surrounds it: its own record if that is an event, else nothing. */
  lemma EntryContributionIsLocal(before: Graph, key: string, entry: Fields, after: Graph)
    ensures Normalize(before + [(key, entry)] + after) ==
      Normalize(before) +
      (if IsEvent(NormalizeEntry(key, entry)) then [NormalizeEntry(key, entry)] else []) +
      Normalize(after)
  {
    var single: Graph := [(key, entry)];
    MapAppend(before + single, after, NormalizeKeyed);
    MapAppend(before, single, NormalizeKeyed);
    var mapped := Map(before, NormalizeKeyed) + Map(single, NormalizeKeyed);
    FilterAppend(mapped, Map(after, NormalizeKeyed), IsEvent);
    FilterAppend(Map(before, NormalizeKeyed), Map(single, NormalizeKeyed), IsEvent);
    assert Map(single, NormalizeKeyed) == [NormalizeEntry(key, entry)];
  }

  /** A calendar of events without alarm fields comes back whole, in order,
      each record stamped with its key and an empty `alarms`. */
  lemma PlainEventsKeepEverything(graph: Graph)
    requires WellFormed(graph)
    requires forall e :: e in graph ==> IsEvent(e.1) && forall p :: p in e.1 ==> !IsAlarm(p.1)
    ensures |Normalize(graph)| == |graph|
    ensures forall i :: 0 <= i < |graph| ==>
      Lookup(Normalize(graph)[i], "id") == Some(Str(graph[i].0)) &&
      Lookup(Normalize(graph)[i], "alarms") == Some(Arr([]))
  {
    NormalizeSelectsEvents(graph);
    FilterAll(graph, IsEventEntry);
    forall i | 0 <= i < |graph| ensures Alarms(graph[i].1) == [] {
      assert graph[i] in graph;
      NoAlarmFieldsNoAlarms(graph[i].1);
    }
  }
}
