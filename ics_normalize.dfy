/** The normalisation that the ICS node applies to the parser's result: for every
    top-level calendar entry, move the alarm-typed sub-objects into an `alarms`
    list, stamp the entry with its key as `id`, and keep only the events.
    The parser's result is an ordered list of (key, entry) pairs. */
module IcsNormalize {
  import opened JsObjects
  import opened Seqs

  const EventTag: string := "VEVENT"
  const AlarmTag: string := "VALARM"

  /** The parser's result: top-level keys with the entry object under each. */
  type Graph = seq<(string, Fields)>

  lemma TagsAreTags()
    ensures IsTag(EventTag) && IsTag(AlarmTag)
  {
  }

  /** `o?.type == tag`: the object has a `type` property loosely equal to `tag`. */
  predicate HasType(fs: Fields, tag: string) {
    match Lookup(fs, "type")
    case Some(t) => LooseEqualsTag(t, tag)
    case None => false
  }

  /** `v?.type == 'VALARM'`: only a plain object has an own `type` property;
      `Arr` stands for an array and `Opaque` for a class instance, neither of
      which has one. */
  predicate IsAlarm(v: Value) {
    v.Obj? && HasType(v.fields, AlarmTag)
  }

  /** `obj?.type == 'VEVENT'`. */
  predicate IsEvent(fs: Fields) {
    HasType(fs, EventTag)
  }

  /** Both type tests compare the string conversion of the `type` property. */
  lemma TypeTestsCompareStrings(fs: Fields)
    ensures IsEvent(fs) <==> Lookup(fs, "type").Some? && ToStr(Lookup(fs, "type").value) == EventTag
    ensures IsAlarm(Obj(fs)) <==> Lookup(fs, "type").Some? && ToStr(Lookup(fs, "type").value) == AlarmTag
  {
    TagsAreTags();
    if Lookup(fs, "type").Some? {
      LooseEqualsTagExact(Lookup(fs, "type").value, EventTag);
      LooseEqualsTagExact(Lookup(fs, "type").value, AlarmTag);
    }
  }

  /** A field whose value is an alarm; the scan moves it out of the entry. */
  predicate IsAlarmField(p: (string, Value)) { IsAlarm(p.1) }

  /** A field the scan leaves on the entry. */
  predicate IsKeptField(p: (string, Value)) { !IsAlarmField(p) }

  /** What `alarms.push` receives: `{ ...sub, id: key }` for the object `sub`
      found under field `key`. */
  function AlarmRecord(key: string, sub: Value): (r: Value)
    requires sub.Obj?
    ensures r.Obj? && Lookup(r.fields, "id") == Some(Str(key))
    ensures forall j :: j != "id" ==> Lookup(r.fields, j) == Lookup(sub.fields, j)
  {
    Obj(Set(sub.fields, "id", Str(key)))
  }

  /** The alarms collected from an entry's own fields, in field order. */
  function Alarms(entry: Fields): seq<Value>
  {
    if entry == [] then []
    else
      (if IsAlarm(entry[0].1) then [AlarmRecord(entry[0].0, entry[0].1)] else [])
      + Alarms(entry[1..])
  }

  /** The entry once its alarm-typed fields are deleted: exactly its other fields, in order. */
  function Kept(entry: Fields): (r: Fields)
    ensures forall p :: p in r <==> p in entry && !IsAlarm(p.1)
  {
    Filter(entry, IsKeptField)
  }

  /** The `forEach` over `Object.keys(obj)`: for each key, read the property
      from the object as it stands, and if it is an alarm push its stamped copy
      and delete the property. The result is the pure `Alarms` and `Kept`. */
  method ExtractAlarms(entry: Fields) returns (alarms: seq<Value>, rest: Fields)
    requires DistinctKeys(entry)
    ensures alarms == Alarms(entry)
    ensures rest == Kept(entry)
  {
    var obj := entry;
    alarms := [];
    var keys := Keys(entry);
    var i := 0;
    while i < |keys|
      invariant i <= |keys|
      invariant ScannedUpTo(entry, i, obj, alarms)
    {
      var k := keys[i];
      ScanStep(entry, i, obj, alarms);
      var v := Lookup(obj, k);
      if v.Some? && IsAlarm(v.value) {
        alarms := alarms + [AlarmRecord(k, v.value)];
        obj := Delete(obj, k);
      }
      i := i + 1;
    }
    ScanDone(entry, obj, alarms);
    rest := obj;
  }

  /** The scan state after the first `i` fields: those fields' alarms are
      collected and deleted, and the remaining fields are untouched. */
  ghost predicate ScannedUpTo(entry: Fields, i: nat, obj: Fields, alarms: seq<Value>) {
    i <= |entry| && obj == Kept(entry[..i]) + entry[i..] && alarms == Alarms(entry[..i])
  }

  /** One iteration of the scan: field `i` is still in the object with its
      original value, and handling it gives the state after `i + 1` fields. */
  lemma ScanStep(entry: Fields, i: nat, obj: Fields, alarms: seq<Value>)
    requires DistinctKeys(entry) && i < |entry| && ScannedUpTo(entry, i, obj, alarms)
    ensures Lookup(obj, entry[i].0) == Some(entry[i].1)
    ensures IsAlarm(entry[i].1) ==>
      ScannedUpTo(entry, i + 1, Delete(obj, entry[i].0), alarms + [AlarmRecord(entry[i].0, entry[i].1)])
    ensures !IsAlarm(entry[i].1) ==> ScannedUpTo(entry, i + 1, obj, alarms)
  {
    ScanFinds(entry, i);
    AlarmsStep(entry, i);
    if IsAlarm(entry[i].1) {
      ScanDeletes(entry, i);
    } else {
      ScanKeeps(entry, i);
    }
  }

  lemma ScanDone(entry: Fields, obj: Fields, alarms: seq<Value>)
    requires ScannedUpTo(entry, |entry|, obj, alarms)
    ensures obj == Kept(entry) && alarms == Alarms(entry)
  {
    assert entry[..|entry|] == entry;
    assert obj == Kept(entry) + [];
  }

  lemma ScanFinds(entry: Fields, i: nat)
    requires DistinctKeys(entry) && i < |entry|
    ensures Lookup(Kept(entry[..i]) + entry[i..], entry[i].0) == Some(entry[i].1)
  {
    PrefixLacksKey(entry, i);
    LookupAppend(Kept(entry[..i]), entry[i..], entry[i].0);
    assert entry[i..][0] == entry[i];
  }

  lemma ScanDeletes(entry: Fields, i: nat)
    requires DistinctKeys(entry) && i < |entry| && IsAlarm(entry[i].1)
    ensures Delete(Kept(entry[..i]) + entry[i..], entry[i].0) == Kept(entry[..i + 1]) + entry[i + 1..]
  {
    PrefixLacksKey(entry, i);
    DeleteAppend(Kept(entry[..i]), entry[i..], entry[i].0);
    assert entry[i..][0] == entry[i] && entry[i..][1..] == entry[i + 1..];
    KeptStep(entry, i);
  }

  lemma ScanKeeps(entry: Fields, i: nat)
    requires i < |entry| && !IsAlarm(entry[i].1)
    ensures Kept(entry[..i]) + entry[i..] == Kept(entry[..i + 1]) + entry[i + 1..]
  {
    KeptStep(entry, i);
    assert entry[i..] == [entry[i]] + entry[i + 1..];
  }

  lemma KeptStep(entry: Fields, i: nat)
    requires i < |entry|
    ensures Kept(entry[..i + 1]) == Kept(entry[..i]) + (if IsAlarm(entry[i].1) then [] else [entry[i]])
  {
    assert entry[..i + 1] == entry[..i] + [entry[i]];
    FilterAppend(entry[..i], [entry[i]], IsKeptField);
  }

  lemma AlarmsStep(entry: Fields, i: nat)
    requires i < |entry|
    ensures Alarms(entry[..i + 1]) ==
      Alarms(entry[..i]) + (if IsAlarm(entry[i].1) then [AlarmRecord(entry[i].0, entry[i].1)] else [])
  {
    assert entry[..i + 1] == entry[..i] + [entry[i]];
    AlarmsAppend(entry[..i], [entry[i]]);
  }

  /** The fields kept from the first `i` do not include key `i`. */
  lemma PrefixLacksKey(entry: Fields, i: nat)
    requires DistinctKeys(entry) && i < |entry|
    ensures Lookup(Kept(entry[..i]), entry[i].0) == None
  {
    var done := Kept(entry[..i]);
    forall m | 0 <= m < |done| ensures done[m].0 != entry[i].0 {
      assert done[m] in done;
      var n :| 0 <= n < i && entry[..i][n] == done[m];
    }
    LookupFinds(done, entry[i].0);
  }

  /** Collecting alarms distributes over concatenation: alarms keep field order. */
  lemma {:induction false} AlarmsAppend(a: Fields, b: Fields)
    ensures Alarms(a + b) == Alarms(a) + Alarms(b)
  {
    if a == [] {
      assert a + b == b;
    } else {
      var head := if IsAlarm(a[0].1) then [AlarmRecord(a[0].0, a[0].1)] else [];
      assert (a + b)[0] == a[0];
      assert (a + b)[1..] == a[1..] + b;
      assert Alarms(a + b) == head + Alarms(a[1..] + b);
      AlarmsAppend(a[1..], b);
      assert head + (Alarms(a[1..]) + Alarms(b)) == (head + Alarms(a[1..])) + Alarms(b);
    }
  }

  /** `{ ...obj, id: key, alarms }`: the entry without its alarm fields, then `id`
      and `alarms`, which override any same-named field of the entry. */
  function NormalizeEntry(key: string, entry: Fields): (r: Fields)
    ensures Lookup(r, "id") == Some(Str(key))
    ensures Lookup(r, "alarms") == Some(Arr(Alarms(entry)))
  {
    Set(Set(Kept(entry), "id", Str(key)), "alarms", Arr(Alarms(entry)))
  }

  /** The `map` callback, on one (key, entry) pair. */
  function NormalizeKeyed(e: (string, Fields)): Fields { NormalizeEntry(e.0, e.1) }

  predicate IsEventEntry(e: (string, Fields)) { IsEvent(e.1) }

  function EntryKey(e: (string, Fields)): string { e.0 }

  /** `Object.keys(jsonICS).map(...).filter((obj) => obj?.type == 'VEVENT')`. */
  function Normalize(graph: Graph): (out: seq<Fields>)
    ensures |out| <= |graph|
    ensures forall i :: 0 <= i < |out| ==> IsEvent(out[i])
  {
    Filter(Map(graph, NormalizeKeyed), IsEvent)
  }
}
