/**
 * Conversion of a list of directory records to and from a JSON object:
 * {"instances": {"instance-0": {...}, "instance-1": {...}, ...}}, each entry carrying eight
 * fields of its record. JSON values are modelled in memory (the object structure of
 * section 4 of RFC 8259), not as text; an object is a map from member names to values.
 */
module EsUtils {
  import opened Wrappers
  import opened Strings
  import opened Identity
  import Retry

  /** A JSON value as the JSON library holds it; numbers are Java longs. */
  datatype Json =
    | JNull
    | JBool(b: bool)
    | JNum(n: Retry.Int64)
    | JStr(s: string)
    | JArr(items: seq<Json>)
    | JObj(fields: map<string, Json>)

  const HostName: string := "host_name"
  const Id: string := "id"
  const AppName: string := "app_name"
  const InstanceIdKey: string := "instance_id"
  const AvailabilityZone: string := "availability_zone"
  const PublicIp: string := "public_ip"
  const Dc: string := "dc"
  const UpdateTime: string := "update_time"
  const InstancesKey: string := "instances"

  /** The member names of one encoded record. */
  const EntryFields: set<string> :=
    {HostName, Id, AppName, InstanceIdKey, AvailabilityZone, PublicIp, Dc, UpdateTime}

  /** "instance-" + i */
  function InstanceKey(i: nat): string
  {
    "instance-" + NatToString(i)
  }

  lemma InstanceKeyInjective(i: nat, j: nat)
    requires InstanceKey(i) == InstanceKey(j)
    ensures i == j
  {
    var p := "instance-";
    assert NatToString(i) == InstanceKey(i)[|p|..];
    assert NatToString(j) == InstanceKey(j)[|p|..];
    NatToStringInjective(i, j);
  }

  /** The keys "instance-0" ... "instance-(n-1)". */
  function KeysBelow(n: nat): set<string>
  {
    set i | 0 <= i < n :: InstanceKey(i)
  }

  lemma KeysBelowNext(n: nat)
    ensures KeysBelow(n + 1) == KeysBelow(n) + {InstanceKey(n)}
    ensures InstanceKey(n) !in KeysBelow(n)
  {
    if InstanceKey(n) in KeysBelow(n) {
      var i :| 0 <= i < n && InstanceKey(i) == InstanceKey(n);
      InstanceKeyInjective(i, n);
    }
  }

  lemma {:induction false} KeysBelowSize(n: nat)
    ensures |KeysBelow(n)| == n
  {
    if n > 0 {
      KeysBelowSize(n - 1);
      KeysBelowNext(n - 1);
    } else {
      assert KeysBelow(0) == {};
    }
  }

  lemma {:induction false} SubsetSize(a: set<string>, b: set<string>)
    requires a <= b
    ensures |a| <= |b|
    decreases |a|
  {
    if a != {} {
      var x :| x in a;
      SubsetSize(a - {x}, b - {x});
    }
  }

  // ---------------------------------------------------------------- encoding

  /** The JSON object for one record: the eight carried fields (`asg` and `token` are not carried). */
  function EntryJson(x: Instance): map<string, Json>
  {
    map[HostName := JStr(x.hostName), Id := JStr(x.id), AppName := JStr(x.app),
        InstanceIdKey := JStr(x.instanceId), AvailabilityZone := JStr(x.availabilityZone),
        PublicIp := JStr(x.hostIP), Dc := JStr(x.dc), UpdateTime := JNum(x.updateTime)]
  }

  /** The inner object once the first n records have been put, in order. */
  function EncodedEntries(xs: seq<Instance>, n: nat): map<string, Json>
    requires n <= |xs|
  {
    if n == 0 then map[]
    else EncodedEntries(xs, n - 1)[InstanceKey(n - 1) := JObj(EntryJson(xs[n - 1]))]
  }

  /** What `transformEsCarInstanceToJson` returns. */
  function Encoded(xs: seq<Instance>): (r: map<string, Json>)
    ensures r.Keys == {InstancesKey} && r[InstancesKey].JObj?
  {
    map[InstancesKey := JObj(EncodedEntries(xs, |xs|))]
  }

  lemma {:induction false} EncodedEntriesKeys(xs: seq<Instance>, n: nat)
    requires n <= |xs|
    ensures EncodedEntries(xs, n).Keys == KeysBelow(n)
  {
    if n == 0 {
      assert KeysBelow(0) == {};
    } else {
      EncodedEntriesKeys(xs, n - 1);
      KeysBelowNext(n - 1);
    }
  }

  /** Entry "instance-i" holds record i once it has been put; later puts leave it alone. */
  lemma {:induction false} EncodedEntryAt(xs: seq<Instance>, n: nat, i: nat)
    requires i < n <= |xs|
    ensures InstanceKey(i) in EncodedEntries(xs, n)
    ensures EncodedEntries(xs, n)[InstanceKey(i)] == JObj(EntryJson(xs[i]))
  {
    if i < n - 1 {
      EncodedEntryAt(xs, n - 1, i);
      if InstanceKey(i) == InstanceKey(n - 1) {
        InstanceKeyInjective(i, n - 1);
      }
    }
  }

  /**
   * The encoder's output has the single key "instances"; under it, for a list of n records, the
   * keys "instance-0" ... "instance-(n-1)", entry i holding the eight fields of record i.
   */
  lemma EncodedShape(xs: seq<Instance>)
    ensures Encoded(xs).Keys == {InstancesKey}
    ensures Encoded(xs)[InstancesKey].JObj?
    ensures Encoded(xs)[InstancesKey].fields.Keys == KeysBelow(|xs|)
    ensures forall i :: 0 <= i < |xs| ==>
      var entry := Encoded(xs)[InstancesKey].fields[InstanceKey(i)];
      && entry == JObj(EntryJson(xs[i]))
      && entry.fields.Keys == EntryFields
  {
    EncodedEntriesKeys(xs, |xs|);
    forall i | 0 <= i < |xs|
      ensures Encoded(xs)[InstancesKey].fields[InstanceKey(i)] == JObj(EntryJson(xs[i]))
    {
      EncodedEntryAt(xs, |xs|, i);
    }
  }

  /** `transformEsCarInstanceToJson`. */
  method TransformToJson(instances: seq<Instance>) returns (allInstances: map<string, Json>)
    ensures allInstances == Encoded(instances)
  {
    var esJsonInstances: map<string, Json> := map[];
    for i := 0 to |instances|
      invariant esJsonInstances == EncodedEntries(instances, i)
    {
      var jsInstance := EntryJson(instances[i]);
      // The one-element array the source builds for each record is never read.
      var esJsonInstance: seq<Json> := [JObj(jsInstance)];
      esJsonInstances := esJsonInstances[InstanceKey(i) := JObj(jsInstance)];
    }
    allInstances := map[InstancesKey := JObj(esJsonInstances)];
  }

  // ---------------------------------------------------------------- decoding

  /**
   * A decoded record. The decoder sets only the eight carried fields; `asg` and `token` stay
   * null, so they are not part of this type. A string field missing from the entry is null.
   */
  datatype DecodedInstance = DecodedInstance(
    app: Option<string>,
    availabilityZone: Option<string>,
    dc: Option<string>,
    hostIP: Option<string>,
    hostName: Option<string>,
    id: Option<string>,
    instanceId: Option<string>,
    updateTime: Retry.Int64)

  /** The exception the decoder throws, with the member whose value caused it. */
  datatype DecodeError = NullPointer(key: string) | ClassCast(key: string)

  /** What decoding the encoding of `x` gives back. */
  function Carried(x: Instance): DecodedInstance
  {
    DecodedInstance(Some(x.app), Some(x.availabilityZone), Some(x.dc), Some(x.hostIP),
                    Some(x.hostName), Some(x.id), Some(x.instanceId), x.updateTime)
  }

  function CarriedAll(xs: seq<Instance>): (r: seq<DecodedInstance>)
    ensures |r| == |xs|
  {
    seq(|xs|, i requires 0 <= i < |xs| => Carried(xs[i]))
  }

  /** `(String) o.get(key)`: null when absent, a cast failure when not a string. */
  function StringField(o: map<string, Json>, key: string): (r: Result<Option<string>, DecodeError>)
  {
    if key !in o || o[key] == JNull then Ok(None)
    else if o[key].JStr? then Ok(Some(o[key].s))
    else Err(ClassCast(key))
  }

  /** `(Long) o.get(key)` unboxed into the record's long: null fails. */
  function LongField(o: map<string, Json>, key: string): (r: Result<Retry.Int64, DecodeError>)
  {
    if key !in o || o[key] == JNull then Err(NullPointer(key))
    else if o[key].JNum? then Ok(o[key].n)
    else Err(ClassCast(key))
  }

  /** One entry, its fields read in the source's order. */
  function DecodeEntry(key: string, entry: Json): (r: Result<DecodedInstance, DecodeError>)
  {
    if !entry.JObj? then Err(ClassCast(key))
    else
      var o := entry.fields;
      var app :- StringField(o, AppName);
      var zone :- StringField(o, AvailabilityZone);
      var dc :- StringField(o, Dc);
      var ip :- StringField(o, PublicIp);
      var host :- StringField(o, HostName);
      var id :- StringField(o, Id);
      var instanceId :- StringField(o, InstanceIdKey);
      var time :- LongField(o, UpdateTime);
      Ok(DecodedInstance(app, zone, dc, ip, host, id, instanceId, time))
  }

  /**
   * What decoding one entry means: a non-object entry fails its cast; a successful decode holds
   * each string field (null when absent or null) and the update time; a failure names the entry
   * or one of the eight fields.
   */
  lemma DecodeEntryReadsFields(key: string, entry: Json)
    ensures !entry.JObj? ==> DecodeEntry(key, entry) == Err(ClassCast(key))
    ensures DecodeEntry(key, entry).Ok? ==>
      var o := entry.fields;
      var x := DecodeEntry(key, entry).value;
      && StringField(o, AppName) == Ok(x.app)
      && StringField(o, AvailabilityZone) == Ok(x.availabilityZone)
      && StringField(o, Dc) == Ok(x.dc)
      && StringField(o, PublicIp) == Ok(x.hostIP)
      && StringField(o, HostName) == Ok(x.hostName)
      && StringField(o, Id) == Ok(x.id)
      && StringField(o, InstanceIdKey) == Ok(x.instanceId)
      && UpdateTime in o && o[UpdateTime] == JNum(x.updateTime)
    ensures DecodeEntry(key, entry).Err? ==>
      DecodeEntry(key, entry).error == ClassCast(key) || DecodeEntry(key, entry).error.key in EntryFields
  {
  }

  /**
   * The fields are read in the source's order, app_name first and update_time last: a bad
   * app_name is reported whatever the rest holds, and a missing update_time only when every
   * string field is readable.
   */
  lemma DecodeEntryFieldOrder(key: string, o: map<string, Json>)
    ensures AppName in o && o[AppName] != JNull && !o[AppName].JStr? ==>
      DecodeEntry(key, JObj(o)) == Err(ClassCast(AppName))
    ensures UpdateTime !in o &&
            (forall f :: f in EntryFields && f != UpdateTime && f in o ==> o[f] == JNull || o[f].JStr?) ==>
      DecodeEntry(key, JObj(o)) == Err(NullPointer(UpdateTime))
  {
  }

  /** The loop stops at the first index whose key is absent or null. */
  predicate Present(m: map<string, Json>, i: nat)
  {
    InstanceKey(i) in m && m[InstanceKey(i)] != JNull
  }

  lemma NextBound(m: map<string, Json>, i: nat)
    requires KeysBelow(i) <= m.Keys && Present(m, i)
    ensures KeysBelow(i + 1) <= m.Keys && i + 1 <= |m.Keys|
  {
    KeysBelowNext(i);
    KeysBelowSize(i + 1);
    SubsetSize(KeysBelow(i + 1), m.Keys);
  }

  /** `acc` followed by the decoded entries, or the error. */
  function Prepend(acc: seq<DecodedInstance>, r: Result<seq<DecodedInstance>, DecodeError>): Result<seq<DecodedInstance>, DecodeError>
  {
    match r
    case Ok(rest) => Ok(acc + rest)
    case Err(e) => Err(e)
  }

  /** The entries from index i on, up to the first missing one. */
  function DecodeFrom(m: map<string, Json>, i: nat): (r: Result<seq<DecodedInstance>, DecodeError>)
    requires KeysBelow(i) <= m.Keys
    ensures r.Ok? ==> i + |r.value| <= |m.Keys|
    decreases |m.Keys| - i
  {
    if !Present(m, i) then
      KeysBelowSize(i);
      SubsetSize(KeysBelow(i), m.Keys);
      Ok([])
    else
      var x :- DecodeEntry(InstanceKey(i), m[InstanceKey(i)]);
      NextBound(m, i);
      var rest :- DecodeFrom(m, i + 1);
      Ok([x] + rest)
  }

  /** What `getEsCarInstancesFromJson` returns, or the exception it throws. */
  function Decoded(instances: map<string, Json>): Result<seq<DecodedInstance>, DecodeError>
  {
    if InstancesKey !in instances || instances[InstancesKey] == JNull then Err(NullPointer(InstancesKey))
    else if !instances[InstancesKey].JObj? then Err(ClassCast(InstancesKey))
    else
      assert KeysBelow(0) == {};
      DecodeFrom(instances[InstancesKey].fields, 0)
  }

  /** A solver hint that establishes the decoding loop's invariant on entry; not a property of the decoder. */
  lemma PrependNothing(r: Result<seq<DecodedInstance>, DecodeError>)
    ensures Prepend([], r) == r
  {
    if r.Ok? {
      assert [] + r.value == r.value;
    }
  }

  /** One turn of the decoding loop moves one decoded entry into the accumulator. */
  lemma DecodeStep(m: map<string, Json>, i: nat, acc: seq<DecodedInstance>, x: DecodedInstance)
    requires KeysBelow(i + 1) <= m.Keys && Present(m, i)
    requires DecodeEntry(InstanceKey(i), m[InstanceKey(i)]) == Ok(x)
    ensures Prepend(acc, DecodeFrom(m, i)) == Prepend(acc + [x], DecodeFrom(m, i + 1))
  {
    KeysBelowNext(i);
    var rest := DecodeFrom(m, i + 1);
    if rest.Ok? {
      assert acc + ([x] + rest.value) == (acc + [x]) + rest.value;
    }
  }

  /** `getEsCarInstancesFromJson`. */
  method GetInstancesFromJson(instances: map<string, Json>) returns (r: Result<seq<DecodedInstance>, DecodeError>)
    ensures r == Decoded(instances)
  {
    if InstancesKey !in instances || instances[InstancesKey] == JNull {
      return Err(NullPointer(InstancesKey));
    }
    var topLevelInstance := instances[InstancesKey];
    if !topLevelInstance.JObj? {
      return Err(ClassCast(InstancesKey));
    }
    var m := topLevelInstance.fields;
    var esCarInstances: seq<DecodedInstance> := [];
    var i: nat := 0;
    assert KeysBelow(0) == {};
    PrependNothing(DecodeFrom(m, 0));
    while true
      invariant KeysBelow(i) <= m.Keys
      invariant DecodeFrom(m, 0) == Prepend(esCarInstances, DecodeFrom(m, i))
      decreases |m.Keys| - i
    {
      if !Present(m, i) {
        break;
      }
      var escInstance := DecodeEntry(InstanceKey(i), m[InstanceKey(i)]);
      if escInstance.Err? {
        return Err(escInstance.error);
      }
      NextBound(m, i);
      DecodeStep(m, i, esCarInstances, escInstance.value);
      esCarInstances := esCarInstances + [escInstance.value];
      i := i + 1;
    }
    assert esCarInstances + [] == esCarInstances;
    r := Ok(esCarInstances);
  }

  // ---------------------------------------------------------------- decoding properties

  /** Entry "instance-j" is present and decodes to x. */
  predicate DecodesTo(m: map<string, Json>, j: nat, x: DecodedInstance)
  {
    Present(m, j) && DecodeEntry(InstanceKey(j), m[InstanceKey(j)]) == Ok(x)
  }

  /** Entry "instance-j" is present and its decoding throws e. */
  predicate FailsWith(m: map<string, Json>, j: nat, e: DecodeError)
  {
    Present(m, j) && DecodeEntry(InstanceKey(j), m[InstanceKey(j)]) == Err(e)
  }

  /** Element j of `r` is decoded from "instance-(i+j)". */
  predicate DecodedRun(m: map<string, Json>, i: nat, r: seq<DecodedInstance>)
  {
    forall j :: 0 <= j < |r| ==> DecodesTo(m, i + j, r[j])
  }

  /** A run of decoded entries from i + 1, with one more in front at i, is a run from i. */
  lemma RunShift(m: map<string, Json>, i: nat, x: DecodedInstance, rest: seq<DecodedInstance>, r: seq<DecodedInstance>)
    requires r == [x] + rest
    requires DecodesTo(m, i, x)
    requires DecodedRun(m, i + 1, rest)
    ensures DecodedRun(m, i, r)
  {
    forall j | 0 <= j < |r| ensures DecodesTo(m, i + j, r[j]) {
      if j > 0 {
        assert r[j] == rest[j - 1];
        assert DecodesTo(m, (i + 1) + (j - 1), rest[j - 1]);
      }
    }
  }

  /**
   * A successful decode from index i is exactly the run of present entries starting at i, in
   * key order: element j comes from "instance-(i+j)", and "instance-(i+|r|)" is missing or null.
   */
  lemma {:induction false} DecodeFromOk(m: map<string, Json>, i: nat, r: seq<DecodedInstance>)
    requires KeysBelow(i) <= m.Keys && DecodeFrom(m, i) == Ok(r)
    ensures !Present(m, i + |r|)
    ensures DecodedRun(m, i, r)
    decreases |m.Keys| - i
  {
    if Present(m, i) {
      NextBound(m, i);
      var x, rest := DecodeFromPresent(m, i, r);
      DecodeFromOk(m, i + 1, rest);
      RunShift(m, i, x, rest, r);
      assert i + |r| == (i + 1) + |rest|;
    }
  }

  /** A successful decode from a present index is its entry followed by the decode from the next. */
  lemma DecodeFromPresent(m: map<string, Json>, i: nat, r: seq<DecodedInstance>)
    returns (x: DecodedInstance, rest: seq<DecodedInstance>)
    requires KeysBelow(i + 1) <= m.Keys && Present(m, i) && DecodeFrom(m, i) == Ok(r)
    ensures DecodesTo(m, i, x) && DecodeFrom(m, i + 1) == Ok(rest) && r == [x] + rest
  {
    KeysBelowNext(i);
    x := DecodeEntry(InstanceKey(i), m[InstanceKey(i)]).value;
    rest := DecodeFrom(m, i + 1).value;
  }

  /**
   * The converse: when the entries i .. i+|ys|-1 are present and decode to ys, and the next one is
   * missing or null, decoding from i gives ys, whatever the object holds beyond the gap.
   */
  lemma {:induction false} DecodeFromRun(m: map<string, Json>, i: nat, ys: seq<DecodedInstance>)
    requires KeysBelow(i) <= m.Keys
    requires !Present(m, i + |ys|)
    requires DecodedRun(m, i, ys)
    ensures DecodeFrom(m, i) == Ok(ys)
    decreases |ys|
  {
    if ys != [] {
      RunUnshift(m, i, ys);
      NextBound(m, i);
      DecodeFromRun(m, i + 1, ys[1..]);
      DecodeFromCons(m, i, ys[0], ys[1..]);
      assert ys == [ys[0]] + ys[1..];
    }
  }

  /** A non-empty run from i is its entry at i followed by a run from i + 1. */
  lemma RunUnshift(m: map<string, Json>, i: nat, ys: seq<DecodedInstance>)
    requires ys != [] && DecodedRun(m, i, ys)
    ensures DecodesTo(m, i, ys[0]) && DecodedRun(m, i + 1, ys[1..])
  {
    assert DecodesTo(m, i + 0, ys[0]);
    forall j | 0 <= j < |ys| - 1 ensures DecodesTo(m, (i + 1) + j, ys[1..][j]) {
      assert DecodesTo(m, i + (j + 1), ys[j + 1]);
    }
  }

  /** A present entry that decodes, followed by a successful decode from the next index. */
  lemma DecodeFromCons(m: map<string, Json>, i: nat, x: DecodedInstance, rest: seq<DecodedInstance>)
    requires KeysBelow(i + 1) <= m.Keys && DecodesTo(m, i, x) && DecodeFrom(m, i + 1) == Ok(rest)
    ensures KeysBelow(i) <= m.Keys && DecodeFrom(m, i) == Ok([x] + rest)
  {
    KeysBelowNext(i);
  }

  /** Entry "instance-j" is present and decodes. */
  predicate DecodesOk(m: map<string, Json>, j: nat)
  {
    Present(m, j) && DecodeEntry(InstanceKey(j), m[InstanceKey(j)]).Ok?
  }

  /**
   * A failing decode names the first entry, before the gap, whose value could not be cast or
   * whose update_time was null: every entry before it decodes.
   */
  lemma {:induction false} DecodeFromErr(m: map<string, Json>, i: nat)
    requires KeysBelow(i) <= m.Keys && DecodeFrom(m, i).Err?
    ensures exists k: nat ::
      && i <= k
      && (forall j :: i <= j < k ==> DecodesOk(m, j))
      && FailsWith(m, k, DecodeFrom(m, i).error)
    decreases |m.Keys| - i
  {
    var here := DecodeEntry(InstanceKey(i), m[InstanceKey(i)]);
    if here.Err? {
      assert FailsWith(m, i, DecodeFrom(m, i).error);
    } else {
      NextBound(m, i);
      DecodeFromErr(m, i + 1);
      var k: nat :| i + 1 <= k && (forall j :: i + 1 <= j < k ==> DecodesOk(m, j))
        && FailsWith(m, k, DecodeFrom(m, i + 1).error);
      assert DecodesOk(m, i);
      assert DecodeFrom(m, i).error == DecodeFrom(m, i + 1).error;
    }
  }

  /**
   * The decoder's result, when it returns, has as many elements as the least k with no
   * "instance-k" entry (or a null one), element j built from "instance-j".
   */
  lemma DecodedLengthAndOrder(doc: map<string, Json>)
    requires Decoded(doc).Ok?
    ensures var m := doc[InstancesKey].fields;
      var r := Decoded(doc).value;
      && (forall j :: 0 <= j < |r| ==> DecodesTo(m, j, r[j]))
      && !Present(m, |r|)
  {
    var m := doc[InstancesKey].fields;
    assert KeysBelow(0) == {};
    var r := Decoded(doc).value;
    DecodeFromOk(m, 0, r);
    forall j | 0 <= j < |r| ensures DecodesTo(m, j, r[j]) {
      assert DecodesTo(m, 0 + j, r[j]);
    }
  }

  /** When the decoder throws, some entry before the first gap fails and all before it decode. */
  lemma DecodedFailure(doc: map<string, Json>)
    requires InstancesKey in doc && doc[InstancesKey].JObj? && Decoded(doc).Err?
    ensures exists k: nat ::
      && (forall j :: 0 <= j < k ==> DecodesOk(doc[InstancesKey].fields, j))
      && FailsWith(doc[InstancesKey].fields, k, Decoded(doc).error)
  {
    assert KeysBelow(0) == {};
    DecodeFromErr(doc[InstancesKey].fields, 0);
  }

  /** Entries after the first gap are ignored: two inner objects that agree up to it decode alike. */
  lemma EntriesAfterGapIgnored(doc: map<string, Json>, doc': map<string, Json>, k: nat)
    requires InstancesKey in doc && doc[InstancesKey].JObj?
    requires InstancesKey in doc' && doc'[InstancesKey].JObj?
    requires forall j :: 0 <= j <= k ==>
      SameEntry(doc[InstancesKey].fields, doc'[InstancesKey].fields, j)
    requires !Present(doc[InstancesKey].fields, k)
    ensures Decoded(doc) == Decoded(doc')
  {
    assert KeysBelow(0) == {};
    SameUpToGap(doc[InstancesKey].fields, doc'[InstancesKey].fields, 0, k);
  }

  /** Both objects hold the same value, or nothing, under "instance-j". */
  predicate SameEntry(m: map<string, Json>, m': map<string, Json>, j: nat)
  {
    && (InstanceKey(j) in m <==> InstanceKey(j) in m')
    && (InstanceKey(j) in m ==> m[InstanceKey(j)] == m'[InstanceKey(j)])
  }

  lemma {:induction false} SameUpToGap(m: map<string, Json>, m': map<string, Json>, i: nat, k: nat)
    requires KeysBelow(i) <= m.Keys && KeysBelow(i) <= m'.Keys && i <= k
    requires forall j :: i <= j <= k ==> SameEntry(m, m', j)
    requires !Present(m, k)
    ensures DecodeFrom(m, i) == DecodeFrom(m', i)
    decreases k - i
  {
    assert SameEntry(m, m', i);
    if Present(m, i) {
      NextBound(m, i);
      NextBound(m', i);
      SameUpToGap(m, m', i + 1, k);
    }
  }

  /** Entry j of an encoded list is present and decodes to record j's carried fields. */
  lemma EncodedDecodesTo(xs: seq<Instance>, j: nat)
    requires j < |xs|
    ensures DecodesTo(EncodedEntries(xs, |xs|), j, Carried(xs[j]))
  {
    EncodedEntryAt(xs, |xs|, j);
    DecodeEntryOfEncoded(InstanceKey(j), xs[j]);
  }

  /** Decoding the object built for one record gives back its eight carried fields. */
  lemma DecodeEntryOfEncoded(key: string, x: Instance)
    ensures DecodeEntry(key, JObj(EntryJson(x))) == Ok(Carried(x))
  {
    var o := EntryJson(x);
    assert StringField(o, AppName) == Ok(Some(x.app));
    assert StringField(o, AvailabilityZone) == Ok(Some(x.availabilityZone));
    assert StringField(o, Dc) == Ok(Some(x.dc));
    assert StringField(o, PublicIp) == Ok(Some(x.hostIP));
    assert StringField(o, HostName) == Ok(Some(x.hostName));
    assert StringField(o, Id) == Ok(Some(x.id));
    assert StringField(o, InstanceIdKey) == Ok(Some(x.instanceId));
    assert LongField(o, UpdateTime) == Ok(x.updateTime);
  }

  /**
   * Round trip: decoding the encoding of a list gives back the list, each record projected onto
   * its eight carried fields (asg and token are not carried).
   */
  lemma RoundTrip(xs: seq<Instance>)
    ensures Decoded(Encoded(xs)) == Ok(CarriedAll(xs))
  {
    EncodedGap(xs);
    EncodedRun(xs);
    DecodeFromRun(EncodedEntries(xs, |xs|), 0, CarriedAll(xs));
  }

  /** The encoded entries hold every index below the list's length and nothing at its length. */
  lemma EncodedGap(xs: seq<Instance>)
    ensures KeysBelow(0) <= EncodedEntries(xs, |xs|).Keys
    ensures !Present(EncodedEntries(xs, |xs|), |xs|)
  {
    EncodedEntriesKeys(xs, |xs|);
    KeysBelowNext(|xs|);
    assert KeysBelow(0) == {};
  }

  /** The encoded entries are a run decoding to the carried records. */
  lemma EncodedRun(xs: seq<Instance>)
    ensures DecodedRun(EncodedEntries(xs, |xs|), 0, CarriedAll(xs))
  {
    var ys := CarriedAll(xs);
    forall j | 0 <= j < |ys| ensures DecodesTo(EncodedEntries(xs, |xs|), 0 + j, ys[j]) {
      EncodedDecodesTo(xs, j);
    }
  }
}
