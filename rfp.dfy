/**
 The RFP (Radio Fixed Part) proxy record of the OMM client: a flat set of named
 fields, a change log of the writes made through attribute assignment, and one
 field, `hwType`, that refuses re-writes once the server has locked it.
 */
module RFP {

  /** A field value, as decoded from the wire by the client: a Python bool, int,
      str, an enumeration tag, or None. */
  datatype Value = Bool(b: bool) | Int(i: int) | Str(s: string) | Enum(tag: string) | Null

  datatype Option<T> = None | Some(value: T)

  /** The result of reading an attribute: its value, or the `KeyError` raised by
      `__getattr__` for a name that is neither stored nor declared. */
  datatype ReadResult = Found(value: Value) | NoSuchField

  /** The outcome of an attribute assignment. `CannotChangeHardwareType` is the
      exception raised by the guard; `MissingLockFlag` is the `KeyError` raised
      when the guard looks up `hwTypeLocked` in an instance that never stored it. */
  datatype SetOutcome = Ok | CannotChangeHardwareType | MissingLockFlag

  const HwTypeKey: string := "hwType"
  const HwTypeLockedKey: string := "hwTypeLocked"
  const IdKey: string := "id"

  /** The field names the class declares with a default of None. */
  const DeclaredFields: set<string> := {
    "id", "ethAddr", "dectOn", "wlanOn", "licenseRfp", "name",
    "hierarchy1", "hierarchy2", "hierarchy3", "hierarchy4",
    "rpn", "pagingArea", "cluster", "preferredSync", "reflectiveEnv", "site",
    "x", "y", "hwType", "hwTypeLocked",
    "wlanProfile", "wlanAntennaDiv", "wlanAntenna", "wlanChannel",
    "wlanHighThroughput", "wlanPower", "conferenceChannels", "connected",
    "ipAddr", "newSoftwareRequest", "dectRunning", "wlanRunning",
    "ommRunning", "ommStbRunning", "hasWlan", "hasEncryption",
    "hasAdvancedFeatures", "syncState", "swVersion", "brandingMismatch",
    "versionMismatch", "stbMismatch", "wlanLinkNok", "wlanChannelUsed",
    "wlanHighThroughputTypeUsed", "wlanPowerUsed", "nSyncRels", "radioType",
    "outdoorType", "hasFreqShift"
  }

  /** An insertion-ordered dictionary, as Python's `dict`: the keys in the order
      they were first inserted, and the value each key currently maps to. */
  datatype OrderedDict = OrderedDict(keys: seq<string>, values: map<string, Value>) {

    ghost predicate Valid() {
      && (forall i, j :: 0 <= i < j < |keys| ==> keys[i] != keys[j])
      && (forall k :: k in keys <==> k in values)
    }

    /** `d[k] = v`: a key already present keeps its position and takes the new
        value; a new key goes last. */
    function Put(k: string, v: Value): (r: OrderedDict)
      ensures r.values == values[k := v]
      ensures |keys| <= |r.keys| && forall i :: 0 <= i < |keys| ==> r.keys[i] == keys[i]
      ensures Valid() ==> r.keys == if k in keys then keys else keys + [k]
    {
      if k in values then OrderedDict(keys, values[k := v])
      else OrderedDict(keys + [k], values[k := v])
    }

    /** Putting keeps every key listed once and listed exactly when it has a value. */
    lemma PutKeepsValid(k: string, v: Value)
      requires Valid()
      ensures Put(k, v).Valid()
    {
    }
  }

  const EmptyDict: OrderedDict := OrderedDict([], map[])

  /** The whole observable state of an RFP: its instance fields and its change log. */
  datatype RfpState = RfpState(fields: map<string, Value>, changes: OrderedDict)

  /** Attribute read: the instance value, else the class default None for a
      declared name, else `__getattr__`'s failed lookup. */
  function Lookup(fields: map<string, Value>, name: string): ReadResult {
    if name in fields then Found(fields[name])
    else if name in DeclaredFields then Found(Null)
    else NoSuchField
  }

  /** The guard of `__setattr__`, evaluated left to right as Python's `and` does:
      the lookup of `hwTypeLocked` happens only when the key is `hwType` and
      `hwType` is already stored. */
  function Guard(fields: map<string, Value>, key: string): SetOutcome {
    if key != HwTypeKey || HwTypeKey !in fields then Ok
    else if HwTypeLockedKey !in fields then MissingLockFlag
    else if fields[HwTypeLockedKey] == Bool(true) then CannotChangeHardwareType
    else Ok
  }

  /** One attribute assignment as a state transition: when the guard passes, the
      change log records the write and then the field is stored; otherwise
      nothing changes. */
  function Write(s: RfpState, key: string, value: Value): (SetOutcome, RfpState) {
    var outcome := Guard(s.fields, key);
    if outcome == Ok then (Ok, RfpState(s.fields[key := value], s.changes.Put(key, value)))
    else (outcome, s)
  }

  /** The fields after bulk-loading the pairs `ws` in order, with no guard. */
  function Loaded(fields: map<string, Value>, ws: seq<(string, Value)>): map<string, Value>
    decreases |ws|
  {
    if ws == [] then fields
    else Loaded(fields, ws[..|ws| - 1])[ws[|ws| - 1].0 := ws[|ws| - 1].1]
  }

  /** The change log after recording the writes `ws` in order. */
  function PutAll(d: OrderedDict, ws: seq<(string, Value)>): OrderedDict
    decreases |ws|
  {
    if ws == [] then d
    else PutAll(d, ws[..|ws| - 1]).Put(ws[|ws| - 1].0, ws[|ws| - 1].1)
  }

  /** The state after the attribute assignments `ws` in order; rejected ones change nothing. */
  function RunWrites(s: RfpState, ws: seq<(string, Value)>): RfpState
    decreases |ws|
  {
    if ws == [] then s
    else Write(RunWrites(s, ws[..|ws| - 1]), ws[|ws| - 1].0, ws[|ws| - 1].1).1
  }

  /** The writes of `ws`, started from `s`, that pass their guard, in order. */
  function Accepted(s: RfpState, ws: seq<(string, Value)>): seq<(string, Value)>
    decreases |ws|
  {
    if ws == [] then []
    else
      var pre := ws[..|ws| - 1];
      var w := ws[|ws| - 1];
      if Write(RunWrites(s, pre), w.0, w.1).0 == Ok then Accepted(s, pre) + [w] else Accepted(s, pre)
  }

  /** The keys written by `ws`. */
  function KeysOf(ws: seq<(string, Value)>): set<string> {
    set i | 0 <= i < |ws| :: ws[i].0
  }

  /** `ws[i]` is the last write to its key. */
  predicate IsLastWrite(ws: seq<(string, Value)>, i: int) {
    0 <= i < |ws| && forall j :: i < j < |ws| ==> ws[j].0 != ws[i].0
  }

  lemma KeysOfSnoc(ws: seq<(string, Value)>)
    requires ws != []
    ensures KeysOf(ws) == KeysOf(ws[..|ws| - 1]) + {ws[|ws| - 1].0}
  {
    var n := |ws| - 1;
    forall k | k in KeysOf(ws) ensures k in KeysOf(ws[..n]) + {ws[n].0} {
      var i :| 0 <= i < |ws| && ws[i].0 == k;
      if i < n { assert ws[..n][i] == ws[i]; }
    }
    forall k | k in KeysOf(ws[..n]) ensures k in KeysOf(ws) {
      var i :| 0 <= i < n && ws[..n][i].0 == k;
      assert ws[i] == ws[..n][i];
    }
  }

  /** The position of the first write to `k` in `ws`. */
  function FirstIndex(ws: seq<(string, Value)>, k: string): (i: nat)
    requires k in KeysOf(ws)
    ensures i < |ws| && ws[i].0 == k
    ensures forall j :: 0 <= j < i ==> ws[j].0 != k
    decreases |ws|
  {
    var n := |ws| - 1;
    KeysOfSnoc(ws);
    if k in KeysOf(ws[..n]) then
      var i := FirstIndex(ws[..n], k);
      assert ws[i] == ws[..n][i];
      assert forall j :: 0 <= j < i ==> ws[j] == ws[..n][j];
      i
    else
      assert forall j :: 0 <= j < n ==> ws[..n][j].0 in KeysOf(ws[..n]);
      n
  }

  /** The RFP record object. `fields` is the instance `__dict__` apart from the
      internal `_ommclient` and `_changes` entries, and `changes` is `_changes`. */
  class Rfp<Client> {
    const ommClient: Client
    var fields: map<string, Value>
    var changes: OrderedDict

    ghost predicate Valid()
      reads this
    {
      changes.Valid()
    }

    function State(): RfpState
      reads this
    {
      RfpState(fields, changes)
    }

    /** `RFP(ommclient, attributes=None)`. */
    constructor (ommClient: Client, attributes: Option<seq<(string, Value)>>)
      ensures Valid()
      ensures this.ommClient == ommClient
      ensures changes == EmptyDict
      ensures fields == if attributes.Some? then Loaded(map[], attributes.value) else map[]
    {
      this.ommClient := ommClient;
      fields := map[];
      changes := EmptyDict;
      new;
      if attributes.Some? {
        InitFromAttributes(attributes.value);
      }
    }

    /** `__repr__`: the `id` attribute as read. */
    function Repr(): (r: ReadResult)
      reads this
      ensures r.Found?
      ensures IdKey in fields ==> r.value == fields[IdKey]
      ensures IdKey !in fields ==> r.value == Null
    {
      Lookup(fields, IdKey)
    }

    /** `__setattr__`: the `hwType` guard, then the tracked write. */
    method Set(key: string, value: Value) returns (outcome: SetOutcome)
      requires Valid()
      modifies this
      ensures Valid()
      ensures (outcome, State()) == Write(old(State()), key, value)
    {
      if key == HwTypeKey && HwTypeKey in fields {
        if HwTypeLockedKey !in fields {
          return MissingLockFlag;
        }
        if fields[HwTypeLockedKey] == Bool(true) {
          return CannotChangeHardwareType;
        }
      }
      changes.PutKeepsValid(key, value);
      changes := changes.Put(key, value);
      fields := fields[key := value];
      outcome := Ok;
    }

    /** `_init_from_attributes`: store every pair straight into the fields,
        bypassing both the change log and the guard. */
    method InitFromAttributes(attributes: seq<(string, Value)>)
      modifies this
      ensures fields == Loaded(old(fields), attributes)
      ensures changes == old(changes)
    {
      var i := 0;
      while i < |attributes|
        invariant 0 <= i <= |attributes|
        invariant fields == Loaded(old(fields), attributes[..i])
        invariant changes == old(changes)
      {
        var (key, val) := attributes[i];
        assert attributes[..i + 1][..i] == attributes[..i];
        fields := fields[key := val];
        i := i + 1;
      }
      assert attributes[..i] == attributes;
    }
  }
}
