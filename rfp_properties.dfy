/**
 What the RFP record promises: the outcome of each kind of attribute assignment,
 read-after-write, the order and contents of the change log after any run of
 writes, the bulk load bypassing both log and guard, and the `hwType` lock.
 */
module RFPProperties {
  import opened RFP

  /** `hwType` is stored and the server's lock flag is stored as true. */
  predicate Locked(fields: map<string, Value>) {
    HwTypeKey in fields && HwTypeLockedKey in fields && fields[HwTypeLockedKey] == Bool(true)
  }

  // ---------------------------------------------------------------------------
  // Reads

  /** A stored value shadows the class default; a declared name reads as None
      until stored; any other name fails. */
  lemma ReadFallsBackToDeclaredDefault(fields: map<string, Value>, name: string)
    ensures Lookup(fields, name) == NoSuchField <==> name !in fields && name !in DeclaredFields
    ensures name in fields ==> Lookup(fields, name) == Found(fields[name])
    ensures name !in fields && name in DeclaredFields ==> Lookup(fields, name) == Found(Null)
  {
  }

  /** The lock guard's two names and `id` are declared, so reading them never fails. */
  lemma GuardNamesAreDeclared(fields: map<string, Value>)
    ensures Lookup(fields, HwTypeKey).Found?
    ensures Lookup(fields, HwTypeLockedKey).Found?
    ensures Lookup(fields, IdKey).Found?
  {
  }

  // ---------------------------------------------------------------------------
  // One attribute assignment

  /** A successful write reads back, is logged with its value, and leaves every
      other name's reading and log entry as it was. */
  lemma ReadAfterWrite(s: RfpState, key: string, value: Value)
    requires Write(s, key, value).0 == Ok
    ensures Lookup(Write(s, key, value).1.fields, key) == Found(value)
    ensures Write(s, key, value).1.changes.values[key] == value
    ensures forall other :: other != key ==>
      Lookup(Write(s, key, value).1.fields, other) == Lookup(s.fields, other)
    ensures forall other :: other != key && other in s.changes.values ==>
      Write(s, key, value).1.changes.values[other] == s.changes.values[other]
  {
  }

  /** Any key other than `hwType`, `hwTypeLocked` included, is written and
      logged without any check. */
  lemma OtherKeysAlwaysWritten(s: RfpState, key: string, value: Value)
    requires key != HwTypeKey
    ensures Write(s, key, value).0 == Ok
    ensures Write(s, key, value).1 == RfpState(s.fields[key := value], s.changes.Put(key, value))
  {
  }

  /** A rejected write changes nothing, neither the fields nor the log. */
  lemma RejectedWriteChangesNothing(s: RfpState, key: string, value: Value)
    requires Write(s, key, value).0 != Ok
    ensures key == HwTypeKey && HwTypeKey in s.fields
    ensures Write(s, key, value).1 == s
  {
  }

  /** Writing `hwType` over a stored value while the lock flag holds true is refused. */
  lemma LockedHwTypeRejected(s: RfpState, value: Value)
    requires Locked(s.fields)
    ensures Write(s, HwTypeKey, value) == (CannotChangeHardwareType, s)
  {
  }

  /** The first write of `hwType` succeeds whatever the lock flag holds, or
      whether it is stored at all. */
  lemma FirstHwTypeWriteAccepted(s: RfpState, value: Value)
    requires HwTypeKey !in s.fields
    ensures Write(s, HwTypeKey, value).0 == Ok
    ensures Lookup(Write(s, HwTypeKey, value).1.fields, HwTypeKey) == Found(value)
  {
  }

  /** Re-writing `hwType` when the lock flag was never stored fails with the
      lookup's `KeyError` and changes nothing. */
  lemma MissingLockFlagFails(s: RfpState, value: Value)
    requires HwTypeKey in s.fields && HwTypeLockedKey !in s.fields
    ensures Write(s, HwTypeKey, value) == (MissingLockFlag, s)
  {
  }

  /** Re-writing `hwType` succeeds when the stored lock flag is anything but true. */
  lemma UnlockedHwTypeRewritten(s: RfpState, value: Value)
    requires HwTypeLockedKey in s.fields && s.fields[HwTypeLockedKey] != Bool(true)
    ensures Write(s, HwTypeKey, value).0 == Ok
    ensures Lookup(Write(s, HwTypeKey, value).1.fields, HwTypeKey) == Found(value)
  {
  }

  /** The three outcomes of writing `hwType` cover every state, and exactly one applies. */
  lemma HwTypeOutcomes(s: RfpState, value: Value)
    ensures Write(s, HwTypeKey, value).0 == CannotChangeHardwareType <==> Locked(s.fields)
    ensures Write(s, HwTypeKey, value).0 == MissingLockFlag <==>
      HwTypeKey in s.fields && HwTypeLockedKey !in s.fields
  {
  }

  /** Writing keeps the change log well formed. */
  lemma WritePreservesLog(s: RfpState, key: string, value: Value)
    requires s.changes.Valid()
    ensures Write(s, key, value).1.changes.Valid()
  {
    s.changes.PutKeepsValid(key, value);
  }

  // ---------------------------------------------------------------------------
  // Bulk load

  /** After a bulk load the fields hold the last value loaded for each loaded
      key, and the earlier value for every other key. */
  lemma LoadedContents(fields: map<string, Value>, ws: seq<(string, Value)>)
    ensures Loaded(fields, ws).Keys == fields.Keys + KeysOf(ws)
    ensures forall i :: IsLastWrite(ws, i) ==> Loaded(fields, ws)[ws[i].0] == ws[i].1
    ensures forall k :: k in fields && k !in KeysOf(ws) ==> Loaded(fields, ws)[k] == fields[k]
  {
    LoadedKeys(fields, ws);
    LoadedLastWrite(fields, ws);
    LoadedUntouched(fields, ws);
  }

  lemma {:induction false} LoadedKeys(fields: map<string, Value>, ws: seq<(string, Value)>)
    ensures Loaded(fields, ws).Keys == fields.Keys + KeysOf(ws)
    decreases |ws|
  {
    if ws != [] {
      LoadedKeys(fields, ws[..|ws| - 1]);
      KeysOfSnoc(ws);
    }
  }

  lemma {:induction false} LoadedLastWrite(fields: map<string, Value>, ws: seq<(string, Value)>)
    ensures forall i :: IsLastWrite(ws, i) ==> ws[i].0 in Loaded(fields, ws) && Loaded(fields, ws)[ws[i].0] == ws[i].1
    decreases |ws|
  {
    if ws != [] {
      var n := |ws| - 1;
      LoadedKeys(fields, ws);
      LoadedLastWrite(fields, ws[..n]);
      forall i | IsLastWrite(ws, i) ensures ws[i].0 in Loaded(fields, ws) && Loaded(fields, ws)[ws[i].0] == ws[i].1 {
        if i < n {
          LastWriteOfPrefix(ws, i);
        }
      }
    }
  }

  lemma {:induction false} LoadedUntouched(fields: map<string, Value>, ws: seq<(string, Value)>)
    ensures forall k :: k in fields && k !in KeysOf(ws) ==> k in Loaded(fields, ws) && Loaded(fields, ws)[k] == fields[k]
    decreases |ws|
  {
    if ws != [] {
      LoadedKeys(fields, ws);
      LoadedUntouched(fields, ws[..|ws| - 1]);
      KeysOfSnoc(ws);
    }
  }

  lemma LastWriteOfPrefix(ws: seq<(string, Value)>, i: int)
    requires IsLastWrite(ws, i) && i < |ws| - 1
    ensures IsLastWrite(ws[..|ws| - 1], i) && ws[..|ws| - 1][i] == ws[i]
    ensures ws[|ws| - 1].0 != ws[i].0
  {
    var pre := ws[..|ws| - 1];
    forall j | i < j < |pre| ensures pre[j].0 != pre[i].0 {
      assert pre[j] == ws[j];
    }
  }

  /** Bulk load ignores the lock: it overwrites a locked `hwType`, which a
      tracked write would refuse. */
  lemma LoadBypassesLock(s: RfpState, v: Value)
    requires Locked(s.fields)
    ensures Write(s, HwTypeKey, v).0 == CannotChangeHardwareType
    ensures Loaded(s.fields, [(HwTypeKey, v)])[HwTypeKey] == v
  {
  }

  /** A read after a bulk load sees the last value loaded for the name, with no
      trace of how it got there. */
  lemma ReadAfterLoad(fields: map<string, Value>, ws: seq<(string, Value)>, i: int)
    requires IsLastWrite(ws, i)
    ensures Lookup(Loaded(fields, ws), ws[i].0) == Found(ws[i].1)
  {
    LoadedContents(fields, ws);
  }

  // ---------------------------------------------------------------------------
  // The change log over many writes

  /** The values the log holds after a run of writes are those a bulk load of
      the same pairs would install. */
  lemma {:induction false} PutAllValues(d: OrderedDict, ws: seq<(string, Value)>)
    requires d.Valid()
    ensures PutAll(d, ws).Valid()
    ensures PutAll(d, ws).values == Loaded(d.values, ws)
    decreases |ws|
  {
    if ws != [] {
      PutAllValues(d, ws[..|ws| - 1]);
      PutAll(d, ws[..|ws| - 1]).PutKeepsValid(ws[|ws| - 1].0, ws[|ws| - 1].1);
    }
  }

  /** Keys already logged keep their positions whatever is written after them. */
  lemma {:induction false} PutAllKeepsPositions(d: OrderedDict, ws: seq<(string, Value)>)
    ensures |d.keys| <= |PutAll(d, ws).keys|
    ensures forall i :: 0 <= i < |d.keys| ==> PutAll(d, ws).keys[i] == d.keys[i]
    decreases |ws|
  {
    if ws != [] {
      PutAllKeepsPositions(d, ws[..|ws| - 1]);
    }
  }

  /** From an empty log, a run of writes leaves each written key exactly once,
      in the order of its first write, with the value of its last write. */
  lemma ChangeLogOrder(ws: seq<(string, Value)>)
    ensures PutAll(EmptyDict, ws).Valid()
    ensures PutAll(EmptyDict, ws).values.Keys == KeysOf(ws)
    ensures forall i :: IsLastWrite(ws, i) ==>
      ws[i].0 in PutAll(EmptyDict, ws).values && PutAll(EmptyDict, ws).values[ws[i].0] == ws[i].1
    ensures forall a, b :: 0 <= a < b < |PutAll(EmptyDict, ws).keys| ==>
      && PutAll(EmptyDict, ws).keys[a] in KeysOf(ws)
      && PutAll(EmptyDict, ws).keys[b] in KeysOf(ws)
      && FirstIndex(ws, PutAll(EmptyDict, ws).keys[a]) < FirstIndex(ws, PutAll(EmptyDict, ws).keys[b])
  {
    PutAllValues(EmptyDict, ws);
    LoadedKeys(map[], ws);
    LoadedLastWrite(map[], ws);
    FirstWriteOrder(ws);
  }

  /** From an empty log, keys are listed in the order of their first writes. */
  lemma {:induction false} FirstWriteOrder(ws: seq<(string, Value)>)
    ensures PutAll(EmptyDict, ws).Valid() && PutAll(EmptyDict, ws).values.Keys == KeysOf(ws)
    ensures forall a, b :: 0 <= a < b < |PutAll(EmptyDict, ws).keys| ==>
      && PutAll(EmptyDict, ws).keys[a] in KeysOf(ws)
      && PutAll(EmptyDict, ws).keys[b] in KeysOf(ws)
      && FirstIndex(ws, PutAll(EmptyDict, ws).keys[a]) < FirstIndex(ws, PutAll(EmptyDict, ws).keys[b])
    decreases |ws|
  {
    PutAllValues(EmptyDict, ws);
    LoadedKeys(map[], ws);
    if ws != [] {
      var n := |ws| - 1;
      var pre := ws[..n];
      FirstWriteOrder(pre);
      KeysOfSnoc(ws);
      var before := PutAll(EmptyDict, pre);
      var after := PutAll(EmptyDict, ws);
      assert after == before.Put(ws[n].0, ws[n].1);
      forall a, b | 0 <= a < b < |after.keys|
        ensures after.keys[a] in KeysOf(ws) && after.keys[b] in KeysOf(ws)
        ensures FirstIndex(ws, after.keys[a]) < FirstIndex(ws, after.keys[b])
      {
        if b < |before.keys| {
          assert after.keys[a] == before.keys[a] && after.keys[b] == before.keys[b];
          FirstIndexOfPrefix(ws, before.keys[a]);
          FirstIndexOfPrefix(ws, before.keys[b]);
        } else {
          assert after.keys[b] == ws[n].0 && after.keys[a] == before.keys[a];
          assert ws[n].0 !in KeysOf(pre);
          FirstIndexOfPrefix(ws, before.keys[a]);
        }
      }
    }
  }

  lemma FirstIndexOfPrefix(ws: seq<(string, Value)>, k: string)
    requires ws != [] && k in KeysOf(ws[..|ws| - 1])
    ensures k in KeysOf(ws) && FirstIndex(ws, k) == FirstIndex(ws[..|ws| - 1], k)
  {
    KeysOfSnoc(ws);
  }

  /** A run of writes none of which is to `hwType` passes every guard: the
      fields become those of a bulk load of the same pairs and the log records
      each of them. */
  lemma {:induction false} UnguardedRun(s: RfpState, ws: seq<(string, Value)>)
    requires forall i :: 0 <= i < |ws| ==> ws[i].0 != HwTypeKey
    ensures RunWrites(s, ws) == RfpState(Loaded(s.fields, ws), PutAll(s.changes, ws))
    decreases |ws|
  {
    if ws != [] {
      UnguardedRun(s, ws[..|ws| - 1]);
    }
  }

  /** Any run of tracked writes, refused ones included, leaves the log as the
      accepted writes recorded in order, and the fields as their bulk load. */
  lemma {:induction false} RunLog(s: RfpState, ws: seq<(string, Value)>)
    ensures RunWrites(s, ws).changes == PutAll(s.changes, Accepted(s, ws))
    ensures RunWrites(s, ws).fields == Loaded(s.fields, Accepted(s, ws))
    decreases |ws|
  {
    if ws != [] {
      var pre := ws[..|ws| - 1];
      var w := ws[|ws| - 1];
      RunLog(s, pre);
      var acc := Accepted(s, pre);
      var mid := RunWrites(s, pre);
      assert RunWrites(s, ws) == Write(mid, w.0, w.1).1;
      if Write(mid, w.0, w.1).0 == Ok {
        var acc' := acc + [w];
        assert Accepted(s, ws) == acc';
        assert acc'[..|acc'| - 1] == acc && acc'[|acc'| - 1] == w;
      } else {
        assert Accepted(s, ws) == acc;
      }
    }
  }

  /** With no write to `hwType`, every write of the run is accepted. */
  lemma {:induction false} AcceptedWhenUnguarded(s: RfpState, ws: seq<(string, Value)>)
    requires forall i :: 0 <= i < |ws| ==> ws[i].0 != HwTypeKey
    ensures Accepted(s, ws) == ws
    decreases |ws|
  {
    if ws != [] {
      var n := |ws| - 1;
      assert forall i :: 0 <= i < n ==> ws[..n][i] == ws[i];
      AcceptedWhenUnguarded(s, ws[..n]);
      assert ws[..n] + [ws[n]] == ws;
    }
  }

  /** For a record whose log starts empty, as the constructor leaves it, the log
      after any run of tracked writes holds each accepted key once, in the order
      of its first accepted write, with the value of its last accepted write. */
  lemma RunLogFromEmpty(s: RfpState, ws: seq<(string, Value)>)
    requires s.changes == EmptyDict
    ensures RunWrites(s, ws).changes.Valid()
    ensures RunWrites(s, ws).changes.values.Keys == KeysOf(Accepted(s, ws))
    ensures forall i :: IsLastWrite(Accepted(s, ws), i) ==>
      Accepted(s, ws)[i].0 in RunWrites(s, ws).changes.values &&
      RunWrites(s, ws).changes.values[Accepted(s, ws)[i].0] == Accepted(s, ws)[i].1
    ensures forall a, b :: 0 <= a < b < |RunWrites(s, ws).changes.keys| ==>
      && RunWrites(s, ws).changes.keys[a] in KeysOf(Accepted(s, ws))
      && RunWrites(s, ws).changes.keys[b] in KeysOf(Accepted(s, ws))
      && FirstIndex(Accepted(s, ws), RunWrites(s, ws).changes.keys[a])
         < FirstIndex(Accepted(s, ws), RunWrites(s, ws).changes.keys[b])
  {
    RunLog(s, ws);
    ChangeLogOrder(Accepted(s, ws));
  }

  // ---------------------------------------------------------------------------
  // The lock over many writes

  /** Once `hwType` is stored and locked, no run of tracked writes changes it,
      as long as none of them stores anything but true in the lock flag. */
  lemma {:induction false} LockIsSticky(s: RfpState, ws: seq<(string, Value)>)
    requires Locked(s.fields)
    requires forall i :: 0 <= i < |ws| && ws[i].0 == HwTypeLockedKey ==> ws[i].1 == Bool(true)
    ensures Locked(RunWrites(s, ws).fields)
    ensures RunWrites(s, ws).fields[HwTypeKey] == s.fields[HwTypeKey]
    decreases |ws|
  {
    if ws != [] {
      var n := |ws| - 1;
      assert forall i :: 0 <= i < n ==> ws[..n][i] == ws[i];
      LockIsSticky(s, ws[..n]);
    }
  }

  /** The class itself does not make the lock one-way: writing false into the
      lock flag is an ordinary write and re-opens `hwType`. */
  lemma UnlockingReopensHwType(s: RfpState, v: Value)
    requires Locked(s.fields)
    ensures Write(s, HwTypeLockedKey, Bool(false)).0 == Ok
    ensures Write(Write(s, HwTypeLockedKey, Bool(false)).1, HwTypeKey, v).0 == Ok
  {
  }
}
