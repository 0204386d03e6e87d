/**
 Worked instances of the RFP record's behaviour: the change log of a short run
 of writes, and a client driving an `Rfp` object through the `hwType` lock.
 */
module RFPExamples {
  import opened RFP

  /** The log after one more write is the log before it with that write recorded. */
  lemma PutAllSnoc(d: OrderedDict, ws: seq<(string, Value)>, w: (string, Value))
    ensures PutAll(d, ws + [w]) == PutAll(d, ws).Put(w.0, w.1)
  {
    assert (ws + [w])[..|ws|] == ws;
  }

  /** Writes to `a`, `b`, `a`, `c` with the values 1, 2, 3, 4 leave the log
      `{a: 3, b: 2, c: 4}`, in the order `a`, `b`, `c`. */
  lemma ChangeLogExample(a: string, b: string, c: string, v1: Value, v2: Value, v3: Value, v4: Value)
    requires a != b && b != c && a != c
    ensures PutAll(EmptyDict, [(a, v1)] + [(b, v2)] + [(a, v3)] + [(c, v4)])
         == OrderedDict([a, b, c], map[a := v3, b := v2, c := v4])
  {
    var w1 := [(a, v1)];
    var w2 := w1 + [(b, v2)];
    var w3 := w2 + [(a, v3)];
    assert PutAll(EmptyDict, w1) == OrderedDict([a], map[a := v1]) by {
      PutAllSnoc(EmptyDict, [], (a, v1));
      assert [] + [(a, v1)] == w1;
    }
    assert PutAll(EmptyDict, w2) == OrderedDict([a, b], map[a := v1, b := v2]) by {
      PutAllSnoc(EmptyDict, w1, (b, v2));
    }
    assert PutAll(EmptyDict, w3) == OrderedDict([a, b], map[a := v3, b := v2]) by {
      PutAllSnoc(EmptyDict, w2, (a, v3));
    }
    var w4 := w3 + [(c, v4)];
    assert PutAll(EmptyDict, w4) == OrderedDict([a, b, c], map[a := v3, b := v2, c := v4]) by {
      PutAllSnoc(EmptyDict, w3, (c, v4));
    }
  }

  /** The scenario of a server snapshot with `hwType` "A" still unlocked:
      re-writing it works, locking it works, and re-writing it again is refused. */
  method HardwareTypeLockScenario() {
    var attributes := [(IdKey, Int(3)), (HwTypeKey, Str("A")), (HwTypeLockedKey, Bool(false))];
    assert attributes[..2] == [(IdKey, Int(3)), (HwTypeKey, Str("A"))];
    assert attributes[..2][..1] == [(IdKey, Int(3))];
    assert Loaded(map[], attributes[..2][..1]) == map[IdKey := Int(3)];
    assert Loaded(map[], attributes[..2])[IdKey] == Int(3);
    var rfp := new Rfp<()>((), Some(attributes));
    assert rfp.changes == EmptyDict;
    assert rfp.Repr() == Found(Int(3));

    var outcome := rfp.Set(HwTypeKey, Str("B"));
    assert outcome == Ok && Lookup(rfp.fields, HwTypeKey) == Found(Str("B"));

    outcome := rfp.Set(HwTypeLockedKey, Bool(true));
    assert outcome == Ok;

    outcome := rfp.Set(HwTypeKey, Str("C"));
    assert outcome == CannotChangeHardwareType;
    assert Lookup(rfp.fields, HwTypeKey) == Found(Str("B"));
    assert |rfp.changes.keys| == 2;
    assert rfp.changes.keys[0] == HwTypeKey && rfp.changes.keys[1] == HwTypeLockedKey;
  }
}
