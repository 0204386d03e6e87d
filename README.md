# RFP record of the OMM client, in Dafny

The OMM client keeps one `RFP` object per Radio Fixed Part of a SIP-DECT
installation. The object is a change-tracked record:

- Its fields live in the instance dictionary. Fifty declared field names read
  as `None` until they are stored. Any other unstored name fails.
- Every attribute assignment is recorded in the `_changes` dictionary, so the
  client can later send only what changed.
- One field, `hwType`, refuses to be re-written once the server's
  `hwTypeLocked` flag is stored as true.
- A bulk load (`_init_from_attributes`) installs a server snapshot straight
  into the fields. It records nothing and checks nothing.

The project has three files:

- `rfp.dfy` (module `RFP`) holds the data model and the specification
  functions. `Value` covers the field values (bool, int, str, enum tag,
  None). `OrderedDict` is an insertion-ordered dictionary, as Python's `dict`
  is. `Lookup` is the read path with its class defaults. `Guard` and `Write`
  describe one attribute assignment. `Loaded` describes a bulk load.
  `PutAll` and `RunWrites` describe runs of assignments, and `Accepted` picks
  out the assignments of a run that pass their guard. The module also holds
  the class `Rfp`, whose `fields` and `changes` its methods update in place.
  Each method is proved against those functions.
- `rfp_properties.dfy` (module `RFPProperties`) holds the properties: the
  three outcomes of a write, read-after-write, the contents and order of the
  change log after any run of writes, refused ones included, the bulk load bypassing the log and the lock, and the lock
  holding over any run of writes.
- `rfp_examples.dfy` (module `RFPExamples`) holds worked instances: the change
  log after writes to `a`, `b`, `a`, `c`, and a client that drives an `Rfp`
  through the `hwType` lock.

Points where the code behaves differently from what a reader might expect,
and where the model follows the code:

- Reading a declared field that was never stored yields `None` (the class
  default), not an error. Only undeclared names fail. `__repr__` therefore
  yields `None` for an `id` that was never stored.
- The code does not make the lock one-way. Storing false into `hwTypeLocked`
  is an ordinary write, and it re-opens `hwType` (`UnlockingReopensHwType`).
  The field's own documentation says the server never turns the flag from
  true back to false. `LockIsSticky` takes exactly that as its assumption.
- Re-writing a stored `hwType` when `hwTypeLocked` was never stored fails. The
  guard looks the flag up in the instance dictionary, bypassing the class
  default, so the lookup raises `KeyError`. The model keeps this as a third
  outcome, `MissingLockFlag`.
- The file has no operation that drains or clears the change log.

## Model

| member | source | states |
|---|---|---|
| `RFP.Rfp.constructor` | OMMClient/types/RFP.py:226-230 | keeps the client reference; the change log starts empty; the fields are empty, or hold the bulk load of the snapshot when one is given |
| `RFP.Rfp.Set` | OMMClient/types/RFP.py:238-243 | the outcome and new state are those of `Write`: when the guard passes, the log records the write and the field stores the value; otherwise nothing changes; the log stays well formed |
| `RFP.Rfp.InitFromAttributes` | OMMClient/types/RFP.py:245-247 | the loop leaves the fields equal to the bulk load of the pairs in order, and the change log exactly as it was |
| `RFP.Rfp.Repr` | OMMClient/types/RFP.py:232-233 | never fails: yields the stored `id`, or None when `id` was never stored |
| `RFP.OrderedDict.Put` | OMMClient/types/RFP.py:242 | the new values are the old ones with the key updated; every key already listed keeps its position; a key already present is not moved, a new key goes last |
| `RFP.OrderedDict.PutKeepsValid` | OMMClient/types/RFP.py:242 | after an assignment every key is still listed once, and listed exactly when it has a value |
| `RFP.FirstIndex` | OMMClient/types/RFP.py:242 | the position of the first write of a key in a run of writes: that write has the key and no earlier one does |
| `RFPProperties.ReadFallsBackToDeclaredDefault` | OMMClient/types/RFP.py:235-236 | a read fails exactly when the name is neither stored nor one of the declared fields (lines 172-221); a stored value shadows the class default; an unstored declared field reads as None |
| `RFPProperties.GuardNamesAreDeclared` | OMMClient/types/RFP.py:172-221 | `hwType`, `hwTypeLocked` and `id` are declared, so reading them never fails |
| `RFPProperties.ReadAfterWrite` | OMMClient/types/RFP.py:241-243 | after a successful write the name reads back the value and the log maps it to the value; every other name reads and is logged as before |
| `RFPProperties.OtherKeysAlwaysWritten` | OMMClient/types/RFP.py:238-243 | a write to any key other than `hwType`, `hwTypeLocked` included, succeeds and is both stored and logged |
| `RFPProperties.RejectedWriteChangesNothing` | OMMClient/types/RFP.py:239-240 | only a write of an already stored `hwType` can fail, and a failed write leaves the fields and the log unchanged |
| `RFPProperties.LockedHwTypeRejected` | OMMClient/types/RFP.py:239-240 | with `hwType` stored and `hwTypeLocked` stored as true, writing `hwType` fails with the hardware-type error and changes nothing |
| `RFPProperties.FirstHwTypeWriteAccepted` | OMMClient/types/RFP.py:239 | writing `hwType` when it was never stored succeeds whatever `hwTypeLocked` holds, and reads back |
| `RFPProperties.MissingLockFlagFails` | OMMClient/types/RFP.py:239 | writing a stored `hwType` when `hwTypeLocked` was never stored fails with the lookup error and changes nothing |
| `RFPProperties.UnlockedHwTypeRewritten` | OMMClient/types/RFP.py:239 | writing `hwType` succeeds when `hwTypeLocked` is stored with any value but true, and reads back |
| `RFPProperties.HwTypeOutcomes` | OMMClient/types/RFP.py:239-240 | a write of `hwType` gives the hardware-type error if and only if it is stored and locked, and the lookup error if and only if it is stored and the flag is not |
| `RFPProperties.WritePreservesLog` | OMMClient/types/RFP.py:242 | every write keeps the change log well formed |
| `RFPProperties.LoadedContents` | OMMClient/types/RFP.py:245-247 | after a bulk load the loaded keys are added to the fields; each takes the value of its last pair; every other field keeps its value |
| `RFPProperties.LoadedKeys` | OMMClient/types/RFP.py:245-247 | a bulk load stores exactly the old field names plus the keys loaded |
| `RFPProperties.LoadedLastWrite` | OMMClient/types/RFP.py:245-247 | a bulk load leaves each loaded key with the value of its last pair, so later pairs override earlier ones |
| `RFPProperties.LoadedUntouched` | OMMClient/types/RFP.py:245-247 | a bulk load leaves every field it does not load as it was |
| `RFPProperties.LoadBypassesLock` | OMMClient/types/RFP.py:245-247 | a bulk load overwrites a locked `hwType`, while a tracked write of the same value is refused |
| `RFPProperties.ReadAfterLoad` | OMMClient/types/RFP.py:245-247 | after a bulk load a name reads the value of its last pair |
| `RFPProperties.PutAllValues` | OMMClient/types/RFP.py:242 | the values logged by a run of writes are those a bulk load of the same pairs would install, and the log stays well formed |
| `RFPProperties.PutAllKeepsPositions` | OMMClient/types/RFP.py:242 | keys already in the log keep their positions whatever is written afterwards |
| `RFPProperties.ChangeLogOrder` | OMMClient/types/RFP.py:242 | starting from the empty log, a run of writes logs each written key exactly once, in the order of its first write, with the value of its last write |
| `RFPProperties.FirstWriteOrder` | OMMClient/types/RFP.py:242 | starting from the empty log, any two logged keys appear in the order of their first writes |
| `RFPProperties.UnguardedRun` | OMMClient/types/RFP.py:238-243 | a run of writes none of which targets `hwType` passes every guard: the fields end as a bulk load of the same pairs would leave them, and the log records every write |
| `RFPProperties.RunLog` | OMMClient/types/RFP.py:238-243 | any run of tracked writes, refused ones included, leaves the log as the accepted writes recorded in order on the old log, and the fields as the bulk load of the accepted writes |
| `RFPProperties.AcceptedWhenUnguarded` | OMMClient/types/RFP.py:239 | when no write of a run targets `hwType`, every write of the run is accepted |
| `RFPProperties.RunLogFromEmpty` | OMMClient/types/RFP.py:226-243 | for a record whose log starts empty, as the constructor leaves it, the log after any run of tracked writes is well formed, holds exactly the keys of the accepted writes, each with the value of its last accepted write, listed in the order of their first accepted writes |
| `RFPProperties.LockIsSticky` | OMMClient/types/RFP.py:239-240 | once `hwType` is stored and locked, no run of tracked writes changes it or unlocks it, as long as none of them stores anything but true in `hwTypeLocked` |
| `RFPProperties.UnlockingReopensHwType` | OMMClient/types/RFP.py:239-243 | storing false into a locked `hwTypeLocked` succeeds, and the next write of `hwType` succeeds too |
| `RFPExamples.PutAllSnoc` | OMMClient/types/RFP.py:242 | rewriting helper for the worked example: the log after one more write is that write put on the log before it |
| `RFPExamples.ChangeLogExample` | OMMClient/types/RFP.py:242 | writes to distinct keys `a`, `b`, `a`, `c` with values 1, 2, 3, 4 leave the log `{a: 3, b: 2, c: 4}` in the order `a`, `b`, `c` |

## Left out

- The class-level `threading.Lock` and the `with` block around the tracked write (lines 1, 224, 241): concurrency. Each write is one atomic sequential step.
- The client reference `_ommclient` (line 227): it is never interpreted here. It is carried as a value of a type parameter, `Client`.
- The meanings and value ranges of the fields (lines 5-171): the code documents them but never enforces them.
- Reads and writes of the internal names `_ommclient`, `_changes` and `_changelock`, which Python would route through the same hooks. The model treats those names as ordinary field names, so it differs from Python for them: a snapshot or a write that carries `_changes` or `_ommclient` is stored as a field in the model, while in Python it would replace the instance's own change log or client reference.
- Python's `1 == True` in the lock test: the model treats the flag as set only when the stored value is the boolean true.
- `__repr__` in Python must return a string, and the code returns whatever `id` holds. `Repr` yields the value read, with no conversion.
- The snapshot is modelled as the list of its `(key, value)` items in iteration order. A real dictionary has distinct keys. The model also accepts repeated keys, where the last pair wins.
- Draining or clearing the change log: no such operation exists in this file. The client reads `_changes` directly.
