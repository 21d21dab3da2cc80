/**
 * Batched data-manipulation statements: `DbBaseUpdate` with its subclass
 * `DbUpdate` (UPDATE ... SET ... WHERE ...), and `DbLoader` (INSERT INTO ...).
 *
 * Both keep one value holder per statement parameter, a map from field name to
 * holder, and a counter of the entries added to the pending batch: each submit
 * binds every holder to its slot, adds one entry, and executes the batch once it
 * is full; closing executes a partial batch.  The two classes share that machinery
 * here as a `Batcher`.
 */
module Updates {

  import opened Wrappers
  import opened Strings
  import opened DbTypes
  import opened Holders
  import opened Adapters
  import opened SqlBuffers
  import opened Tables
  import opened Driver
  import opened Connections

  /** `MAX_BATCH_SIZE` of `DbBaseUpdate` and of `DbLoader`. */
  const MaxBatchSize: nat := 100

  /** The words the two classes use for their statement in a missing-field message. */
  const UpdateScope: string := "statement"
  const LoaderScope: string := "query"

  datatype Batcher = Batcher(
    parms: seq<Holder>,        // holder i serves parameter slot i + 1
    slots: map<string, nat>,   // field name -> holder index
    prepared: bool,            // a statement has been created
    count: nat,                // entries in the pending batch
    size: nat)                 // entries per batch

  predicate Consistent(b: Batcher) {
    && 1 <= b.size && b.count < b.size
    && forall f :: f in b.slots ==> b.slots[f] < |b.parms|
  }

  /** `init`: no parameters, no statement, an empty batch. */
  function Empty(size: nat): (b: Batcher)
    requires 1 <= size
    ensures Consistent(b) && b.size == size
    ensures b.parms == [] && b.slots == map[] && !b.prepared && b.count == 0
  {
    Batcher([], map[], false, 0, size)
  }

  // ---------------------------------------------------------------------
  // Parameters
  // ---------------------------------------------------------------------

  /** `addParm` for a field of known type: a fresh holder at the next index, mapped from the name. */
  function AddHolder(b: Batcher, f: Field): (r: Batcher)
    ensures r == b.(parms := b.parms + [Create(f.dbType)], slots := b.slots[f.name := |b.parms|])
  {
    b.(parms := b.parms + [Create(f.dbType)], slots := b.slots[f.name := |b.parms|])
  }

  /** Field `i` is the last one of its name. */
  predicate LastOf(fs: seq<Field>, i: nat)
    requires i < |fs|
  {
    forall j :: i < j < |fs| ==> fs[j].name != fs[i].name
  }

  /** A fresh holder of each field's type, in order. */
  function Creates(fs: seq<Field>): (hs: seq<Holder>)
    ensures |hs| == |fs| && forall i :: 0 <= i < |fs| ==> hs[i] == Create(fs[i].dbType)
  {
    seq(|fs|, i requires 0 <= i < |fs| => Create(fs[i].dbType))
  }

  /** `addParm` for each field in turn: one fresh holder per field, in order, after the existing ones. */
  function AddAll(b: Batcher, fs: seq<Field>): (r: Batcher)
    ensures r == b.(parms := b.parms + Creates(fs), slots := r.slots)
    decreases |fs|
  {
    if |fs| == 0 then
      assert b.parms + Creates(fs) == b.parms;
      b
    else
      assert Creates(fs) == [Create(fs[0].dbType)] + Creates(fs[1..]);
      Associative(b.parms, [Create(fs[0].dbType)], Creates(fs[1..]));
      AddAll(AddHolder(b, fs[0]), fs[1..])
  }

  /** After `addParm` for each field, a name given more than once maps to its newest holder. */
  lemma {:induction false} AddAllLast(b: Batcher, fs: seq<Field>)
    ensures forall i :: 0 <= i < |fs| && LastOf(fs, i) ==>
      fs[i].name in AddAll(b, fs).slots && AddAll(b, fs).slots[fs[i].name] == |b.parms| + i
    decreases |fs|
  {
    if |fs| > 0 {
      var b1 := AddHolder(b, fs[0]);
      var r := AddAll(b1, fs[1..]);
      assert r == AddAll(b, fs);
      AddAllLast(b1, fs[1..]);
      AddAllOthers(b1, fs[1..]);
      assert LastOf(fs, 0) ==> fs[0].name !in Names(fs[1..]) by {
        if LastOf(fs, 0) {
          forall i | 0 <= i < |fs[1..]| ensures Names(fs[1..])[i] != fs[0].name {
            assert fs[1..][i] == fs[i + 1];
          }
        }
      }
      forall i | 1 <= i < |fs| && LastOf(fs, i)
        ensures fs[i].name in r.slots && r.slots[fs[i].name] == |b.parms| + i
      {
        forall j | i - 1 < j < |fs[1..]|
          ensures fs[1..][j].name != fs[1..][i - 1].name
        {
          assert fs[1..][j] == fs[j + 1];
        }
        assert LastOf(fs[1..], i - 1);
        assert fs[1..][i - 1] == fs[i];
      }
    }
  }

  /** `addParm` for each field leaves the names not given as they were. */
  lemma {:induction false} AddAllOthers(b: Batcher, fs: seq<Field>)
    ensures forall f :: f !in Names(fs) ==>
      (f in AddAll(b, fs).slots <==> f in b.slots) && (f in b.slots ==> AddAll(b, fs).slots[f] == b.slots[f])
    decreases |fs|
  {
    if |fs| > 0 {
      var b1 := AddHolder(b, fs[0]);
      assert AddAll(b1, fs[1..]) == AddAll(b, fs);
      AddAllOthers(b1, fs[1..]);
      forall f | f !in Names(fs) ensures f !in Names(fs[1..]) && f != fs[0].name {
        assert Names(fs)[0] == fs[0].name;
        forall i | 0 <= i < |fs[1..]| ensures Names(fs[1..])[i] != f {
          assert Names(fs[1..])[i] == Names(fs)[i + 1];
        }
      }
    }
  }

  /** `addParm` for each field keeps every name mapped to an existing holder. */
  lemma {:induction false} AddAllConsistent(b: Batcher, fs: seq<Field>)
    requires Consistent(b)
    ensures Consistent(AddAll(b, fs))
    decreases |fs|
  {
    if |fs| > 0 {
      var b1 := AddHolder(b, fs[0]);
      assert AddAll(b1, fs[1..]) == AddAll(b, fs);
      AddAllConsistent(b1, fs[1..]);
    }
  }

  /** The fields of a strictly sorted field list are each the last of their name. */
  lemma {:induction false} SortedLast(fs: seq<Field>)
    requires StrictlySorted(Names(fs))
    ensures forall i :: 0 <= i < |fs| ==> LastOf(fs, i)
  {
    forall i, j | 0 <= i < j < |fs|
      ensures fs[j].name != fs[i].name
    {
      assert Less(Names(fs)[i], Names(fs)[j]);
      LessIrreflexive(fs[i].name);
    }
  }

  // ---------------------------------------------------------------------
  // Submitting and closing
  // ---------------------------------------------------------------------

  /**
   * `submit` / `insert`: bind every holder to its slot, add one batch entry, and
   * execute the batch when it is full.  The holders keep their values.
   */
  function Submit(c: Conn, b: Batcher): (r: (Conn, Batcher))
    requires Consistent(b) && b.prepared
    ensures Consistent(r.1) && r.1 == b.(count := r.1.count)
    ensures r.0 == c.(trace := r.0.trace)
    ensures b.count + 1 == b.size ==> r.1.count == 0
    ensures b.count + 1 < b.size ==> r.1.count == b.count + 1
  {
    var c1 := c.(trace := c.trace + Binds(b.parms) + [AddBatch]);
    if b.count + 1 >= b.size then (c1.(trace := c1.trace + [ExecuteBatch]), b.(count := 0))
    else (c1, b.(count := b.count + 1))
  }

  /** What a submit sends: every holder bound to its slot, one batch entry, and the batch when it is full. */
  lemma {:induction false} SubmitTrace(c: Conn, b: Batcher)
    requires Consistent(b) && b.prepared
    ensures b.count + 1 == b.size ==> Submit(c, b).0.trace == c.trace + Binds(b.parms) + [AddBatch, ExecuteBatch]
    ensures b.count + 1 < b.size ==> Submit(c, b).0.trace == c.trace + Binds(b.parms) + [AddBatch]
  {
  }

  /** `n` submits in a row. */
  function Submits(c: Conn, b: Batcher, n: nat): (r: (Conn, Batcher))
    requires Consistent(b) && b.prepared
    ensures Consistent(r.1) && r.1 == b.(count := r.1.count)
    ensures r.0 == c.(trace := r.0.trace)
    decreases n
  {
    if n == 0 then (c, b) else var s := Submit(c, b); Submits(s.0, s.1, n - 1)
  }

  /** One submit flushes exactly when it fills the batch. */
  lemma {:induction false} SubmitFlushes(c: Conn, b: Batcher)
    requires Consistent(b) && b.prepared
    ensures Flushes(Submit(c, b).0.trace) == Flushes(c.trace) + (if b.count + 1 == b.size then 1 else 0)
  {
    var (c1, b1) := Submit(c, b);
    SubmitTrace(c, b);
    BindsNoFlush(b.parms);
    NoFlushes([AddBatch]);
    FlushesConcat(c.trace, Binds(b.parms));
    FlushesConcat(c.trace + Binds(b.parms), [AddBatch]);
    if b.count + 1 == b.size {
      assert Flushes([ExecuteBatch]) == Flushes([ExecuteBatch][..0]) + 1;
      FlushesConcat(c.trace + Binds(b.parms) + [AddBatch], [ExecuteBatch]);
    } else {
      assert c1.trace == c.trace + Binds(b.parms) + [AddBatch];
    }
  }

  /**
   * The batch counter alone: after `n` submits starting from `count` pending entries,
   * how many batches were executed and how many entries are pending.
   */
  function Counted(count: nat, size: nat, n: nat): (r: (nat, nat))
    decreases n
  {
    if n == 0 then (0, count)
    else
      var next := Counted(if count + 1 >= size then 0 else count + 1, size, n - 1);
      (next.0 + (if count + 1 >= size then 1 else 0), next.1)
  }

  /** `n` submits execute and leave pending what the counter alone predicts. */
  lemma {:induction false} SubmitsCounted(c: Conn, b: Batcher, n: nat)
    requires Consistent(b) && b.prepared
    ensures Flushes(Submits(c, b, n).0.trace) == Flushes(c.trace) + Counted(b.count, b.size, n).0
    ensures Submits(c, b, n).1.count == Counted(b.count, b.size, n).1
    decreases n
  {
    if n > 0 {
      var s := Submit(c, b);
      SubmitFlushes(c, b);
      SubmitsCounted(s.0, s.1, n - 1);
      SubmitsUnfold(c, b, n);
    }
  }

  /** The counter accounts for every entry and keeps fewer than `size` pending. */
  lemma {:induction false} CountedEntries(count: nat, size: nat, n: nat)
    requires count < size
    ensures Counted(count, size, n).1 < size
    ensures Entries(Counted(count, size, n).0, size, Counted(count, size, n).1) == count + n
    decreases n
  {
    if n > 0 {
      var k := if count + 1 >= size then 0 else count + 1;
      CountedEntries(k, size, n - 1);
      var next := Counted(k, size, n - 1);
      if count + 1 >= size {
        assert Entries(next.0 + 1, size, next.1) == size + Entries(next.0, size, next.1);
      }
    }
  }

  /**
   * After `n` submits, the batches executed and the entries still pending account
   * for every entry: `flushes * size + pending == pending before + n`, with fewer
   * than `size` pending, so `flushes` is the quotient and `pending` the remainder.
   */
  lemma {:induction false} SubmitsFlush(c: Conn, b: Batcher, n: nat)
    requires Consistent(b) && b.prepared
    ensures Flushes(Submits(c, b, n).0.trace) >= Flushes(c.trace)
    ensures Entries(Flushes(Submits(c, b, n).0.trace) - Flushes(c.trace), b.size, Submits(c, b, n).1.count) == b.count + n
  {
    SubmitsCounted(c, b, n);
    CountedEntries(b.count, b.size, n);
  }

  /** The entries accounted for by `flushes` full batches of `size` and `pending` more. */
  function Entries(flushes: int, size: int, pending: int): int
    decreases flushes
  {
    if flushes <= 0 then pending else size + Entries(flushes - 1, size, pending)
  }

  /** `flushes` full batches of `size` and `pending` more are `flushes * size + pending` entries. */
  lemma {:induction false} EntriesValue(flushes: int, size: int, pending: int)
    requires flushes >= 0
    ensures Entries(flushes, size, pending) == flushes * size + pending
    decreases flushes
  {
    if flushes > 0 {
      EntriesValue(flushes - 1, size, pending);
      assert flushes * size == (flushes - 1) * size + size;
    }
  }

  lemma {:induction false} SubmitsUnfold(c: Conn, b: Batcher, n: nat)
    requires Consistent(b) && b.prepared && n > 0
    ensures Submits(c, b, n) == Submits(Submit(c, b).0, Submit(c, b).1, n - 1)
  {
  }

  /** `close`: execute a pending partial batch, then close the statement if there is one. */
  function CloseBatcher(c: Conn, b: Batcher): (r: (Conn, Batcher))
    ensures r.1 == b.(count := 0)
    ensures r.0 == c.(trace := r.0.trace)
    ensures r.0.trace == c.trace + (if b.count > 0 then [ExecuteBatch] else []) + (if b.prepared then [CloseStatement] else [])
    ensures Flushes(r.0.trace) == Flushes(c.trace) + (if b.count > 0 then 1 else 0)
  {
    var flushed := if b.count > 0 then [ExecuteBatch] else [];
    var closed := if b.prepared then [CloseStatement] else [];
    assert Flushes([ExecuteBatch]) == Flushes([ExecuteBatch][..0]) + 1;
    NoFlushes(closed);
    FlushesConcat(c.trace, flushed);
    FlushesConcat(c.trace + flushed, closed);
    (c.(trace := c.trace + flushed + closed), b.(count := 0))
  }

  /**
   * Every submitted entry is executed by the time the statement is closed: `n`
   * submits from an empty batch followed by `close` execute ceil(n / size) batches,
   * the fewest that hold `n` entries.
   */
  lemma {:induction false} AllEntriesExecuted(c: Conn, b: Batcher, n: nat)
    requires Consistent(b) && b.prepared && b.count == 0
    ensures var r := Submits(c, b, n);
      IsCeiling(Flushes(CloseBatcher(r.0, r.1).0.trace) - Flushes(c.trace), n, b.size)
  {
    SubmitsFlush(c, b, n);
    var r := Submits(c, b, n);
    var closed := CloseBatcher(r.0, r.1);
    CeilingStep(Flushes(r.0.trace) - Flushes(c.trace), Flushes(closed.0.trace) - Flushes(c.trace), b.size, r.1.count, n);
  }

  /** `k` batches of `size` are the fewest that hold `n` entries: `k` is ceil(n / size). */
  predicate IsCeiling(k: int, n: int, size: int) {
    k >= 0 && n <= k * size && (k == 0 || (k - 1) * size < n)
  }

  /** With `f` full batches and `p` pending entries, one more batch when `p > 0` is the ceiling. */
  lemma {:induction false} CeilingStep(f: int, k: int, size: int, p: int, n: int)
    requires f >= 0 && 0 <= p < size && Entries(f, size, p) == n
    requires k == f + (if p > 0 then 1 else 0)
    ensures IsCeiling(k, n, size)
  {
    EntriesValue(f, size, p);
    if p > 0 {
      assert k * size == f * size + size;
    }
  }

  // ---------------------------------------------------------------------
  // Setting values
  // ---------------------------------------------------------------------

  function MissingField(field: string, scope: string): Error {
    SqlError("Field " + field + " does not exist in " + scope + ".")
  }

  function WrongHolder(field: string, t: DbType): Error {
    SqlError("Field " + field + " in query is not a " + HolderClass(t) + ".")
  }

  /**
   * `getField(field, class)`: the index of the field's holder.  `kind` is the
   * holder type the caller needs, `None` for any holder (`DbValue.class`).
   */
  function Slot(b: Batcher, field: string, kind: Option<DbType>, scope: string): (r: Result<nat>)
    requires Consistent(b)
    ensures r.Ok? <==> field in b.slots && (kind.None? || Kind(b.parms[b.slots[field]]) == kind.value)
    ensures r.Ok? ==> r.value == b.slots[field] && r.value < |b.parms|
    ensures field !in b.slots ==> r == Fail(MissingField(field, scope))
    ensures (field in b.slots && kind.Some? && Kind(b.parms[b.slots[field]]) != kind.value) ==>
      r == Fail(WrongHolder(field, kind.value))
  {
    if field !in b.slots then Fail(MissingField(field, scope))
    else
      var k := b.slots[field];
      if kind.Some? && Kind(b.parms[k]) != kind.value then Fail(WrongHolder(field, kind.value))
      else Ok(k)
  }

  /**
   * The typed `set(field, value)` overloads, as written: the value goes into the
   * field's holder through the holder's own `set`, which for a boolean leaves the
   * null flag as it was.
   */
  function Set(b: Batcher, field: string, p: Payload, scope: string): (r: Result<Batcher>)
    requires Consistent(b)
    ensures r.Ok? <==> field in b.slots && Kind(b.parms[b.slots[field]]) == KindOf(p)
    ensures r.Fail? ==> r.error == Slot(b, field, Some(KindOf(p)), scope).error
    ensures r.Ok? ==> Consistent(r.value) && r.value == b.(parms := r.value.parms) && |r.value.parms| == |b.parms|
    ensures r.Ok? ==> forall i :: 0 <= i < |b.parms| && i != b.slots[field] ==> r.value.parms[i] == b.parms[i]
    ensures r.Ok? ==> r.value.parms[b.slots[field]] == SetValueAsWritten(b.parms[b.slots[field]], p)
  {
    var k :- Slot(b, field, Some(KindOf(p)), scope);
    Ok(b.(parms := b.parms[k := SetValueAsWritten(b.parms[k], p)]))
  }

  /** The `set` overloads as evidently intended: the holder takes the value and is no longer null. */
  function SetCorrected(b: Batcher, field: string, p: Payload, scope: string): (r: Result<Batcher>)
    requires Consistent(b)
    ensures r.Ok? <==> field in b.slots && Kind(b.parms[b.slots[field]]) == KindOf(p)
    ensures r.Fail? ==> r.error == Slot(b, field, Some(KindOf(p)), scope).error
    ensures r.Ok? ==> Consistent(r.value) && r.value == b.(parms := r.value.parms) && |r.value.parms| == |b.parms|
    ensures r.Ok? ==> forall i :: 0 <= i < |b.parms| && i != b.slots[field] ==> r.value.parms[i] == b.parms[i]
    ensures r.Ok? ==> r.value.parms[b.slots[field]] == SetValue(b.parms[b.slots[field]], p)
  {
    var k :- Slot(b, field, Some(KindOf(p)), scope);
    Ok(b.(parms := b.parms[k := SetValue(b.parms[k], p)]))
  }

  /** `setNull(field)`: any holder can be set to null. */
  function SetNullField(b: Batcher, field: string, scope: string): (r: Result<Batcher>)
    requires Consistent(b)
    ensures r.Ok? <==> field in b.slots
    ensures r.Fail? ==> r.error == MissingField(field, scope)
    ensures r.Ok? ==> Consistent(r.value) && r.value == b.(parms := r.value.parms) && |r.value.parms| == |b.parms|
    ensures r.Ok? ==> forall i :: 0 <= i < |b.parms| && i != b.slots[field] ==> r.value.parms[i] == b.parms[i]
    ensures r.Ok? ==> r.value.parms[b.slots[field]] == SetNull(b.parms[b.slots[field]])
  {
    var k :- Slot(b, field, None, scope);
    Ok(b.(parms := b.parms[k := SetNull(b.parms[k])]))
  }

  /**
   * As written, a value set in a field is what the next submit binds at the field's
   * slot, except that a boolean field once set null keeps binding NULL.
   */
  lemma {:induction false} SetThenSubmitAsWritten(c: Conn, b: Batcher, field: string, p: Payload, scope: string)
    requires Consistent(b) && b.prepared
    requires Set(b, field, p, scope).Ok?
    ensures var t := Submit(c, Set(b, field, p, scope).value).0.trace;
      var k := b.slots[field];
      && |c.trace| + k < |t|
      && (!p.BooleanValue? || !b.parms[k].isNull ==> t[|c.trace| + k] == Bound(Store(Holder(p, false), k + 1)))
      && (p.BooleanValue? && b.parms[k].isNull ==> t[|c.trace| + k] == Bound(SetSqlNull(k + 1, Boolean)))
  {
    SubmitBinds(c, Set(b, field, p, scope).value);
  }

  /** As written, `setNull` on a boolean field and then `set` of either value still binds NULL. */
  lemma {:induction false} BooleanNullSticks(c: Conn, b: Batcher, field: string, v: bool, scope: string)
    requires Consistent(b) && b.prepared
    requires field in b.slots && Kind(b.parms[b.slots[field]]) == Boolean
    ensures SetNullField(b, field, scope).Ok?
    ensures Set(SetNullField(b, field, scope).value, field, BooleanValue(v), scope).Ok?
    ensures var t := Submit(c, Set(SetNullField(b, field, scope).value, field, BooleanValue(v), scope).value).0.trace;
      var k := b.slots[field];
      |c.trace| + k < |t| && t[|c.trace| + k] == Bound(SetSqlNull(k + 1, Boolean))
  {
    var b1 := SetNullField(b, field, scope).value;
    SetThenSubmitAsWritten(c, b1, field, BooleanValue(v), scope);
  }

  /** With the corrected `set`, a value set in a field is what the next submit binds at the field's slot. */
  lemma {:induction false} SetThenSubmit(c: Conn, b: Batcher, field: string, p: Payload, scope: string)
    requires Consistent(b) && b.prepared
    requires SetCorrected(b, field, p, scope).Ok?
    ensures var t := Submit(c, SetCorrected(b, field, p, scope).value).0.trace;
      var k := b.slots[field];
      |c.trace| + k < |t| && t[|c.trace| + k] == Bound(Store(Holder(p, false), k + 1))
  {
    var b1 := SetCorrected(b, field, p, scope).value;
    var k := b.slots[field];
    SubmitBinds(c, b1);
    SetThenStore(b.parms[k], p, k + 1);
  }

  /** Setting one field leaves what the next submit binds at every other slot as it was. */
  lemma {:induction false} SetKeepsOthers(c: Conn, b: Batcher, field: string, p: Payload, scope: string)
    requires Consistent(b) && b.prepared
    requires Set(b, field, p, scope).Ok?
    ensures var t := Submit(c, Set(b, field, p, scope).value).0.trace;
      forall i :: 0 <= i < |b.parms| && i != b.slots[field] ==>
        |c.trace| + i < |t| && t[|c.trace| + i] == Binds(b.parms)[i]
  {
    var b1 := Set(b, field, p, scope).value;
    SubmitBinds(c, b1);
    var t := Submit(c, b1).0.trace;
    forall i | 0 <= i < |b.parms| && i != b.slots[field]
      ensures |c.trace| + i < |t| && t[|c.trace| + i] == Binds(b.parms)[i]
    {
      assert b1.parms[i] == b.parms[i];
    }
  }

  /** A submit binds holder `i` right after the events before it. */
  lemma {:induction false} SubmitBinds(c: Conn, b: Batcher)
    requires Consistent(b) && b.prepared
    ensures var t := Submit(c, b).0.trace;
      forall i :: 0 <= i < |b.parms| ==> |c.trace| + i < |t| && t[|c.trace| + i] == Bound(Store(b.parms[i], i + 1))
  {
    SubmitTrace(c, b);
    var after: seq<Event> := if b.count + 1 == b.size then [AddBatch, ExecuteBatch] else [AddBatch];
    BindsAt(c.trace, b.parms, after, Submit(c, b).0.trace);
  }

  /** Inside a trace, the binds of a submit sit right after what came before. */
  lemma {:induction false} BindsAt(before: seq<Event>, hs: seq<Holder>, after: seq<Event>, t: seq<Event>)
    requires t == before + Binds(hs) + after
    ensures forall i :: 0 <= i < |hs| ==> |before| + i < |t| && t[|before| + i] == Bound(Store(hs[i], i + 1))
  {
  }

  /** A value not set again is bound again: submits never reset a holder. */
  lemma {:induction false} ValuesPersist(c: Conn, b: Batcher, n: nat)
    requires Consistent(b) && b.prepared
    ensures Submits(c, b, n).1.parms == b.parms
  {
  }

  // ---------------------------------------------------------------------
  // DbUpdate
  // ---------------------------------------------------------------------

  datatype Update = Update(
    conn: Conn,
    table: Table,
    batch: Batcher,
    filters: seq<string>,   // the WHERE fields, a sorted set
    changes: seq<string>,   // the SET fields, a sorted set
    created: bool)          // `createStatement` has completed

  predicate UpdateValid(u: Update) {
    Consistent(u.batch) && StrictlySorted(u.filters) && StrictlySorted(u.changes) && (u.created ==> u.batch.prepared)
  }

  /**
   * The `DbUpdate` constructor: look the table up and start with no fields, no
   * parameters and no statement.  A table the database does not have is a null
   * descriptor, which the constructor dereferences.
   */
  function NewUpdate(c: Conn, schema: string -> Metadata, tName: string, size: nat): (r: (Conn, Result<Update>))
    requires 1 <= size
    ensures r.0 == GetTable(c, schema, tName).0
    ensures GetTable(c, schema, tName).1.Fail? ==> r.1 == Fail(GetTable(c, schema, tName).1.error)
    ensures GetTable(c, schema, tName).1 == Ok(None) ==> r.1 == Fail(NullPointer)
    ensures GetTable(c, schema, tName).1.Ok? && GetTable(c, schema, tName).1.value.Some? ==> r.1.Ok?
    ensures r.1.Ok? ==> (
      && GetTable(c, schema, tName).1 == Ok(Some(r.1.value.table))
      && r.1.value == Update(r.0, r.1.value.table, Empty(size), [], [], false)
      && UpdateValid(r.1.value))
  {
    var (c1, found) := GetTable(c, schema, tName);
    match found
    case Fail(e) => (c1, Fail(e))
    case Ok(None) => (c1, Fail(NullPointer))
    case Ok(Some(t)) => (c1, Ok(Update(c1, t, Empty(size), [], [], false)))
  }

  /** `DbUpdate.single`: every update is executed as it is submitted. */
  function SingleUpdate(c: Conn, schema: string -> Metadata, tName: string): (r: (Conn, Result<Update>))
    ensures r.1.Ok? ==> r.1.value.batch.size == 1
    ensures r == NewUpdate(c, schema, tName, 1)
  {
    NewUpdate(c, schema, tName, 1)
  }

  /** `DbUpdate.batch`: updates are executed a hundred at a time. */
  function BatchUpdate(c: Conn, schema: string -> Metadata, tName: string): (r: (Conn, Result<Update>))
    ensures r.1.Ok? ==> r.1.value.batch.size == MaxBatchSize
    ensures r == NewUpdate(c, schema, tName, MaxBatchSize)
  {
    NewUpdate(c, schema, tName, MaxBatchSize)
  }

  /** `change(fields...)`: add fields to the sorted set of fields to update. */
  function Change(u: Update, fields: seq<string>): (r: Update)
    requires UpdateValid(u)
    ensures UpdateValid(r) && r == u.(changes := r.changes)
    ensures forall f :: f in r.changes <==> f in u.changes || f in fields
  {
    u.(changes := InsertAll(u.changes, fields))
  }

  /** `filter(fields...)`: add fields to the sorted set of filtering fields. */
  function Filter(u: Update, fields: seq<string>): (r: Update)
    requires UpdateValid(u)
    ensures UpdateValid(r) && r == u.(filters := r.filters)
    ensures forall f :: f in r.filters <==> f in u.filters || f in fields
  {
    u.(filters := InsertAll(u.filters, fields))
  }

  /**
   * The field sets are sets: the order the names are given in and repetitions make
   * no difference, and adding names already present changes nothing.
   */
  lemma {:induction false} FieldSetsIgnoreOrder(u: Update, a: seq<string>, b: seq<string>)
    requires UpdateValid(u)
    requires forall f :: f in a <==> f in b
    ensures Change(u, a) == Change(u, b) && Filter(u, a) == Filter(u, b)
    ensures Change(Change(u, a), b) == Change(u, a) && Filter(Filter(u, a), b) == Filter(u, a)
  {
    SortedUnique(Change(u, a).changes, Change(u, b).changes);
    SortedUnique(Filter(u, a).filters, Filter(u, b).filters);
    SortedUnique(Change(Change(u, a), b).changes, Change(u, a).changes);
    SortedUnique(Filter(Filter(u, a), b).filters, Filter(u, a).filters);
  }

  function NoKey(table: string): Error {
    SqlError("Cannot use primary key filtering on table " + table + ", which has no primary key.")
  }

  /** `primaryKey()`: replace the filters by the primary key; without a key the filters are still cleared. */
  function PrimaryKey(u: Update): (r: (Update, Outcome))
    requires UpdateValid(u)
    ensures UpdateValid(r.0) && r.0 == u.(filters := r.0.filters)
    ensures r.1.Failed? <==> u.table.keyName.None?
    ensures r.1.Failed? ==> r.1.error == NoKey(u.table.name) && r.0.filters == []
    ensures r.1.Pass? ==> r.0.filters == [u.table.keyName.value]
  {
    var cleared := u.(filters := []);
    match u.table.keyName
    case None => (cleared, Failed(NoKey(u.table.name)))
    case Some(k) => (cleared.(filters := [k]), Pass)
  }

  /** The descriptors of fields all present in the table, in the order named. */
  function FieldsOf(t: Table, names: seq<string>): (fs: seq<Field>)
    requires forall i :: 0 <= i < |names| ==> names[i] in t.fields
    ensures |fs| == |names| && forall i :: 0 <= i < |names| ==> fs[i] == t.fields[names[i]]
  {
    seq(|names|, i requires 0 <= i < |names| => t.fields[names[i]])
  }

  /** The first name the table does not have, if any. */
  predicate FirstMissing(t: Table, names: seq<string>, k: nat) {
    k < |names| && names[k] !in t.fields && forall i :: 0 <= i < k ==> names[i] in t.fields
  }

  /**
   * `addParm` for each name in turn.  A name the table lacks has a null descriptor,
   * so the call fails there, keeping the holders added for the names before it.
   */
  function AddParms(u: Update, names: seq<string>): (r: (Update, Outcome))
    requires Consistent(u.batch)
    ensures r.0 == u.(batch := r.0.batch)
    ensures r.1.Pass? <==> forall i :: 0 <= i < |names| ==> names[i] in u.table.fields
    ensures r.1.Pass? ==> r.0.batch == AddAll(u.batch, FieldsOf(u.table, names))
    ensures Consistent(r.0.batch)
    ensures r.1.Failed? ==> r.1.error == NullPointer && exists k: nat ::
      FirstMissing(u.table, names, k) && r.0.batch == AddAll(u.batch, FieldsOf(u.table, names[..k]))
    decreases |names|
  {
    if |names| == 0 then
      assert AddAll(u.batch, FieldsOf(u.table, names)) == u.batch;
      (u, Pass)
    else match GetField(u.table, names[0])
      case None =>
        assert FirstMissing(u.table, names, 0) && names[..0] == [];
        (u, Failed(NullPointer))
      case Some(f) =>
        var u1 := u.(batch := AddHolder(u.batch, f));
        AddAllConsistent(u.batch, [f]);
        var r := AddParms(u1, names[1..]);
        AddParmsStep(u, names, f, r.0.batch, r.1);
        r
  }

  /** How one `addParm` and the calls after it make up the calls on the whole list. */
  lemma {:induction false} AddParmsStep(u: Update, names: seq<string>, f: Field, after: Batcher, o: Outcome)
    requires |names| > 0 && GetField(u.table, names[0]) == Some(f)
    requires var b1 := AddHolder(u.batch, f);
      && (o.Pass? <==> forall i :: 0 <= i < |names[1..]| ==> names[1..][i] in u.table.fields)
      && (o.Pass? ==> after == AddAll(b1, FieldsOf(u.table, names[1..])))
      && (o.Failed? ==> exists k: nat ::
            FirstMissing(u.table, names[1..], k) && after == AddAll(b1, FieldsOf(u.table, names[1..][..k])))
    ensures o.Pass? <==> forall i :: 0 <= i < |names| ==> names[i] in u.table.fields
    ensures o.Pass? ==> after == AddAll(u.batch, FieldsOf(u.table, names))
    ensures o.Failed? ==> exists k: nat ::
      FirstMissing(u.table, names, k) && after == AddAll(u.batch, FieldsOf(u.table, names[..k]))
  {
    assert forall i :: 1 <= i < |names| ==> names[i] == names[1..][i - 1];
    if o.Pass? {
      AddAllHead(u.table, u.batch, names, f);
    } else {
      var k: nat :| FirstMissing(u.table, names[1..], k)
        && after == AddAll(AddHolder(u.batch, f), FieldsOf(u.table, names[1..][..k]));
      assert names[..k + 1][1..] == names[1..][..k];
      AddAllHead(u.table, u.batch, names[..k + 1], f);
      assert FirstMissing(u.table, names, k + 1);
    }
  }

  /** Adding the first named field, then the rest, adds them all. */
  lemma {:induction false} AddAllHead(t: Table, b: Batcher, names: seq<string>, f: Field)
    requires |names| > 0 && GetField(t, names[0]) == Some(f)
    requires forall i :: 1 <= i < |names| ==> names[i] in t.fields
    ensures forall i :: 0 <= i < |names[1..]| ==> names[1..][i] in t.fields
    ensures AddAll(b, FieldsOf(t, names)) == AddAll(AddHolder(b, f), FieldsOf(t, names[1..]))
  {
    var fs := FieldsOf(t, names);
    assert fs[1..] == FieldsOf(t, names[1..]);
  }

  /** One `"field = ?"` entry per name. */
  function AssignTexts(e: Engine, names: seq<string>): (items: seq<string>)
    ensures |items| == |names| && forall i :: 0 <= i < |names| ==> items[i] == Quote(e, names[i]) + " = ?"
  {
    seq(|names|, i requires 0 <= i < |names| => Quote(e, names[i]) + " = ?")
  }

  /** A list's text does not depend on the mark count it starts from. */
  lemma {:induction false} ItemsIgnoreMarks(b: SqlBuffer, m: nat, items: seq<string>)
    ensures AppendItems(b.(marks := m), items) == AppendItems(b, items).(marks := m)
    decreases |items|
  {
    if |items| > 0 {
      var b1 := Append(AppendDelim(b), items[0]);
      assert Append(AppendDelim(b.(marks := m)), items[0]) == b1.(marks := m);
      ItemsIgnoreMarks(b1, m, items[1..]);
    }
  }

  /** `appendDelim().quote(field).append(" = ").appendMark()` for each name. */
  function Assigns(b: SqlBuffer, names: seq<string>): (r: SqlBuffer)
    ensures r == AppendItems(b, AssignTexts(b.engine, names)).(marks := b.marks + |names|)
    decreases |names|
  {
    if |names| == 0 then b
    else
      var b1 := AppendMark(Append(QuoteName(AppendDelim(b), names[0]), " = "));
      var r := Assigns(b1, names[1..]);
      var items := AssignTexts(b.engine, names);
      assert items[1..] == AssignTexts(b.engine, names[1..]);
      var a1 := Append(AppendDelim(b), items[0]);
      assert b1 == a1.(marks := b.marks + 1);
      ItemsIgnoreMarks(a1, b.marks + 1, items[1..]);
      ItemsIgnoreMarks(AppendItems(a1, items[1..]), b.marks + |names|, []);
      r
  }

  /** The text of a list of assignments, as `Assigns` writes it from a list start. */
  lemma {:induction false} AssignList(b: SqlBuffer, d: string, names: seq<string>)
    ensures Assigns(StartList(b, d), names).text == b.text + Join(AssignTexts(b.engine, names), d)
    ensures Assigns(StartList(b, d), names).marks == b.marks + |names|
  {
    if |names| > 0 {
      DelimitedList(b, d, AssignTexts(b.engine, names));
    }
  }

  /** The UPDATE statement `createStatement` builds. */
  function UpdateStatement(e: Engine, table: string, changes: seq<string>, filters: seq<string>): (b: SqlBuffer)
    ensures b.marks == |changes| + |filters|
    ensures b.text == "UPDATE " + Quote(e, table) + " SET " + Join(AssignTexts(e, changes), ", ")
      + (if |filters| > 0 then " WHERE " + Join(AssignTexts(e, filters), " AND ") else "")
  {
    var head := Append(QuoteName(Append(New(e), "UPDATE "), table), " SET ");
    assert "" + "UPDATE " == "UPDATE ";
    AssignList(head, DefaultDelim, changes);
    var b1 := Assigns(StartList(head, DefaultDelim), changes);
    if |filters| == 0 then
      assert b1.text + "" == b1.text;
      b1
    else
      var w := Append(b1, " WHERE ");
      AssignList(w, " AND ", filters);
      Associative(b1.text, " WHERE ", Join(AssignTexts(e, filters), " AND "));
      Assigns(StartList(w, " AND "), filters)
  }

  /**
   * `createStatement()`: one holder per SET field, then one per filter field, and
   * the statement prepared from the UPDATE text.  A field the table lacks fails the
   * call before anything is prepared, keeping the holders added before it.
   */
  function CreateStatement(u: Update): (r: (Update, Outcome))
    requires UpdateValid(u)
    ensures UpdateValid(r.0) && r.0 == u.(batch := r.0.batch, conn := r.0.conn, created := r.0.created)
    ensures r.1.Pass? <==> (
      && (forall i :: 0 <= i < |u.changes| ==> u.changes[i] in u.table.fields)
      && (forall i :: 0 <= i < |u.filters| ==> u.filters[i] in u.table.fields))
    ensures r.1.Failed? ==> r.1.error == NullPointer && r.0.conn == u.conn && r.0.created == u.created
    ensures r.1.Failed? ==> r.0.batch.prepared == u.batch.prepared
    ensures r.1.Pass? ==> (
      && r.0.created && r.0.batch.prepared
      && r.0.batch == AddAll(AddAll(u.batch, FieldsOf(u.table, u.changes)), FieldsOf(u.table, u.filters)).(prepared := true)
      && r.0.conn == u.conn.(trace := u.conn.trace
           + [Prepare(UpdateStatement(u.conn.engine, u.table.name, u.changes, u.filters).text)]))
  {
    var (u1, o1) := AddParms(u, u.changes);
    if o1.Failed? then (u1, o1)
    else
      var (u2, o2) := if |u.filters| > 0 then AddParms(u1, u.filters) else (u1, Pass);
      if o2.Failed? then (u2, o2)
      else
        var sql := UpdateStatement(u.conn.engine, u.table.name, u.changes, u.filters).text;
        (u2.(conn := u.conn.(trace := u.conn.trace + [Prepare(sql)]), batch := u2.batch.(prepared := true), created := true), Pass)
  }

  /**
   * The holders of a statement created on a fresh update: as many as marks, the SET
   * fields' holders first and the filter fields' after them, each of its field's type.
   */
  lemma {:induction false} UpdateLayout(u: Update)
    requires UpdateValid(u) && Valid(u.table) && u.batch.parms == [] && u.batch.slots == map[]
    requires CreateStatement(u).1.Pass?
    ensures var r := CreateStatement(u).0;
      var n := |u.changes|;
      && |r.batch.parms| == UpdateStatement(u.conn.engine, u.table.name, u.changes, u.filters).marks
      && (forall i :: 0 <= i < n ==> r.batch.parms[i] == Create(u.table.fields[u.changes[i]].dbType))
      && (forall j :: 0 <= j < |u.filters| ==> r.batch.parms[n + j] == Create(u.table.fields[u.filters[j]].dbType))
  {
    var cs := FieldsOf(u.table, u.changes);
    var fs := FieldsOf(u.table, u.filters);
    LayoutNames(u.table, u.changes);
    LayoutNames(u.table, u.filters);
    TwoListLayout(u.batch, cs, fs);
  }

  /**
   * The name map of a statement created on a fresh update: each filter field maps to
   * its filter holder, and a SET field that is no filter to its SET holder.
   */
  lemma {:induction false} UpdateSlots(u: Update)
    requires UpdateValid(u) && Valid(u.table) && u.batch.parms == [] && u.batch.slots == map[]
    requires CreateStatement(u).1.Pass?
    ensures var r := CreateStatement(u).0;
      var n := |u.changes|;
      && (forall j :: 0 <= j < |u.filters| ==> u.filters[j] in r.batch.slots && r.batch.slots[u.filters[j]] == n + j)
      && (forall i :: 0 <= i < n && u.changes[i] !in u.filters ==>
            u.changes[i] in r.batch.slots && r.batch.slots[u.changes[i]] == i)
  {
    var cs := FieldsOf(u.table, u.changes);
    var fs := FieldsOf(u.table, u.filters);
    LayoutNames(u.table, u.changes);
    LayoutNames(u.table, u.filters);
    TwoListLayout(u.batch, cs, fs);
  }

  /** In a well-formed table, the descriptors of some names carry those names. */
  lemma {:induction false} LayoutNames(t: Table, names: seq<string>)
    requires Valid(t) && forall i :: 0 <= i < |names| ==> names[i] in t.fields
    ensures Names(FieldsOf(t, names)) == names
  {
    var fs := FieldsOf(t, names);
    assert forall i :: 0 <= i < |fs| ==> Names(fs)[i] == names[i];
  }

  /** Holders for two sorted field lists, added one list after the other to an empty batcher. */
  lemma {:induction false} TwoListLayout(b: Batcher, cs: seq<Field>, fs: seq<Field>)
    requires b.parms == [] && b.slots == map[]
    requires StrictlySorted(Names(cs)) && StrictlySorted(Names(fs))
    ensures var r := AddAll(AddAll(b, cs), fs);
      && |r.parms| == |cs| + |fs|
      && (forall i :: 0 <= i < |cs| ==> r.parms[i] == Create(cs[i].dbType))
      && (forall j :: 0 <= j < |fs| ==> r.parms[|cs| + j] == Create(fs[j].dbType))
      && (forall j :: 0 <= j < |fs| ==> fs[j].name in r.slots && r.slots[fs[j].name] == |cs| + j)
      && (forall i :: 0 <= i < |cs| && cs[i].name !in Names(fs) ==> cs[i].name in r.slots && r.slots[cs[i].name] == i)
  {
    var b1 := AddAll(b, cs);
    var r := AddAll(b1, fs);
    assert b1.parms == Creates(cs) by { assert [] + Creates(cs) == Creates(cs); }
    assert r.parms == Creates(cs) + Creates(fs);
    assert forall j :: 0 <= j < |fs| ==> fs[j].name in r.slots && r.slots[fs[j].name] == |cs| + j by {
      SortedLast(fs);
      AddAllLast(b1, fs);
    }
    forall i | 0 <= i < |cs| && cs[i].name !in Names(fs)
      ensures cs[i].name in r.slots && r.slots[cs[i].name] == i
    {
      SortedLast(cs);
      AddAllLast(b, cs);
      AddAllOthers(b1, fs);
      assert LastOf(cs, i);
    }
  }

  function NotCreated(): Error {
    SqlError("Cannot do an update on an uncreated update statement.")
  }

  /** `update()`: submit the current values, once the statement exists. */
  function UpdateRow(u: Update): (r: (Update, Outcome))
    requires UpdateValid(u)
    ensures UpdateValid(r.0)
    ensures r.1.Failed? <==> !u.created
    ensures r.1.Failed? ==> r == (u, Failed(NotCreated()))
    ensures r.1.Pass? ==> r.0 == u.(conn := Submit(u.conn, u.batch).0, batch := Submit(u.conn, u.batch).1)
  {
    if !u.created then (u, Failed(NotCreated()))
    else
      var (c1, b1) := Submit(u.conn, u.batch);
      (u.(conn := c1, batch := b1), Pass)
  }

  /** `close()` of an update. */
  function CloseUpdate(u: Update): (r: Update)
    ensures r == u.(conn := CloseBatcher(u.conn, u.batch).0, batch := u.batch.(count := 0))
    ensures Flushes(r.conn.trace) == Flushes(u.conn.trace) + (if u.batch.count > 0 then 1 else 0)
  {
    var (c1, b1) := CloseBatcher(u.conn, u.batch);
    u.(conn := c1, batch := b1)
  }

  // ---------------------------------------------------------------------
  // DbLoader
  // ---------------------------------------------------------------------

  datatype Loader = Loader(conn: Conn, batch: Batcher)

  /** The INSERT statement of a loader: every field, and a mark for each. */
  function InsertText(e: Engine, table: string, names: seq<string>): string
    requires |names| > 0
  {
    "INSERT INTO " + Quote(e, table) + " " + FieldList(names) + " VALUES " + MarkList(|names|)
  }

  /**
   * The `DbLoader` constructor: one holder per field of the table, in field-name
   * order and of each field's type, and the INSERT statement prepared.  A table
   * the database lacks is a null descriptor; a table without fields cannot give a
   * field list.
   */
  method NewLoader(c: Conn, schema: string -> Metadata, table: string) returns (c': Conn, r: Result<Loader>)
    requires CacheValid(c)
    ensures GetTable(c, schema, table).1.Fail? ==> c' == GetTable(c, schema, table).0 && r == Fail(GetTable(c, schema, table).1.error)
    ensures GetTable(c, schema, table).1 == Ok(None) ==> r == Fail(NullPointer)
    ensures r.Ok? ==> (
      && GetTable(c, schema, table).1.Ok? && GetTable(c, schema, table).1.value.Some?
      && var t := GetTable(c, schema, table).1.value.value;
      && Valid(t) && |GetFields(t)| > 0
      && var names := Names(GetFields(t));
      && r.value.conn == c'
      && c' == GetTable(c, schema, table).0.(trace := c.trace + [Prepare(InsertText(c.engine, table, names))])
      && r.value.batch == AddAll(Empty(MaxBatchSize), GetFields(t)).(prepared := true))
    ensures (GetTable(c, schema, table).1.Ok? && GetTable(c, schema, table).1.value.Some? &&
      |GetTable(c, schema, table).1.value.value.fields| == 0) ==> r == Fail(IllegalArgument("Field count cannot be 0."))
    ensures (GetTable(c, schema, table).1.Ok? && GetTable(c, schema, table).1.value.Some? &&
      |GetTable(c, schema, table).1.value.value.fields| > 0) ==> r.Ok?
  {
    var g := GetTable(c, schema, table);
    var found := g.1;
    c' := g.0;
    if found.Fail? {
      return c', Fail(found.error);
    }
    if found.value.None? {
      return c', Fail(NullPointer);
    }
    var t := found.value.value;
    var fields := GetFields(t);
    var names := Names(fields);
    var batch := AddAll(Empty(MaxBatchSize), fields).(prepared := true);
    var sql := InsertStatement(c'.engine, table, names);
    if sql.Fail? {
      return c', Fail(sql.error);
    }
    c' := c'.(trace := c'.trace + [Prepare(sql.value)]);
    return c', Ok(Loader(c', batch));
  }

  /** The INSERT text the constructor builds: the field list, then a mark for each field. */
  method InsertStatement(e: Engine, table: string, names: seq<string>) returns (r: Result<string>)
    ensures r.Fail? <==> |names| == 0
    ensures r.Fail? ==> r.error == IllegalArgument("Field count cannot be 0.")
    ensures r.Ok? ==> r.value == InsertText(e, table, names)
  {
    var start := Append(New(e), "INSERT INTO ");
    assert start.text == "INSERT INTO ";
    var head := Append(QuoteName(start, table), " ");
    Associative(start.text, [OpenQuote(e)], table + [CloseQuote(e)]);
    Associative(start.text + [OpenQuote(e)], table, [CloseQuote(e)]);
    assert head.text == "INSERT INTO " + Quote(e, table) + " ";
    var withFields := AddFields(head, names);
    if withFields.Fail? {
      return Fail(withFields.error);
    }
    // the mark count is the field count, which is not 0 here
    var withMarks := AddMarkList(Append(withFields.value, " VALUES "), |names|);
    return Ok(withMarks.value.text);
  }

  /**
   * The loader's parameter layout: holder `i` is a fresh holder of field `i`'s type,
   * field `i` maps to it, and the statement has one mark per holder.
   */
  lemma {:induction false} LoaderLayout(t: Table)
    requires Valid(t) && |GetFields(t)| > 0
    ensures var fs := GetFields(t);
      var b := AddAll(Empty(MaxBatchSize), fs);
      && |b.parms| == |fs|
      && Count(MarkList(|fs|), '?') == |b.parms|
      && (forall i :: 0 <= i < |fs| ==> b.parms[i] == Create(fs[i].dbType) && fs[i].name in b.slots && b.slots[fs[i].name] == i)
  {
    var fs := GetFields(t);
    MarkListShape(|fs|);
    SortedLayout(Empty(MaxBatchSize), fs);
  }

  /** Holders for a sorted field list added to a batcher without any: holder `i` serves field `i`. */
  lemma {:induction false} SortedLayout(b: Batcher, fs: seq<Field>)
    requires b.parms == [] && StrictlySorted(Names(fs))
    ensures var r := AddAll(b, fs);
      && |r.parms| == |fs|
      && (forall i :: 0 <= i < |fs| ==> r.parms[i] == Create(fs[i].dbType) && fs[i].name in r.slots && r.slots[fs[i].name] == i)
  {
    SortedLast(fs);
    AddAllLast(b, fs);
  }

  /** The loader maps exactly the table's field names. */
  lemma {:induction false} LoaderNames(t: Table)
    requires Valid(t)
    ensures forall f :: f in AddAll(Empty(MaxBatchSize), GetFields(t)).slots <==> f in t.fields
  {
    var fs := GetFields(t);
    SortedLast(fs);
    AddAllLast(Empty(MaxBatchSize), fs);
    AddAllOthers(Empty(MaxBatchSize), fs);
    forall f | f in t.fields ensures f in Names(fs) {
      var i :| 0 <= i < |fs| && fs[i] == t.fields[f];
      assert Names(fs)[i] == f;
    }
  }

  /** `insert()`: submit the current values. */
  function Insert(l: Loader): (r: Loader)
    requires Consistent(l.batch) && l.batch.prepared
    ensures Consistent(r.batch) && r.batch.prepared && r.batch.parms == l.batch.parms
    ensures r == Loader(Submit(l.conn, l.batch).0, Submit(l.conn, l.batch).1)
  {
    var (c1, b1) := Submit(l.conn, l.batch);
    Loader(c1, b1)
  }

  /** `close()` of a loader. */
  function CloseLoader(l: Loader): (r: Loader)
    ensures r.batch == l.batch.(count := 0)
    ensures Flushes(r.conn.trace) == Flushes(l.conn.trace) + (if l.batch.count > 0 then 1 else 0)
    ensures l.batch.prepared ==> |r.conn.trace| > |l.conn.trace| && r.conn.trace[|r.conn.trace| - 1] == CloseStatement
  {
    var (c1, b1) := CloseBatcher(l.conn, l.batch);
    Loader(c1, b1)
  }
}
