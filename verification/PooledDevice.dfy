/**
A device that keeps the key-value entries of all lanes in one pool of blocks, reached through the page table
(examples/common/run_helpers.py, examples/llama3_8b/benchmark.py), and generates what separate lanes would.

The numerical work is that of any causal attention: a prompt position has an entry, a decode step adds the
entry of its own position, computed from the lane's token and the entries below it, and so are the logits.
What the pool held before the run, as well as cells at or above a lane's position, is arbitrary.
*/
module PooledDevice {
  import opened Prelude
  import opened Rotation
  import opened PageTable
  import opened PrefillBucket
  import opened DecodeChain
  import opened DecodeDriver
  import opened LaneModel
  import opened EvalRepeat

  datatype Attention<!V, !L> = Attention(
    encode: (seq<int>, nat) -> V,
    prefillLogits: seq<int> -> L,
    entry: (seq<V>, int) -> V,
    attend: (seq<V>, int) -> L,
    blank: V,
    idleLogits: L,
    argmax: L -> int,
    top1: L -> int,
    margin: L -> real,
    sample: L -> int)

  type Pool<V> = map<Cell, V>

  function Encoded<V, L>(att: Attention<V, L>, prompt: seq<int>): (entries: seq<V>)
    ensures |entries| == |prompt|
  {
    seq(|prompt|, q requires 0 <= q < |prompt| => att.encode(prompt, q))
  }

  /** The same attention on a lane of its own, whose cache is the list of its entries. */
  function AsLane<V, L>(att: Attention<V, L>): (lane: Lane<seq<V>, L>) {
    Lane(
      prompt => Encoded(att, prompt), att.prefillLogits, [], att.idleLogits,
      (c: seq<V>, token: int, position: int) => c + [att.entry(c, token)],
      (c: seq<V>, token: int, position: int) => att.attend(c, token),
      att.argmax, att.top1, att.margin, att.sample)
  }

  /** The entry at one position of a lane, as found through the page table. */
  function Read<V>(blank: V, pool: Pool<V>, table: Table, blockSize: nat, u: nat, q: nat): (v: V)
    requires blockSize > 0
  {
    if q < Room(table, blockSize, u) && Address(table, blockSize, u, q) in pool
    then pool[Address(table, blockSize, u, q)] else blank
  }

  /** The entries below a position, all that attention looks at. */
  function View<V>(blank: V, pool: Pool<V>, table: Table, blockSize: nat, u: nat, n: int): (entries: seq<V>)
    requires blockSize > 0
    ensures |entries| == Max(0, n)
  {
    seq(Max(0, n), q requires 0 <= q < Max(0, n) => Read(blank, pool, table, blockSize, u, q))
  }

  /** Lane u is active, and its position lies inside its row. */
  predicate Fits(t: seq<int>, p: seq<int>, table: Table, blockSize: nat, u: nat) {
    Active(t, p, u) && p[u] < Room(table, blockSize, u)
  }

  function NewEntry<V, L>(
    att: Attention<V, L>, pool: Pool<V>, table: Table, blockSize: nat, t: seq<int>, p: seq<int>, u: nat): (v: V)
    requires blockSize > 0 && Active(t, p, u)
  {
    att.entry(View(att.blank, pool, table, blockSize, u, p[u]), t[u])
  }

  /** What one decode call writes for its first n lanes. */
  function StepWrites<V, L>(
    att: Attention<V, L>, pool: Pool<V>, table: Table, blockSize: nat, t: seq<int>, p: seq<int>, n: nat)
    : (writes: seq<Write<V>>)
    requires blockSize > 0
    ensures InTable(writes, table, blockSize)
  {
    if n == 0 then []
    else
      StepWrites(att, pool, table, blockSize, t, p, n - 1)
      + if Fits(t, p, table, blockSize, n - 1)
        then [Write(n - 1, p[n - 1], NewEntry(att, pool, table, blockSize, t, p, n - 1))] else []
  }

  /** What prefill writes for the first m positions of one prompt. */
  function PromptWrites<V, L>(att: Attention<V, L>, prompt: seq<int>, table: Table, blockSize: nat, u: nat, m: nat)
    : (writes: seq<Write<V>>)
    requires m <= |prompt|
    ensures InTable(writes, table, blockSize)
  {
    if m == 0 then []
    else
      PromptWrites(att, prompt, table, blockSize, u, m - 1)
      + if m - 1 < Room(table, blockSize, u) then [Write(u, m - 1, att.encode(prompt, m - 1))] else []
  }

  function PrefillWrites<V, L>(att: Attention<V, L>, prompts: seq<seq<int>>, table: Table, blockSize: nat, n: nat)
    : (writes: seq<Write<V>>)
    requires n <= |prompts|
    ensures InTable(writes, table, blockSize)
  {
    if n == 0 then []
    else
      PrefillWrites(att, prompts, table, blockSize, n - 1)
      + PromptWrites(att, prompts[n - 1], table, blockSize, n - 1, |prompts[n - 1]|)
  }

  function PooledModel<V, L>(att: Attention<V, L>, stale: Pool<V>, table: Table, blockSize: nat)
    : (m: Model<Pool<V>, L>)
    requires blockSize > 0
  {
    Model(
      (tokens: seq<seq<int>>, lens: seq<nat>) =>
        WritePool(stale, table, blockSize, PrefillWrites(att, tokens, table, blockSize, |tokens|)),
      (tokens: seq<seq<int>>, lens: seq<nat>, u: nat) =>
        if u < |tokens| then att.prefillLogits(tokens[u]) else att.idleLogits,
      (pool: Pool<V>, t: seq<int>, p: seq<int>) =>
        WritePool(pool, table, blockSize, StepWrites(att, pool, table, blockSize, t, p, |p|)),
      (pool: Pool<V>, t: seq<int>, p: seq<int>, u: nat) =>
        if Active(t, p, u) then att.attend(View(att.blank, pool, table, blockSize, u, p[u]), t[u])
        else att.idleLogits,
      att.argmax, att.top1, att.margin, att.sample)
  }

  // ---- Reading the pool after writing it

  /** The last value written at a position, or what was there before. */
  function LastWritten<V>(writes: seq<Write<V>>, u: nat, q: nat, before: V): (v: V) {
    if writes == [] then before
    else
      var w := writes[|writes| - 1];
      if w.user == u && w.position == q then w.value else LastWritten(writes[..|writes| - 1], u, q, before)
  }

  ghost function DenseOf<V>(pool: Pool<V>, table: Table, rows: nat, columns: nat, shift: int, blockSize: nat)
    : (dense: map<(int, int), V>)
    requires IsRolled(table, rows, columns, shift) && blockSize > 0
  {
    map u: int, q: int | 0 <= u < rows && 0 <= q < columns * blockSize && Address(table, blockSize, u, q) in pool ::
      (u, q) := pool[Address(table, blockSize, u, q)]
  }

  ghost function ReadDense<V>(blank: V, dense: map<(int, int), V>, u: int, q: int): (v: V) {
    if (u, q) in dense then dense[(u, q)] else blank
  }

  lemma {:induction false} DenseLastWritten<V>(
    blank: V, dense: map<(int, int), V>, writes: seq<Write<V>>, u: nat, q: nat)
    ensures ReadDense(blank, WriteDense(dense, writes), u, q)
         == LastWritten(writes, u, q, ReadDense(blank, dense, u, q))
  {
    if writes != [] {
      DenseLastWritten(blank, dense, writes[..|writes| - 1], u, q);
    }
  }

  lemma AgreeReads<V>(
    blank: V, pool: Pool<V>, dense: map<(int, int), V>, table: Table, rows: nat, columns: nat, shift: int,
    blockSize: nat, u: nat, q: nat)
    requires IsRolled(table, rows, columns, shift) && blockSize > 0 && u < rows && q < columns * blockSize
    requires Agree(pool, dense, table, rows, columns, shift, blockSize)
    ensures Read(blank, pool, table, blockSize, u, q) == ReadDense(blank, dense, u, q)
  {
    assert SameLookup(pool, Address(table, blockSize, u, q), dense, (u as int, q as int));
  }

  /** Through the table every lane finds its own last write, since the pool refines separate dense caches. */
  lemma ReadLastWritten<V>(
    blank: V, pool: Pool<V>, table: Table, rows: nat, columns: nat, shift: int, blockSize: nat,
    writes: seq<Write<V>>, u: nat, q: nat)
    requires IsRolled(table, rows, columns, shift) && blockSize > 0 && u < rows && q < columns * blockSize
    requires InTable(writes, table, blockSize)
    ensures Read(blank, WritePool(pool, table, blockSize, writes), table, blockSize, u, q)
         == LastWritten(writes, u, q, Read(blank, pool, table, blockSize, u, q))
  {
    var dense := DenseOf(pool, table, rows, columns, shift, blockSize);
    PoolRefinesDense(pool, dense, table, rows, columns, shift, blockSize, writes);
    AgreeReads(blank, pool, dense, table, rows, columns, shift, blockSize, u, q);
    AgreeReads(blank, WritePool(pool, table, blockSize, writes), WriteDense(dense, writes),
               table, rows, columns, shift, blockSize, u, q);
    DenseLastWritten(blank, dense, writes, u, q);
  }

  /** Through the table, lane u reads what was last written for lane u, at every position it has room for. */
  ghost predicate KeepsApart<V(!new)>(blank: V, table: Table, blockSize: nat, u: nat, room: nat) {
    && blockSize > 0 && Room(table, blockSize, u) == room
    && forall pool: Pool<V>, writes: seq<Write<V>>, q: nat
         {:trigger Read(blank, WritePool(pool, table, blockSize, writes), table, blockSize, u, q)}
         | q < room && InTable(writes, table, blockSize) ::
         Read(blank, WritePool(pool, table, blockSize, writes), table, blockSize, u, q)
         == LastWritten(writes, u, q, Read(blank, pool, table, blockSize, u, q))
  }

  /** Every rolled table keeps its lanes apart. */
  lemma RolledKeepsApart<V(!new)>(
    blank: V, table: Table, rows: nat, columns: nat, shift: int, blockSize: nat, u: nat)
    requires IsRolled(table, rows, columns, shift) && blockSize > 0 && u < rows
    ensures KeepsApart(blank, table, blockSize, u, columns * blockSize)
  {
    forall pool: Pool<V>, writes: seq<Write<V>>, q: nat
      | q < columns * blockSize && InTable(writes, table, blockSize)
      ensures Read(blank, WritePool(pool, table, blockSize, writes), table, blockSize, u, q)
           == LastWritten(writes, u, q, Read(blank, pool, table, blockSize, u, q))
    {
      ReadLastWritten(blank, pool, table, rows, columns, shift, blockSize, writes, u, q);
    }
  }

  lemma {:induction false} LastOfAppend<V>(a: seq<Write<V>>, b: seq<Write<V>>, u: nat, q: nat, before: V)
    ensures LastWritten(a + b, u, q, before) == LastWritten(b, u, q, LastWritten(a, u, q, before))
  {
    if b == [] {
      assert a + b == a;
    } else {
      var n := |b| - 1;
      LastOfAppend(a, b[..n], u, q, before);
      assert (a + b)[|a + b| - 1] == b[n] && (a + b)[..|a + b| - 1] == a + b[..n];
    }
  }

  lemma LastOfOne<V>(a: seq<Write<V>>, w: Write<V>, u: nat, q: nat, before: V)
    ensures LastWritten(a + [w], u, q, before)
         == if w.user == u && w.position == q then w.value else LastWritten(a, u, q, before)
  {
    assert (a + [w])[..|a|] == a;
  }

  lemma {:induction false} LastOfOneLane<V, L>(
    att: Attention<V, L>, pool: Pool<V>, table: Table, blockSize: nat, t: seq<int>, p: seq<int>, n: nat,
    u: nat, q: nat, before: V)
    requires blockSize > 0
    ensures LastWritten(StepWrites(att, pool, table, blockSize, t, p, n + 1), u, q, before)
         == if u == n && Fits(t, p, table, blockSize, n) && p[n] == q
            then NewEntry(att, pool, table, blockSize, t, p, n)
            else LastWritten(StepWrites(att, pool, table, blockSize, t, p, n), u, q, before)
  {
    var a := StepWrites(att, pool, table, blockSize, t, p, n);
    if Fits(t, p, table, blockSize, n) {
      LastOfOne(a, Write(n, p[n], NewEntry(att, pool, table, blockSize, t, p, n)), u, q, before);
    } else {
      assert StepWrites(att, pool, table, blockSize, t, p, n + 1) == a;
    }
  }

  /** A decode call writes one position of each active lane and nothing else. */
  lemma {:induction false} LastOfStep<V, L>(
    att: Attention<V, L>, pool: Pool<V>, table: Table, blockSize: nat, t: seq<int>, p: seq<int>, n: nat,
    u: nat, q: nat, before: V)
    requires blockSize > 0
    ensures LastWritten(StepWrites(att, pool, table, blockSize, t, p, n), u, q, before)
         == if u < n && Fits(t, p, table, blockSize, u) && p[u] == q
            then NewEntry(att, pool, table, blockSize, t, p, u) else before
  {
    if n > 0 {
      LastOfStep(att, pool, table, blockSize, t, p, n - 1, u, q, before);
      LastOfOneLane(att, pool, table, blockSize, t, p, n - 1, u, q, before);
    }
  }

  lemma {:induction false} LastOfPrompt<V, L>(
    att: Attention<V, L>, prompt: seq<int>, table: Table, blockSize: nat, lane: nat, m: nat, u: nat, q: nat, before: V)
    requires m <= |prompt|
    ensures LastWritten(PromptWrites(att, prompt, table, blockSize, lane, m), u, q, before)
         == if u == lane && q < m && q < Room(table, blockSize, lane) then att.encode(prompt, q) else before
  {
    if m > 0 {
      var a := PromptWrites(att, prompt, table, blockSize, lane, m - 1);
      LastOfPrompt(att, prompt, table, blockSize, lane, m - 1, u, q, before);
      if m - 1 < Room(table, blockSize, lane) {
        LastOfOne(a, Write(lane, m - 1, att.encode(prompt, m - 1)), u, q, before);
      } else {
        assert PromptWrites(att, prompt, table, blockSize, lane, m) == a;
      }
    }
  }

  lemma {:induction false} LastOfPrefill<V, L>(
    att: Attention<V, L>, prompts: seq<seq<int>>, table: Table, blockSize: nat, n: nat, u: nat, q: nat, before: V)
    requires n <= |prompts|
    ensures LastWritten(PrefillWrites(att, prompts, table, blockSize, n), u, q, before)
         == if u < n && q < |prompts[u]| && q < Room(table, blockSize, u) then att.encode(prompts[u], q) else before
  {
    if n > 0 {
      LastOfPrefill(att, prompts, table, blockSize, n - 1, u, q, before);
      LastOfOnePrompt(att, prompts, table, blockSize, n - 1, u, q, before);
    }
  }

  lemma {:induction false} LastOfOnePrompt<V, L>(
    att: Attention<V, L>, prompts: seq<seq<int>>, table: Table, blockSize: nat, lane: nat, u: nat, q: nat, before: V)
    requires lane < |prompts|
    ensures LastWritten(PrefillWrites(att, prompts, table, blockSize, lane + 1), u, q, before)
         == if u == lane && q < |prompts[u]| && q < Room(table, blockSize, u) then att.encode(prompts[u], q)
            else LastWritten(PrefillWrites(att, prompts, table, blockSize, lane), u, q, before)
  {
    var prompt := prompts[lane];
    var a := PrefillWrites(att, prompts, table, blockSize, lane);
    var b := PromptWrites(att, prompt, table, blockSize, lane, |prompt|);
    assert PrefillWrites(att, prompts, table, blockSize, lane + 1) == a + b;
    LastOfAppend(a, b, u, q, before);
    LastOfPrompt(att, prompt, table, blockSize, lane, |prompt|, u, q, LastWritten(a, u, q, before));
  }

  // ---- One lane's view

  /** After prefill a lane finds exactly the entries of its own prompt, whatever the pool held before. */
  lemma {:induction false} PrefillView<V(!new), L>(
    att: Attention<V, L>, stale: Pool<V>, table: Table, blockSize: nat, room: nat,
    prompts: seq<seq<int>>, u: nat)
    requires KeepsApart(att.blank, table, blockSize, u, room) && u < |prompts| && |prompts[u]| <= room
    ensures View(att.blank, WritePool(stale, table, blockSize,
                                      PrefillWrites(att, prompts, table, blockSize, |prompts|)),
                 table, blockSize, u, |prompts[u]|)
         == Encoded(att, prompts[u])
  {
    var writes := PrefillWrites(att, prompts, table, blockSize, |prompts|);
    var pool := WritePool(stale, table, blockSize, writes);
    forall q | 0 <= q < |prompts[u]|
      ensures Read(att.blank, pool, table, blockSize, u, q) == att.encode(prompts[u], q)
    {
      LastOfPrefill(att, prompts, table, blockSize, |prompts|, u, q, Read(att.blank, stale, table, blockSize, u, q));
    }
  }

  /** A decode call adds the lane's own new entry to what the lane sees, and changes nothing below. */
  lemma {:induction false} StepView<V(!new), L>(
    att: Attention<V, L>, pool: Pool<V>, table: Table, blockSize: nat, room: nat,
    t: seq<int>, p: seq<int>, u: nat)
    requires KeepsApart(att.blank, table, blockSize, u, room) && Active(t, p, u) && p[u] < room
    ensures View(att.blank, WritePool(pool, table, blockSize, StepWrites(att, pool, table, blockSize, t, p, |p|)),
                 table, blockSize, u, p[u] + 1)
         == View(att.blank, pool, table, blockSize, u, p[u]) + [NewEntry(att, pool, table, blockSize, t, p, u)]
  {
    var writes := StepWrites(att, pool, table, blockSize, t, p, |p|);
    var after := WritePool(pool, table, blockSize, writes);
    forall q | 0 <= q <= p[u]
      ensures Read(att.blank, after, table, blockSize, u, q)
           == if q == p[u] then NewEntry(att, pool, table, blockSize, t, p, u)
              else Read(att.blank, pool, table, blockSize, u, q)
    {
      LastOfStep(att, pool, table, blockSize, t, p, |p|, u, q, Read(att.blank, pool, table, blockSize, u, q));
    }
  }

  // ---- A whole run

  ghost predicate OnPool<V, L>(
    run: Run<Pool<V>, L>, att: Attention<V, L>, stale: Pool<V>, table: Table, blockSize: nat)
    requires blockSize > 0
  {
    run.Valid() && run.model == PooledModel(att, stale, table, blockSize)
  }

  /** What lane u sees before step k. */
  function Seen<V, L>(
    run: Run<Pool<V>, L>, att: Attention<V, L>, table: Table, blockSize: nat, k: nat, u: nat): (entries: seq<V>)
    requires blockSize > 0 && u < |run.lens|
  {
    View(att.blank, run.At(k).kv, table, blockSize, u, run.lens[u] + k)
  }

  function PickOf<V, L>(att: Attention<V, L>, o: Options): L -> int {
    if o.sampling then att.sample else if o.collect then att.top1 else att.argmax
  }

  function PooledRun<V, L>(
    att: Attention<V, L>, stale: Pool<V>, table: Table, blockSize: nat, o: Options, prompts: seq<seq<int>>,
    maxBatchSize: nat) : (run: Run<Pool<V>, L>)
    requires blockSize > 0
    ensures OnPool(run, att, stale, table, blockSize) && run.pick == PickOf(att, o)
    ensures run.lanes == Max(maxBatchSize, |prompts|) && run.lens == Lengths(prompts)
  {
    BenchmarkRun(PooledModel(att, stale, table, blockSize), prompts, Lengths(prompts), maxBatchSize, o)
  }

  lemma {:induction false} PooledLogits<V, L>(
    att: Attention<V, L>, stale: Pool<V>, table: Table, blockSize: nat, pool: Pool<V>, t: seq<int>, p: seq<int>, u: nat)
    requires blockSize > 0 && Active(t, p, u)
    ensures PooledModel(att, stale, table, blockSize).logits(pool, t, p, u)
         == att.attend(View(att.blank, pool, table, blockSize, u, p[u]), t[u])
  {
  }

  lemma {:induction false} PooledWrite<V, L>(
    att: Attention<V, L>, stale: Pool<V>, table: Table, blockSize: nat, pool: Pool<V>, t: seq<int>, p: seq<int>)
    requires blockSize > 0
    ensures PooledModel(att, stale, table, blockSize).write(pool, t, p)
         == WritePool(pool, table, blockSize, StepWrites(att, pool, table, blockSize, t, p, |p|))
  {
  }

  /** The next token of lane u depends on what it sees and on its newest token only. */
  lemma {:induction false} LaneToken<V, L>(
    run: Run<Pool<V>, L>, att: Attention<V, L>, stale: Pool<V>, table: Table, blockSize: nat, k: nat, u: nat)
    requires blockSize > 0 && OnPool(run, att, stale, table, blockSize) && u < |run.lens|
    ensures run.At(k + 1).row[u] == run.pick(att.attend(Seen(run, att, table, blockSize, k, u), run.At(k).row[u]))
  {
    var point, p := run.At(k), Positions(run.lens, run.lanes, k);
    RunStep(run, k, u);
    PooledLogits(att, stale, table, blockSize, point.kv, point.row, p, u);
  }

  /** The pool after the decode call of step k. */
  function PoolAfter<V, L>(run: Run<Pool<V>, L>, att: Attention<V, L>, table: Table, blockSize: nat, k: nat)
    : (pool: Pool<V>)
    requires blockSize > 0
  {
    var point, p := run.At(k), Positions(run.lens, run.lanes, k);
    WritePool(point.kv, table, blockSize, StepWrites(att, point.kv, table, blockSize, point.row, p, |p|))
  }

  lemma {:induction false} PoolStep<V, L>(
    run: Run<Pool<V>, L>, att: Attention<V, L>, stale: Pool<V>, table: Table, blockSize: nat, k: nat, u: nat)
    requires blockSize > 0 && OnPool(run, att, stale, table, blockSize) && u < |run.lens|
    ensures run.At(k + 1).kv == PoolAfter(run, att, table, blockSize, k)
  {
    var point, p := run.At(k), Positions(run.lens, run.lanes, k);
    RunStep(run, k, u);
    PooledWrite(att, stale, table, blockSize, point.kv, point.row, p);
  }

  lemma {:induction false} LaneView<V(!new), L>(
    run: Run<Pool<V>, L>, att: Attention<V, L>, table: Table, blockSize: nat, room: nat, k: nat, u: nat)
    requires KeepsApart(att.blank, table, blockSize, u, room) && run.Valid()
    requires u < |run.lens| && run.lens[u] + k < room && run.At(k + 1).kv == PoolAfter(run, att, table, blockSize, k)
    ensures var seen := Seen(run, att, table, blockSize, k, u);
      Seen(run, att, table, blockSize, k + 1, u) == seen + [att.entry(seen, run.At(k).row[u])]
  {
    var point, p := run.At(k), Positions(run.lens, run.lanes, k);
    assert Active(point.row, p, u) && p[u] == run.lens[u] + k;
    StepView(att, point.kv, table, blockSize, room, point.row, p, u);
  }

  /** What lane u sees and holds before step k is what its prompt has alone. */
  ghost predicate LaneIsAlone<V, L>(
    run: Run<Pool<V>, L>, att: Attention<V, L>, table: Table, blockSize: nat, o: Options, prompt: seq<int>, k: nat,
    u: nat)
    requires blockSize > 0 && run.Valid() && u < |run.lens|
  {
    (Seen(run, att, table, blockSize, k, u), run.At(k).row[u]) == LaneAt(AsLane(att), o, prompt, k)
  }

  lemma AloneStep<V, L>(att: Attention<V, L>, o: Options, prompt: seq<int>, k: nat)
    ensures var (c, token) := LaneAt(AsLane(att), o, prompt, k);
      LaneAt(AsLane(att), o, prompt, k + 1) == (c + [att.entry(c, token)], PickOf(att, o)(att.attend(c, token)))
  {
  }

  /** One lane, one step: the next token needs no room, only the next entry does. */
  lemma {:induction false} LaneStep<V(!new), L>(
    run: Run<Pool<V>, L>, att: Attention<V, L>, stale: Pool<V>, table: Table, blockSize: nat,
    room: nat, o: Options, prompt: seq<int>, k: nat, u: nat)
    requires blockSize > 0 && OnPool(run, att, stale, table, blockSize) && run.pick == PickOf(att, o)
    requires KeepsApart(att.blank, table, blockSize, u, room) && u < |run.lens|
    ensures StaysAlone(run, att, table, blockSize, room, o, prompt, k, u)
  {
    if LaneIsAlone(run, att, table, blockSize, o, prompt, k, u) {
      LaneToken(run, att, stale, table, blockSize, k, u);
      AloneStep(att, o, prompt, k);
      if run.lens[u] + k < room {
        PoolStep(run, att, stale, table, blockSize, k, u);
        LaneView(run, att, table, blockSize, room, k, u);
      }
    }
  }

  lemma {:induction false} LaneStart<V(!new), L>(
    att: Attention<V, L>, stale: Pool<V>, table: Table, blockSize: nat, room: nat, o: Options,
    prompts: seq<seq<int>>, maxBatchSize: nat, u: nat)
    requires KeepsApart(att.blank, table, blockSize, u, room) && u < |prompts|
    ensures var run := PooledRun(att, stale, table, blockSize, o, prompts, maxBatchSize);
      && run.At(0).row[u] == LaneAt(AsLane(att), o, prompts[u], 0).1
      && (|prompts[u]| <= room ==> LaneIsAlone(run, att, table, blockSize, o, prompts[u], 0, u))
  {
    var run := PooledRun(att, stale, table, blockSize, o, prompts, maxBatchSize);
    assert run.At(0).row[u] == run.first[u];
    if |prompts[u]| <= room {
      PrefillView(att, stale, table, blockSize, room, prompts, u);
    }
  }

  /** Lane u, alone before step k, gets the token it gets alone, and with room for its entry is alone after it. */
  ghost predicate StaysAlone<V, L>(
    run: Run<Pool<V>, L>, att: Attention<V, L>, table: Table, blockSize: nat, room: nat, o: Options,
    prompt: seq<int>, k: nat, u: nat)
    requires blockSize > 0 && run.Valid() && u < |run.lens|
  {
    LaneIsAlone(run, att, table, blockSize, o, prompt, k, u) ==>
      && run.At(k + 1).row[u] == LaneAt(AsLane(att), o, prompt, k + 1).1
      && (run.lens[u] + k < room ==> LaneIsAlone(run, att, table, blockSize, o, prompt, k + 1, u))
  }

  /** As long as a lane's positions stay inside its row, the other lanes leave no trace in it. */
  lemma {:induction false} AlwaysAlone<V, L>(
    run: Run<Pool<V>, L>, att: Attention<V, L>, table: Table, blockSize: nat, room: nat, o: Options,
    prompt: seq<int>, k: nat, u: nat)
    requires blockSize > 0 && run.Valid() && u < |run.lens| && run.lens[u] + k <= room
    requires LaneIsAlone(run, att, table, blockSize, o, prompt, 0, u)
    requires forall j: nat :: StaysAlone(run, att, table, blockSize, room, o, prompt, j, u)
    ensures LaneIsAlone(run, att, table, blockSize, o, prompt, k, u)
  {
    if k > 0 {
      AlwaysAlone(run, att, table, blockSize, room, o, prompt, k - 1, u);
      assert StaysAlone(run, att, table, blockSize, room, o, prompt, k - 1, u);
    }
  }

  /** Room for all entries that n steps read; the entry of the last step is written for nobody. */
  predicate HasRoom(promptLen: nat, n: nat, room: int) {
    n == 0 || promptLen + n - 1 <= room
  }

  lemma {:induction false} TokensAlone<V, L>(
    run: Run<Pool<V>, L>, att: Attention<V, L>, table: Table, blockSize: nat, room: nat, o: Options,
    prompt: seq<int>, n: nat, k: nat, u: nat)
    requires blockSize > 0 && run.Valid() && u < |run.lens| && HasRoom(run.lens[u], n, room) && k <= n
    requires run.At(0).row[u] == LaneAt(AsLane(att), o, prompt, 0).1
    requires n > 0 ==> LaneIsAlone(run, att, table, blockSize, o, prompt, 0, u)
    requires forall j: nat :: StaysAlone(run, att, table, blockSize, room, o, prompt, j, u)
    ensures run.At(k).row[u] == LaneAt(AsLane(att), o, prompt, k).1
  {
    if k > 0 {
      AlwaysAlone(run, att, table, blockSize, room, o, prompt, k - 1, u);
      assert StaysAlone(run, att, table, blockSize, room, o, prompt, k - 1, u);
    }
  }

  lemma {:induction false} AloneStream<V, L>(
    run: Run<Pool<V>, L>, att: Attention<V, L>, table: Table, blockSize: nat, room: nat, o: Options,
    prompt: seq<int>, n: nat, u: nat)
    requires blockSize > 0 && run.Valid() && u < |run.lens| && HasRoom(run.lens[u], n, room)
    requires run.At(0).row[u] == LaneAt(AsLane(att), o, prompt, 0).1
    requires n > 0 ==> LaneIsAlone(run, att, table, blockSize, o, prompt, 0, u)
    requires forall j: nat :: StaysAlone(run, att, table, blockSize, room, o, prompt, j, u)
    ensures run.Stream(AllSteps(n), u) == LaneStream(AsLane(att), o, prompt, n)
  {
    var stream, alone := run.Stream(AllSteps(n), u), LaneStream(AsLane(att), o, prompt, n);
    forall k | 0 <= k <= n ensures stream[k] == alone[k] {
      TokensAlone(run, att, table, blockSize, room, o, prompt, n, k, u);
      StreamAt(run, n, u, k);
    }
  }

  /** The stream of lane u from the shared pool is the one that its prompt has on a lane of its own. */
  ghost predicate StreamAlone<V, L>(
    att: Attention<V, L>, stale: Pool<V>, table: Table, blockSize: nat, o: Options, prompts: seq<seq<int>>,
    maxBatchSize: nat, n: nat, u: nat)
    requires blockSize > 0 && u < |prompts|
  {
    PooledRun(att, stale, table, blockSize, o, prompts, maxBatchSize).Stream(AllSteps(n), u)
    == LaneStream(AsLane(att), o, prompts[u], n)
  }

  lemma {:induction false} PooledStreams<V(!new), L>(
    att: Attention<V, L>, stale: Pool<V>, table: Table, blockSize: nat, room: nat, o: Options,
    prompts: seq<seq<int>>, maxBatchSize: nat, n: nat, u: nat)
    requires KeepsApart(att.blank, table, blockSize, u, room) && u < |prompts| && HasRoom(|prompts[u]|, n, room)
    ensures StreamAlone(att, stale, table, blockSize, o, prompts, maxBatchSize, n, u)
  {
    var run := PooledRun(att, stale, table, blockSize, o, prompts, maxBatchSize);
    LaneStart(att, stale, table, blockSize, room, o, prompts, maxBatchSize, u);
    forall j: nat ensures StaysAlone(run, att, table, blockSize, room, o, prompts[u], j, u) {
      LaneStep(run, att, stale, table, blockSize, room, o, prompts[u], j, u);
    }
    AloneStream(run, att, table, blockSize, room, o, prompts[u], n, u);
  }

  // ---- Without room

  /** Lane u's first step without a cell for its entry is the one at the first position behind its row. */
  lemma FirstStepWithoutRoom(t: seq<int>, p: seq<int>, table: Table, blockSize: nat, promptLen: nat, k: nat, u: nat)
    requires Active(t, p, u) && p[u] == promptLen + k
    ensures Fits(t, p, table, blockSize, u) <==> k < Room(table, blockSize, u) - promptLen
  {
  }

  /** Attention that repeats the newest entry it sees; every entry is 1, and a missing one reads as 0. */
  function NewestEntry(): (att: Attention<int, int>) {
    Attention(
      (prompt: seq<int>, q: nat) => 1, (prompt: seq<int>) => 1, (c: seq<int>, token: int) => 1,
      (c: seq<int>, token: int) => if c == [] then 1 else c[|c| - 1],
      0, 0, (l: int) => l, (l: int) => l, (l: int) => 0.0, (l: int) => l)
  }

  lemma {:induction false} NewestEntryAlone(o: Options, prompt: seq<int>, k: nat)
    ensures var (c, token) := LaneAt(AsLane(NewestEntry()), o, prompt, k);
      token == 1 && |c| == |prompt| + k && forall q :: 0 <= q < |c| ==> c[q] == 1
  {
    if k > 0 {
      NewestEntryAlone(o, prompt, k - 1);
      AloneStep(NewestEntry(), o, prompt, k - 1);
    }
  }

  lemma {:induction false} SeenEndsBlank<V, L>(
    run: Run<Pool<V>, L>, att: Attention<V, L>, table: Table, blockSize: nat, k: nat, u: nat)
    requires blockSize > 0 && u < |run.lens| && run.lens[u] + k > Room(table, blockSize, u)
    ensures var seen := Seen(run, att, table, blockSize, k, u);
      seen != [] && seen[|seen| - 1] == att.blank
  {
  }

  lemma {:induction false} NewestPick(o: Options, seen: seq<int>, token: int)
    requires seen != []
    ensures PickOf(NewestEntry(), o)(NewestEntry().attend(seen, token)) == seen[|seen| - 1]
  {
  }

  lemma {:induction false} TokenWithoutRoom(
    run: Run<Pool<int>, int>, stale: Pool<int>, table: Table, blockSize: nat, o: Options, k: nat, u: nat)
    requires blockSize > 0 && OnPool(run, NewestEntry(), stale, table, blockSize)
    requires run.pick == PickOf(NewestEntry(), o) && u < |run.lens|
    requires run.lens[u] + k > Room(table, blockSize, u)
    ensures run.At(k + 1).row[u] == 0
  {
    LaneToken(run, NewestEntry(), stale, table, blockSize, k, u);
    SeenEndsBlank(run, NewestEntry(), table, blockSize, k, u);
    NewestPick(o, Seen(run, NewestEntry(), table, blockSize, k, u), run.At(k).row[u]);
  }

  /** Without room the last token shows it, as its newest entry was never written. */
  lemma {:induction false} RunWithoutRoom(
    run: Run<Pool<int>, int>, stale: Pool<int>, table: Table, blockSize: nat, o: Options, prompt: seq<int>, k: nat,
    u: nat)
    requires blockSize > 0 && OnPool(run, NewestEntry(), stale, table, blockSize)
    requires run.pick == PickOf(NewestEntry(), o) && u < |run.lens|
    requires run.lens[u] + k > Room(table, blockSize, u)
    ensures run.Stream(AllSteps(k + 1), u) != LaneStream(AsLane(NewestEntry()), o, prompt, k + 1)
  {
    TokenWithoutRoom(run, stale, table, blockSize, o, k, u);
    StreamAt(run, k + 1, u, k + 1);
    NewestEntryAlone(o, prompt, k + 1);
    assert LaneStream(AsLane(NewestEntry()), o, prompt, k + 1)[k + 1] == 1;
  }

  /** On the device that echoes its newest entry, a lane without room leaves the stream its prompt has alone. */
  lemma {:induction false} NoRoomShows(
    stale: Pool<int>, table: Table, blockSize: nat, o: Options, prompts: seq<seq<int>>, maxBatchSize: nat, k: nat,
    u: nat)
    requires blockSize > 0 && u < |prompts| && |prompts[u]| + k > Room(table, blockSize, u)
    ensures !StreamAlone(NewestEntry(), stale, table, blockSize, o, prompts, maxBatchSize, k + 1, u)
  {
    var run := PooledRun(NewestEntry(), stale, table, blockSize, o, prompts, maxBatchSize);
    RunWithoutRoom(run, stale, table, blockSize, o, prompts[u], k, u);
  }

  lemma {:induction false} RoomSuffices<V(!new), L>(
    att: Attention<V, L>, stale: Pool<V>, table: Table, rows: nat, columns: nat, shift: int, blockSize: nat,
    o: Options, prompts: seq<seq<int>>, maxBatchSize: nat, n: nat, u: nat)
    requires IsRolled(table, rows, columns, shift) && blockSize > 0 && rows == Max(maxBatchSize, |prompts|)
    requires u < |prompts| && HasRoom(|prompts[u]|, n, columns * blockSize)
    ensures StreamAlone(att, stale, table, blockSize, o, prompts, maxBatchSize, n, u)
  {
    RolledKeepsApart(att.blank, table, rows, columns, shift, blockSize, u);
    PooledStreams(att, stale, table, blockSize, columns * blockSize, o, prompts, maxBatchSize, n, u);
  }

  lemma {:induction false} RoomNeeded(
    stale: Pool<int>, table: Table, rows: nat, columns: nat, shift: int, blockSize: nat,
    o: Options, prompts: seq<seq<int>>, maxBatchSize: nat, n: nat, u: nat)
    requires IsRolled(table, rows, columns, shift) && blockSize > 0 && rows == Max(maxBatchSize, |prompts|)
    requires u < |prompts| && !HasRoom(|prompts[u]|, n, columns * blockSize)
    ensures !StreamAlone(NewestEntry(), stale, table, blockSize, o, prompts, maxBatchSize, n, u)
  {
    assert Room(table, blockSize, u) == columns * blockSize;
    NoRoomShows(stale, table, blockSize, o, prompts, maxBatchSize, n - 1, u);
  }

  /** Lane u has the stream that its prompt has alone, on every device and whatever the pool held before. */
  ghost predicate AlwaysStreamsAlone(
    table: Table, blockSize: nat, o: Options, prompts: seq<seq<int>>, maxBatchSize: nat, n: nat, u: nat)
    requires blockSize > 0 && u < |prompts|
  {
    forall att: Attention<int, int>, stale: Pool<int> ::
      StreamAlone(att, stale, table, blockSize, o, prompts, maxBatchSize, n, u)
  }

  /** That is so exactly with room for the entries. */
  lemma {:induction false} RoomExactly(
    table: Table, rows: nat, columns: nat, shift: int, blockSize: nat, o: Options, prompts: seq<seq<int>>,
    maxBatchSize: nat, n: nat, u: nat)
    requires IsRolled(table, rows, columns, shift) && blockSize > 0 && rows == Max(maxBatchSize, |prompts|)
    requires u < |prompts|
    ensures AlwaysStreamsAlone(table, blockSize, o, prompts, maxBatchSize, n, u)
       <==> HasRoom(|prompts[u]|, n, columns * blockSize)
  {
    if HasRoom(|prompts[u]|, n, columns * blockSize) {
      forall att: Attention<int, int>, stale: Pool<int>
        ensures StreamAlone(att, stale, table, blockSize, o, prompts, maxBatchSize, n, u)
      {
        RoomSuffices(att, stale, table, rows, columns, shift, blockSize, o, prompts, maxBatchSize, n, u);
      }
    } else {
      RoomNeeded(map[], table, rows, columns, shift, blockSize, o, prompts, maxBatchSize, n, u);
    }
  }

  /**
   With the decode budget of a clamped run the room is always there, so the shared pool never shows: every
   stream is the one its prompt has alone.
   */
  lemma {:induction false} ClampedPooledStreams<V(!new), L>(
    att: Attention<V, L>, stale: Pool<V>, table: Table, rows: nat, columns: nat, shift: int,
    o: Options, prompts: seq<seq<int>>, maxBatchSize: nat, requested: int, maxSeqLen: int, u: nat)
    requires IsRolled(table, rows, columns, shift) && rows == Max(maxBatchSize, |prompts|)
    requires maxSeqLen <= columns * 32 && u < |prompts|
    ensures var n := Steps(QwenBudget(requested, maxSeqLen, Lengths(prompts)));
      StreamAlone(att, stale, table, 32, o, prompts, maxBatchSize, n, u)
  {
    var n := Steps(QwenBudget(requested, maxSeqLen, Lengths(prompts)));
    if n > 0 {
      ClampKeepsPositions(requested, maxSeqLen, Lengths(prompts), u, n - 1);
    }
    RolledKeepsApart(att.blank, table, rows, columns, shift, 32, u);
    PooledStreams(att, stale, table, 32, columns * 32, o, prompts, maxBatchSize, n, u);
  }

  // ---- The determinism case on a pooled device

  lemma {:induction false} SlotKeptApart<V(!new), P, T>(
    blank: V, case_: Case<P, T>, rows: nat, columns: nat, blockSize: nat, b: nat, u: nat)
    requires blockSize > 0 && u < rows && case_.ModeSupported() && IsRolled(case_.pageTable, rows, columns, 0)
    ensures KeepsApart(blank, case_.TableFor(b), blockSize, u, columns * blockSize)
  {
    RepeatTable(case_.pageTable, rows, columns, b, case_.pageTableMode);
    RolledKeepsApart(blank, case_.TableFor(b), rows, columns, if case_.pageTableMode == "slot-stable" then 0 else b,
                     blockSize, u);
  }

  lemma {:induction false} PooledSlotAlone<V(!new), L, P, T>(
    backend: Backend<Pool<V>, L>, att: Attention<V, L>, stale: Pool<V>, blockSize: nat, room: nat, case_: Case<P, T>,
    prompts: seq<P>, b: nat, u: nat)
    requires u < |prompts| == case_.maxBatchSize && KeepsApart(att.blank, case_.TableFor(b), blockSize, u, room)
    requires backend(case_.TableFor(b)) == PooledModel(att, stale, case_.TableFor(b), blockSize)
    requires HasRoom(|case_.encode(prompts[Mod(u + b, |prompts|)])|, Steps(case_.numDecodeTokens), room)
    ensures SlotAlone(backend, AsLane(att), case_, prompts, b, u)
  {
    TokensAt(case_, prompts, b, u);
    PooledStreams(att, stale, case_.TableFor(b), blockSize, room, case_.RunOptions(), case_.Tokens(prompts, b),
                  |prompts|, Steps(case_.numDecodeTokens), u);
    AloneByStream(backend, AsLane(att), case_, prompts, b, u);
  }

  /** The case's page table is the contiguous one for its prompts. */
  predicate Contiguous<P, T>(case_: Case<P, T>, rows: nat, maxSeqLen: int, blockSize: nat) {
    MakeContiguousPageTable(rows, maxSeqLen, blockSize) == Ok(case_.pageTable)
  }

  lemma {:induction false} ContiguousSlotAlone<V(!new), L, P, T>(
    backend: Backend<Pool<V>, L>, att: Attention<V, L>, stale: Pool<V>, maxSeqLen: int, blockSize: nat,
    case_: Case<P, T>, prompts: seq<P>, b: nat, u: nat)
    requires u < |prompts| == case_.maxBatchSize && case_.ModeSupported()
    requires blockSize > 0 && Contiguous(case_, |prompts|, maxSeqLen, blockSize)
    requires backend(case_.TableFor(b)) == PooledModel(att, stale, case_.TableFor(b), blockSize)
    requires HasRoom(|case_.encode(prompts[Mod(u + b, |prompts|)])|, Steps(case_.numDecodeTokens), maxSeqLen)
    ensures SlotAlone(backend, AsLane(att), case_, prompts, b, u)
  {
    var columns := BlocksPerUser(maxSeqLen, blockSize);
    ContiguousTable(|prompts|, maxSeqLen, blockSize);
    SlotKeptApart(att.blank, case_, |prompts|, columns, blockSize, b, u);
    PooledSlotAlone(backend, att, stale, blockSize, columns * blockSize, case_, prompts, b, u);
  }

  /**
   In slot-stable and in prompt-stable mode alike, a determinism case on a device with one shared pool succeeds
   exactly when no prompt alone generates a special token before its first stop token, provided that the prompts
   and their steps fit into the sequence length for which the page table was made.
   */
  method RunOnPooledDevice<V(!new), L, P, T(==)>(
    att: Attention<V, L>, stale: Pool<V>, maxSeqLen: int, blockSize: nat, case_: Case<P, T>, prompts: seq<P>,
    repeats: nat) returns (r: Result<(), EvalError>)
    requires 0 < |prompts| == case_.maxBatchSize && repeats >= 2 && case_.ModeSupported()
    requires blockSize > 0 && Contiguous(case_, |prompts|, maxSeqLen, blockSize)
    requires forall i :: 0 <= i < |prompts| ==>
      HasRoom(|case_.encode(prompts[i])|, Steps(case_.numDecodeTokens), maxSeqLen)
    ensures r.Ok? <==> case_.Clean(AllAlone(AsLane(att), case_, prompts))
  {
    var backend: Backend<Pool<V>, L> := table => PooledModel(att, stale, table, blockSize);
    forall b, u | 0 <= b < repeats && 0 <= u < |prompts|
      ensures SlotAlone(backend, AsLane(att), case_, prompts, b, u)
    {
      ContiguousSlotAlone(backend, att, stale, maxSeqLen, blockSize, case_, prompts, b, u);
    }
    r := RunWithoutInterference(backend, AsLane(att), stale, case_, prompts, repeats);
  }
}
