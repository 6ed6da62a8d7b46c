/**
Page tables (examples/common/run_helpers.py, examples/llama3_8b/benchmark.py).

Row u of a table lists the physical blocks of user u; position p lives in block p / blockSize of
the row, at offset p % blockSize.
*/
module PageTable {
  import opened Prelude
  import opened Rotation

  type Table = seq<seq<int>>

  datatype TableError = NonPositiveDimension | UnsupportedMode(mode: string)

  function BlocksPerUser(maxSeqLen: int, blockSize: int): int
    requires blockSize > 0
  {
    (maxSeqLen + blockSize - 1) / blockSize
  }

  function Arange(n: nat): seq<int> {
    seq(n, i => i)
  }

  function Reshape(flat: seq<int>, rows: nat, columns: nat): (t: Table)
    requires |flat| == rows * columns
    ensures |t| == rows && forall u :: 0 <= u < rows ==> |t[u]| == columns
  {
    seq(rows, u requires 0 <= u < rows => Row(flat, rows, columns, u))
  }

  function Row(flat: seq<int>, rows: nat, columns: nat, u: nat): (row: seq<int>)
    requires |flat| == rows * columns && u < rows
    ensures |row| == columns
  {
    RowFits(rows, columns, u);
    flat[u * columns..(u + 1) * columns]
  }

  lemma RowFits(rows: nat, columns: nat, u: nat)
    requires u < rows
    ensures 0 <= u * columns <= (u + 1) * columns <= rows * columns
    ensures (u + 1) * columns == u * columns + columns
  {
    assert rows * columns == (u + 1) * columns + (rows - u - 1) * columns;
  }

  function MakeContiguousPageTable(batchSize: int, maxSeqLen: int, blockSize: int): (r: Result<Table, TableError>) {
    if Min(Min(batchSize, maxSeqLen), blockSize) <= 0 then Err(NonPositiveDimension)
    else
      var columns := BlocksPerUser(maxSeqLen, blockSize);
      Ok(Reshape(Arange(batchSize * columns), batchSize, columns))
  }

  /** `eval_page_table_for_repeat`; rolling by -repeat moves row (j + repeat) mod n to row j. */
  function EvalPageTableForRepeat(table: Table, repeat: int, mode: string): (r: Result<Table, TableError>) {
    if mode == "slot-stable" then Ok(table)
    else if mode == "prompt-stable" then Ok(RotatePrompts(table, repeat))
    else Err(UnsupportedMode(mode))
  }

  datatype Cell = Cell(block: int, offset: int)

  function Address(table: Table, blockSize: nat, user: int, position: int): (c: Cell)
    requires blockSize > 0 && 0 <= user < |table|
    requires 0 <= position < |table[user]| * blockSize
  {
    BlockInRow(position, |table[user]|, blockSize);
    Cell(table[user][position / blockSize], position % blockSize)
  }

  lemma BlockInRow(position: nat, columns: nat, blockSize: nat)
    requires blockSize > 0 && position < columns * blockSize
    ensures position / blockSize < columns
  {
    MulOrder(position / blockSize + 1, columns, blockSize);
    assert position == (position / blockSize) * blockSize + position % blockSize;
  }

  /** Geometry shared by the contiguous table and all its rolled versions. */
  ghost predicate IsRolled(table: Table, rows: nat, columns: nat, shift: int) {
    rows > 0 && columns > 0 && |table| == rows
    && (forall u :: 0 <= u < rows ==> |table[u]| == columns)
    && (forall u, c :: 0 <= u < rows && 0 <= c < columns ==> table[u][c] == Mod(u + shift, rows) * columns + c)
  }

  /** The contiguous table is built exactly for positive dimensions, and its rows hold every position. */
  lemma ContiguousTable(batchSize: int, maxSeqLen: int, blockSize: int)
    ensures var r := MakeContiguousPageTable(batchSize, maxSeqLen, blockSize);
      && (r.Ok? <==> batchSize > 0 && maxSeqLen > 0 && blockSize > 0)
      && (r.Ok? ==>
           var columns := BlocksPerUser(maxSeqLen, blockSize);
           IsRolled(r.value, batchSize, columns, 0) && maxSeqLen <= columns * blockSize < maxSeqLen + blockSize)
  {
    if batchSize > 0 && maxSeqLen > 0 && blockSize > 0 {
      var columns := BlocksPerUser(maxSeqLen, blockSize);
      var x := maxSeqLen + blockSize - 1;
      assert x == columns * blockSize + x % blockSize;
      var t := MakeContiguousPageTable(batchSize, maxSeqLen, blockSize).value;
      forall u, c | 0 <= u < batchSize && 0 <= c < columns
        ensures t[u][c] == Mod(u, batchSize) * columns + c
      {
        RowFits(batchSize, columns, u);
        ModSmall(u, batchSize);
      }
    }
  }

  /** The page table for any repeat, in either mode, is a rolled contiguous table. */
  lemma RepeatTable(table: Table, rows: nat, columns: nat, repeat: int, mode: string)
    requires IsRolled(table, rows, columns, 0)
    ensures var r := EvalPageTableForRepeat(table, repeat, mode);
      && (r.Ok? <==> mode == "slot-stable" || mode == "prompt-stable")
      && (r.Ok? ==> IsRolled(r.value, rows, columns, if mode == "slot-stable" then 0 else repeat))
  {
    if mode == "prompt-stable" {
      forall u | 0 <= u < rows ensures |RotatePrompts(table, repeat)[u]| == columns {
        assert |table[Mod(u + repeat, rows)]| == columns;
      }
      forall u, c | 0 <= u < rows && 0 <= c < columns
        ensures RotatePrompts(table, repeat)[u][c] == Mod(u + repeat, rows) * columns + c
      {
        var v := Mod(u + repeat, rows);
        ModSmall(v, rows);
        assert table[v][c] == Mod(v + 0, rows) * columns + c;
      }
    }
  }

  // ---- (user, position) to (block, offset) is a bijection onto the pool

  ghost predicate InPool(c: Cell, rows: nat, columns: nat, blockSize: nat) {
    0 <= c.block < rows * columns && 0 <= c.offset < blockSize
  }

  function OwnerOf(c: Cell, rows: nat, columns: nat, shift: int): (user: nat)
    requires rows > 0 && columns > 0
    ensures user < rows
  {
    SlotOf(c.block / columns, shift, rows)
  }

  function PositionOf(c: Cell, columns: nat, blockSize: nat): (position: int)
    requires columns > 0
  {
    (c.block % columns) * blockSize + c.offset
  }

  /** One direction: the owner and position can be read back from the address. */
  lemma AddressInverse(table: Table, rows: nat, columns: nat, shift: int, blockSize: nat, user: nat, position: nat)
    requires IsRolled(table, rows, columns, shift) && blockSize > 0
    requires user < rows && position < columns * blockSize
    ensures var c := Address(table, blockSize, user, position);
      InPool(c, rows, columns, blockSize)
      && OwnerOf(c, rows, columns, shift) == user && PositionOf(c, columns, blockSize) == position
  {
    var c := Address(table, blockSize, user, position);
    BlockInRow(position, columns, blockSize);
    var v, k := Mod(user + shift, rows), position / blockSize;
    assert c.block == v * columns + k;
    ModUnique(c.block, columns, v, k);
    RowFits(rows, columns, v);
    PromptInSlot(user, shift, rows);
  }

  /** The other direction: every cell of the pool belongs to the user and position so read. */
  lemma AddressOnto(table: Table, rows: nat, columns: nat, shift: int, blockSize: nat, c: Cell)
    requires IsRolled(table, rows, columns, shift) && blockSize > 0
    requires InPool(c, rows, columns, blockSize)
    ensures var user, position := OwnerOf(c, rows, columns, shift), PositionOf(c, columns, blockSize);
      0 <= position < columns * blockSize && Address(table, blockSize, user, position) == c
  {
    var user, k := OwnerOf(c, rows, columns, shift), c.block % columns;
    BlockInRow(c.block, rows, columns);
    SlotHoldsPrompt(c.block / columns, shift, rows);
    assert table[user][k] == (c.block / columns) * columns + k == c.block;
    PositionSplits(k, columns, blockSize, c.offset);
  }

  lemma PositionSplits(k: nat, columns: nat, blockSize: nat, offset: nat)
    requires k < columns && offset < blockSize
    ensures var position := k * blockSize + offset;
      0 <= position < columns * blockSize && position / blockSize == k && position % blockSize == offset
  {
    RowFits(columns, blockSize, k);
    ModUnique(k * blockSize + offset, blockSize, k, offset);
  }

  // ---- The pool refines independent dense caches

  datatype Write<V> = Write(user: nat, position: nat, value: V)

  /** Positions that user u's row has room for. */
  function Room(table: Table, blockSize: nat, u: nat): (n: nat) {
    if u < |table| then |table[u]| * blockSize else 0
  }

  predicate InTable<V>(writes: seq<Write<V>>, table: Table, blockSize: nat) {
    forall i :: 0 <= i < |writes| ==> writes[i].position < Room(table, blockSize, writes[i].user)
  }

  /** The shared pool after the writes, each placed through the page table. */
  function WritePool<V>(pool: map<Cell, V>, table: Table, blockSize: nat, writes: seq<Write<V>>)
    : (r: map<Cell, V>)
    requires blockSize > 0 && InTable(writes, table, blockSize)
  {
    if writes == [] then pool
    else
      var w := writes[|writes| - 1];
      WritePool(pool, table, blockSize, writes[..|writes| - 1])
        [Address(table, blockSize, w.user, w.position) := w.value]
  }

  /** Each user's own cache, indexed by (user, position), after the same writes. */
  ghost function WriteDense<V>(dense: map<(int, int), V>, writes: seq<Write<V>>): (r: map<(int, int), V>) {
    if writes == [] then dense
    else
      var w := writes[|writes| - 1];
      WriteDense(dense, writes[..|writes| - 1])[(w.user, w.position) := w.value]
  }

  ghost predicate Agree<V>(
    pool: map<Cell, V>, dense: map<(int, int), V>, table: Table, rows: nat, columns: nat, shift: int, blockSize: nat)
    requires IsRolled(table, rows, columns, shift) && blockSize > 0
  {
    forall user, position | 0 <= user < rows && 0 <= position < columns * blockSize ::
      SameLookup(pool, Address(table, blockSize, user, position), dense, (user, position))
  }

  ghost predicate SameLookup<A, B, V>(m: map<A, V>, a: A, n: map<B, V>, b: B) {
    (a in m <==> b in n) && (a in m ==> m[a] == n[b])
  }

  /** Whatever users write in whatever order, reading through the table is reading one's own cache. */
  lemma {:induction false} PoolRefinesDense<V>(
    pool: map<Cell, V>, dense: map<(int, int), V>, table: Table,
    rows: nat, columns: nat, shift: int, blockSize: nat, writes: seq<Write<V>>)
    requires IsRolled(table, rows, columns, shift) && blockSize > 0 && InTable(writes, table, blockSize)
    requires Agree(pool, dense, table, rows, columns, shift, blockSize)
    ensures Agree(WritePool(pool, table, blockSize, writes), WriteDense(dense, writes),
                  table, rows, columns, shift, blockSize)
  {
    if writes != [] {
      var n := |writes| - 1;
      var w := writes[n];
      PoolRefinesDense(pool, dense, table, rows, columns, shift, blockSize, writes[..n]);
      var p := WritePool(pool, table, blockSize, writes[..n]);
      var d := WriteDense(dense, writes[..n]);
      var cell := Address(table, blockSize, w.user, w.position);
      AddressInverse(table, rows, columns, shift, blockSize, w.user, w.position);
      forall user, position | 0 <= user < rows && 0 <= position < columns * blockSize
        ensures SameLookup(p[cell := w.value], Address(table, blockSize, user, position),
                           d[(w.user, w.position) := w.value], (user, position))
      {
        AddressInverse(table, rows, columns, shift, blockSize, user, position);
        assert SameLookup(p, Address(table, blockSize, user, position), d, (user, position));
      }
    }
  }

  /** Prompt-stable mode: wherever prompt `i` sits in a repeat, it owns the blocks it owned at first. */
  lemma PromptStableBlocks<T>(prompts: seq<T>, table: Table, i: nat, repeat: int)
    requires |prompts| == |table| && i < |prompts|
    ensures var slot := SlotOf(i, repeat, |prompts|);
      && RotatePrompts(prompts, repeat)[slot] == prompts[i]
      && EvalPageTableForRepeat(table, repeat, "prompt-stable").Ok?
      && EvalPageTableForRepeat(table, repeat, "prompt-stable").value[slot] == table[i]
  {
    SlotHoldsPrompt(i, repeat, |prompts|);
  }

  // ---- The Llama spelling of the table

  /** `_contiguous_page_table`: block size 32, optionally one and the same row for every lane. */
  function LlamaPageTable(maxBatchSize: nat, maxSeqLen: nat, repeatPerLane: bool): (t: Table) {
    var columns := CeilDiv(maxSeqLen, 32);
    if repeatPerLane then seq(maxBatchSize, _ => Arange(columns))
    else Reshape(Arange(columns * maxBatchSize), maxBatchSize, columns)
  }

  /** `math.ceil(n / d)`. */
  function CeilDiv(n: nat, d: nat): (q: nat)
    requires d > 0
  {
    n / d + if n % d == 0 then 0 else 1
  }

  /** The least number of blocks of d positions that hold n positions. */
  lemma CeilDivLeast(n: nat, d: nat, k: nat)
    requires d > 0
    ensures k * d >= n <==> k >= CeilDiv(n, d)
  {
    var q := CeilDiv(n, d);
    assert n == (n / d) * d + n % d;
    MulOrder(n / d + 1, n / d, d);
    MulOrder(q, k, d);
    MulOrder(k, q, d);
  }

  /** On positive dimensions both helpers build the same table. */
  lemma LlamaTableAgrees(maxBatchSize: nat, maxSeqLen: nat)
    requires maxBatchSize > 0 && maxSeqLen > 0
    ensures MakeContiguousPageTable(maxBatchSize, maxSeqLen, 32) == Ok(LlamaPageTable(maxBatchSize, maxSeqLen, false))
  {
    var q := CeilDiv(maxSeqLen, 32);
    CeilDivLeast(maxSeqLen, 32, q);
    ModUnique(maxSeqLen + 31, 32, q, maxSeqLen + 31 - q * 32);
  }

  /** With `repeatPerLane` every lane uses the same block numbers, so lanes need pools of their own. */
  lemma LanesShareBlockNumbers(maxBatchSize: nat, maxSeqLen: nat, lane: nat, other: nat, position: nat)
    requires lane < maxBatchSize && other < maxBatchSize && position < maxSeqLen
    ensures var t := LlamaPageTable(maxBatchSize, maxSeqLen, true);
      Address(t, 32, lane, position) == Address(t, 32, other, position)
      == Cell(position / 32, position % 32)
  {
    CeilDivLeast(maxSeqLen, 32, CeilDiv(maxSeqLen, 32));
    BlockInRow(position, CeilDiv(maxSeqLen, 32), 32);
  }
}
