/**
  * Coalescing of write hints: adjacent runs are joined inside fixed blocks of columns, so that
  * the list does not depend on how the updates were batched.
  */
module WriteRuns {
  import opened Common

  const LAST_COLUMN: nat := 65535
  const BLOCK_COLUMNS: nat := 256
  const MAX_RUN_BYTES: nat := BLOCK_COLUMNS * 4

  type Coordinate = c: int | 0 <= c <= LAST_COLUMN

  /** `Edit` stands for every operation that is passed through unchanged; `id` tells them apart. */
  datatype Operation = WriteRun(row: Coordinate, col: Coordinate, text: string) | Edit(id: int)

  function Utf8Length(text: string): nat {
    if text == "" then 0
    else Utf8Length(text[..|text| - 1]) + CharBytes(text[|text| - 1])
  }

  function CharBytes(c: char): (n: nat)
    ensures 1 <= n <= 4
  {
    var scalar := c as int;
    if scalar < 0x80 then 1 else if scalar < 0x800 then 2 else if scalar < 0x1_0000 then 3 else 4
  }

  /** The column `count` places to the right, saturating at the 16-bit limit. */
  function Right(col: Coordinate, count: nat): Coordinate {
    Min(col + count, LAST_COLUMN)
  }

  function Block(col: Coordinate): nat {
    col / BLOCK_COLUMNS
  }

  function ColumnsLeft(col: Coordinate): nat {
    BLOCK_COLUMNS - col % BLOCK_COLUMNS
  }

  // ----- specification functions -----

  /** The last operation of `target` can take the chunk. */
  predicate Joins(target: seq<Operation>, row: Coordinate, col: Coordinate, text: string) {
    target != [] &&
    var last := target[|target| - 1];
    && last.WriteRun?
    && last.row == row
    && Block(last.col) == Block(col)
    && Utf8Length(last.text) + Utf8Length(text) <= MAX_RUN_BYTES
    && Right(last.col, |last.text|) == col
  }

  function AppendChunk(target: seq<Operation>, row: Coordinate, col: Coordinate, text: string): seq<Operation> {
    if Joins(target, row, col, text) then
      var last := target[|target| - 1];
      target[..|target| - 1] + [WriteRun(last.row, last.col, last.text + text)]
    else target + [WriteRun(row, col, text)]
  }

  function AppendRun(target: seq<Operation>, row: Coordinate, col: Coordinate, text: string): seq<Operation>
    decreases |text|
  {
    var limit := ColumnsLeft(col);
    if text == "" || col == LAST_COLUMN || |text| <= limit then AppendChunk(target, row, col, text)
    else AppendRun(AppendChunk(target, row, col, text[..limit]), row, Right(col, limit), text[limit..])
  }

  function AppendOne(target: seq<Operation>, operation: Operation): seq<Operation> {
    match operation
    case WriteRun(row, col, text) => AppendRun(target, row, col, text)
    case Edit(_) => target + [operation]
  }

  /** The list held after merging the operations of a later update. */
  function AppendAll(target: seq<Operation>, source: seq<Operation>): seq<Operation> {
    if source == [] then target
    else AppendOne(AppendAll(target, source[..|source| - 1]), source[|source| - 1])
  }

  lemma OneChunk(target: seq<Operation>, row: Coordinate, col: Coordinate, text: string)
    requires text == "" || col == LAST_COLUMN || |text| <= ColumnsLeft(col)
    ensures AppendRun(target, row, col, text) == AppendChunk(target, row, col, text)
  {
  }

  lemma CutChunk(target: seq<Operation>, row: Coordinate, col: Coordinate, text: string)
    requires col != LAST_COLUMN && |text| > ColumnsLeft(col)
    ensures var limit := ColumnsLeft(col);
      AppendRun(target, row, col, text)
        == AppendRun(AppendChunk(target, row, col, text[..limit]), row, Right(col, limit), text[limit..])
  {
  }

  // ----- the algorithms -----

  class OperationLog {
    var operations: seq<Operation>

    constructor ()
      ensures operations == []
    {
      operations := [];
    }

    method WriteChunk(row: Coordinate, col: Coordinate, text: string)
      modifies this
      ensures operations == AppendChunk(old(operations), row, col, text)
    {
      if operations != [] {
        var last := operations[|operations| - 1];
        if && last.WriteRun?
           && last.row == row
           && last.col / BLOCK_COLUMNS == col / BLOCK_COLUMNS
           && Utf8Length(last.text) + Utf8Length(text) <= MAX_RUN_BYTES
           && Right(last.col, |last.text|) == col {
          operations := operations[|operations| - 1 := last.(text := last.text + text)];
          return;
        }
      }
      operations := operations + [WriteRun(row, col, text)];
    }

    /** Scans the characters once, cutting a chunk at every block boundary. */
    method Write(row: Coordinate, col: Coordinate, text: string)
      modifies this
      ensures operations == AppendRun(old(operations), row, col, text)
    {
      hide Joins, Utf8Length, AppendChunk, AppendRun;
      ghost var before := operations;
      if text == "" || col == LAST_COLUMN {
        WriteChunk(row, col, text);
        OneChunk(before, row, col, text);
        return;
      }
      var chunkStart, chunkColumns := 0, 0;
      var chunkCol: Coordinate := col;
      var chunkLimit := BLOCK_COLUMNS - chunkCol % BLOCK_COLUMNS;
      var split := false;
      for index := 0 to |text|
        invariant chunkStart + chunkColumns == index <= |text|
        invariant chunkColumns <= chunkLimit == ColumnsLeft(chunkCol)
        invariant index > 0 ==> chunkColumns > 0
        invariant chunkCol != LAST_COLUMN
        invariant !split ==> chunkStart == 0 && chunkCol == col
        invariant AppendRun(operations, row, chunkCol, text[chunkStart..]) == AppendRun(before, row, col, text)
      {
        if chunkColumns == chunkLimit {
          ghost var rest := text[chunkStart..];
          assert rest[..chunkLimit] == text[chunkStart..index] && rest[chunkLimit..] == text[index..];
          CutChunk(operations, row, chunkCol, rest);
          WriteChunk(row, chunkCol, text[chunkStart..index]);
          split := true;
          chunkCol := Right(chunkCol, chunkColumns);
          chunkStart := index;
          chunkColumns := 0;
          if chunkCol == LAST_COLUMN {
            OneChunk(operations, row, chunkCol, text[chunkStart..]);
            WriteChunk(row, chunkCol, text[chunkStart..]);
            return;
          }
          chunkLimit := BLOCK_COLUMNS - chunkCol % BLOCK_COLUMNS;
        }
        chunkColumns := chunkColumns + 1;
      }
      OneChunk(operations, row, chunkCol, text[chunkStart..]);
      if split {
        WriteChunk(row, chunkCol, text[chunkStart..]);
      } else {
        assert text[chunkStart..] == text;
        WriteChunk(row, chunkCol, text);
      }
    }

    method Append(source: seq<Operation>)
      modifies this
      ensures operations == AppendAll(old(operations), source)
    {
      for i := 0 to |source|
        invariant operations == AppendAll(old(operations), source[..i])
      {
        assert source[..i + 1][..i] == source[..i];
        match source[i] {
          case WriteRun(row, col, text) => Write(row, col, text);
          case Edit(_) => operations := operations + [source[i]];
        }
      }
      assert source[..|source|] == source;
    }
  }

  // ----- nothing is lost, moved or invented -----

  datatype Mark = Cell(row: Coordinate, col: Coordinate, value: char) | Passed(id: int)

  /** The characters of a run with the cells they are written to. */
  function RunCells(row: Coordinate, col: Coordinate, text: string): seq<Mark> {
    seq(|text|, i requires 0 <= i < |text| => Cell(row, Right(col, i), text[i]))
  }

  function Marks(operation: Operation): seq<Mark> {
    match operation
    case WriteRun(row, col, text) => RunCells(row, col, text)
    case Edit(id) => [Passed(id)]
  }

  function Flattened(operations: seq<Operation>): seq<Mark> {
    if operations == [] then []
    else Flattened(operations[..|operations| - 1]) + Marks(operations[|operations| - 1])
  }

  lemma FlattenedPush(operations: seq<Operation>, last: Operation)
    ensures Flattened(operations + [last]) == Flattened(operations) + Marks(last)
  {
    assert (operations + [last])[..|operations|] == operations;
  }

  lemma RunCellsSplit(row: Coordinate, col: Coordinate, head: string, tail: string)
    ensures RunCells(row, col, head + tail) == RunCells(row, col, head) + RunCells(row, Right(col, |head|), tail)
  {
  }

  lemma ChunkKeepsCells(target: seq<Operation>, row: Coordinate, col: Coordinate, text: string)
    ensures Flattened(AppendChunk(target, row, col, text)) == Flattened(target) + RunCells(row, col, text)
  {
    if Joins(target, row, col, text) {
      var front, last := target[..|target| - 1], target[|target| - 1];
      FlattenedPush(front, WriteRun(last.row, last.col, last.text + text));
      RunCellsSplit(row, last.col, last.text, text);
      assert target == front + [last];
      assert Flattened(front) + (Marks(last) + RunCells(row, col, text)) == Flattened(target) + RunCells(row, col, text);
    } else {
      FlattenedPush(target, WriteRun(row, col, text));
    }
  }

  lemma {:induction false} RunKeepsCells(target: seq<Operation>, row: Coordinate, col: Coordinate, text: string)
    ensures Flattened(AppendRun(target, row, col, text)) == Flattened(target) + RunCells(row, col, text)
    decreases |text|
  {
    hide Flattened, RunCells, AppendChunk;
    var limit := ColumnsLeft(col);
    if text == "" || col == LAST_COLUMN || |text| <= limit {
      ChunkKeepsCells(target, row, col, text);
    } else {
      var head, tail := text[..limit], text[limit..];
      var start := Right(col, limit);
      ChunkKeepsCells(target, row, col, head);
      RunKeepsCells(AppendChunk(target, row, col, head), row, start, tail);
      assert text == head + tail;
      RunCellsSplit(row, col, head, tail);
      Reassociate(Flattened(target), RunCells(row, col, head), RunCells(row, start, tail));
    }
  }

  /** Coalescing writes the same characters to the same cells in the same order, for every input. */
  lemma {:induction false} CoalescingKeepsEveryCell(target: seq<Operation>, source: seq<Operation>)
    ensures Flattened(AppendAll(target, source)) == Flattened(target) + Flattened(source)
  {
    hide RunCells, AppendRun;
    if source == [] {
      assert Flattened(target) + [] == Flattened(target);
    } else {
      var front, last := source[..|source| - 1], source[|source| - 1];
      CoalescingKeepsEveryCell(target, front);
      var before := AppendAll(target, front);
      Reassociate(Flattened(target), Flattened(front), Marks(last));
      if last.WriteRun? {
        RunKeepsCells(before, last.row, last.col, last.text);
      } else {
        FlattenedPush(before, last);
      }
    }
  }

  // ----- blocks bound every run -----

  /** The run ends before the saturating column. */
  predicate Fits(operation: Operation) {
    operation.WriteRun? ==> operation.col + |operation.text| <= LAST_COLUMN
  }

  predicate AllFit(operations: seq<Operation>) {
    forall i :: 0 <= i < |operations| ==> Fits(operations[i])
  }

  predicate InBlock(col: Coordinate, text: string) {
    |text| <= ColumnsLeft(col) && col + |text| <= LAST_COLUMN
  }

  predicate AllInBlocks(operations: seq<Operation>) {
    forall i :: 0 <= i < |operations| && operations[i].WriteRun? ==> InBlock(operations[i].col, operations[i].text)
  }

  lemma {:induction false} Utf8LengthIsBounded(text: string)
    ensures |text| <= Utf8Length(text) <= 4 * |text|
  {
    if text != "" {
      Utf8LengthIsBounded(text[..|text| - 1]);
    }
  }

  lemma {:induction false} Utf8LengthAppend(a: string, b: string)
    ensures Utf8Length(a + b) == Utf8Length(a) + Utf8Length(b)
  {
    if b == "" {
      assert a + b == a;
    } else {
      assert (a + b)[..|a + b| - 1] == a + b[..|b| - 1];
      Utf8LengthAppend(a, b[..|b| - 1]);
    }
  }

  /** Inside one block two adjacent texts together stay in the block and within the byte limit. */
  lemma AdjacentTextsStayInBlock(col: Coordinate, head: string, next: Coordinate, tail: string)
    requires InBlock(col, head) && InBlock(next, tail)
    requires Block(col) == Block(next) && Right(col, |head|) == next
    ensures InBlock(col, head + tail)
    ensures Utf8Length(head) + Utf8Length(tail) <= MAX_RUN_BYTES
  {
    Utf8LengthIsBounded(head);
    Utf8LengthIsBounded(tail);
  }

  lemma ChunkStaysInBlocks(target: seq<Operation>, row: Coordinate, col: Coordinate, text: string)
    requires AllInBlocks(target) && InBlock(col, text)
    ensures AllInBlocks(AppendChunk(target, row, col, text))
  {
    hide Utf8Length;
    if Joins(target, row, col, text) {
      var last := target[|target| - 1];
      AdjacentTextsStayInBlock(last.col, last.text, col, text);
    }
  }

  lemma {:induction false} RunStaysInBlocks(target: seq<Operation>, row: Coordinate, col: Coordinate, text: string)
    requires AllInBlocks(target) && col + |text| <= LAST_COLUMN
    ensures AllInBlocks(AppendRun(target, row, col, text))
    decreases |text|
  {
    hide Joins;
    var limit := ColumnsLeft(col);
    if |text| <= limit {
      ChunkStaysInBlocks(target, row, col, text);
    } else {
      ChunkStaysInBlocks(target, row, col, text[..limit]);
      RunStaysInBlocks(AppendChunk(target, row, col, text[..limit]), row, Right(col, limit), text[limit..]);
    }
  }

  lemma {:induction false} AppendAllStaysInBlocks(target: seq<Operation>, source: seq<Operation>)
    requires AllInBlocks(target) && AllFit(source)
    ensures AllInBlocks(AppendAll(target, source))
  {
    if source != [] {
      var front, last := source[..|source| - 1], source[|source| - 1];
      AppendAllStaysInBlocks(target, front);
      if last.WriteRun? {
        RunStaysInBlocks(AppendAll(target, front), last.row, last.col, last.text);
      }
    }
  }

  /** An accumulator built from nothing holds only runs that stay in one block and within the byte limit. */
  lemma RunsStayShort(source: seq<Operation>, i: nat)
    requires AllFit(source) && i < |AppendAll([], source)| && AppendAll([], source)[i].WriteRun?
    ensures var run := AppendAll([], source)[i];
      && run.col / BLOCK_COLUMNS * BLOCK_COLUMNS <= run.col
      && run.col + |run.text| <= (run.col / BLOCK_COLUMNS + 1) * BLOCK_COLUMNS
      && Utf8Length(run.text) <= MAX_RUN_BYTES
  {
    AppendAllStaysInBlocks([], source);
    Utf8LengthIsBounded(AppendAll([], source)[i].text);
  }

  // ----- batching does not matter -----

  lemma SplitJoins(target: seq<Operation>, row: Coordinate, col: Coordinate, head: string, tail: string)
    requires Block(Right(col, |head|)) == Block(col) && Joins(target, row, col, head)
    ensures Joins(AppendChunk(target, row, col, head), row, Right(col, |head|), tail)
       <==> Joins(target, row, col, head + tail)
  {
    hide Utf8Length;
    var last := target[|target| - 1];
    Utf8LengthAppend(last.text, head);
    Utf8LengthAppend(head, tail);
  }

  lemma NewRunJoinsIff(target: seq<Operation>, row: Coordinate, col: Coordinate, head: string, tail: string)
    requires Block(Right(col, |head|)) == Block(col) && !Joins(target, row, col, head)
    ensures Joins(AppendChunk(target, row, col, head), row, Right(col, |head|), tail)
       <==> Utf8Length(head) + Utf8Length(tail) <= MAX_RUN_BYTES
    ensures !Joins(target, row, col, head + tail)
  {
    hide Utf8Length;
    Utf8LengthAppend(head, tail);
  }

  /** The byte limit does not fall between two adjacent texts. */
  predicate RegroupsAlike(target: seq<Operation>, row: Coordinate, col: Coordinate, head: string, tail: string) {
    if Joins(target, row, col, head) then head == "" || Joins(target, row, col, head + tail)
    else Utf8Length(head) + Utf8Length(tail) <= MAX_RUN_BYTES
  }

  /**
    * Two adjacent texts in one block may be appended together or one by one with the same result
    * exactly when the byte limit does not fall between them.
    */
  lemma RegroupingAgreesIff(target: seq<Operation>, row: Coordinate, col: Coordinate, head: string, tail: string)
    requires Block(Right(col, |head|)) == Block(col)
    ensures AppendChunk(AppendChunk(target, row, col, head), row, Right(col, |head|), tail)
         == AppendChunk(target, row, col, head + tail)
       <==> RegroupsAlike(target, row, col, head, tail)
  {
    if Joins(target, row, col, head) {
      SplitJoins(target, row, col, head, tail);
      RegroupAfterJoin(target, row, col, head, tail);
    } else {
      NewRunJoinsIff(target, row, col, head, tail);
      RegroupAfterPush(target, row, col, head, tail);
    }
  }

  lemma RegroupAfterPush(target: seq<Operation>, row: Coordinate, col: Coordinate, head: string, tail: string)
    requires !Joins(target, row, col, head) && !Joins(target, row, col, head + tail)
    ensures AppendChunk(AppendChunk(target, row, col, head), row, Right(col, |head|), tail)
         == AppendChunk(target, row, col, head + tail)
       <==> Joins(AppendChunk(target, row, col, head), row, Right(col, |head|), tail)
  {
    hide Joins;
    var pushed := target + [WriteRun(row, col, head)];
    assert AppendChunk(target, row, col, head) == pushed && pushed[..|target|] == target;
  }

  lemma RegroupAfterJoin(target: seq<Operation>, row: Coordinate, col: Coordinate, head: string, tail: string)
    requires Joins(target, row, col, head)
    requires Joins(AppendChunk(target, row, col, head), row, Right(col, |head|), tail)
        <==> Joins(target, row, col, head + tail)
    ensures AppendChunk(AppendChunk(target, row, col, head), row, Right(col, |head|), tail)
         == AppendChunk(target, row, col, head + tail)
       <==> head == "" || Joins(target, row, col, head + tail)
  {
    var next := Right(col, |head|);
    var front, last := target[..|target| - 1], target[|target| - 1];
    var grown := WriteRun(row, last.col, last.text + head);
    assert AppendChunk(target, row, col, head) == front + [grown];
    assert (front + [grown])[..|front|] == front && target == front + [last];
    if Joins(target, row, col, head + tail) {
      assert last.text + head + tail == last.text + (head + tail);
    } else {
      hide Joins;
      var once := AppendChunk(target, row, col, head + tail);
      var twice := AppendChunk(front + [grown], row, next, tail);
      assert once == front + [last] + [WriteRun(row, col, head + tail)];
      assert twice == front + [grown] + [WriteRun(row, next, tail)];
      if head == "" {
        assert head + tail == tail && last.text + head == last.text;
      } else {
        assert once[|front|] == last && twice[|front|].text == last.text + head;
      }
    }
  }

  lemma AppendAllPush(target: seq<Operation>, source: seq<Operation>, last: Operation)
    ensures AppendAll(target, source + [last]) == AppendOne(AppendAll(target, source), last)
  {
    assert (source + [last])[..|source|] == source;
  }

  /** Before the last column the limit of 1024 bytes never falls between texts of one block. */
  lemma InBlockRegroups(target: seq<Operation>, row: Coordinate, col: Coordinate, head: string, tail: string)
    requires col < LAST_COLUMN && |head| + |tail| <= ColumnsLeft(col)
    ensures RegroupsAlike(target, row, col, head, tail)
  {
    hide Utf8Length;
    Utf8LengthIsBounded(head);
    Utf8LengthIsBounded(tail);
    Utf8LengthAppend(head, tail);
    if Joins(target, row, col, head) {
      Utf8LengthIsBounded(target[|target| - 1].text);
    }
  }

  lemma JoinsInBlock(target: seq<Operation>, row: Coordinate, col: Coordinate, head: string, tail: string)
    requires col < LAST_COLUMN && |head| + |tail| <= ColumnsLeft(col) && Block(Right(col, |head|)) == Block(col)
    ensures Joins(AppendChunk(target, row, col, head), row, Right(col, |head|), tail)
  {
    hide Utf8Length;
    InBlockRegroups(target, row, col, head, tail);
    if Joins(target, row, col, head) {
      SplitJoins(target, row, col, head, tail);
      EmptyHeadJoins(target, row, col, head, tail);
    } else {
      NewRunJoinsIff(target, row, col, head, tail);
    }
  }

  lemma EmptyHeadJoins(target: seq<Operation>, row: Coordinate, col: Coordinate, head: string, tail: string)
    requires col < LAST_COLUMN && |head| + |tail| <= ColumnsLeft(col) && Joins(target, row, col, head)
    ensures Joins(target, row, col, head + tail)
  {
    hide Utf8Length;
    Utf8LengthIsBounded(head + tail);
    Utf8LengthIsBounded(target[|target| - 1].text);
  }

  /** A joined chunk is the last run of the batch, grown. */
  lemma JoinedBatch(target: seq<Operation>, batch: seq<Operation>, row: Coordinate, col: Coordinate, text: string)
    requires Joins(batch, row, col, text)
    ensures var front, last := batch[..|batch| - 1], batch[|batch| - 1];
      && last.WriteRun? && last.row == row
      && AppendAll(target, batch) == AppendRun(AppendAll(target, front), row, last.col, last.text)
      && AppendAll(target, AppendChunk(batch, row, col, text))
         == AppendRun(AppendAll(target, front), row, last.col, last.text + text)
  {
    var front, last := batch[..|batch| - 1], batch[|batch| - 1];
    assert batch == front + [last];
    AppendAllPush(target, front, last);
    AppendAllPush(target, front, WriteRun(row, last.col, last.text + text));
  }

  lemma PushedBatch(target: seq<Operation>, batch: seq<Operation>, row: Coordinate, col: Coordinate, text: string)
    requires !Joins(batch, row, col, text)
    ensures AppendAll(target, AppendChunk(batch, row, col, text)) == AppendRun(AppendAll(target, batch), row, col, text)
  {
    AppendAllPush(target, batch, WriteRun(row, col, text));
  }

  /** Before the last column, a chunk may be appended to the batch first or to the accumulator afterwards. */
  lemma ChunkCommutes(target: seq<Operation>, batch: seq<Operation>, row: Coordinate, col: Coordinate, text: string)
    requires col < LAST_COLUMN && |text| <= ColumnsLeft(col)
    ensures AppendAll(target, AppendChunk(batch, row, col, text)) == AppendChunk(AppendAll(target, batch), row, col, text)
  {
    if Joins(batch, row, col, text) {
      var front, last := batch[..|batch| - 1], batch[|batch| - 1];
      var before := AppendAll(target, front);
      JoinedBatch(target, batch, row, col, text);
      hide AppendAll, AppendChunk, Utf8Length, RegroupsAlike;
      OneChunk(before, row, last.col, last.text);
      OneChunk(before, row, last.col, last.text + text);
      InBlockRegroups(before, row, last.col, last.text, text);
      RegroupingAgreesIff(before, row, last.col, last.text, text);
    } else {
      PushedBatch(target, batch, row, col, text);
      OneChunk(AppendAll(target, batch), row, col, text);
    }
  }

  /**
    * What decides at the last column, where `last` is the run of the batch that takes the text and
    * `before` the accumulator in front of it: no byte limit may fall between the parts.
    */
  predicate LastColumnGroupsAlike(before: seq<Operation>, last: Operation, text: string)
    requires last.WriteRun?
  {
    var limit := ColumnsLeft(last.col);
    if last.col == LAST_COLUMN then RegroupsAlike(before, last.row, LAST_COLUMN, last.text, text)
    else if |last.text| + |text| <= limit then true
    else if |last.text| < limit then
      Joins(AppendChunk(before, last.row, last.col, last.text), last.row, LAST_COLUMN, text)
    else
      |last.text| == limit
      || RegroupsAlike(AppendChunk(before, last.row, last.col, last.text[..limit]), last.row, LAST_COLUMN,
                       last.text[limit..], text)
  }

  lemma GrownRunAtLastColumn(before: seq<Operation>, last: Operation, text: string)
    requires last.WriteRun? && Block(last.col) == Block(LAST_COLUMN) && Right(last.col, |last.text|) == LAST_COLUMN
    ensures AppendRun(before, last.row, last.col, last.text + text)
         == AppendChunk(AppendRun(before, last.row, last.col, last.text), last.row, LAST_COLUMN, text)
       <==> LastColumnGroupsAlike(before, last, text)
  {
    hide AppendChunk, AppendRun, Joins, RegroupsAlike, Utf8Length;
    var row, col, own, limit := last.row, last.col, last.text, ColumnsLeft(last.col);
    var both := own + text;
    if col == LAST_COLUMN {
      OneChunk(before, row, col, own);
      OneChunk(before, row, col, both);
      RegroupingAgreesIff(before, row, col, own, text);
    } else if |both| <= limit {
      OneChunk(before, row, col, own);
      OneChunk(before, row, col, both);
      InBlockRegroups(before, row, col, own, text);
      RegroupingAgreesIff(before, row, col, own, text);
    } else if |own| < limit {
      GrownPastLastColumn(before, last, text);
    } else {
      var head, tail := own[..limit], own[limit..];
      var cut := AppendChunk(before, row, col, head);
      assert both[..limit] == head && both[limit..] == tail + text && own == head + tail;
      CutChunk(before, row, col, both);
      OneChunk(cut, row, LAST_COLUMN, tail + text);
      if |own| == limit {
        assert own == head && tail + text == text;
        OneChunk(before, row, col, own);
      } else {
        CutChunk(before, row, col, own);
        OneChunk(cut, row, LAST_COLUMN, tail);
        RegroupingAgreesIff(cut, row, LAST_COLUMN, tail, text);
      }
    }
  }

  /** The run ends one column short of its block, and the text fills that column and goes on. */
  lemma GrownPastLastColumn(before: seq<Operation>, last: Operation, text: string)
    requires last.WriteRun? && Block(last.col) == Block(LAST_COLUMN) && Right(last.col, |last.text|) == LAST_COLUMN
    requires last.col < LAST_COLUMN && |last.text| < ColumnsLeft(last.col) < |last.text| + |text|
    ensures AppendRun(before, last.row, last.col, last.text + text)
         == AppendChunk(AppendRun(before, last.row, last.col, last.text), last.row, LAST_COLUMN, text)
       <==> Joins(AppendChunk(before, last.row, last.col, last.text), last.row, LAST_COLUMN, text)
  {
    var row, col, own, limit := last.row, last.col, last.text, ColumnsLeft(last.col);
    assert |own| + 1 == limit;
    var both, first, rest := own + text, text[..1], text[1..];
    assert both[..limit] == own + first && both[limit..] == rest && text == first + rest;
    CutChunk(before, row, col, both);
    OneChunk(before, row, col, own);
    var grown := AppendChunk(before, row, col, own);
    InBlockRegroups(before, row, col, own, first);
    RegroupingAgreesIff(before, row, col, own, first);
    JoinsInBlock(before, row, col, own, first);
    var full := AppendChunk(grown, row, LAST_COLUMN, first);
    OneChunk(full, row, LAST_COLUMN, rest);
    RegroupingAgreesIff(grown, row, LAST_COLUMN, first, rest);
  }

  predicate ChunkGroupsAlike(target: seq<Operation>, batch: seq<Operation>, row: Coordinate, text: string) {
    Joins(batch, row, LAST_COLUMN, text) ==>
      LastColumnGroupsAlike(AppendAll(target, batch[..|batch| - 1]), batch[|batch| - 1], text)
  }

  lemma LastColumnChunkIff(target: seq<Operation>, batch: seq<Operation>, row: Coordinate, text: string)
    ensures AppendAll(target, AppendChunk(batch, row, LAST_COLUMN, text))
         == AppendChunk(AppendAll(target, batch), row, LAST_COLUMN, text)
       <==> ChunkGroupsAlike(target, batch, row, text)
  {
    hide LastColumnGroupsAlike;
    if Joins(batch, row, LAST_COLUMN, text) {
      JoinedBatch(target, batch, row, LAST_COLUMN, text);
      GrownRunAtLastColumn(AppendAll(target, batch[..|batch| - 1]), batch[|batch| - 1], text);
    } else {
      PushedBatch(target, batch, row, LAST_COLUMN, text);
      OneChunk(AppendAll(target, batch), row, LAST_COLUMN, text);
    }
  }

  /** After a chunk that fills its block to the end, what follows at the last column commutes. */
  lemma FilledBlockGroupsAlike(target: seq<Operation>, batch: seq<Operation>, row: Coordinate, col: Coordinate,
                               head: string, text: string)
    requires col < LAST_COLUMN && |head| == ColumnsLeft(col)
    ensures ChunkGroupsAlike(target, AppendChunk(batch, row, col, head), row, text)
  {
    hide AppendAll, Utf8Length, RegroupsAlike;
    var filled := AppendChunk(batch, row, col, head);
    var last := filled[|filled| - 1];
    assert last.WriteRun? && last.col < LAST_COLUMN && |last.text| == ColumnsLeft(last.col);
  }

  /** A run that starts before the last column commutes, whatever it meets and wherever it ends. */
  lemma {:induction false} RunCommutes(target: seq<Operation>, batch: seq<Operation>, row: Coordinate, col: Coordinate,
                                       text: string)
    requires col < LAST_COLUMN
    ensures AppendAll(target, AppendRun(batch, row, col, text)) == AppendRun(AppendAll(target, batch), row, col, text)
    decreases |text|
  {
    hide Joins, AppendChunk, AppendAll, AppendRun, ChunkGroupsAlike;
    var limit := ColumnsLeft(col);
    if |text| <= limit {
      OneChunk(batch, row, col, text);
      OneChunk(AppendAll(target, batch), row, col, text);
      ChunkCommutes(target, batch, row, col, text);
    } else {
      var head, tail, next := text[..limit], text[limit..], Right(col, limit);
      var filled := AppendChunk(batch, row, col, head);
      CutChunk(batch, row, col, text);
      CutChunk(AppendAll(target, batch), row, col, text);
      ChunkCommutes(target, batch, row, col, head);
      if next < LAST_COLUMN {
        RunCommutes(target, filled, row, next, tail);
      } else {
        OneChunk(filled, row, next, tail);
        OneChunk(AppendAll(target, filled), row, next, tail);
        FilledBlockGroupsAlike(target, batch, row, col, head, tail);
        LastColumnChunkIff(target, filled, row, tail);
      }
    }
  }

  /**
    * The exact condition for one operation that arrives after a batch: only a run at the last column
    * can tell whether the batch was accumulated apart, and only if the byte limit falls between the
    * parts it is joined to.
    */
  predicate GroupsAlike(target: seq<Operation>, batch: seq<Operation>, operation: Operation) {
    operation.WriteRun? && operation.col == LAST_COLUMN ==>
      ChunkGroupsAlike(target, batch, operation.row, operation.text)
  }

  /** For every accumulator, every batch and every operation: grouping agrees if and only if the condition holds. */
  lemma GroupingAgreesIff(target: seq<Operation>, batch: seq<Operation>, operation: Operation)
    ensures AppendAll(target, AppendOne(batch, operation)) == AppendOne(AppendAll(target, batch), operation)
       <==> GroupsAlike(target, batch, operation)
  {
    hide AppendAll, AppendChunk, AppendRun, ChunkGroupsAlike;
    match operation {
      case Edit(_) => AppendAllPush(target, batch, operation);
      case WriteRun(row, col, text) =>
        if col < LAST_COLUMN {
          RunCommutes(target, batch, row, col, text);
        } else {
          OneChunk(batch, row, col, text);
          OneChunk(AppendAll(target, batch), row, col, text);
          LastColumnChunkIff(target, batch, row, text);
        }
    }
  }

  /** A run that ends before the saturating column meets the condition in accumulators of such runs. */
  lemma FittingRunsGroupAlike(target: seq<Operation>, batch: seq<Operation>, operation: Operation)
    requires AllInBlocks(batch) && Fits(operation)
    ensures GroupsAlike(target, batch, operation)
  {
    hide AppendAll, Utf8Length;
    Utf8LengthIsBounded("");
  }

  lemma AllFitInBlocks(operations: seq<Operation>)
    requires AllInBlocks(operations)
    ensures AllFit(operations)
  {
  }

  /** Merging a pre-merged batch equals merging its parts one at a time. */
  lemma {:induction false} BatchCommutes(target: seq<Operation>, batch: seq<Operation>, source: seq<Operation>)
    requires AllInBlocks(batch) && AllFit(source)
    ensures AppendAll(target, AppendAll(batch, source)) == AppendAll(AppendAll(target, batch), source)
  {
    if source != [] {
      var front, last := source[..|source| - 1], source[|source| - 1];
      BatchCommutes(target, batch, front);
      AppendAllStaysInBlocks(batch, front);
      var before := AppendAll(batch, front);
      FittingRunsGroupAlike(target, before, last);
      GroupingAgreesIff(target, before, last);
    }
  }

  lemma {:induction false} AppendAllConcat(target: seq<Operation>, a: seq<Operation>, b: seq<Operation>)
    ensures AppendAll(target, a + b) == AppendAll(AppendAll(target, a), b)
  {
    if b == [] {
      assert a + b == a;
    } else {
      assert (a + b)[..|a + b| - 1] == a + b[..|b| - 1];
      AppendAllConcat(target, a, b[..|b| - 1]);
    }
  }

  /** However a stream of operations is cut into updates, merging the accumulated updates gives one list. */
  lemma BatchingIsIrrelevant(a: seq<Operation>, b: seq<Operation>, c: seq<Operation>)
    requires AllFit(a) && AllFit(b) && AllFit(c)
    ensures AppendAll(AppendAll([], a), AppendAll([], b)) == AppendAll([], a + b)
    ensures AppendAll(AppendAll(AppendAll([], a), AppendAll([], b)), AppendAll([], c))
         == AppendAll(AppendAll([], a), AppendAll(AppendAll([], b), AppendAll([], c)))
  {
    hide AppendAll;
    assert AppendAll(AppendAll([], a), []) == AppendAll([], a) by { NothingAppended(AppendAll([], a)); }
    assert AppendAll(AppendAll([], b), []) == AppendAll([], b) by { NothingAppended(AppendAll([], b)); }
    var merged := AppendAll(AppendAll([], a), AppendAll([], b));
    assert AppendAll(merged, []) == merged by { NothingAppended(merged); }
    AppendAllStaysInBlocks([], a);
    AppendAllStaysInBlocks([], b);
    AppendAllStaysInBlocks([], c);
    AllFitInBlocks(AppendAll([], b));
    AllFitInBlocks(AppendAll([], c));
    AppendAllConcat([], a, b);
    BatchCommutes(AppendAll([], a), [], b);
    BatchCommutes(AppendAll([], a), AppendAll([], b), AppendAll([], c));
  }

  lemma NothingAppended(target: seq<Operation>)
    ensures AppendAll(target, []) == target
  {
  }

  lemma OneRunAtLastColumn(text: string)
    ensures AppendAll([], [WriteRun(0, LAST_COLUMN, text)]) == [WriteRun(0, LAST_COLUMN, text)]
  {
    hide Utf8Length;
    var none: seq<Operation>, run := [], WriteRun(0, LAST_COLUMN, text);
    AppendAllPush(none, none, run);
    OneChunk(none, 0, LAST_COLUMN, text);
    assert none + [run] == [run];
  }

  lemma LimitFallsBetween(long: string)
    requires |long| == 1023 && forall k :: 0 <= k < |long| ==> long[k] == 'x'
    ensures !GroupsAlike([WriteRun(0, LAST_COLUMN, long)], [WriteRun(0, LAST_COLUMN, "y")], WriteRun(0, LAST_COLUMN, "z"))
  {
    hide Utf8Length;
    var target, batch := [WriteRun(0, LAST_COLUMN, long)], [WriteRun(0, LAST_COLUMN, "y")];
    LengthOfAscii(long);
    LengthOfAscii("y");
    LengthOfAscii("z");
    LengthOfAscii("yz");
    assert "y" + "z" == "yz";
    assert !RegroupsAlike(target, 0, LAST_COLUMN, "y", "z");
    assert batch[..|batch| - 1] == [];
    NothingAppended(target);
  }

  /** At the saturating column the byte limit does bind, and then batching shows. */
  lemma BatchingShowsAtTheLastColumn()
    ensures exists a: seq<Operation>, b: seq<Operation> ::
              AppendAll(AppendAll([], a), AppendAll([], b)) != AppendAll([], a + b)
  {
    hide Utf8Length, AppendOne, AppendAll, GroupsAlike;
    var long := seq(1023, _ => 'x');
    var none: seq<Operation> := [];
    var y, z := WriteRun(0, LAST_COLUMN, "y"), WriteRun(0, LAST_COLUMN, "z");
    var a, b := [WriteRun(0, LAST_COLUMN, long)], [y] + [z];
    OneRunAtLastColumn(long);
    OneRunAtLastColumn("y");
    AppendAllPush(none, [y], z);
    AppendAllPush(a, [y], z);
    AppendAllConcat(none, a, b);
    LimitFallsBetween(long);
    GroupingAgreesIff(a, [y], z);
    assert AppendAll(AppendAll(none, a), AppendAll(none, b)) != AppendAll(none, a + b);
  }

  lemma {:induction false} LengthOfAscii(text: string)
    requires forall i :: 0 <= i < |text| ==> text[i] as int < 0x80
    ensures Utf8Length(text) == |text|
  {
    if text != "" {
      LengthOfAscii(text[..|text| - 1]);
    }
  }
}
