/** A dense descriptor set: rows in a persisted array whose last two cells hold the set's
    dimensions and size, with an in-memory copy that is flattened into one buffer. The array
    stands for TileDB's; a write that TileDB refuses or that breaks off is a parameter. */
module DescriptorStore {

  import opened Sequences

  const MAX_DESC: nat := 100000
  const METADATA_OFFSET: nat := MAX_DESC - 2

  type Float = real
  datatype Row = Row(desc: seq<Float>, labelId: int)
  datatype Labels = NoLabels | Given(ids: seq<int>)

  /** A write goes through, or it stops with these rows written. */
  datatype Fault = NoFault | Breaks(garbage: seq<Row>)

  /** What a caller gets: the number of the first row added, vectors, or an exception. */
  datatype Reply = Numbered(first: nat) | Fetched(floats: seq<Float>) | Failed

  // ------------------------------------------------------------------ flat rows

  predicate Wide(rows: seq<Row>, dims: nat) { forall i :: 0 <= i < |rows| ==> |rows[i].desc| == dims }

  /** The vectors of some rows, one after the other. */
  function Flat(rows: seq<Row>): seq<Float> {
    if rows == [] then [] else Flat(rows[..|rows| - 1]) + rows[|rows| - 1].desc
  }

  /** The labels of some rows. */
  function LabelsOf(rows: seq<Row>): seq<int> {
    if rows == [] then [] else LabelsOf(rows[..|rows| - 1]) + [rows[|rows| - 1].labelId]
  }

  /** The first `n` rows of an add, -1 being the label when none are given. */
  function Rows(floats: seq<Float>, dims: nat, labels: Labels, n: nat): (r: seq<Row>)
    requires |floats| >= n * dims && (labels.Given? ==> |labels.ids| >= n)
    ensures |r| == n && Wide(r, dims)
  {
    if n == 0 then []
    else
      Rows(floats, dims, labels, n - 1)
      + [Row(floats[(n - 1) * dims..n * dims], if labels.Given? then labels.ids[n - 1] else -1)]
  }

  /** The rows with these numbers. */
  function Picked(rows: seq<Row>, ids: seq<nat>): (r: seq<Row>)
    requires forall i :: 0 <= i < |ids| ==> ids[i] < |rows|
  {
    if ids == [] then [] else Picked(rows, ids[..|ids| - 1]) + [rows[ids[|ids| - 1]]]
  }

  lemma MulStep(i: nat, n: nat, dims: nat)
    requires i < n
    ensures 0 <= i * dims && i * dims + dims == (i + 1) * dims <= n * dims
  {
  }

  lemma {:induction false} FlatLength(rows: seq<Row>, dims: nat)
    requires Wide(rows, dims)
    ensures |Flat(rows)| == |rows| * dims
  {
    if rows != [] {
      FlatLength(rows[..|rows| - 1], dims);
      MulStep(|rows| - 1, |rows|, dims);
    }
  }

  lemma FlatLast(rows: seq<Row>, row: Row)
    ensures Flat(rows + [row]) == Flat(rows) + row.desc
    ensures LabelsOf(rows + [row]) == LabelsOf(rows) + [row.labelId]
  {
    assert (rows + [row])[..|rows|] == rows;
  }

  lemma {:induction false} FlatJoin(a: seq<Row>, b: seq<Row>)
    ensures Flat(a + b) == Flat(a) + Flat(b)
    ensures LabelsOf(a + b) == LabelsOf(a) + LabelsOf(b)
    decreases |b|
  {
    if b == [] {
      ConcatEmpty(a);
      ConcatEmpty(Flat(a));
      ConcatEmpty(LabelsOf(a));
    } else {
      var front := b[..|b| - 1];
      var last := b[|b| - 1];
      assert b == front + [last];
      FlatJoin(a, front);
      FlatLast(a + front, last);
      ConcatAssociates(a, front, [last]);
      ConcatAssociates(Flat(a), Flat(front), last.desc);
      ConcatAssociates(LabelsOf(a), LabelsOf(front), [last.labelId]);
    }
  }

  /** Row `i` of a flat buffer starts at `i * dims`. */
  lemma {:induction false} FlatAt(rows: seq<Row>, dims: nat, i: nat)
    requires Wide(rows, dims) && i < |rows|
    ensures 0 <= i * dims && i * dims + dims <= |Flat(rows)| == |rows| * dims
    ensures Flat(rows)[i * dims..i * dims + dims] == rows[i].desc
  {
    FlatLength(rows, dims);
    MulStep(i, |rows|, dims);
    var front := rows[..|rows| - 1];
    FlatLength(front, dims);
    if i < |rows| - 1 {
      MulStep(i, |front|, dims);
      FlatAt(front, dims, i);
      assert Flat(rows)[i * dims..i * dims + dims] == Flat(front)[i * dims..i * dims + dims];
    }
  }

  lemma SliceJoin<T>(s: seq<T>, a: nat, b: nat)
    requires a <= b <= |s|
    ensures s[..a] + s[a..b] == s[..b]
  {
  }

  /** Flattening the rows of an add gives back the floats they were cut from. */
  lemma {:induction false} FlatRows(floats: seq<Float>, dims: nat, labels: Labels, n: nat)
    requires |floats| >= n * dims && (labels.Given? ==> |labels.ids| >= n)
    ensures Flat(Rows(floats, dims, labels, n)) == floats[..n * dims]
  {
    if n > 0 {
      MulStep(n - 1, n, dims);
      FlatRows(floats, dims, labels, n - 1);
      var front := Rows(floats, dims, labels, n - 1);
      FlatLast(front, Rows(floats, dims, labels, n)[n - 1]);
      SliceJoin(floats, (n - 1) * dims, n * dims);
    }
  }

  lemma {:induction false} LabelsRows(floats: seq<Float>, dims: nat, ids: seq<int>, n: nat)
    requires |floats| >= n * dims && |ids| >= n
    ensures LabelsOf(Rows(floats, dims, Given(ids), n)) == ids[..n]
  {
    if n > 0 {
      MulStep(n - 1, n, dims);
      LabelsRows(floats, dims, ids, n - 1);
      var front := Rows(floats, dims, Given(ids), n - 1);
      FlatLast(front, Rows(floats, dims, Given(ids), n)[n - 1]);
      PrefixStep(ids, n - 1);
    }
  }

  lemma {:induction false} LabelsLength(rows: seq<Row>)
    ensures |LabelsOf(rows)| == |rows|
  {
    if rows != [] { LabelsLength(rows[..|rows| - 1]); }
  }

  /** A row of an add takes its vector and its label from its place in the arguments; without
      labels every row gets -1. */
  lemma {:induction false} RowsAt(floats: seq<Float>, dims: nat, labels: Labels, n: nat, i: nat)
    requires |floats| >= n * dims && (labels.Given? ==> |labels.ids| >= n) && i < n
    ensures i * dims <= i * dims + dims <= |floats|
    ensures Rows(floats, dims, labels, n)[i].desc == floats[i * dims..i * dims + dims]
    ensures Rows(floats, dims, labels, n)[i].labelId == if labels == NoLabels then -1 else labels.ids[i]
  {
    MulStep(i, n, dims);
    if i < n - 1 {
      MulStep(n - 1, n, dims);
      RowsAt(floats, dims, labels, n - 1, i);
    }
  }

  /** What an add does to the flat floats and to the labels of a set of rows. */
  lemma GrowsBy(rows: seq<Row>, floats: seq<Float>, dims: nat, labels: Labels, n: nat)
    requires Wide(rows, dims) && |floats| == n * dims && (labels.Given? ==> |labels.ids| == n)
    ensures var all := rows + Rows(floats, dims, labels, n);
            && Flat(all) == Flat(rows) + floats && |Flat(rows)| == |rows| * dims
            && |LabelsOf(rows)| == |rows| && |LabelsOf(all)| == |rows| + n
            && (labels.Given? ==> LabelsOf(all) == LabelsOf(rows) + labels.ids)
            && (|rows| + n) * dims == |rows| * dims + n * dims
  {
    var more := Rows(floats, dims, labels, n);
    FlatJoin(rows, more);
    FlatRows(floats, dims, labels, n);
    FlatLength(rows, dims);
    LabelsLength(rows);
    LabelsLength(rows + more);
    PrefixAll(floats);
    if labels.Given? {
      LabelsRows(floats, dims, labels.ids, n);
      PrefixAll(labels.ids);
    }
  }

  // ------------------------------------------------------------------ what is promised

  /** What the in-memory copy holds, if it is in use. */
  datatype Cache = NotLoaded | Holds(rows: seq<Row>)

  /** The rows that adds have numbered so far, and the in-memory copy. */
  datatype Model = Model(dims: nat, added: seq<Row>, cache: Cache)

  datatype Op = Insert(floats: seq<Float>, n: nat, labels: Labels, fault: Fault) | Fetch(ids: seq<nat>) | Reopen

  function Zeros(dims: nat): seq<Float> { seq(dims, i => 0.0) }

  /** The two cells that hold the dimensions and the size. */
  function Metadata(dims: nat, total: nat): seq<Row> { [Row(Zeros(dims), dims), Row(Zeros(dims), total)] }

  /** The rows as they are stored: those that reach the metadata cells are overwritten there. */
  function OnDisk(dims: nat, added: seq<Row>): (r: seq<Row>)
    requires |added| <= MAX_DESC
    ensures |r| == |added|
  {
    if |added| <= METADATA_OFFSET then added
    else added[..METADATA_OFFSET] + Metadata(dims, |added|)[..|added| - METADATA_OFFSET]
  }

  predicate Sized(dims: nat, floats: seq<Float>, n: nat, labels: Labels) {
    |floats| == n * dims && (labels.Given? ==> |labels.ids| == n)
  }

  /** A write that breaks off stays within the rows it was for and below the metadata. */
  predicate Plausible(total: nat, dims: nat, n: nat, fault: Fault) {
    fault.Breaks? && fault.garbage != [] ==>
      |fault.garbage| <= n && total + |fault.garbage| <= METADATA_OFFSET && Wide(fault.garbage, dims)
  }

  predicate Known(total: nat, ids: seq<nat>) { forall i :: 0 <= i < |ids| ==> ids[i] < total }

  /** The in-memory copy, if in use, is as long as the set, and right below the metadata cells. */
  ghost predicate Consistent(m: Model) {
    && |m.added| <= MAX_DESC && Wide(m.added, m.dims)
    && (m.cache.Holds? ==>
          && |m.cache.rows| == |m.added| && Wide(m.cache.rows, m.dims)
          && forall i :: 0 <= i < |m.added| && i < METADATA_OFFSET ==> m.cache.rows[i] == m.added[i])
  }

  /** Calls with arguments of the right sizes, and row numbers that were given out. */
  ghost predicate Fits(m: Model, op: Op) {
    Consistent(m) &&
    match op
    case Insert(floats, n, labels, fault) => Sized(m.dims, floats, n, labels) && Plausible(|m.added|, m.dims, n, fault)
    case Fetch(ids) => Known(|m.added|, ids)
    case Reopen => true
  }

  /** The rows that a fetch reads. */
  function Visible(m: Model): seq<Row>
    requires |m.added| <= MAX_DESC
  {
    if m.cache.Holds? then m.cache.rows else OnDisk(m.dims, m.added)
  }

  /** The set with more rows. */
  function Grown(m: Model, rows: seq<Row>): Model {
    Model(m.dims, m.added + rows, if m.cache.Holds? then Holds(m.cache.rows + rows) else NotLoaded)
  }

  /** The set closed and opened again. */
  function Reopened(m: Model): Model { m.(cache := NotLoaded) }

  ghost function Next(m: Model, op: Op): (Model, Reply)
    requires Fits(m, op)
  {
    match op
    case Insert(floats, n, labels, fault) =>
      if n > 0 && fault.NoFault? && |m.added| + n <= MAX_DESC then
        (Grown(m, Rows(floats, m.dims, labels, n)), Numbered(|m.added|))
      else (m.(cache := NotLoaded), Failed)
    case Fetch(ids) =>
      if m.cache.NotLoaded? && m.added == [] then (m, Failed)
      else (m.(cache := Holds(Visible(m))), Fetched(Flat(Picked(Visible(m), ids))))
    case Reopen => (Reopened(m), Fetched([]))
  }

  lemma OnDiskWide(dims: nat, added: seq<Row>)
    requires |added| <= MAX_DESC && Wide(added, dims)
    ensures Wide(OnDisk(dims, added), dims)
    ensures forall i :: 0 <= i < |added| && i < METADATA_OFFSET ==> OnDisk(dims, added)[i] == added[i]
  {
  }

  /** A consistent set stays so when rows are added to it and to the copy in memory. */
  lemma GrownConsistent(m: Model, rows: seq<Row>)
    requires Consistent(m) && Wide(rows, m.dims) && |m.added| + |rows| <= MAX_DESC
    ensures Consistent(Grown(m, rows))
  {
  }

  /** No call makes a consistent set inconsistent. */
  lemma NextConsistent(m: Model, op: Op)
    requires Fits(m, op)
    ensures Consistent(Next(m, op).0)
  {
    OnDiskWide(m.dims, m.added);
  }

  ghost predicate Possible(m: Model, run: seq<Op>)
    decreases |run|
  {
    run == [] || (Fits(m, run[0]) && Possible(Next(m, run[0]).0, run[1..]))
  }

  ghost function After(m: Model, run: seq<Op>): Model
    requires Possible(m, run)
    decreases |run|
  {
    if run == [] then m else After(Next(m, run[0]).0, run[1..])
  }

  ghost function Replies(m: Model, run: seq<Op>): seq<Reply>
    requires Possible(m, run)
    decreases |run|
  {
    if run == [] then [] else [Next(m, run[0]).1] + Replies(Next(m, run[0]).0, run[1..])
  }

  lemma {:induction false} AddedGrows(m: Model, run: seq<Op>)
    requires Consistent(m) && Possible(m, run)
    ensures m.added <= After(m, run).added && After(m, run).dims == m.dims && Consistent(After(m, run))
    decreases |run|
  {
    if run != [] {
      NextConsistent(m, run[0]);
      AddedGrows(Next(m, run[0]).0, run[1..]);
    }
  }

  /** An add is numbered from the present size exactly if it has rows, its write goes through and
      the set keeps within its 100000 cells; otherwise it fails and no row is numbered. */
  lemma InsertSays(m: Model, insert: Op)
    requires insert.Insert? && Fits(m, insert)
    ensures var (e, reply) := Next(m, insert);
            if insert.n > 0 && insert.fault == NoFault && |m.added| + insert.n <= 100000 then
              reply == Numbered(|m.added|) && |e.added| == |m.added| + insert.n && m.added <= e.added
            else reply == Failed && e.added == m.added
  {
  }

  /** Whatever happens after a successful add, fetching a number that it gave out below the
      metadata cells returns the vector that got that number. */
  lemma FetchReturnsAdded(m: Model, insert: Op, rest: seq<Op>, i: nat)
    requires insert.Insert? && Fits(m, insert) && Next(m, insert).1.Numbered? && i < insert.n
    requires Possible(Next(m, insert).0, rest) && |m.added| + i < 99998
    ensures var e := After(Next(m, insert).0, rest);
            var id := Next(m, insert).1.first + i;
            && id < |e.added| && Fits(e, Fetch([id]))
            && i * m.dims + m.dims <= |insert.floats|
            && Next(e, Fetch([id])).1 == Fetched(insert.floats[i * m.dims..i * m.dims + m.dims])
  {
    RowsAt(insert.floats, m.dims, insert.labels, insert.n, i);
    InsertKept(m, insert, rest);
    FetchKept(After(Next(m, insert).0, rest), m.added, Rows(insert.floats, m.dims, insert.labels, insert.n), i);
  }

  lemma InsertKept(m: Model, insert: Op, rest: seq<Op>)
    requires insert.Insert? && Fits(m, insert) && Next(m, insert).1.Numbered? && Possible(Next(m, insert).0, rest)
    ensures var e := After(Next(m, insert).0, rest);
            Consistent(e) && m.added + Rows(insert.floats, m.dims, insert.labels, insert.n) <= e.added && Next(m, insert).1.first == |m.added|
  {
    NextConsistent(m, insert);
    AddedGrows(Next(m, insert).0, rest);
  }

  lemma FetchKept(e: Model, before: seq<Row>, rows: seq<Row>, i: nat)
    requires Consistent(e) && before + rows <= e.added && i < |rows| && |before| + i < METADATA_OFFSET
    ensures |before| + i < |e.added| && Fits(e, Fetch([|before| + i]))
    ensures Next(e, Fetch([|before| + i])).1 == Fetched(rows[i].desc)
  {
    RowKept(before, rows, e.added, i);
    FetchOne(e, |before| + i);
    OnDiskWide(e.dims, e.added);
  }

  lemma RowKept(before: seq<Row>, rows: seq<Row>, after: seq<Row>, i: nat)
    requires before + rows <= after && i < |rows|
    ensures |before| + i < |after| && after[|before| + i] == rows[i]
  {
    assert (before + rows)[|before| + i] == rows[i];
  }

  lemma FetchOne(m: Model, id: nat)
    requires Consistent(m) && id < |m.added|
    ensures Fits(m, Fetch([id])) && |Visible(m)| == |m.added|
    ensures Next(m, Fetch([id])).1 == Fetched(Visible(m)[id].desc)
  {
    PickedOne(Visible(m), id);
  }

  /** After any run, once the set is reopened, fetching a number returns the vector that was added
      under it exactly if the number is below the metadata cells or the vector is all zeros. */
  lemma FetchAfterReopen(m: Model, run: seq<Op>, id: nat)
    requires Consistent(m) && Possible(m, run) && id < |After(m, run).added|
    ensures var e := Reopened(After(m, run));
            && Fits(e, Fetch([id]))
            && (Next(e, Fetch([id])).1 == Fetched(e.added[id].desc) <==> id < 99998 || e.added[id].desc == Zeros(m.dims))
  {
    AddedGrows(m, run);
    var e := Reopened(After(m, run));
    FetchOne(e, id);
    if id >= METADATA_OFFSET {
      assert OnDisk(e.dims, e.added)[id] == Metadata(e.dims, |e.added|)[id - METADATA_OFFSET];
    }
  }

  function Ones(n: nat): seq<Float> { seq(n, i => 1.0) }

  /** A run that loses a row: 99999 vectors of one dimension, all of them 1, then reopening. The
      last one comes back as 0. */
  lemma RowCanBeLost()
    ensures var run := [Insert(Ones(99999), 99999, NoLabels, NoFault), Reopen];
            && Possible(Model(1, [], Holds([])), run)
            && var e := After(Model(1, [], Holds([])), run);
            && |e.added| == 99999 && e.added[99998].desc == [1.0]
            && Fits(e, Fetch([99998])) && Next(e, Fetch([99998])).1 != Fetched([1.0])
  {
    var m := Model(1, [], Holds([]));
    var insert := Insert(Ones(METADATA_OFFSET + 1), METADATA_OFFSET + 1, NoLabels, NoFault);
    var run := [insert, Reopen];
    assert Fits(m, insert);
    var full := Next(m, insert).0;
    NextConsistent(m, insert);
    assert run[1..] == [Reopen] && run[1..][1..] == [];
    assert Fits(full, Reopen) && Possible(full, [Reopen]);
    RowsAt(insert.floats, 1, NoLabels, METADATA_OFFSET + 1, METADATA_OFFSET);
    ConcatEmpty(Rows(insert.floats, 1, NoLabels, METADATA_OFFSET + 1));
    assert full.added[METADATA_OFFSET].desc == [1.0];
    FetchAfterReopen(m, [insert], METADATA_OFFSET);
    assert After(m, [insert]) == full;
    assert Zeros(1)[0] == 0.0;
  }

  lemma PickedOne(rows: seq<Row>, id: nat)
    requires id < |rows|
    ensures Flat(Picked(rows, [id])) == rows[id].desc
  {
    ConcatEmpty([id]);
    PickedStep(rows, [], id);
    ConcatEmpty(rows[id].desc);
  }

  // ------------------------------------------------------------- implementation

  /** What the array holds of a set: its rows, as far as the metadata cells leave them, and the
      metadata. */
  ghost predicate Stored(cells: seq<Row>, dims: nat, added: seq<Row>) {
    && |cells| == MAX_DESC && |added| <= MAX_DESC && Wide(added, dims)
    && cells[..|added|] == OnDisk(dims, added)
    && cells[METADATA_OFFSET..] == Metadata(dims, |added|)
  }

  /** A write of some cells; an empty range and one that leaves the array are refused. */
  method WriteCells(disk: array<Row>, at: nat, rows: seq<Row>) returns (ok: bool)
    modifies disk
    ensures ok == (rows != [] && at + |rows| <= disk.Length)
    ensures !ok ==> disk[..] == old(disk[..])
    ensures ok ==> disk[..] == old(disk[..at]) + rows + old(disk[at + |rows|..])
  {
    if rows == [] || at + |rows| > disk.Length {
      return false;
    }
    forall i | at <= i < at + |rows| {
      disk[i] := rows[i - at];
    }
    ok := true;
  }

  class DenseSet {
    const disk: array<Row>
    var dims: nat
    var total: nat
    var updated: bool
    var buffer: seq<Float>
    var labelIds: seq<int>
    ghost var added: seq<Row>
    ghost var held: seq<Row>

    ghost predicate Valid()
      reads this, disk
    {
      && Stored(disk[..], dims, added) && total == |added|
      && Consistent(State())
      && (updated ==> buffer == Flat(held))
    }

    /** Does the label cache hold the label of every row? */
    ghost predicate LabelsCached()
      reads this
    {
      labelIds == LabelsOf(added)
    }

    ghost function State(): Model
      reads this
    {
      Model(dims, added, if updated then Holds(held) else NotLoaded)
    }

    constructor Create(cells: array<Row>, dimensions: nat)
      requires cells.Length == MAX_DESC
      modifies cells
      ensures Valid() && disk == cells && State() == Model(dimensions, [], Holds([])) && LabelsCached()
    {
      disk := cells;
      dims, total, updated, buffer, labelIds, added, held := dimensions, 0, true, [], [], [], [];
      new;
      WriteMetadata();
      assert disk[..][..0] == [];
    }

    constructor Open(cells: array<Row>, ghost dimensions: nat, ghost rows: seq<Row>)
      requires Stored(cells[..], dimensions, rows)
      ensures Valid() && disk == cells && State() == Model(dimensions, rows, NotLoaded)
    {
      disk := cells;
      MetadataAt(cells[..], dimensions, rows);
      dims, total := cells[METADATA_OFFSET].labelId, cells[METADATA_OFFSET + 1].labelId;
      updated, buffer, labelIds, added, held := false, [], [], rows, [];
    }

    method WriteMetadata()
      requires disk.Length == MAX_DESC
      modifies disk
      ensures disk[..METADATA_OFFSET] == old(disk[..METADATA_OFFSET])
      ensures disk[METADATA_OFFSET..] == Metadata(dims, total)
      ensures disk[99998].labelId == dims && disk[99999].labelId == total
    {
      var ok := WriteCells(disk, METADATA_OFFSET, Metadata(dims, total));
    }

    /** Adds rows; answers with the number of the first one. */
    method Add(floats: seq<Float>, n: nat, labels: Labels, fault: Fault) returns (r: Reply)
      requires Valid() && Sized(dims, floats, n, labels) && Plausible(total, dims, n, fault)
      modifies this, disk
      ensures Valid() && (State(), r) == Next(old(State()), Insert(floats, n, labels, fault))
      ensures r.Numbered? && old(LabelsCached()) ==> (LabelsCached() <==> labels.Given?)
    {
      var rows := Rows(floats, dims, labels, n);
      var ok := Submit(rows, fault);
      if !ok {
        updated := false;
        return Failed;
      }
      r := Numbered(total);
      Accept(floats, n, labels);
    }

    /** The rows are written: record them. */
    method Accept(floats: seq<Float>, n: nat, labels: Labels)
      requires disk.Length == MAX_DESC && total == |added| && total + n <= MAX_DESC
      requires Sized(dims, floats, n, labels) && n > 0 && Consistent(State())
      requires updated ==> buffer == Flat(held)
      requires disk[..total] == OnDisk(dims, added)
      requires disk[total..total + n] == Rows(floats, dims, labels, n)
      modifies this`total, this`added, this`held, this`buffer, this`labelIds, disk
      ensures Valid()
      ensures State() == Grown(old(State()), Rows(floats, dims, labels, n))
      ensures old(LabelsCached()) ==> (LabelsCached() <==> labels.Given?)
    {
      ghost var before := added;
      GrownConsistent(State(), Rows(floats, dims, labels, n));
      Grow(floats, n, labels);
      CacheLabels(before, floats, n, labels);
    }

    /** Size and buffer take the new rows. */
    method Grow(floats: seq<Float>, n: nat, labels: Labels)
      requires disk.Length == MAX_DESC && total == |added| && total + n <= MAX_DESC
      requires Sized(dims, floats, n, labels) && Wide(added, dims)
      requires updated ==> |held| == total && Wide(held, dims) && buffer == Flat(held)
      requires disk[..total] == OnDisk(dims, added)
      requires disk[total..total + n] == Rows(floats, dims, labels, n)
      modifies this`total, this`added, this`held, this`buffer, disk
      ensures Stored(disk[..], dims, added) && total == |added|
      ensures added == old(added) + Rows(floats, dims, labels, n)
      ensures updated ==> buffer == Flat(held) && held == old(held) + Rows(floats, dims, labels, n)
    {
      Record(Rows(floats, dims, labels, n));
      CacheFloats(floats, n, labels);
    }

    /** The write of the rows themselves. */
    method Submit(rows: seq<Row>, fault: Fault) returns (ok: bool)
      requires Stored(disk[..], dims, added) && total == |added| && Wide(rows, dims)
      requires Plausible(total, dims, |rows|, fault)
      modifies disk
      ensures ok == (rows != [] && fault.NoFault? && total + |rows| <= MAX_DESC)
      ensures !ok ==> Stored(disk[..], dims, added)
      ensures ok ==> disk[..total] == old(disk[..total]) && disk[total..total + |rows|] == rows
    {
      if fault.Breaks? {
        var part := WriteCells(disk, total, fault.garbage);
        assert disk[..total] == old(disk[..total]);
        assert disk[METADATA_OFFSET..] == old(disk[METADATA_OFFSET..]);
        assert disk[..][..total] == disk[..total] && disk[..][METADATA_OFFSET..] == disk[METADATA_OFFSET..];
        ok := false;
      } else {
        ok := WriteCells(disk, total, rows);
      }
    }

    /** The new size, in memory and then in the metadata cells. */
    method Record(rows: seq<Row>)
      requires disk.Length == MAX_DESC && total == |added| && total + |rows| <= MAX_DESC
      requires Wide(added, dims) && Wide(rows, dims)
      requires disk[..total] == OnDisk(dims, added)
      requires disk[total..total + |rows|] == rows
      modifies this`total, this`added, disk
      ensures added == old(added) + rows && total == |added| && Stored(disk[..], dims, added)
    {
      ghost var before, first := disk[..], added;
      total := total + |rows|;
      added := added + rows;
      WriteMetadata();
      Overwritten(before, disk[..], dims, first, rows);
    }

    /** The buffer takes the new vectors. */
    method CacheFloats(floats: seq<Float>, n: nat, ghost labels: Labels)
      requires Sized(dims, floats, n, labels) && total >= n
      requires updated ==> |held| == total - n && Wide(held, dims) && buffer == Flat(held)
      modifies this`buffer, this`held
      ensures held == old(held) + Rows(floats, dims, labels, n)
      ensures updated ==> buffer == Flat(held)
    {
      var oldTotal := total - n;
      var oldSize := oldTotal * dims;
      ghost var grown := held + Rows(floats, dims, labels, n);
      if updated {
        GrowsBy(held, floats, dims, labels, n);
        assert |held| == oldTotal && oldSize == |held| * dims == |buffer|;
        assert Resize(buffer, oldSize, 0.0) == buffer && Flat(grown) == buffer + floats;
      }
      buffer := Resize(buffer, oldSize, 0.0) + floats;
      held := grown;
    }

    /** The label cache takes the new labels, but only if there are some. */
    method CacheLabels(ghost before: seq<Row>, floats: seq<Float>, n: nat, labels: Labels)
      requires Sized(dims, floats, n, labels) && total == |before| + n && Wide(before, dims) && n > 0
      requires added == before + Rows(floats, dims, labels, n)
      modifies this`labelIds
      ensures old(labelIds) == LabelsOf(before) ==> (LabelsCached() <==> labels.Given?)
    {
      GrowsBy(before, floats, dims, labels, n);
      var oldTotal := total - n;
      if labels.Given? {
        labelIds := Resize(labelIds, oldTotal, 0) + labels.ids;
      }
    }

    /** Reads the persisted rows back; a set without rows cannot be read. */
    method LoadBuffer() returns (ok: bool)
      requires Valid() && !updated
      modifies this`dims, this`total, this`updated, this`buffer, this`labelIds, this`held
      ensures Valid() && ok == (total > 0)
      ensures State() == old(State()).(cache := if ok then Holds(OnDisk(dims, added)) else NotLoaded)
      ensures ok && total <= METADATA_OFFSET ==> LabelsCached()
    {
      MetadataAt(disk[..], dims, added);
      dims, total := disk[METADATA_OFFSET].labelId, disk[METADATA_OFFSET + 1].labelId;
      if total == 0 {
        buffer, labelIds := [], [];
        return false;
      }
      assert disk[..][..total] == disk[..total];
      OnDiskWide(dims, added);
      buffer := Flat(disk[..total]);
      labelIds := LabelsOf(disk[..total]);
      held := OnDisk(dims, added);
      updated := true;
      ok := true;
    }

    method GetDescriptors(ids: seq<nat>) returns (r: Reply)
      requires Valid() && Known(total, ids)
      modifies this`dims, this`total, this`updated, this`buffer, this`labelIds, this`held
      ensures Valid() && (State(), r) == Next(old(State()), Fetch(ids))
    {
      if !updated {
        var ok := LoadBuffer();
        if !ok {
          return Failed;
        }
      }
      var floats := CopyOut(ids);
      r := Fetched(floats);
    }

    method CopyOut(ids: seq<nat>) returns (floats: seq<Float>)
      requires Valid() && Known(total, ids) && updated
      ensures floats == Flat(Picked(held, ids))
    {
      floats := [];
      for i := 0 to |ids|
        invariant floats == Flat(Picked(held, ids[..i]))
      {
        PrefixStep(ids, i);
        PickedStep(held, ids[..i], ids[i]);
        var row := CopyRow(ids[i]);
        floats := floats + row;
      }
      PrefixAll(ids);
    }

    method CopyRow(id: nat) returns (floats: seq<Float>)
      requires Valid() && id < total && updated
      ensures id < |held| && floats == held[id].desc
    {
      var idx := id * dims;
      FlatAt(held, dims, id);
      floats := buffer[idx..idx + dims];
    }
  }

  lemma MetadataAt(cells: seq<Row>, dims: nat, added: seq<Row>)
    requires Stored(cells, dims, added)
    ensures cells[METADATA_OFFSET].labelId == dims && cells[METADATA_OFFSET + 1].labelId == |added|
  {
    assert cells[METADATA_OFFSET] == cells[METADATA_OFFSET..][0];
    assert cells[METADATA_OFFSET + 1] == cells[METADATA_OFFSET..][1];
  }

  /** Writing rows and then the metadata leaves the rows stored as far as the metadata cells allow. */
  lemma Overwritten(before: seq<Row>, after: seq<Row>, dims: nat, first: seq<Row>, rows: seq<Row>)
    requires |before| == |after| == MAX_DESC && |first| + |rows| <= MAX_DESC
    requires before[..|first|] == OnDisk(dims, first) && before[|first|..|first| + |rows|] == rows
    requires after[..METADATA_OFFSET] == before[..METADATA_OFFSET]
    requires after[METADATA_OFFSET..] == Metadata(dims, |first| + |rows|)
    ensures after[..|first| + |rows|] == OnDisk(dims, first + rows)
  {
    var n := |first| + |rows|;
    var all := OnDisk(dims, first + rows);
    forall i | 0 <= i < n ensures after[i] == all[i] {
      if i >= METADATA_OFFSET {
        assert after[i] == after[METADATA_OFFSET..][i - METADATA_OFFSET];
      } else {
        assert after[i] == after[..METADATA_OFFSET][i] == before[..METADATA_OFFSET][i] == before[i];
        if i < |first| {
          assert before[i] == before[..|first|][i];
        } else {
          assert before[i] == before[|first|..n][i - |first|];
        }
      }
    }
  }

  lemma PickedStep(rows: seq<Row>, ids: seq<nat>, id: nat)
    requires Known(|rows|, ids) && id < |rows|
    ensures Known(|rows|, ids + [id]) && Flat(Picked(rows, ids + [id])) == Flat(Picked(rows, ids)) + rows[id].desc
  {
    assert (ids + [id])[..|ids|] == ids;
    FlatLast(Picked(rows, ids), rows[id]);
  }

  /** Any sequence of calls, with the set closed and opened again in between, gives the replies
      that the added rows call for. */
  method Run(start: DenseSet, ops: seq<Op>) returns (s: DenseSet, replies: seq<Reply>)
    requires start.Valid() && Possible(start.State(), ops)
    modifies start, start.disk
    ensures s.Valid() && s.State() == After(old(start.State()), ops)
    ensures replies == Replies(old(start.State()), ops)
  {
    s, replies := start, [];
    ghost var m := start.State();
    assert ops[0..] == ops;
    ConcatEmpty(Replies(m, ops));
    for i := 0 to |ops|
      invariant s.Valid() && s.disk == start.disk && (s == start || fresh(s))
      invariant Possible(s.State(), ops[i..])
      invariant After(s.State(), ops[i..]) == After(m, ops)
      invariant replies + Replies(s.State(), ops[i..]) == Replies(m, ops)
    {
      ghost var before := s.State();
      assert ops[i..][1..] == ops[i + 1..];
      var reply: Reply;
      s, reply := Call(s, ops[i]);
      ConcatAssociates(replies, [reply], Replies(s.State(), ops[i + 1..]));
      replies := replies + [reply];
    }
    ConcatEmpty(replies);
  }

  method Call(s: DenseSet, op: Op) returns (next: DenseSet, reply: Reply)
    requires s.Valid() && Fits(s.State(), op)
    modifies s, s.disk
    ensures next.Valid() && next.disk == s.disk && (next == s || fresh(next))
    ensures (next.State(), reply) == Next(old(s.State()), op)
  {
    next := s;
    if op.Insert? {
      reply := s.Add(op.floats, op.n, op.labels, op.fault);
    } else if op.Fetch? {
      reply := s.GetDescriptors(op.ids);
    } else {
      next := new DenseSet.Open(s.disk, s.dims, s.added);
      reply := Fetched([]);
    }
  }

  /** A vector cut or filled up to a size. */
  function Resize<T>(s: seq<T>, n: nat, fill: T): (r: seq<T>)
    ensures |r| == n && (n >= |s| ==> s <= r) && (n <= |s| ==> r <= s)
  {
    if n <= |s| then s[..n] else s + seq(n - |s|, i => fill)
  }
}
