/**
 * The order behind field-level last-write-wins: every field is a (clock, value) cell, a record is
 * a map of cells with a tombstone, and merging takes the greater of each.
 */
module SyncLattice {
  import opened Wrappers
  import opened Text

  /** Finite JavaScript numbers; only their order matters here. */
  type Stamp = real

  datatype Field = Field(name: Str)

  /** A field value, by its canonical JSON text; `undefined` and `null` share the text "null". */
  type Json = Str

  const NULL_JSON: Json := [110, 117, 108, 108]

  datatype Cell = Cell(clock: Stamp, value: Json)

  /** What an absent field counts as. */
  const ABSENT := Cell(0.0, NULL_JSON)

  predicate CellLess(a: Cell, b: Cell) {
    a.clock < b.clock || (a.clock == b.clock && Precedes(a.value, b.value))
  }

  predicate CellAtMost(a: Cell, b: Cell) {
    a == b || CellLess(a, b)
  }

  function MaxCell(a: Cell, b: Cell): Cell {
    if CellLess(a, b) then b else a
  }

  /** A stamp below zero raised to zero. */
  function Lifted(a: Cell): Cell {
    if a.clock < 0.0 then Cell(0.0, a.value) else a
  }

  lemma CellOrder(a: Cell, b: Cell, c: Cell)
    ensures CellAtMost(a, b) || CellAtMost(b, a)
    ensures CellAtMost(a, b) && CellAtMost(b, a) ==> a == b
    ensures CellAtMost(a, b) && CellAtMost(b, c) ==> CellAtMost(a, c)
    ensures !(CellLess(a, b) && CellAtMost(b, a))
  {
    PrecedesOrder(a.value, b.value, c.value);
    PrecedesOrder(b.value, a.value, c.value);
  }

  lemma MaxCellIsJoin(a: Cell, b: Cell, c: Cell)
    ensures MaxCell(a, b) == MaxCell(b, a)
    ensures MaxCell(a, MaxCell(b, c)) == MaxCell(MaxCell(a, b), c)
    ensures MaxCell(a, a) == a
    ensures CellAtMost(a, MaxCell(a, b)) && CellAtMost(b, MaxCell(a, b))
    ensures CellAtMost(a, c) && CellAtMost(b, c) ==> CellAtMost(MaxCell(a, b), c)
    ensures CellAtMost(a, b) <==> MaxCell(a, b) == b
  {
    CellOrder(a, b, c);
    CellOrder(b, a, c);
    CellOrder(b, c, a);
    CellOrder(c, b, a);
    CellOrder(a, c, b);
    CellOrder(c, a, b);
  }

  // --- objects filled in a loop -------------------------------------------------

  /** `part` is `whole` on the fields in `done`. */
  ghost predicate FilledFor<T>(part: map<Field, T>, whole: map<Field, T>, done: set<Field>) {
    part.Keys == done && forall f :: f in done ==> f in whole && part[f] == whole[f]
  }

  lemma TakeOne(todo: set<Field>, done: set<Field>, key: Field)
    requires key in todo && done !! todo
    ensures (done + {key}) + (todo - {key}) == done + todo && done + {key} !! todo - {key}
  {
  }

  lemma FillOne<T>(part: map<Field, T>, whole: map<Field, T>, done: set<Field>, key: Field, value: T)
    requires FilledFor(part, whole, done) && key in whole && value == whole[key]
    ensures FilledFor(part[key := value], whole, done + {key})
  {
  }

  lemma FilledAll<T>(part: map<Field, T>, whole: map<Field, T>, done: set<Field>)
    requires FilledFor(part, whole, done) && done == whole.Keys
    ensures part == whole
  {
  }

  // --- tombstones ------------------------------------------------------------

  /** The later stamp, `null` counting as 0; a tie keeps whichever is a stamp. */
  function MaxTomb(a: Option<Stamp>, b: Option<Stamp>): Option<Stamp> {
    var l, r := a.GetOr(0.0), b.GetOr(0.0);
    if l == r then (if a.Some? then a else b)
    else if l > r then a else b
  }

  predicate TombAtMost(a: Option<Stamp>, b: Option<Stamp>) {
    MaxTomb(a, b) == b
  }

  lemma MaxTombIsJoin(a: Option<Stamp>, b: Option<Stamp>, c: Option<Stamp>)
    ensures MaxTomb(a, b) == MaxTomb(b, a)
    ensures MaxTomb(a, MaxTomb(b, c)) == MaxTomb(MaxTomb(a, b), c)
    ensures MaxTomb(a, a) == a
    ensures TombAtMost(a, b) && TombAtMost(b, a) ==> a == b
    ensures TombAtMost(a, b) && TombAtMost(b, c) ==> TombAtMost(a, c)
  {
  }

  // --- records ---------------------------------------------------------------

  /** What a record amounts to for merging. */
  datatype Core = Core(cells: map<Field, Cell>, tomb: Option<Stamp>)

  function CellOf(r: Core, f: Field): Cell {
    if f in r.cells then r.cells[f] else ABSENT
  }

  function Join(a: Core, b: Core): Core {
    Core(map f | f in a.cells.Keys + b.cells.Keys :: MaxCell(CellOf(a, f), CellOf(b, f)), MaxTomb(a.tomb, b.tomb))
  }

  /** `a` is absorbed by `b`: nothing in it is newer. */
  ghost predicate Below(a: Core, b: Core) {
    && a.cells.Keys <= b.cells.Keys
    && (forall f :: f in b.cells ==> CellAtMost(CellOf(a, f), b.cells[f]))
    && TombAtMost(a.tomb, b.tomb)
  }

  lemma JoinCommutes(a: Core, b: Core)
    ensures Join(a, b) == Join(b, a)
  {
    MaxTombIsJoin(a.tomb, b.tomb, a.tomb);
    forall f ensures MaxCell(CellOf(a, f), CellOf(b, f)) == MaxCell(CellOf(b, f), CellOf(a, f)) {
      MaxCellIsJoin(CellOf(a, f), CellOf(b, f), ABSENT);
    }
    assert Join(a, b).cells == Join(b, a).cells;
  }

  lemma JoinAssociates(a: Core, b: Core, c: Core)
    ensures Join(a, Join(b, c)) == Join(Join(a, b), c)
  {
    MaxTombIsJoin(a.tomb, b.tomb, c.tomb);
    forall f ensures CellOf(Join(a, Join(b, c)), f) == CellOf(Join(Join(a, b), c), f) {
      JoinCell(b, c, f);
      JoinCell(a, b, f);
      JoinCell(a, Join(b, c), f);
      JoinCell(Join(a, b), c, f);
      MaxCellIsJoin(CellOf(a, f), CellOf(b, f), CellOf(c, f));
    }
    SameCells(Join(a, Join(b, c)), Join(Join(a, b), c));
  }

  lemma SameCells(a: Core, b: Core)
    requires a.cells.Keys == b.cells.Keys && forall f :: CellOf(a, f) == CellOf(b, f)
    ensures a.cells == b.cells
  {
    assert forall f :: f in a.cells ==> a.cells[f] == CellOf(a, f) == CellOf(b, f) == b.cells[f];
  }

  /** Being absorbed is what joining without effect means. */
  lemma BelowIffJoin(a: Core, b: Core)
    ensures Below(a, b) <==> Join(a, b) == b
  {
    forall f ensures CellAtMost(CellOf(a, f), CellOf(b, f)) <==> MaxCell(CellOf(a, f), CellOf(b, f)) == CellOf(b, f) {
      MaxCellIsJoin(CellOf(a, f), CellOf(b, f), ABSENT);
    }
    var ab := Join(a, b);
    if ab == b {
      forall f | f in a.cells ensures f in b.cells {
        assert f in ab.cells;
      }
      forall f | f in b.cells ensures CellAtMost(CellOf(a, f), b.cells[f]) {
        assert ab.cells[f] == b.cells[f];
      }
    }
    if Below(a, b) {
      assert ab.cells == b.cells;
    }
  }

  /** Merging is a join: commutative, associative, idempotent, and the least upper bound. */
  lemma JoinIsJoin(a: Core, b: Core, c: Core)
    ensures Join(a, b) == Join(b, a)
    ensures Join(a, Join(b, c)) == Join(Join(a, b), c)
    ensures Join(a, a) == a
    ensures Below(a, Join(a, b))
    ensures Below(a, c) && Below(b, c) ==> Below(Join(a, b), c)
    ensures Below(a, b) && Below(b, a) ==> a == b
    ensures Below(a, b) && Below(b, c) ==> Below(a, c)
  {
    JoinCommutes(a, b);
    JoinAssociates(a, b, c);
    JoinIdempotent(a);
    JoinAssociates(a, a, b);
    BelowIffJoin(a, Join(a, b));
    BelowIffJoin(a, c);
    BelowIffJoin(b, c);
    BelowIffJoin(Join(a, b), c);
    BelowIffJoin(a, b);
    BelowIffJoin(b, a);
  }

  lemma JoinIdempotent(a: Core)
    ensures Join(a, a) == a
  {
    forall f ensures MaxCell(CellOf(a, f), CellOf(a, f)) == CellOf(a, f) {
      MaxCellIsJoin(CellOf(a, f), CellOf(a, f), ABSENT);
    }
    assert Join(a, a).cells == a.cells;
  }

  /** Looking a field up in a merge, absent fields included. */
  lemma JoinCell(a: Core, b: Core, f: Field)
    ensures CellOf(Join(a, b), f) == MaxCell(CellOf(a, f), CellOf(b, f))
  {
    PrecedesOrder(NULL_JSON, NULL_JSON, NULL_JSON);
  }

  /** `a` brings nothing new to `b`, where an absent field counts as an absent value. */
  ghost predicate Absorbed(a: Core, b: Core) {
    && (forall f :: CellAtMost(CellOf(a, f), CellOf(b, f)))
    && TombAtMost(a.tomb, b.tomb)
  }

  lemma BelowIsAbsorbed(a: Core, b: Core)
    ensures Below(a, b) <==> Absorbed(a, b) && a.cells.Keys <= b.cells.Keys
  {
    if Absorbed(a, b) && a.cells.Keys <= b.cells.Keys {
      forall f | f in b.cells ensures CellAtMost(CellOf(a, f), b.cells[f]) {
        assert CellOf(b, f) == b.cells[f];
      }
    }
  }

  // --- partial records ----------------------------------------------------------

  /** `a` with the cells that `b` carries joined in; cells that `b` does not carry stay. */
  function Overlay(a: Core, b: Core): Core {
    Core(map f | f in a.cells :: if f in b.cells then MaxCell(a.cells[f], b.cells[f]) else a.cells[f],
         MaxTomb(a.tomb, b.tomb))
  }

  /** The same, but with the cells that `b` does not carry lifted. */
  function Patched(a: Core, b: Core): Core {
    Core(map f | f in a.cells :: if f in b.cells then MaxCell(a.cells[f], b.cells[f]) else Lifted(a.cells[f]),
         MaxTomb(a.tomb, b.tomb))
  }

  lemma PatchedIsOverlayIff(a: Core, b: Core)
    ensures Patched(a, b) == Overlay(a, b) <==> forall f :: f in a.cells && f !in b.cells ==> a.cells[f].clock >= 0.0
  {
    var p, o := Patched(a, b).cells, Overlay(a, b).cells;
    forall f | f in a.cells ensures p[f] == o[f] <==> f in b.cells || a.cells[f].clock >= 0.0 {
    }
    if forall f :: f in a.cells && f !in b.cells ==> a.cells[f].clock >= 0.0 {
      assert p == o;
    }
  }

  /** Every cell that `a` carries is absorbed by `b`. */
  ghost predicate Within(a: Core, b: Core) {
    && a.cells.Keys <= b.cells.Keys
    && (forall f :: f in a.cells ==> CellAtMost(a.cells[f], b.cells[f]))
    && TombAtMost(a.tomb, b.tomb)
  }

  /** Laying a partial record over one that has its fields is their least upper bound. */
  lemma OverlayIsLeastUpperBound(a: Core, b: Core, u: Core)
    requires b.cells.Keys <= a.cells.Keys
    ensures Within(a, Overlay(a, b)) && Within(b, Overlay(a, b))
    ensures Within(a, u) && Within(b, u) ==> Within(Overlay(a, b), u)
  {
    MaxTombIsJoin(a.tomb, b.tomb, u.tomb);
    MaxTombIsJoin(a.tomb, a.tomb, b.tomb);
    MaxTombIsJoin(b.tomb, b.tomb, a.tomb);
    forall f | f in a.cells
      ensures CellAtMost(a.cells[f], Overlay(a, b).cells[f])
      ensures f in b.cells ==> CellAtMost(b.cells[f], Overlay(a, b).cells[f])
      ensures
        (&& f in u.cells && CellAtMost(a.cells[f], u.cells[f])
         && (f in b.cells ==> CellAtMost(b.cells[f], u.cells[f])))
        ==> CellAtMost(Overlay(a, b).cells[f], u.cells[f])
    {
      MaxCellIsJoin(a.cells[f], CellOf(b, f), CellOf(u, f));
    }
  }

  lemma WithinIsOrder(a: Core, b: Core, c: Core)
    ensures Within(a, a)
    ensures Within(a, b) && Within(b, a) ==> a == b
    ensures Within(a, b) && Within(b, c) ==> Within(a, c)
  {
    MaxTombIsJoin(a.tomb, b.tomb, c.tomb);
    forall f
      ensures f in a.cells && f in b.cells && CellAtMost(a.cells[f], b.cells[f]) && CellAtMost(b.cells[f], a.cells[f])
        ==> a.cells[f] == b.cells[f]
      ensures
        (&& f in a.cells && f in b.cells && f in c.cells
         && CellAtMost(a.cells[f], b.cells[f]) && CellAtMost(b.cells[f], c.cells[f]))
        ==> CellAtMost(a.cells[f], c.cells[f])
    {
      CellOrder(CellOf(a, f), CellOf(b, f), CellOf(c, f));
    }
    if Within(a, b) && Within(b, a) {
      assert a.cells == b.cells;
    }
  }

  /** For a record with the same fields, the overlay is the join. */
  lemma OverlayOfFull(a: Core, b: Core)
    requires a.cells.Keys == b.cells.Keys
    ensures Overlay(a, b) == Join(a, b)
  {
    assert Overlay(a, b).cells == Join(a, b).cells;
  }

  // --- the newest field write -------------------------------------------------

  /** `Math.max(0, ...Object.values(clocks))`. */
  ghost function MaxClock(clocks: map<Field, Stamp>): (m: Stamp)
    ensures m >= 0.0
    ensures forall f :: f in clocks ==> clocks[f] <= m
    ensures m == 0.0 || exists f :: f in clocks && clocks[f] == m
  {
    if clocks == map[] then 0.0
    else
      var f :| f in clocks;
      var rest := MaxClock(clocks - {f});
      assert forall g :: g in clocks && g != f ==> clocks[g] == (clocks - {f})[g];
      if clocks[f] > rest then clocks[f] else rest
  }

  /** The loop that `Math.max` runs over its spread arguments. */
  method ComputeMaxClock(clocks: map<Field, Stamp>) returns (m: Stamp)
    ensures m == MaxClock(clocks)
  {
    m := 0.0;
    var todo := clocks.Keys;
    while todo != {}
      invariant todo <= clocks.Keys
      invariant m >= 0.0
      invariant forall f :: f in clocks && f !in todo ==> clocks[f] <= m
      invariant m == 0.0 || exists f :: f in clocks && clocks[f] == m
      decreases todo
    {
      var f :| f in todo;
      if clocks[f] > m {
        m := clocks[f];
      }
      todo := todo - {f};
    }
  }

  /** The last-writer annotation, ordered by newest write and then by replica id. */
  datatype Writer = Writer(newest: Stamp, nodeId: Str)

  function MaxWriter(a: Writer, b: Writer): Writer {
    if a.newest != b.newest then (if a.newest > b.newest then a else b)
    else if Precedes(b.nodeId, a.nodeId) then a else b
  }

  predicate WriterAtMost(a: Writer, b: Writer) {
    MaxWriter(a, b) == b
  }

  lemma MaxWriterIsJoin(a: Writer, b: Writer, c: Writer)
    ensures MaxWriter(a, b) == MaxWriter(b, a)
    ensures MaxWriter(a, MaxWriter(b, c)) == MaxWriter(MaxWriter(a, b), c)
    ensures MaxWriter(a, a) == a
    ensures WriterAtMost(a, b) && WriterAtMost(b, a) ==> a == b
    ensures WriterAtMost(a, b) && WriterAtMost(b, c) ==> WriterAtMost(a, c)
  {
    PrecedesOrder(a.nodeId, b.nodeId, c.nodeId);
    PrecedesOrder(b.nodeId, c.nodeId, a.nodeId);
    PrecedesOrder(c.nodeId, a.nodeId, b.nodeId);
    PrecedesOrder(a.nodeId, c.nodeId, b.nodeId);
    PrecedesOrder(c.nodeId, b.nodeId, a.nodeId);
    PrecedesOrder(b.nodeId, a.nodeId, c.nodeId);
  }
}
