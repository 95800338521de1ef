/**
 The table-driven memory manager: a pool cut into equal cells and a table with one entry per cell,
 0 for a free cell and otherwise the length, in cells, of the block the cell belongs to.

 `Laid` ties the table to the blocks that have been handed out; it is what every call keeps.
 */
module Allocator {

  const NONE: nat := 0xFFFF_FFFF

  type Entry = n: nat | n <= 0xFFFF

  // ---------- tables and blocks ----------

  ghost predicate Covers(blocks: map<nat, nat>, s: nat, k: nat) {
    s in blocks && s <= k < s + blocks[s]
  }

  ghost predicate Apart(blocks: map<nat, nat>, s: nat, u: nat)
    requires s in blocks && u in blocks
  {
    s + blocks[s] <= u || u + blocks[u] <= s
  }

  /** The blocks, by their first cell, lie in the table without overlap; each of their cells
      shows their length and every other cell is free. */
  ghost predicate Laid(t: seq<nat>, blocks: map<nat, nat>) {
    && (forall s | s in blocks :: 0 < blocks[s] && s + blocks[s] <= |t|)
    && (forall s, u {:trigger Apart(blocks, s, u)} | s in blocks && u in blocks && s != u :: Apart(blocks, s, u))
    && (forall s: nat, k: nat {:trigger Covers(blocks, s, k)} | Covers(blocks, s, k) && k < |t| :: t[k] == blocks[s])
    && (forall k | 0 <= k < |t| && t[k] != 0 :: exists s :: Covers(blocks, s, k))
  }

  /** m free cells from o on. */
  predicate FreeRun(t: seq<nat>, o: int, m: nat) {
    0 <= o && o + m <= |t| && forall k | o <= k < o + m :: t[k] == 0
  }

  /** The table with m entries from o on set to v. */
  function Marked(t: seq<nat>, o: nat, m: nat, v: nat): (r: seq<nat>)
    requires o + m <= |t|
    ensures |r| == |t|
  {
    t[..o] + seq(m, _ => v) + t[o + m..]
  }

  lemma MarkedNext(t: seq<nat>, o: nat, m: nat, v: nat)
    requires o + m < |t|
    ensures Marked(t, o, m + 1, v) == Marked(t, o, m, v)[o + m := v]
  {
  }

  lemma FreeIsUncovered(t: seq<nat>, blocks: map<nat, nat>, s: nat, k: nat)
    requires Laid(t, blocks) && k < |t| && t[k] == 0
    ensures !Covers(blocks, s, k)
  {
  }

  lemma LaidMarked(t: seq<nat>, blocks: map<nat, nat>, o: nat, m: nat)
    requires Laid(t, blocks) && m > 0 && FreeRun(t, o, m)
    ensures o !in blocks && Laid(Marked(t, o, m, m), blocks[o := m])
  {
    FreeIsUncovered(t, blocks, o, o);
    var r, all := Marked(t, o, m, m), blocks[o := m];
    forall s: nat | s in blocks ensures s + blocks[s] <= o || o + m <= s {
      FreeIsUncovered(t, blocks, s, o);
      if o <= s < o + m {
        FreeIsUncovered(t, blocks, s, s);
        assert false;
      }
    }
    forall s, u | s in all && u in all && s != u ensures Apart(all, s, u) {
      if s != o && u != o {
        assert Apart(blocks, s, u);
      }
    }
    forall s: nat, k: nat | Covers(all, s, k) && k < |r| ensures r[k] == all[s] {
      if s != o {
        assert Covers(blocks, s, k);
      }
    }
    forall k | 0 <= k < |r| && r[k] != 0 ensures exists s :: Covers(all, s, k) {
      if o <= k < o + m {
        assert Covers(all, o, k);
      } else {
        var s :| Covers(blocks, s, k);
        assert Covers(all, s, k);
      }
    }
  }

  lemma LaidCleared(t: seq<nat>, blocks: map<nat, nat>, o: nat)
    requires Laid(t, blocks) && o in blocks
    ensures Laid(Marked(t, o, blocks[o], 0), blocks - {o})
  {
    var r, rest := Marked(t, o, blocks[o], 0), blocks - {o};
    forall s, u | s in rest && u in rest && s != u ensures Apart(rest, s, u) {
      assert Apart(blocks, s, u);
    }
    forall s: nat, k: nat | Covers(rest, s, k) && k < |r| ensures r[k] == rest[s] {
      assert Covers(blocks, s, k) && Apart(blocks, s, o);
    }
    forall k | 0 <= k < |r| && r[k] != 0 ensures exists s :: Covers(rest, s, k) {
      var s :| Covers(blocks, s, k);
      assert Covers(rest, s, k);
    }
  }

  /** Freeing a block undoes allocating it. */
  lemma ClearUndoesMark(t: seq<nat>, o: nat, m: nat)
    requires FreeRun(t, o, m)
    ensures Marked(Marked(t, o, m, m), o, m, 0) == t
  {
    var r := Marked(Marked(t, o, m, m), o, m, 0);
    forall k | 0 <= k < |t| ensures r[k] == t[k] {
    }
  }

  // ---------- freeing from inside a block ----------

  /** Two layouts that agree below i, of which one has a block across i and the other one of the
      same length that ends at i, would have to disagree in the same way one block further down,
      and so on without end. */
  lemma {:induction false} CutsNeverMeet(
      t: seq<nat>, blocks: map<nat, nat>, s: nat, r: seq<nat>, other: map<nat, nat>, i: nat)
    requires Laid(t, blocks) && |t| == |r|
    requires s in blocks && s < i < s + blocks[s]
    requires i >= blocks[s] && i - blocks[s] in other && other[i - blocks[s]] == blocks[s]
    requires forall k | 0 <= k < i :: r[k] == t[k]
    ensures !Laid(r, other)
    decreases i
  {
    if Laid(r, other) {
      var v := blocks[s];
      var b := i - v;
      assert Covers(other, b, s - 1);
      var p :| Covers(blocks, p, s - 1);
      assert Apart(blocks, p, s) && p == s - v;
      assert Covers(blocks, p, b - 1);
      var q :| Covers(other, q, b - 1);
      assert Apart(other, q, b) && q == b - v;
      CutsNeverMeet(t, blocks, p, r, other, b);
    }
  }

  lemma InsideNotLaid(t: seq<nat>, blocks: map<nat, nat>, i: nat, other: map<nat, nat>)
    requires Laid(t, blocks) && i < |t| && t[i] != 0 && i !in blocks && i + t[i] <= |t|
    ensures !Laid(Marked(t, i, t[i], 0), other)
  {
    var r, v := Marked(t, i, t[i], 0), t[i];
    var s :| Covers(blocks, s, i);
    assert Covers(blocks, s, i - 1);
    assert r[i - 1] == t[i - 1] == v && r[i] == 0;
    if Laid(r, other) {
      var b :| Covers(other, b, i - 1);
      FreeIsUncovered(r, other, b, i);
      assert b == i - v;
      CutsNeverMeet(t, blocks, s, r, other, i);
    }
  }

  /** Freeing at any cell: the table still describes some set of blocks exactly when the cell was
      free or is the first of its block. */
  lemma FreedLaidIff(t: seq<nat>, blocks: map<nat, nat>, i: nat)
    requires Laid(t, blocks) && i < |t| && i + t[i] <= |t|
    ensures (exists other :: Laid(Marked(t, i, t[i], 0), other)) <==> t[i] == 0 || i in blocks
  {
    if t[i] == 0 {
      assert Marked(t, i, 0, 0) == t;
    } else if i in blocks {
      assert Covers(blocks, i, i);
      LaidCleared(t, blocks, i);
    } else {
      forall other ensures !Laid(Marked(t, i, t[i], 0), other) {
        InsideNotLaid(t, blocks, i, other);
      }
    }
  }

  /** Two blocks of two cells, freed at cell 1: half of each is cleared, and neither is left. At
      cell 3 the entries cleared would be 3 and 4, and the table has no entry 4. */
  lemma FreedInside()
    ensures var t := [2, 2, 2, 2]; var blocks := map[0 := 2, 2 := 2];
            && Laid(t, blocks)
            && Marked(t, 1, t[1], 0) == [2, 0, 0, 2]
            && (forall other :: !Laid(Marked(t, 1, t[1], 0), other))
            && 3 + t[3] > |t|
  {
    var t, blocks := [2, 2, 2, 2], map[0 := 2, 2 := 2];
    assert Covers(blocks, 0, 0) && Covers(blocks, 0, 1) && Covers(blocks, 2, 2) && Covers(blocks, 2, 3);
    FreedLaidIff(t, blocks, 1);
  }

  // ---------- arithmetic of sizes and offsets ----------

  lemma CellsEnough(size: nat, cell: nat)
    requires cell > 0
    ensures var m := size / cell + (if size % cell != 0 then 1 else 0);
            size <= m * cell && (size > 0 ==> m > 0 && (m - 1) * cell < size)
  {
    var q := size / cell;
    assert size == q * cell + size % cell;
    assert (q + 1) * cell == q * cell + cell;
  }

  lemma OffsetInPool(at: nat, cell: nat, n: nat)
    requires at < n && cell > 0
    ensures at * cell < n * cell
  {
    assert (n - at) * cell > 0;
  }

  lemma IndexInTable(offset: nat, cell: nat, n: nat)
    requires cell > 0 && offset < n * cell
    ensures offset / cell < n
  {
    var q := offset / cell;
    assert offset == q * cell + offset % cell;
    if q >= n {
      ProductMonotone(n, q, cell);
      assert false;
    }
  }

  lemma PercentBound(used: nat, n: nat)
    requires used <= n && n > 0
    ensures used * 100 / n <= 100
  {
    var q := used * 100 / n;
    assert used * 100 == q * n + used * 100 % n;
    if q > 100 {
      ProductMonotone(101, q, n);
      assert false;
    }
  }

  lemma ProductMonotone(a: nat, b: nat, c: nat)
    requires a <= b
    ensures a * c <= b * c
  {
  }

  // ---------- cells in use ----------

  /** What my_mem_perused counts. */
  function Used(t: seq<nat>): nat {
    if t == [] then 0 else Used(t[..|t| - 1]) + if t[|t| - 1] != 0 then 1 else 0
  }

  lemma {:induction false} UsedAppend(a: seq<nat>, b: seq<nat>)
    ensures Used(a + b) == Used(a) + Used(b)
  {
    if b == [] {
      assert a + b == a;
    } else {
      UsedAppend(a, b[..|b| - 1]);
      assert (a + b)[..|a + b| - 1] == a + b[..|b| - 1];
    }
  }

  lemma {:induction false} UsedUniform(m: nat, v: nat)
    ensures Used(seq(m, _ => v)) == if v == 0 then 0 else m
  {
    var s := seq(m, _ => v);
    if m > 0 {
      UsedUniform(m - 1, v);
      assert s[..m - 1] == seq(m - 1, _ => v);
    }
  }

  /** Allocating m cells puts exactly m more in use. */
  lemma UsedMarked(t: seq<nat>, o: nat, m: nat)
    requires FreeRun(t, o, m)
    ensures Used(Marked(t, o, m, m)) == Used(t) + m
  {
    var mid := t[o..o + m];
    assert mid == seq(m, _ => 0);
    assert t == t[..o] + mid + t[o + m..];
    UsedAppend(t[..o] + mid, t[o + m..]);
    UsedAppend(t[..o], mid);
    UsedUniform(m, 0);
    var block := seq(m, _ => m);
    UsedAppend(t[..o] + block, t[o + m..]);
    UsedAppend(t[..o], block);
    UsedUniform(m, m);
  }

  // ---------- any sequence of calls ----------

  /** The effect of a successful my_mem_malloc (wherever the search finds room) and of a
      my_mem_free. */
  datatype Event =
    | Take(at: nat, cells: nat)
    | Give(start: nat)

  /** The table, the blocks handed out, and the sum of what was asked for and not given back. */
  datatype Memory = Memory(table: seq<nat>, blocks: map<nat, nat>, total: int)

  predicate Possible(x: Memory, e: Event) {
    match e
    case Take(at, m) => m > 0 && FreeRun(x.table, at, m)
    case Give(s) => s in x.blocks && s + x.blocks[s] <= |x.table|
  }

  /** One event; an impossible one leaves everything as it is. */
  function Step(x: Memory, e: Event): Memory {
    if !Possible(x, e) then x else
    match e
    case Take(at, m) => Memory(Marked(x.table, at, m, m), x.blocks[at := m], x.total + m)
    case Give(s) => Memory(Marked(x.table, s, x.blocks[s], 0), x.blocks - {s}, x.total - x.blocks[s])
  }

  function Run(x: Memory, es: seq<Event>): Memory {
    if es == [] then x else Step(Run(x, es[..|es| - 1]), es[|es| - 1])
  }

  ghost predicate MemoryInv(x: Memory) {
    Laid(x.table, x.blocks) && Used(x.table) == x.total
  }

  lemma StepKeepsInv(x: Memory, e: Event)
    requires MemoryInv(x)
    ensures MemoryInv(Step(x, e)) && |Step(x, e).table| == |x.table|
  {
    if Possible(x, e) {
      match e
      case Take(at, m) =>
        LaidMarked(x.table, x.blocks, at, m);
        UsedMarked(x.table, at, m);
      case Give(s) =>
        LaidCleared(x.table, x.blocks, s);
        UsedCleared(x.table, x.blocks, s);
    }
  }

  lemma UsedCleared(t: seq<nat>, blocks: map<nat, nat>, s: nat)
    requires Laid(t, blocks) && s in blocks
    ensures Used(Marked(t, s, blocks[s], 0)) == Used(t) - blocks[s]
  {
    var m := blocks[s];
    var r := Marked(t, s, m, 0);
    UsedMarked(r, s, m);
    forall k: nat | k < |t| ensures Marked(r, s, m, m)[k] == t[k] {
      assert Covers(blocks, s, k) ==> t[k] == m;
    }
    assert Marked(r, s, m, m) == t;
  }

  /** After any calls the blocks lie in the pool without overlap, their cells and only theirs are
      in use, and the cells in use are exactly those asked for and not given back. */
  lemma {:induction false} RunKeepsInv(x: Memory, es: seq<Event>)
    requires MemoryInv(x)
    ensures MemoryInv(Run(x, es)) && |Run(x, es).table| == |x.table|
  {
    if es != [] {
      RunKeepsInv(x, es[..|es| - 1]);
      StepKeepsInv(Run(x, es[..|es| - 1]), es[|es| - 1]);
    }
  }

  /** A block stays where it is, with its length, through any calls that do not free it. */
  lemma {:induction false} BlockStays(x: Memory, es: seq<Event>, s: nat)
    requires MemoryInv(x) && s in x.blocks && Give(s) !in es
    ensures var y := Run(x, es);
            && s in y.blocks && y.blocks[s] == x.blocks[s] && s + y.blocks[s] <= |y.table|
            && forall k | s <= k < s + y.blocks[s] :: y.table[k] == y.blocks[s]
  {
    RunKeepsInv(x, es);
    if es != [] {
      BlockStays(x, es[..|es| - 1], s);
      var before, e := Run(x, es[..|es| - 1]), es[|es| - 1];
      RunKeepsInv(x, es[..|es| - 1]);
      if e.Take? && Possible(before, e) {
        FreeIsUncovered(before.table, before.blocks, e.at, e.at);
      }
    }
    var y := Run(x, es);
    forall k: nat | s <= k < s + y.blocks[s] ensures y.table[k] == y.blocks[s] {
      assert Covers(y.blocks, s, k);
    }
  }

  /** A pool in which everything is free. */
  function Empty(n: nat): Memory {
    Memory(seq(n, _ => 0), map[], 0)
  }

  /** This table and these blocks are what the calls have led to. */
  ghost predicate Follows(calls: seq<Event>, t: seq<nat>, blocks: map<nat, nat>) {
    var x := Run(Empty(|t|), calls);
    x.table == t && x.blocks == blocks
  }

  lemma RunSnoc(x: Memory, es: seq<Event>, e: Event)
    ensures Run(x, es + [e]) == Step(Run(x, es), e)
  {
    assert (es + [e])[..|es + [e]| - 1] == es;
  }

  lemma {:induction false} RunAppend(x: Memory, a: seq<Event>, b: seq<Event>)
    ensures Run(x, a + b) == Run(Run(x, a), b)
  {
    if b == [] {
      assert a + b == a;
    } else {
      RunAppend(x, a, b[..|b| - 1]);
      assert (a + b)[..|a + b| - 1] == a + b[..|b| - 1];
    }
  }

  lemma FollowsTake(calls: seq<Event>, t: seq<nat>, blocks: map<nat, nat>, at: nat, m: nat)
    requires Follows(calls, t, blocks) && m > 0 && FreeRun(t, at, m)
    ensures Follows(calls + [Take(at, m)], Marked(t, at, m, m), blocks[at := m])
  {
    RunSnoc(Empty(|t|), calls, Take(at, m));
  }

  lemma FollowsGive(calls: seq<Event>, t: seq<nat>, blocks: map<nat, nat>, s: nat)
    requires Follows(calls, t, blocks) && s in blocks && s + blocks[s] <= |t|
    ensures Follows(calls + [Give(s)], Marked(t, s, blocks[s], 0), blocks - {s})
  {
    RunSnoc(Empty(|t|), calls, Give(s));
  }

  lemma EmptyInv(n: nat)
    ensures MemoryInv(Empty(n))
  {
    UsedUniform(n, 0);
  }

  class Pool {
    const table: array<Entry>
    const cell: nat
    var ready: bool
    ghost var blocks: map<nat, nat>
    ghost var calls: seq<Event>  // what was allocated and freed since the pool was set up

    constructor (entries: nat, cellSize: nat)
      requires cellSize > 0 && entries <= 0xFFFF
      ensures Valid() && fresh(table) && !ready
    {
      table := new Entry[entries](_ => 0);
      cell := cellSize;
      ready := false;
      blocks, calls := map[], [];
    }

    ghost predicate Valid()
      reads this, table
    {
      Sound() && (ready ==> Laid(table[..], blocks) && Follows(calls, table[..], blocks))
    }

    /** The cells in use are exactly those asked for and not given back. */
    lemma Accounts()
      requires Valid() && ready
      ensures Used(table[..]) == Run(Empty(table.Length), calls).total
    {
      EmptyInv(table.Length);
      RunKeepsInv(Empty(table.Length), calls);
    }

    /** A block that was there after the first n calls and has not been freed since is still there,
        where it was and as long as it was. */
    lemma StillThere(n: nat, s: nat)
      requires Valid() && ready && n <= |calls|
      requires s in Run(Empty(table.Length), calls[..n]).blocks && Give(s) !in calls[n..]
      ensures s in blocks && blocks[s] == Run(Empty(table.Length), calls[..n]).blocks[s]
      ensures s + blocks[s] <= table.Length && forall k | s <= k < s + blocks[s] :: table[k] == blocks[s]
    {
      var x := Run(Empty(table.Length), calls[..n]);
      EmptyInv(table.Length);
      RunKeepsInv(Empty(table.Length), calls[..n]);
      BlockStays(x, calls[n..], s);
      RunAppend(Empty(table.Length), calls[..n], calls[n..]);
      assert calls[..n] + calls[n..] == calls;
    }

    /** A block's length fits an entry of the table. */
    predicate Sound() {
      cell > 0 && table.Length <= 0xFFFF
    }

    /** my_mem_init. */
    method Init()
      requires Sound()
      modifies this, table
      ensures Valid() && ready && blocks == map[] && calls == []
      ensures forall k | 0 <= k < table.Length :: table[k] == 0
    {
      for i := 0 to table.Length
        invariant forall k | 0 <= k < i :: table[k] == 0
      {
        table[i] := 0;
      }
      ready := true;
      blocks, calls := map[], [];
      assert table[..] == seq(table.Length, _ => 0);
    }

    /** The cells a request needs. */
    function Cells(size: nat): nat
      requires cell > 0
    {
      size / cell + if size % cell != 0 then 1 else 0
    }

    method Mark(o: nat, m: nat, v: Entry)
      requires o + m <= table.Length
      modifies table
      ensures table[..] == Marked(old(table[..]), o, m, v)
    {
      ghost var was := table[..];
      for i := 0 to m
        invariant table[..] == Marked(was, o, i, v)
      {
        MarkedNext(was, o, i, v);
        table[o + i] := v;
      }
    }

    /** The search of my_mem_malloc, from the top of the table down: the highest run of nmemb free
        cells, or -1 exactly when there is none. */
    method Search(nmemb: nat) returns (at: int)
      requires nmemb > 0
      ensures at == -1 || FreeRun(table[..], at, nmemb)
      ensures forall h | h > at :: !FreeRun(table[..], h, nmemb)
    {
      var cmemb := 0;
      at := table.Length - 1;
      while at >= 0
        invariant -1 <= at < table.Length && cmemb < nmemb
        invariant FreeRun(table[..], at + 1, cmemb)
        invariant at + 1 + cmemb == table.Length || table[at + 1 + cmemb] != 0
        invariant forall h | h > at :: !FreeRun(table[..], h, nmemb)
      {
        if table[at] == 0 {
          cmemb := cmemb + 1;
        } else {
          cmemb := 0;
        }
        if cmemb == nmemb {
          return at;
        }
        at := at - 1;
      }
    }

    /** The cells of a block are taken: the highest run that is long enough, if there is one. */
    method TakeCells(nmemb: nat) returns (at: int)
      requires Valid() && ready && nmemb > 0
      modifies this`blocks, this`calls, table
      ensures Valid()
      ensures forall h | h > at :: !FreeRun(old(table[..]), h, nmemb)
      ensures at < 0 ==> at == -1 && table[..] == old(table[..]) && blocks == old(blocks) && calls == old(calls)
      ensures at >= 0 ==>
                && FreeRun(old(table[..]), at, nmemb)
                && at !in old(blocks) && blocks == old(blocks)[at := nmemb]
                && calls == old(calls) + [Take(at, nmemb)]
                && table[..] == Marked(old(table[..]), at, nmemb, nmemb)
    {
      at := Search(nmemb);
      if at >= 0 {
        LaidMarked(table[..], blocks, at, nmemb);
        FollowsTake(calls, table[..], blocks, at, nmemb);
        Mark(at, nmemb, nmemb);
        blocks, calls := blocks[at := nmemb], calls + [Take(at, nmemb)];
      }
    }

    /** my_mem_malloc: a pool that is not ready is initialised first. The result is NONE exactly
        when nothing is asked for or no run of free cells is long enough; otherwise it is the
        highest such run, which becomes a block. */
    method Malloc(size: nat) returns (offset: nat, ghost first: int)
      requires Valid() && table.Length * cell < NONE
      modifies this, table
      ensures Valid() && ready
      ensures var t := if old(ready) then old(table[..]) else seq(table.Length, _ => 0);
              var bs := if old(ready) then old(blocks) else map[];
              var es := if old(ready) then old(calls) else [];
              && (offset == 0xFFFF_FFFF <==> size == 0 || forall o :: !FreeRun(t, o, Cells(size)))
              && (offset == NONE ==> table[..] == t && blocks == bs && calls == es)
              && (offset != NONE ==>
                    && FreeRun(t, first, Cells(size)) && (forall h | h > first :: !FreeRun(t, h, Cells(size)))
                    && offset == first * cell && (Cells(size) - 1) * cell < size <= Cells(size) * cell
                    && first !in bs && blocks == bs[first := Cells(size)]
                    && calls == es + [Take(first, Cells(size))]
                    && table[..] == Marked(t, first, Cells(size), Cells(size)))
    {
      if !ready {
        Init();
        assert table[..] == seq(table.Length, _ => 0);
      }
      first := -1;
      if size == 0 {
        return NONE, first;
      }
      var nmemb := CountCells(size);
      var at := TakeCells(nmemb);
      first := at;
      if at < 0 {
        return NONE, first;
      }
      offset := OffsetOf(at);
    }

    method CountCells(size: nat) returns (nmemb: nat)
      requires cell > 0 && size > 0
      ensures nmemb == Cells(size) > 0 && (nmemb - 1) * cell < size <= nmemb * cell
    {
      nmemb := size / cell;
      if size % cell != 0 {
        nmemb := nmemb + 1;
      }
      CellsEnough(size, cell);
    }

    method OffsetOf(at: nat) returns (offset: nat)
      requires cell > 0 && at < table.Length && table.Length * cell < NONE
      ensures offset == at * cell < NONE
    {
      offset := at * cell;
      OffsetInPool(at, cell, table.Length);
    }

    /** The cells that the entry at `index` speaks of are given back. */
    method GiveCells(index: nat)
      requires Valid() && ready && index < table.Length && index + table[index] <= table.Length
      modifies this`blocks, this`calls, table
      ensures table[..] == Marked(old(table[..]), index, old(table[index]), 0)
      ensures index in old(blocks) ==> old(table[index]) == old(blocks)[index]
      ensures index in old(blocks) || old(table[index]) == 0 ==> Valid() && blocks == old(blocks) - {index}
      ensures calls == old(calls) + if index in old(blocks) then [Give(index)] else []
    {
      var nmemb := table[index];
      if index in blocks {
        assert Covers(blocks, index, index);
        LaidCleared(table[..], blocks, index);
        FollowsGive(calls, table[..], blocks, index);
        calls := calls + [Give(index)];
      } else {
        assert nmemb == 0 ==> Marked(table[..], index, nmemb, 0) == table[..];
        assert blocks - {index} == blocks;
      }
      Mark(index, nmemb, 0);
      blocks := blocks - {index};
    }

    /** my_mem_free: for the offset of a block exactly the block's cells are freed. 1 says that
        there was no pool yet, 2 that the offset is out of range. For an offset inside a block the
        same number of cells is cleared from there on, which must still be in the table; what is
        left then is in `FreedLaidIff`. */
    method Free(offset: nat) returns (r: nat)
      requires Valid()
      requires ready && offset < table.Length * cell ==>
                 Index(offset) + table[Index(offset)] <= table.Length
      modifies this, table
      ensures ready && r == if !old(ready) then 1 else if offset < table.Length * cell then 0 else 2
      ensures r == 1 ==> Valid() && blocks == map[] && calls == [] && table[..] == seq(table.Length, _ => 0)
      ensures r == 0 ==>
                var i := Index(offset);
                && table[..] == Marked(old(table[..]), i, old(table[i]), 0)
                && (i in old(blocks) ==> old(table[i]) == old(blocks)[i])
                && (i in old(blocks) || old(table[i]) == 0 ==> Valid() && blocks == old(blocks) - {i})
                && calls == old(calls) + if i in old(blocks) then [Give(i)] else []
      ensures r == 2 ==> Valid() && table[..] == old(table[..]) && blocks == old(blocks) && calls == old(calls)
    {
      if !ready {
        Init();
        return 1;
      }
      if offset < table.Length * cell {
        GiveCells(Index(offset));
        return 0;
      }
      return 2;
    }

    /** my_mem_perused: the share of cells in use, in per cent. */
    method PerUsed() returns (percent: nat)
      requires table.Length > 0
      ensures percent == Used(table[..]) * 100 / table.Length && percent <= 100
    {
      var used := 0;
      for i := 0 to table.Length
        invariant used == Used(table[..i]) <= i
      {
        assert table[..i + 1][..i] == table[..i];
        if table[i] != 0 {
          used := used + 1;
        }
      }
      assert table[..table.Length] == table[..];
      percent := used * 100 / table.Length;
      PercentBound(used, table.Length);
    }

    function Index(offset: nat): (i: nat)
      requires cell > 0 && offset < table.Length * cell
      ensures i == offset / cell < table.Length
    {
      IndexInTable(offset, cell, table.Length);
      offset / cell
    }
  }
}
