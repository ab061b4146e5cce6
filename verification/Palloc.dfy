/**
 The pool4 database (tables by mark and protocol, in hash slots) and the port
 allocator on top of it: Algorithm 3, section 3.3.3 of RFC 6056.
 */
module Palloc {
  import opened Types
  import opened Pool4Table

  /** The hash slots. `hash` stands for the kernel's hash_32; it maps marks to slots. */
  type Slots = seq<seq<Table>>

  /** Every table sits in the slot its mark hashes to. */
  ghost predicate Placed(db: Slots, hash: nat -> nat) {
    forall i, j :: 0 <= i < |db| && 0 <= j < |db[i]| ==> hash(db[i][j].mark) == i
  }

  ghost predicate Holds(db: Slots, table: Table) {
    exists i, j :: 0 <= i < |db| && 0 <= j < |db[i]| && db[i][j] == table
  }

  /** find_table searches one slot; that is as good as searching them all. */
  method FindTable(db: Slots, hash: nat -> nat, mark: nat, proto: Proto) returns (table: Table?)
    requires Placed(db, hash) && hash(mark) < |db|
    ensures table != null ==> Holds(db, table) && table.mark == mark && table.proto == proto
    ensures table == null ==> forall i, j :: 0 <= i < |db| && 0 <= j < |db[i]| ==>
              !(db[i][j].mark == mark && db[i][j].proto == proto)
  {
    var slot := db[hash(mark)];
    for j := 0 to |slot|
      invariant forall k :: 0 <= k < j ==> !(slot[k].mark == mark && slot[k].proto == proto)
    {
      if slot[j].mark == mark && slot[j].proto == proto {
        assert db[hash(mark)][j] == slot[j];
        return slot[j];
      }
    }
    return null;
  }

  /** pool4db_contains: does any table of this protocol, whatever its mark, list the address? */
  ghost predicate Listed(db: Slots, proto: Proto, t: Taddr4)
    reads set i, j | 0 <= i < |db| && 0 <= j < |db[i]| :: db[i][j]
  {
    exists i, j :: 0 <= i < |db| && 0 <= j < |db[i]| && db[i][j].proto == proto && Has(db[i][j].rows, t)
  }

  method DbContains(db: Slots, proto: Proto, t: Taddr4) returns (found: bool)
    ensures found <==> Listed(db, proto, t)
  {
    for i := 0 to |db|
      invariant forall k, j :: 0 <= k < i && 0 <= j < |db[k]| ==> !(db[k][j].proto == proto && Has(db[k][j].rows, t))
    {
      var slot := db[i];
      for j := 0 to |slot|
        invariant forall k :: 0 <= k < j ==> !(slot[k].proto == proto && Has(slot[k].rows, t))
      {
        if slot[j].proto == proto {
          found := slot[j].Holds(t);
          if found {
            assert db[i][j] == slot[j];
            return;
          }
        }
      }
    }
    return false;
  }

  /** The candidates in the order they are tried: the whole table, from a pseudo-random place on. */
  function Candidates(rows: seq<Row>, offset: nat): seq<Taddr4> {
    var count := Total(rows) % 0x1_0000_0000;
    FlatCount(rows);
    if count == 0 then [] else Rotated(Flat(rows), offset % count)
  }

  /**
   palloc_allocate, given the table find_table returned: `f` is the keyed hash of the flow,
   `ephemeral` the counter shared by all flows; both are 32-bit. None stands for ESRCH.
   */
  method Allocate(table: Table?, taken: Taddr4 -> bool, f: nat, ephemeral: nat)
    returns (result: Option<Taddr4>, ephemeral': nat)
    ensures table == null ==> result == None && ephemeral' == ephemeral
    ensures table != null ==>
              var tried := Candidates(table.rows, (f + ephemeral) % 0x1_0000_0000);
              && (result.Some? ==> exists k: nat :: FirstFree(tried, taken, k) && result.value == tried[k]
                                            && ephemeral' == (ephemeral + k + 1) % 0x1_0000_0000)
              && (result.None? ==> (forall i :: 0 <= i < |tried| ==> taken(tried[i]))
                                   && ephemeral' == (ephemeral + |tried|) % 0x1_0000_0000)
  {
    if table == null {
      return None, ephemeral;
    }
    var visited, stopped := table.ForeachTaddr4((f + ephemeral) % 0x1_0000_0000, t => !taken(t));
    ephemeral' := (ephemeral + |visited|) % 0x1_0000_0000;
    if !stopped {
      result := None;
      return;
    }
    var k := |visited| - 1;
    result := Some(visited[k]);
    ghost var tried := Candidates(table.rows, (f + ephemeral) % 0x1_0000_0000);
    assert forall i :: 0 <= i < |visited| ==> tried[i] == visited[i];
    assert FirstFree(tried, taken, k);
  }

  ghost predicate FirstFree(tried: seq<Taddr4>, taken: Taddr4 -> bool, k: nat) {
    && k < |tried|
    && !taken(tried[k])
    && forall i :: 0 <= i < k ==> taken(tried[i])
  }

  /**
   The candidates are exactly the addresses the table lists, unless the 32-bit count of a table that is not empty wraps
   to zero; then there are none. In a canonical table each comes once. So a result of Allocate is listed and not taken,
   and None means all are taken.
   */
  lemma CandidatesAreTheTableIff(rows: seq<Row>, offset: nat)
    requires Counted(rows)
    ensures forall t: Taddr4 :: t in Candidates(rows, offset) ==> Has(rows, t)
    ensures (forall t: Taddr4 :: t in Candidates(rows, offset) <==> Has(rows, t)) <==>
            (Total(rows) % 0x1_0000_0000 == 0 ==> Total(rows) == 0)
    ensures Valid(rows) ==> Distinct(Candidates(rows, offset))
  {
    FlatCount(rows);
    var s, count := Flat(rows), Total(rows) % 0x1_0000_0000;
    forall t: Taddr4 ensures t in s <==> Has(rows, t) {
      FlatMembers(rows, t);
    }
    if count != 0 {
      var n := offset % count;
      assert s == s[..n] + s[n..];
      if Valid(rows) {
        RotationVisitsAllOnce(rows, n);
      }
    } else if Total(rows) != 0 {
      assert Has(rows, s[0]);
    }
  }

  /** Every range counts right, as additions and removals leave it (AddKeepsSound, Rm). */
  ghost predicate Sane(db: Slots)
    reads set i, j | 0 <= i < |db| && 0 <= j < |db[i]| :: db[i][j]
  {
    forall i, j :: 0 <= i < |db| && 0 <= j < |db[i]| ==> Counted(db[i][j].rows)
  }

  /**
   The whole path of palloc_allocate over a non-empty pool: what it returns is free and
   in the pool; it gives up only if the packet's mark and protocol have no table, or
   if every address that table lists is taken, or if the 32-bit count of that table is zero.
   */
  method AllocateFor(db: Slots, hash: nat -> nat, mark: nat, proto: Proto, taken: Taddr4 -> bool, f: nat, ephemeral: nat)
    returns (table: Table?, result: Option<Taddr4>, ephemeral': nat)
    requires Placed(db, hash) && hash(mark) < |db| && Sane(db)
    ensures table != null ==> Holds(db, table) && table.mark == mark && table.proto == proto
    ensures table == null ==> result == None && forall i, j :: 0 <= i < |db| && 0 <= j < |db[i]| ==>
              !(db[i][j].mark == mark && db[i][j].proto == proto)
    ensures result.Some? ==> table != null && !taken(result.value) && Has(table.rows, result.value)
    ensures result.Some? ==> Listed(db, proto, result.value)
    ensures table != null ==>
              (result.None? <==>
                 Total(table.rows) % 0x1_0000_0000 == 0 || forall t: Taddr4 :: Has(table.rows, t) ==> taken(t))
  {
    table := FindTable(db, hash, mark, proto);
    result, ephemeral' := Allocate(table, taken, f, ephemeral);
    if table != null {
      HeldTable(db, table);
      AllocationMeaning(table.rows, (f + ephemeral) % 0x1_0000_0000, taken, result);
    }
  }

  lemma HeldTable(db: Slots, table: Table)
    requires Sane(db) && Holds(db, table)
    ensures Counted(table.rows)
    ensures forall t: Taddr4 :: Has(table.rows, t) ==> Listed(db, table.proto, t)
  {
  }

  lemma AllocationMeaning(rows: seq<Row>, offset: nat, taken: Taddr4 -> bool, result: Option<Taddr4>)
    requires Counted(rows)
    requires var tried := Candidates(rows, offset);
             && (result.Some? ==> exists k: nat :: FirstFree(tried, taken, k) && result.value == tried[k])
             && (result.None? ==> forall i :: 0 <= i < |tried| ==> taken(tried[i]))
    ensures result.Some? ==> !taken(result.value) && Has(rows, result.value)
    ensures result.None? <==> Total(rows) % 0x1_0000_0000 == 0 || forall t: Taddr4 :: Has(rows, t) ==> taken(t)
  {
    CandidatesAreTheTableIff(rows, offset);
  }
}
