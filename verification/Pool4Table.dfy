/**
 One pool4 table: the IPv4 transport addresses a given mark and protocol may be
 masked with, kept as one row per address with a list of port ranges.
 */
module Pool4Table {
  import opened Types
  import opened PortRanges

  datatype Row = Row(addr: nat, ports: seq<Range>)

  /** An IPv4 prefix; `address` need not be the first address of the block. */
  datatype Prefix4 = Prefix4(address: nat, len: nat)

  datatype Code = Ok | TooBig | BadScope

  const UINT_MAX := 0xFFFF_FFFF

  // ------------------------------------------------------------------ contents

  ghost predicate Has(rows: seq<Row>, t: Taddr4) {
    exists i :: 0 <= i < |rows| && rows[i].addr == t.l3 && HasPort(rows[i].ports, t.l4)
  }

  /** Distinct addresses, no row without ports, every row's ranges canonical. */
  ghost predicate Valid(rows: seq<Row>) {
    && (forall i :: 0 <= i < |rows| ==> rows[i].ports != [] && Canonical(rows[i].ports))
    && OneRowEach(rows)
  }

  /** Every range counts as many ports as it has. */
  ghost predicate Counted(rows: seq<Row>) {
    forall i :: 0 <= i < |rows| ==> CountsRight(rows[i].ports)
  }

  /** What every table is, whatever was added and removed: weaker than Valid. */
  ghost predicate Sound(rows: seq<Row>) {
    Counted(rows) && OneRowEach(rows) && forall i :: 0 <= i < |rows| ==> rows[i].ports != []
  }

  ghost predicate OneRowEach(rows: seq<Row>) {
    forall i, j :: 0 <= i < j < |rows| ==> rows[i].addr != rows[j].addr
  }

  function FlatRange(addr: nat, r: Range): seq<Taddr4> {
    seq(CountOf(r), i requires 0 <= i => Taddr4(addr, r.min + i))
  }

  function FlatPorts(addr: nat, rs: seq<Range>): seq<Taddr4> {
    if rs == [] then [] else FlatPorts(addr, rs[..|rs| - 1]) + FlatRange(addr, rs[|rs| - 1])
  }

  /** All transport addresses of the table, in the order it stores them. */
  function Flat(rows: seq<Row>): seq<Taddr4> {
    if rows == [] then []
    else var row := rows[|rows| - 1]; Flat(rows[..|rows| - 1]) + FlatPorts(row.addr, row.ports)
  }

  function CountAll(rs: seq<Range>): nat {
    if rs == [] then 0 else CountAll(rs[..|rs| - 1]) + CountOf(rs[|rs| - 1])
  }

  /** How many transport addresses the table lists. */
  function Total(rows: seq<Row>): nat {
    if rows == [] then 0 else Total(rows[..|rows| - 1]) + CountAll(rows[|rows| - 1].ports)
  }

  lemma {:induction false} FlatPortsCount(addr: nat, rs: seq<Range>)
    ensures |FlatPorts(addr, rs)| == CountAll(rs)
  {
    if rs == [] {
    } else {
      FlatPortsCount(addr, rs[..|rs| - 1]);
    }
  }

  lemma {:induction false} FlatCount(rows: seq<Row>)
    ensures |Flat(rows)| == Total(rows)
  {
    if rows == [] {
    } else {
      FlatCount(rows[..|rows| - 1]);
      FlatPortsCount(rows[|rows| - 1].addr, rows[|rows| - 1].ports);
    }
  }

  function FindRow(rows: seq<Row>, addr: nat): (n: nat)
    ensures n <= |rows|
    ensures forall i :: 0 <= i < n ==> rows[i].addr != addr
    ensures n < |rows| ==> rows[n].addr == addr
  {
    if rows == [] || rows[0].addr == addr then 0 else FindRow(rows[1..], addr) + 1
  }

  // ------------------------------------------------------------------ addition

  /** 0/8, 127/8, 169.254/16, 224/4 and the limited broadcast address are never translated. */
  predicate IsScopeSubnet(addr: nat) {
    || addr < 0x100_0000
    || 0x7F00_0000 <= addr < 0x8000_0000
    || 0xA9FE_0000 <= addr < 0xA9FF_0000
    || 0xE000_0000 <= addr < 0xF000_0000
    || addr == UINT_MAX
  }

  function AddSample(rows: seq<Row>, addr: nat, range: Range): seq<Row> {
    var n := FindRow(rows, addr);
    if n == |rows| then rows + [Row(addr, AddPorts([], range))]
    else rows[n := Row(addr, AddPorts(rows[n].ports, range))]
  }

  function Pow2(n: nat): (r: nat)
    ensures r > 0
  {
    if n == 0 then 1 else 2 * Pow2(n - 1)
  }

  function AddrCount(prefix: Prefix4): nat
    requires prefix.len <= 32
  {
    Pow2(32 - prefix.len)
  }

  /** The addresses foreach_addr4 walks over; the cursor is wider than an address. */
  function Addresses(prefix: Prefix4): (addrs: seq<nat>)
    requires prefix.len <= 32
    ensures |addrs| == AddrCount(prefix)
  {
    seq(AddrCount(prefix), k requires 0 <= k => (prefix.address + k) % 0x1_0000_0000)
  }

  function AddEach(rows: seq<Row>, addrs: seq<nat>, range: Range): seq<Row> {
    if addrs == [] then rows
    else AddSample(AddEach(rows, addrs[..|addrs| - 1], range), addrs[|addrs| - 1], range)
  }

  /** How many addresses come before the first one of too low a scope. */
  function GoodScope(addrs: seq<nat>): (n: nat)
    ensures n <= |addrs|
    ensures forall i :: 0 <= i < n ==> !IsScopeSubnet(addrs[i])
    ensures n < |addrs| ==> IsScopeSubnet(addrs[n])
  {
    if addrs == [] || IsScopeSubnet(addrs[0]) then 0 else GoodScope(addrs[1..]) + 1
  }

  /** The bounds in order, and no port 0 for TCP and UDP. */
  function Normalise(proto: Proto, ports: Range): Range {
    var r := if ports.min > ports.max then Range(ports.max, ports.min) else ports;
    if (proto == TCP || proto == UDP) && r.min == 0 then Range(1, r.max) else r
  }

  /** validate_overflow looks at the range as requested, not at the normalised one. */
  predicate Fits(rows: seq<Row>, prefix: Prefix4, ports: Range)
    requires prefix.len <= 32
  {
    var numPorts := AddrCount(prefix) * CountOf(ports);
    numPorts <= UINT_MAX && numPorts + Total(rows) % 0x1_0000_0000 <= UINT_MAX
  }

  /** Adding stops at the first address of too low a scope; what was added before stays. */
  function Add(rows: seq<Row>, proto: Proto, prefix: Prefix4, ports: Range): (seq<Row>, Code)
    requires prefix.len <= 32
  {
    if !Fits(rows, prefix, ports) then (rows, TooBig)
    else
      var addrs := Addresses(prefix);
      var n := GoodScope(addrs);
      (AddEach(rows, addrs[..n], Normalise(proto, ports)), if n == |addrs| then Ok else BadScope)
  }

  // ------------------------------------------------------------------ the table

  class Table {
    const mark: nat
    const proto: Proto
    var rows: seq<Row>

    constructor (mark: nat, proto: Proto)
      ensures this.mark == mark && this.proto == proto && rows == []
    {
      this.mark := mark;
      this.proto := proto;
      rows := [];
    }

    method LookUp(addr: nat) returns (n: nat)
      ensures n == FindRow(rows, addr)
    {
      n := 0;
      while n < |rows| && rows[n].addr != addr
        invariant n <= |rows|
        invariant forall i :: 0 <= i < n ==> rows[i].addr != addr
      {
        n := n + 1;
      }
    }

    method CountPorts() returns (result: nat)
      ensures result == Total(rows) % 0x1_0000_0000
    {
      result := 0;
      ghost var total: nat := 0;
      for i := 0 to |rows|
        invariant Wrapped(result, total) && total == Total(rows[..i])
      {
        var ports := rows[i].ports;
        for j := 0 to |ports|
          invariant Wrapped(result, total) && total == Total(rows[..i]) + CountAll(ports[..j])
        {
          assert ports[..j + 1][..j] == ports[..j];
          result := Add32(result, CountOf(ports[j]), total);
          total := total + CountOf(ports[j]);
        }
        assert ports[..|ports|] == ports;
        assert rows[..i + 1][..i] == rows[..i];
      }
      assert rows[..|rows|] == rows;
    }

    method AddOne(addr: nat, range: Range) returns (code: Code)
      modifies this
      ensures code == (if IsScopeSubnet(addr) then BadScope else Ok)
      ensures rows == (if code == Ok then AddSample(old(rows), addr, range) else old(rows))
    {
      if IsScopeSubnet(addr) {
        return BadScope;
      }
      var n := LookUp(addr);
      if n < |rows| {
        var ports := AddPortsLoop(rows[n].ports, range);
        rows := rows[n := Row(addr, ports)];
      } else {
        var ports := AddPortsLoop([], range);
        rows := rows + [Row(addr, ports)];
      }
      return Ok;
    }

    method AddAddresses(addrs: seq<nat>, range: Range) returns (code: Code)
      modifies this
      ensures rows == AddEach(old(rows), addrs[..GoodScope(addrs)], range)
      ensures code == (if GoodScope(addrs) == |addrs| then Ok else BadScope)
    {
      for k := 0 to |addrs|
        invariant rows == AddEach(old(rows), addrs[..k], range)
        invariant k <= GoodScope(addrs)
      {
        assert addrs[..k + 1][..k] == addrs[..k];
        code := AddOne(addrs[k], range);
        if code != Ok {
          return;
        }
      }
      return Ok;
    }

    /** pool4table_add */
    method AddRange(prefix: Prefix4, ports: Range) returns (code: Code)
      requires prefix.len <= 32
      modifies this
      ensures (rows, code) == Add(old(rows), proto, prefix, ports)
    {
      var taken := CountPorts();
      var numPorts := AddrCount(prefix) * CountOf(ports);
      if numPorts > UINT_MAX || numPorts + taken > UINT_MAX {
        return TooBig;
      }
      code := AddAddresses(Addresses(prefix), Normalise(proto, ports));
    }

    method RmOne(addr: nat, rm: Range)
      requires Sound(rows)
      requires forall i :: 0 <= i < |rows| && rows[i].addr == addr ==> !Spins(rows[i].ports, rm)
      modifies this
      ensures Sound(rows)
      ensures rm.min <= rm.max ==> Without(old(rows), rows, [addr], rm) && (Valid(old(rows)) ==> Valid(rows))
      ensures rm.max < rm.min && CanonicalAt(old(rows), addr) ==> Spoilt(old(rows), rows, [addr], rm)
      ensures SameElsewhere(old(rows), rows, addr)
    {
      hide Sound, Valid, Without, Spoilt, CanonicalAt, SameElsewhere, Has, RowsAfter;
      hide CountsRight, Canonical, Spins, Difference, AnyStruck, OneRowEach;
      var n := LookUp(addr);
      if n < |rows| {
        SoundRow(rows, n);
        var ports := RmRange(rows[n].ports, rm);
        RowsWith(rows, n, rm, ports);
        if rm.min <= rm.max {
          RmOneMeaning(rows, n, rm, ports);
          RowWithout(rows, RowsAfter(rows, n, ports), n, rm);
        }
        RowSpoilt(rows, n, rm, ports);
        rows := RowsAfter(rows, n, ports);
      } else {
        NoRow(rows, addr, rm);
      }
    }

    /**
     pool4table_rm: with ordered bounds, set difference on every table. A valid table stays one, and loses exactly those
     ports, if and only if the bounds are ordered or no range of the addresses is struck.
     */
    method Rm(prefix: Prefix4, rm: Range)
      requires prefix.len <= 32 && Sound(rows)
      requires forall i :: 0 <= i < |rows| && rows[i].addr in Addresses(prefix) ==> !Spins(rows[i].ports, rm)
      modifies this
      ensures Sound(rows)
      ensures rm.min <= rm.max ==> Without(old(rows), rows, Addresses(prefix), rm)
      ensures Valid(old(rows)) ==>
                (Valid(rows) && Without(old(rows), rows, Addresses(prefix), rm) <==>
                 || rm.min <= rm.max
                 || forall i :: 0 <= i < |old(rows)| && old(rows)[i].addr in Addresses(prefix) ==>
                      !AnyStruck(old(rows)[i].ports, rm))
      ensures Valid(old(rows)) && rm.max < rm.min ==> Spoilt(old(rows), rows, Addresses(prefix), rm)
    {
      var addrs := Addresses(prefix);
      for k := 0 to |addrs|
        invariant Sound(rows)
        invariant LeftAlone(old(rows), rows, addrs[..k])
        invariant rm.min <= rm.max ==> Without(old(rows), rows, addrs[..k], rm) && (Valid(old(rows)) ==> Valid(rows))
        invariant Valid(old(rows)) && rm.max < rm.min ==> Spoilt(old(rows), rows, addrs[..k], rm)
      {
        assert addrs[..k + 1] == addrs[..k] + [addrs[k]];
        ghost var before := rows;
        AddressesDiffer(prefix, k);
        RmOne(addrs[k], rm);
        LeftAloneFurther(old(rows), before, rows, addrs[..k], addrs[k]);
        if Valid(old(rows)) && rm.max < rm.min {
          SpoiltFurther(old(rows), before, rows, addrs[..k], addrs[k], rm);
        }
      }
      assert addrs[..|addrs|] == addrs;
    }

    method Holds(t: Taddr4) returns (found: bool)
      ensures found <==> Has(rows, t)
    {
      for i := 0 to |rows|
        invariant forall k :: 0 <= k < i ==> !(rows[k].addr == t.l3 && HasPort(rows[k].ports, t.l4))
      {
        if rows[i].addr == t.l3 {
          var ports := rows[i].ports;
          for j := 0 to |ports|
            invariant forall k :: 0 <= k < j ==> !Contains(ports[k], t.l4)
          {
            if Contains(ports[j], t.l4) {
              return true;
            }
          }
        }
      }
      return false;
    }

    /** The first half of pool4table_foreach_taddr4: from the offset to the end. */
    method VisitFrom(offsetMain: nat, stop: Taddr4 -> bool) returns (visited: seq<Taddr4>, stopped: bool)
      requires offsetMain <= |Flat(rows)|
      ensures Visited(Flat(rows)[offsetMain..], stop, visited, stopped)
    {
      visited := [];
      var offset := offsetMain;
      for i := 0 to |rows|
        invariant Skipping(Flat(rows[..i]), offsetMain, stop, offset, visited)
      {
        offset, visited, stopped := VisitRowFrom(rows, i, offsetMain, stop, offset, visited);
        if stopped {
          return;
        }
      }
      assert rows[..|rows|] == rows;
      stopped := false;
    }

    /** The second half: from the beginning up to the offset. */
    method VisitUpTo(offsetMain: nat, stop: Taddr4 -> bool) returns (visited: seq<Taddr4>, stopped: bool)
      requires offsetMain <= |Flat(rows)|
      ensures Visited(Flat(rows)[..offsetMain], stop, visited, stopped)
    {
      visited := [];
      var offset := offsetMain;
      for i := 0 to |rows|
        invariant Counting(Flat(rows[..i]), offsetMain, stop, offset, visited)
      {
        var row := rows[i];
        ghost var here := Flat(rows[..i]);
        for j := 0 to |row.ports|
          invariant Counting(here, offsetMain, stop, offset, visited)
          invariant here == Flat(rows[..i]) + FlatPorts(row.addr, row.ports[..j])
        {
          var range := row.ports[j];
          FlatStep(rows, i, j);
          var numPorts := CountOf(range);
          var seen: seq<Taddr4>;
          seen, stopped := VisitRange(row.addr, range, 0, if offset < numPorts then offset else numPorts, stop);
          CountingStep(here, FlatRange(row.addr, range), offsetMain, stop, offset, visited, seen, stopped, Flat(rows));
          visited := visited + seen;
          if stopped || offset < numPorts {
            return;
          }
          offset := offset - numPorts;
          here := here + FlatRange(row.addr, range);
        }
        assert row.ports[..|row.ports|] == row.ports;
        assert rows[..i + 1][..i] == rows[..i];
      }
      assert rows[..|rows|] == rows;
      stopped := false;
    }

    /**
     pool4table_foreach_taddr4: from the offset around to the offset, until the
     callback says stop. The number of ports is a 32-bit count.
     */
    method ForeachTaddr4(offset: nat, stop: Taddr4 -> bool) returns (visited: seq<Taddr4>, stopped: bool)
      ensures Total(rows) % 0x1_0000_0000 == 0 ==> visited == [] && !stopped
      ensures Total(rows) % 0x1_0000_0000 != 0 ==>
                && OffsetOf(rows, offset) <= |Flat(rows)|
                && Visited(Rotated(Flat(rows), OffsetOf(rows, offset)), stop, visited, stopped)
    {
      FlatCount(rows);
      var numPorts := CountPorts();
      if numPorts == 0 {
        return [], false;
      }
      var offsetMain := offset % numPorts;
      visited, stopped := VisitFrom(offsetMain, stop);
      if stopped {
        VisitedExtend(Flat(rows)[offsetMain..], Flat(rows)[..offsetMain], stop, visited);
        return;
      }
      var more: seq<Taddr4>;
      more, stopped := VisitUpTo(offsetMain, stop);
      VisitedAppend(Flat(rows)[offsetMain..], Flat(rows)[..offsetMain], stop, visited, more, stopped);
      visited := visited + more;
    }
  }

  /** Where iteration starts, given any offset. */
  function OffsetOf(rows: seq<Row>, offset: nat): nat
    requires Total(rows) % 0x1_0000_0000 != 0
  {
    offset % (Total(rows) % 0x1_0000_0000)
  }

  /** One row of the first half. */
  method VisitRowFrom(rows: seq<Row>, i: nat, ghost offsetMain: nat, stop: Taddr4 -> bool,
                      offset0: nat, visited0: seq<Taddr4>)
    returns (offset: nat, visited: seq<Taddr4>, stopped: bool)
    requires i < |rows| && offsetMain <= |Flat(rows)|
    requires Skipping(Flat(rows[..i]), offsetMain, stop, offset0, visited0)
    ensures !stopped ==> Skipping(Flat(rows[..i + 1]), offsetMain, stop, offset, visited)
    ensures stopped ==> Visited(Flat(rows)[offsetMain..], stop, visited, true)
  {
    var row := rows[i];
    offset, visited := offset0, visited0;
    ghost var here, all := Flat(rows[..i]), Flat(rows);
    for j := 0 to |row.ports|
      invariant Skipping(here, offsetMain, stop, offset, visited)
      invariant here == Flat(rows[..i]) + FlatPorts(row.addr, row.ports[..j])
    {
      FlatStep(rows, i, j);
      offset, visited, stopped := SkipOrVisit(here, row.addr, row.ports[j], offsetMain, stop, offset, visited, all);
      if stopped {
        return;
      }
      here := here + FlatRange(row.addr, row.ports[j]);
    }
    assert row.ports[..|row.ports|] == row.ports;
    assert rows[..i + 1][..i] == rows[..i];
    stopped := false;
  }

  /** One range of the first half; `here` is everything before it. */
  method SkipOrVisit(ghost here: seq<Taddr4>, addr: nat, range: Range, ghost offsetMain: nat, stop: Taddr4 -> bool,
                     offset: nat, visited: seq<Taddr4>, ghost all: seq<Taddr4>)
    returns (offset': nat, visited': seq<Taddr4>, stopped: bool)
    requires Skipping(here, offsetMain, stop, offset, visited)
    requires here + FlatRange(addr, range) <= all && offsetMain <= |all|
    ensures !stopped ==> Skipping(here + FlatRange(addr, range), offsetMain, stop, offset', visited')
    ensures stopped ==> Visited(all[offsetMain..], stop, visited', true)
  {
    var numPorts := CountOf(range);
    if offset > numPorts {
      SkippingOver(here, FlatRange(addr, range), offsetMain, stop, offset, visited);
      return offset - numPorts, visited, false;
    }
    var seen: seq<Taddr4>;
    seen, stopped := VisitRange(addr, range, offset, numPorts, stop);
    assert FlatRange(addr, range)[offset..numPorts] == FlatRange(addr, range)[offset..];
    SkippingStep(here, FlatRange(addr, range), offsetMain, stop, offset, visited, seen, stopped, all);
    return 0, visited + seen, stopped;
  }

  /** `r` is what a 32-bit counter shows after counting to `total`. */
  ghost predicate Wrapped(r: nat, total: nat) {
    r == total % 0x1_0000_0000
  }

  function Add32(a: nat, b: nat, ghost total: nat): (r: nat)
    requires Wrapped(a, total)
    ensures Wrapped(r, total + b)
  {
    (a + b) % 0x1_0000_0000
  }

  method VisitRange(addr: nat, r: Range, from: nat, to: nat, stop: Taddr4 -> bool)
    returns (seen: seq<Taddr4>, stopped: bool)
    requires from <= to <= CountOf(r)
    ensures Visited(FlatRange(addr, r)[from..to], stop, seen, stopped)
  {
    seen := [];
    for i := from to to
      invariant seen == FlatRange(addr, r)[from..i]
      invariant forall k :: 0 <= k < |seen| ==> !stop(seen[k])
    {
      var t := Taddr4(addr, r.min + i);
      assert FlatRange(addr, r)[i] == t;
      seen := seen + [t];
      if stop(t) {
        return seen, true;
      }
    }
    return seen, false;
  }

  // ------------------------------------------------- addition and removal: proofs

  lemma AddSampleMeaning(rows: seq<Row>, addr: nat, range: Range)
    requires Valid(rows) && range.min <= range.max
    ensures Valid(AddSample(rows, addr, range))
    ensures forall t: Taddr4 :: Has(AddSample(rows, addr, range), t) <==>
              Has(rows, t) || (t.l3 == addr && Contains(range, t.l4))
  {
    var n, rows2 := FindRow(rows, addr), AddSample(rows, addr, range);
    var ports0 := if n < |rows| then rows[n].ports else [];
    AddPortsCanonical(ports0, range);
    forall t: Taddr4
      ensures Has(rows2, t) <==> Has(rows, t) || (t.l3 == addr && Contains(range, t.l4))
    {
      AddPortsIsUnion(ports0, range, t.l4);
      RowReplaced(rows, rows2, n, addr, t);
    }
  }

  /** Looking a transport address up in a table that differs from another in row `n` only. */
  lemma RowReplaced(rows: seq<Row>, rows2: seq<Row>, n: nat, addr: nat, t: Taddr4)
    requires n == FindRow(rows, addr)
    requires forall i, j :: 0 <= i < j < |rows| ==> rows[i].addr != rows[j].addr
    requires n < |rows2| && rows2[n].addr == addr
    requires |rows2| == (if n < |rows| then |rows| else |rows| + 1)
    requires forall i :: 0 <= i < |rows| && i != n ==> rows2[i] == rows[i]
    ensures t.l3 != addr ==> (Has(rows2, t) <==> Has(rows, t))
    ensures t.l3 == addr ==> (Has(rows2, t) <==> HasPort(rows2[n].ports, t.l4))
    ensures t.l3 == addr ==> (Has(rows, t) <==> n < |rows| && HasPort(rows[n].ports, t.l4))
  {
    if t.l3 != addr {
      if i :| 0 <= i < |rows| && rows[i].addr == t.l3 && HasPort(rows[i].ports, t.l4) {
        assert rows2[i] == rows[i];
      }
    }
  }

  ghost predicate CanonicalAt(rows: seq<Row>, addr: nat) {
    forall i :: 0 <= i < |rows| && rows[i].addr == addr ==> Canonical(rows[i].ports)
  }

  ghost predicate SameElsewhere(was: seq<Row>, now: seq<Row>, addr: nat) {
    forall i :: 0 <= i < |now| && now[i].addr != addr ==> now[i] in was
  }

  /** Rows of other addresses are rows that were there. */
  ghost predicate LeftAlone(was: seq<Row>, now: seq<Row>, addrs: seq<nat>) {
    forall i :: 0 <= i < |now| && now[i].addr !in addrs ==> now[i] in was
  }

  lemma LeftAloneFurther(was: seq<Row>, mid: seq<Row>, now: seq<Row>, addrs: seq<nat>, addr: nat)
    requires LeftAlone(was, mid, addrs) && SameElsewhere(mid, now, addr)
    ensures LeftAlone(was, now, addrs + [addr])
  {
    forall i | 0 <= i < |now| && now[i].addr !in addrs + [addr] ensures now[i] in was {
      assert addr in addrs + [addr];
      assert forall a :: a in addrs ==> a in addrs + [addr];
      var j :| 0 <= j < |mid| && mid[j] == now[i];
    }
  }

  /** Set difference: the ports of `rm` are gone from the addresses, and no others. */
  ghost predicate Without(was: seq<Row>, now: seq<Row>, addrs: seq<nat>, rm: Range) {
    forall t: Taddr4 :: Has(now, t) <==> Has(was, t) && !(t.l3 in addrs && Contains(rm, t.l4))
  }

  /** What inverted bounds do: the rows of the addresses that have a struck range are not canonical any more. */
  ghost predicate Spoilt(was: seq<Row>, now: seq<Row>, addrs: seq<nat>, rm: Range) {
    && |now| == |was|
    && forall i :: 0 <= i < |was| ==>
         && now[i].addr == was[i].addr
         && if was[i].addr in addrs && AnyStruck(was[i].ports, rm) then !Canonical(now[i].ports) else now[i] == was[i]
  }

  lemma SpoiltFurther(was: seq<Row>, mid: seq<Row>, now: seq<Row>, addrs: seq<nat>, addr: nat, rm: Range)
    requires Spoilt(was, mid, addrs, rm) && Spoilt(mid, now, [addr], rm) && addr !in addrs
    ensures Spoilt(was, now, addrs + [addr], rm)
  {
    hide Canonical, AnyStruck;
    forall i | 0 <= i < |was|
      ensures if was[i].addr in addrs + [addr] && AnyStruck(was[i].ports, rm) then !Canonical(now[i].ports)
              else now[i] == was[i]
    {
      assert was[i].addr in addrs + [addr] <==> was[i].addr in addrs || was[i].addr == addr;
      assert mid[i].addr in [addr] <==> mid[i].addr == addr;
    }
  }

  lemma {:induction false} Pow2Bound(n: nat, m: nat)
    requires n <= m
    ensures Pow2(n) <= Pow2(m)
    decreases m
  {
    if n < m {
      Pow2Bound(n, m - 1);
    }
  }

  lemma AllAddresses()
    ensures Pow2(32) == 0x1_0000_0000
  {
    assert Pow2(8) == 0x100 && Pow2(16) == 0x1_0000 && Pow2(24) == 0x100_0000;
  }

  lemma ModDiffers(a: nat, j: nat, k: nat, m: nat)
    requires j < k < j + m
    ensures (a + j) % m != (a + k) % m
  {
    var p, q := (a + j) / m, (a + k) / m;
    assert q - p <= 0 ==> (q - p) * m <= 0;
    assert q - p >= 1 ==> (q - p) * m >= m;
  }

  /** No address of a prefix comes twice. */
  lemma AddressesDiffer(prefix: Prefix4, k: nat)
    requires prefix.len <= 32 && k < |Addresses(prefix)|
    ensures Addresses(prefix)[k] !in Addresses(prefix)[..k]
  {
    var addrs := Addresses(prefix);
    Pow2Bound(32 - prefix.len, 32);
    AllAddresses();
    forall j | 0 <= j < k ensures addrs[j] != addrs[k] {
      ModDiffers(prefix.address, j, k, 0x1_0000_0000);
    }
  }

  /** The row with its new ports; a row that has lost its last range goes. */
  function RowsAfter(rows: seq<Row>, n: nat, ports: seq<Range>): seq<Row>
    requires n < |rows|
  {
    if ports == [] then rows[..n] + rows[n + 1..] else rows[n := Row(rows[n].addr, ports)]
  }

  lemma SoundRow(rows: seq<Row>, n: nat)
    requires Sound(rows) && n < |rows|
    ensures CountsRight(rows[n].ports) && OneRowEach(rows) && (Valid(rows) ==> Canonical(rows[n].ports))
  {
  }

  lemma RowsWith(rows: seq<Row>, n: nat, rm: Range, ports: seq<Range>)
    requires Sound(rows) && n < |rows| && CountsRight(ports)
    ensures Sound(RowsAfter(rows, n, ports)) && SameElsewhere(rows, RowsAfter(rows, n, ports), rows[n].addr)
  {
    hide CountsRight;
  }

  lemma RowWithout(rows: seq<Row>, rows': seq<Row>, n: nat, rm: Range)
    requires n < |rows|
    requires forall t: Taddr4 :: Has(rows', t) <==> Has(rows, t) && !(t.l3 == rows[n].addr && Contains(rm, t.l4))
    ensures Without(rows, rows', [rows[n].addr], rm)
  {
    hide Has;
  }

  lemma RowSpoilt(rows: seq<Row>, n: nat, rm: Range, ports: seq<Range>)
    requires Sound(rows) && n < |rows|
    requires Canonical(rows[n].ports) && rm.max < rm.min ==>
               if AnyStruck(rows[n].ports, rm) then !Canonical(ports) && |ports| >= 2 else ports == rows[n].ports
    ensures rm.max < rm.min && CanonicalAt(rows, rows[n].addr) ==>
              Spoilt(rows, RowsAfter(rows, n, ports), [rows[n].addr], rm)
  {
    hide CountsRight, Canonical, AnyStruck;
  }

  lemma NoRow(rows: seq<Row>, addr: nat, rm: Range)
    requires forall i :: 0 <= i < |rows| ==> rows[i].addr != addr
    ensures Without(rows, rows, [addr], rm) && Spoilt(rows, rows, [addr], rm) && SameElsewhere(rows, rows, addr)
  {
    hide HasPort, Canonical, AnyStruck;
  }

  lemma RmOneMeaning(rows: seq<Row>, n: nat, rm: Range, ports: seq<Range>)
    requires OneRowEach(rows) && n < |rows| && Difference(rows[n].ports, rm, ports)
    ensures var rows2 := RowsAfter(rows, n, ports);
            && (Valid(rows) && Canonical(ports) ==> Valid(rows2))
            && forall t: Taddr4 :: Has(rows2, t) <==> Has(rows, t) && !(t.l3 == rows[n].addr && Contains(rm, t.l4))
  {
    var addr := rows[n].addr;
    var updated := rows[n := Row(addr, ports)];
    var rows2 := if ports == [] then rows[..n] + rows[n + 1..] else updated;
    forall t: Taddr4
      ensures Has(rows2, t) <==> Has(rows, t) && !(t.l3 == addr && Contains(rm, t.l4))
    {
      assert FindRow(rows, addr) == n;
      RowReplaced(rows, updated, n, addr, t);
      if ports == [] {
        RowDropped(updated, n, t);
        assert rows2 == updated[..n] + updated[n + 1..];
      }
    }
  }

  lemma RowDropped(rows: seq<Row>, n: nat, t: Taddr4)
    requires n < |rows| && rows[n].ports == []
    ensures Has(rows[..n] + rows[n + 1..], t) <==> Has(rows, t)
  {
    var rows2 := rows[..n] + rows[n + 1..];
    if i :| 0 <= i < |rows| && rows[i].addr == t.l3 && HasPort(rows[i].ports, t.l4) {
      assert i < n ==> rows2[i] == rows[i];
      assert i > n ==> rows2[i - 1] == rows[i];
    }
  }

  /** pool4table_add is set union with the addresses it got to, and keeps the canonical form. */
  lemma {:induction false} AddEachMeaning(rows: seq<Row>, addrs: seq<nat>, range: Range)
    requires Valid(rows) && range.min <= range.max
    ensures Valid(AddEach(rows, addrs, range))
    ensures forall t: Taddr4 :: Has(AddEach(rows, addrs, range), t) <==>
              Has(rows, t) || (t.l3 in addrs && Contains(range, t.l4))
    decreases |addrs|
  {
    if addrs == [] {
    } else {
      var n := |addrs| - 1;
      AddEachMeaning(rows, addrs[..n], range);
      AddSampleMeaning(AddEach(rows, addrs[..n], range), addrs[n], range);
      assert addrs == addrs[..n] + [addrs[n]];
    }
  }

  /** Some row owns a range without ports, and nothing that could absorb it. */
  ghost predicate HasEmptyRange(rows: seq<Row>) {
    exists i :: 0 <= i < |rows| && EmptyAmong(rows[i].ports)
  }

  /** The address owns port 0 or 1. */
  ghost predicate LowPort(rows: seq<Row>, addr: nat) {
    var n := FindRow(rows, addr);
    n < |rows| && exists k :: 0 <= k < |rows[n].ports| && rows[n].ports[k].min <= 1
  }

  lemma EmptyRangeStays(rows: seq<Row>, addr: nat)
    requires HasEmptyRange(rows) || (Valid(rows) && !LowPort(rows, addr))
    ensures HasEmptyRange(AddSample(rows, addr, NO_PORTS))
  {
    var n, rows' := FindRow(rows, addr), AddSample(rows, addr, NO_PORTS);
    if i :| 0 <= i < |rows| && EmptyAmong(rows[i].ports) {
      EmptyStays(rows[i].ports);
      assert EmptyAmong(rows'[i].ports);
    } else {
      EmptyStays(if n < |rows| then rows[n].ports else []);
      assert EmptyAmong(rows'[n].ports);
    }
  }

  lemma EmptyRangeAbsorbed(rows: seq<Row>, addr: nat)
    requires Valid(rows) && LowPort(rows, addr)
    ensures Valid(AddSample(rows, addr, NO_PORTS))
    ensures forall a: nat :: LowPort(AddSample(rows, addr, NO_PORTS), a) <==> LowPort(rows, a)
  {
    var n, rows' := FindRow(rows, addr), AddSample(rows, addr, NO_PORTS);
    var rs := rows[n].ports;
    AddNoPortsCanonical(rs);
    var u := Untouched(rs, NO_PORTS);
    assert rows'[n].ports[|u|].min <= 1;
    forall a: nat ensures LowPort(rows', a) <==> LowPort(rows, a) {
      SameRow(rows, rows', a);
    }
  }

  lemma SameRow(rows: seq<Row>, rows': seq<Row>, addr: nat)
    requires |rows| == |rows'| && forall i :: 0 <= i < |rows| ==> rows[i].addr == rows'[i].addr
    ensures FindRow(rows, addr) == FindRow(rows', addr)
  {
    if rows != [] && rows[0].addr != addr {
      SameRow(rows[1..], rows'[1..], addr);
    }
  }

  /**
   The requests that break the canonical form: port 0 alone, for TCP or UDP. Adding that
   to a valid table leaves a valid table exactly if every address already owns port 0 or 1.
   */
  lemma {:induction false} AddNoPortsValidIff(rows: seq<Row>, addrs: seq<nat>)
    requires Valid(rows)
    ensures Valid(AddEach(rows, addrs, NO_PORTS)) <==> forall i :: 0 <= i < |addrs| ==> LowPort(rows, addrs[i])
  {
    AddNoPortsOutcome(rows, addrs);
    if HasEmptyRange(AddEach(rows, addrs, NO_PORTS)) {
      var rows' := AddEach(rows, addrs, NO_PORTS);
      var i :| 0 <= i < |rows'| && EmptyAmong(rows'[i].ports);
      var k :| 0 <= k < |rows'[i].ports| && rows'[i].ports[k] == NO_PORTS;
    }
  }

  ghost predicate AllLow(rows: seq<Row>, addrs: seq<nat>) {
    forall i :: 0 <= i < |addrs| ==> LowPort(rows, addrs[i])
  }

  ghost predicate Absorbed(rows: seq<Row>, rows': seq<Row>) {
    Valid(rows') && forall a: nat :: LowPort(rows', a) <==> LowPort(rows, a)
  }

  lemma {:induction false} AddNoPortsOutcome(rows: seq<Row>, addrs: seq<nat>)
    requires Valid(rows)
    ensures AllLow(rows, addrs) ==> Absorbed(rows, AddEach(rows, addrs, NO_PORTS))
    ensures !AllLow(rows, addrs) ==> HasEmptyRange(AddEach(rows, addrs, NO_PORTS))
    decreases |addrs|
  {
    if addrs == [] {
    } else {
      var n := |addrs| - 1;
      var before, last := addrs[..n], addrs[n];
      var rows' := AddEach(rows, before, NO_PORTS);
      AddNoPortsOutcome(rows, before);
      assert AllLow(rows, addrs) <==> AllLow(rows, before) && LowPort(rows, last) by {
        assert addrs == before + [last];
      }
      if AllLow(rows, addrs) {
        EmptyRangeAbsorbed(rows', last);
      } else {
        EmptyRangeStays(rows', last);
      }
    }
  }

  lemma AddSampleNothing(rows: seq<Row>, addr: nat)
    requires Counted(rows)
    ensures Counted(AddSample(rows, addr, NO_PORTS))
    ensures forall t: Taddr4 :: Has(AddSample(rows, addr, NO_PORTS), t) <==> Has(rows, t)
  {
    var n, rows' := FindRow(rows, addr), AddSample(rows, addr, NO_PORTS);
    var was := if n < |rows| then rows[n].ports else [];
    AddPortsCountsRight(was, NO_PORTS);
    forall t: Taddr4 ensures Has(rows', t) <==> Has(rows, t) {
      AddNoPorts(was, t.l4);
      if i :| 0 <= i < |rows| && rows[i].addr == t.l3 && HasPort(rows[i].ports, t.l4) {
        assert rows'[i].addr == t.l3 && HasPort(rows'[i].ports, t.l4);
      }
      if i :| 0 <= i < |rows'| && rows'[i].addr == t.l3 && HasPort(rows'[i].ports, t.l4) {
        assert i < |rows| && rows[i].addr == t.l3 && HasPort(rows[i].ports, t.l4);
      }
    }
  }

  /** Adding no ports to any addresses leaves what the table lists. */
  lemma {:induction false} AddNoPortsHas(rows: seq<Row>, addrs: seq<nat>)
    requires Counted(rows)
    ensures Counted(AddEach(rows, addrs, NO_PORTS))
    ensures forall t: Taddr4 :: Has(AddEach(rows, addrs, NO_PORTS), t) <==> Has(rows, t)
    decreases |addrs|
  {
    if addrs == [] {
    } else {
      var n := |addrs| - 1;
      AddNoPortsHas(rows, addrs[..n]);
      AddSampleNothing(AddEach(rows, addrs[..n], NO_PORTS), addrs[n]);
    }
  }

  lemma NormaliseMeaning(proto: Proto, ports: Range)
    ensures Normalise(proto, ports).min <= Normalise(proto, ports).max || Normalise(proto, ports) == NO_PORTS
    ensures Normalise(proto, ports) == NO_PORTS <==> proto != ICMP && ports == Range(0, 0)
    ensures forall p: nat :: Contains(Normalise(proto, ports), p) <==>
              (Contains(ports, p) || Contains(Range(ports.max, ports.min), p)) && (proto != ICMP ==> p != 0)
  {
  }

  /**
   An accepted pool4table_add is set union with the requested ports (0 excepted for TCP and
   UDP) over the addresses before the first one of too low a scope. It keeps the canonical form, with
   the exception AddNoPortsValidIff is about.
   */
  lemma AddMeaning(rows: seq<Row>, proto: Proto, prefix: Prefix4, ports: Range)
    requires prefix.len <= 32 && Valid(rows)
    ensures var (rows', code) := Add(rows, proto, prefix, ports);
            var addrs := Addresses(prefix)[..GoodScope(Addresses(prefix))];
            var range := Normalise(proto, ports);
            && (code == TooBig ==> rows' == rows)
            && (code != TooBig && !(proto != ICMP && ports == Range(0, 0)) ==>
                  && Valid(rows')
                  && forall t: Taddr4 :: Has(rows', t) <==> Has(rows, t) || (t.l3 in addrs && Contains(range, t.l4)))
            && (code != TooBig && proto != ICMP && ports == Range(0, 0) ==>
                  (Valid(rows') <==> AllLow(rows, addrs)) && forall t: Taddr4 :: Has(rows', t) <==> Has(rows, t))
            && Counted(rows')
  {
    NormaliseMeaning(proto, ports);
    if Fits(rows, prefix, ports) {
      var addrs := Addresses(prefix)[..GoodScope(Addresses(prefix))];
      if proto != ICMP && ports == Range(0, 0) {
        AddNoPortsValidIff(rows, addrs);
        AddNoPortsHas(rows, addrs);
      } else {
        AddEachMeaning(rows, addrs, Normalise(proto, ports));
      }
    }
  }

  lemma {:induction false} AddEachSound(rows: seq<Row>, addrs: seq<nat>, range: Range)
    requires Sound(rows) && range.min <= range.max + 1
    ensures Sound(AddEach(rows, addrs, range))
    decreases |addrs|
  {
    if addrs == [] {
    } else {
      var k := |addrs| - 1;
      AddEachSound(rows, addrs[..k], range);
      var before := AddEach(rows, addrs[..k], range);
      var n := FindRow(before, addrs[k]);
      AddPortsCountsRight(if n < |before| then before[n].ports else [], range);
    }
  }

  /** Whatever is added to whatever table, it stays sound. */
  lemma AddKeepsSound(rows: seq<Row>, proto: Proto, prefix: Prefix4, ports: Range)
    requires prefix.len <= 32 && Sound(rows)
    ensures Sound(Add(rows, proto, prefix, ports).0)
  {
    NormaliseMeaning(proto, ports);
    AddEachSound(rows, Addresses(prefix)[..GoodScope(Addresses(prefix))], Normalise(proto, ports));
  }

  /** Port 0 of 2.0.0.0 for TCP, added to an empty table: a row that owns nothing. */
  lemma AddPortZeroExample()
    ensures Add([], TCP, Prefix4(0x200_0000, 32), Range(0, 0)) == ([Row(0x200_0000, [NO_PORTS])], Ok)
    ensures !Valid([Row(0x200_0000, [NO_PORTS])])
  {
    var prefix := Prefix4(0x200_0000, 32);
    assert AddrCount(prefix) == 1 && CountOf(Range(0, 0)) == 1;
    assert Addresses(prefix) == [0x200_0000] && [0x200_0000][..1] == [0x200_0000] && [0x200_0000][..0] == [];
    assert GoodScope([0x200_0000]) == 1;
    assert AddEach([], [0x200_0000], NO_PORTS) == [Row(0x200_0000, [NO_PORTS])] by {
      assert AddPorts([], NO_PORTS) == [NO_PORTS];
    }
    assert [Row(0x200_0000, [NO_PORTS])][0].ports[0] == NO_PORTS;
  }

  // ------------------------------------------------- iteration: proofs

  function Rotated<T>(s: seq<T>, n: nat): seq<T>
    requires n <= |s|
  {
    s[n..] + s[..n]
  }

  /** `seen` is what a callback saw of `all`: everything, or up to the first element it stopped at. */
  ghost predicate Visited(all: seq<Taddr4>, stop: Taddr4 -> bool, seen: seq<Taddr4>, stopped: bool) {
    && seen <= all
    && (stopped ==> seen != [] && stop(seen[|seen| - 1]))
    && (!stopped ==> seen == all)
    && forall i :: 0 <= i < |seen| - (if stopped then 1 else 0) ==> !stop(seen[i])
  }

  lemma VisitedAppend(a: seq<Taddr4>, b: seq<Taddr4>, stop: Taddr4 -> bool,
                      sa: seq<Taddr4>, sb: seq<Taddr4>, stopped: bool)
    requires Visited(a, stop, sa, false) && Visited(b, stop, sb, stopped)
    ensures Visited(a + b, stop, sa + sb, stopped)
  {
  }

  lemma VisitedExtend(a: seq<Taddr4>, b: seq<Taddr4>, stop: Taddr4 -> bool, seen: seq<Taddr4>)
    requires Visited(a, stop, seen, true)
    ensures Visited(a + b, stop, seen, true)
  {
  }

  /** Stepping over one more range of one row. */
  lemma FlatStep(rows: seq<Row>, i: nat, j: nat)
    requires i < |rows| && j < |rows[i].ports|
    ensures var row := rows[i];
            var here := Flat(rows[..i]) + FlatPorts(row.addr, row.ports[..j]);
            var window := FlatRange(row.addr, row.ports[j]);
            && Flat(rows[..i]) + FlatPorts(row.addr, row.ports[..j + 1]) == here + window
            && here + window <= Flat(rows)
  {
    var row := rows[i];
    assert row.ports[..j + 1][..j] == row.ports[..j];
    FlatPortsPrefix(row.addr, row.ports, j + 1);
    FlatPrefix(rows, i + 1);
    assert rows[..i + 1][..i] == rows[..i];
  }

  lemma {:induction false} FlatPortsPrefix(addr: nat, rs: seq<Range>, j: nat)
    requires j <= |rs|
    ensures FlatPorts(addr, rs[..j]) <= FlatPorts(addr, rs)
    decreases |rs|
  {
    if j < |rs| {
      var n := |rs| - 1;
      assert rs[..n][..j] == rs[..j];
      FlatPortsPrefix(addr, rs[..n], j);
    } else {
      assert rs[..j] == rs;
    }
  }

  lemma {:induction false} FlatPrefix(rows: seq<Row>, i: nat)
    requires i <= |rows|
    ensures Flat(rows[..i]) <= Flat(rows)
    decreases |rows|
  {
    if i < |rows| {
      var n := |rows| - 1;
      assert rows[..n][..i] == rows[..i];
      FlatPrefix(rows[..n], i);
    } else {
      assert rows[..i] == rows;
    }
  }

  /** Invariant of the first half after walking over `done`. */
  ghost predicate Skipping(done: seq<Taddr4>, offsetMain: nat, stop: Taddr4 -> bool, offset: nat, visited: seq<Taddr4>) {
    && offset == (if |done| <= offsetMain then offsetMain - |done| else 0)
    && visited == (if |done| <= offsetMain then [] else done[offsetMain..])
    && forall i :: 0 <= i < |visited| ==> !stop(visited[i])
  }

  lemma SkippingOver(done: seq<Taddr4>, window: seq<Taddr4>, offsetMain: nat, stop: Taddr4 -> bool, offset: nat,
                     visited: seq<Taddr4>)
    requires Skipping(done, offsetMain, stop, offset, visited)
    requires offset > |window|
    ensures Skipping(done + window, offsetMain, stop, offset - |window|, visited)
  {
  }

  lemma SkippingStep(done: seq<Taddr4>, window: seq<Taddr4>, offsetMain: nat, stop: Taddr4 -> bool, offset: nat,
                     visited: seq<Taddr4>, seen: seq<Taddr4>, stopped: bool, all: seq<Taddr4>)
    requires Skipping(done, offsetMain, stop, offset, visited)
    requires offset <= |window| && Visited(window[offset..], stop, seen, stopped)
    requires done + window <= all && offsetMain <= |all|
    ensures !stopped ==> Skipping(done + window, offsetMain, stop, 0, visited + seen)
    ensures stopped ==> Visited(all[offsetMain..], stop, visited + seen, true)
  {
    var sofar := done + window;
    assert Visited(visited, stop, visited, false);
    VisitedAppend(visited, window[offset..], stop, visited, seen, stopped);
    assert visited + window[offset..] == sofar[offsetMain..];
    if stopped {
      assert all[offsetMain..] == sofar[offsetMain..] + all[|sofar|..];
      VisitedExtend(sofar[offsetMain..], all[|sofar|..], stop, visited + seen);
    }
  }

  /** Invariant of the second half after walking over `done`. */
  ghost predicate Counting(done: seq<Taddr4>, offsetMain: nat, stop: Taddr4 -> bool, offset: nat, visited: seq<Taddr4>) {
    && offset + |done| == offsetMain
    && visited == done
    && forall i :: 0 <= i < |visited| ==> !stop(visited[i])
  }

  lemma CountingStep(done: seq<Taddr4>, window: seq<Taddr4>, offsetMain: nat, stop: Taddr4 -> bool, offset: nat,
                     visited: seq<Taddr4>, seen: seq<Taddr4>, stopped: bool, all: seq<Taddr4>)
    requires Counting(done, offsetMain, stop, offset, visited)
    requires var n := if offset < |window| then offset else |window|; Visited(window[0..n], stop, seen, stopped)
    requires done + window <= all && offsetMain <= |all|
    ensures stopped || offset < |window| ==> Visited(all[..offsetMain], stop, visited + seen, stopped)
    ensures !(stopped || offset < |window|) ==> Counting(done + window, offsetMain, stop, offset - |window|, visited + seen)
  {
    var n := if offset < |window| then offset else |window|;
    assert Visited(visited, stop, visited, false);
    VisitedAppend(visited, window[0..n], stop, visited, seen, stopped);
    assert all[..offsetMain][..|done| + n] == visited + window[0..n];
    if stopped {
      assert all[..offsetMain] == (visited + window[0..n]) + all[..offsetMain][|done| + n..];
      VisitedExtend(visited + window[0..n], all[..offsetMain][|done| + n..], stop, visited + seen);
    }
  }

  // ------------------------------------------------- each address exactly once

  ghost predicate Distinct<T(!new)>(s: seq<T>) {
    forall i, j :: 0 <= i < j < |s| ==> s[i] != s[j]
  }

  lemma DistinctAppend<T(!new)>(a: seq<T>, b: seq<T>)
    requires Distinct(a) && Distinct(b)
    requires forall i, j :: 0 <= i < |a| && 0 <= j < |b| ==> a[i] != b[j]
    ensures Distinct(a + b)
  {
  }

  lemma {:induction false} FlatPortsMembers(addr: nat, rs: seq<Range>, t: Taddr4)
    requires CountsRight(rs)
    ensures t in FlatPorts(addr, rs) <==> t.l3 == addr && HasPort(rs, t.l4)
  {
    if rs == [] {
    } else {
      var n := |rs| - 1;
      var before, r := rs[..n], rs[n];
      FlatPortsMembers(addr, before, t);
      HasAppend(before, [r], t.l4);
      HasSingle(r, t.l4);
      assert rs == before + [r];
      if t.l3 == addr && Contains(r, t.l4) {
        assert FlatRange(addr, r)[t.l4 - r.min] == t;
      }
    }
  }

  /** The enumeration lists exactly the transport addresses of the table. */
  lemma {:induction false} FlatMembers(rows: seq<Row>, t: Taddr4)
    requires Counted(rows)
    ensures t in Flat(rows) <==> Has(rows, t)
  {
    hide FlatPorts, HasPort, CountsRight;
    if rows == [] {
    } else {
      var n := |rows| - 1;
      var before, row := rows[..n], rows[n];
      FlatMembers(before, t);
      FlatPortsMembers(row.addr, row.ports, t);
      if i :| 0 <= i < |before| && before[i].addr == t.l3 && HasPort(before[i].ports, t.l4) {
        assert rows[i] == before[i];
      }
      if i :| 0 <= i < |rows| && rows[i].addr == t.l3 && HasPort(rows[i].ports, t.l4) {
        assert i < n ==> before[i] == rows[i];
      }
    }
  }

  lemma {:induction false} FlatPortsDistinct(addr: nat, rs: seq<Range>)
    requires Canonical(rs)
    ensures Distinct(FlatPorts(addr, rs))
  {
    if rs == [] {
    } else {
      var n := |rs| - 1;
      var before, r := rs[..n], rs[n];
      FlatPortsDistinct(addr, before);
      var a, b := FlatPorts(addr, before), FlatRange(addr, r);
      forall i, j | 0 <= i < |a| && 0 <= j < |b| ensures a[i] != b[j] {
        FlatPortsMembers(addr, before, a[i]);
        var k :| 0 <= k < |before| && Contains(before[k], a[i].l4);
        assert before[k] == rs[k] && !Touches(rs[k], rs[n]);
        assert Contains(r, b[j].l4);
      }
      DistinctAppend(a, b);
    }
  }

  lemma {:induction false} FlatDistinct(rows: seq<Row>)
    requires Valid(rows)
    ensures Distinct(Flat(rows))
  {
    if rows == [] {
    } else {
      var n := |rows| - 1;
      var before, row := rows[..n], rows[n];
      FlatDistinct(before);
      FlatPortsDistinct(row.addr, row.ports);
      var a, b := Flat(before), FlatPorts(row.addr, row.ports);
      forall i, j | 0 <= i < |a| && 0 <= j < |b| ensures a[i] != b[j] {
        FlatMembers(before, a[i]);
        FlatPortsMembers(row.addr, row.ports, b[j]);
        var k :| 0 <= k < |before| && before[k].addr == a[i].l3 && HasPort(before[k].ports, a[i].l4);
        assert before[k] == rows[k];
      }
      DistinctAppend(a, b);
    }
  }

  /** A callback that never stops sees every transport address of the table, each exactly once. */
  lemma RotationVisitsAllOnce(rows: seq<Row>, n: nat)
    requires Valid(rows) && n <= |Flat(rows)|
    ensures Distinct(Rotated(Flat(rows), n))
    ensures forall t: Taddr4 :: t in Rotated(Flat(rows), n) <==> Has(rows, t)
  {
    var s := Flat(rows);
    FlatDistinct(rows);
    DistinctAppend(s[n..], s[..n]);
    forall t: Taddr4 ensures t in Rotated(s, n) <==> Has(rows, t) {
      FlatMembers(rows, t);
      assert s == s[..n] + s[n..];
    }
  }

  // ------------------------------------------------- the 32-bit count

  /** Fusing never counts a port twice. */
  lemma {:induction false} AddPortsCount(rs: seq<Range>, range: Range)
    ensures CountAll(AddPorts(rs, range)) <= CountAll(rs) + CountOf(range)
  {
    HullCount(rs, range);
    var u := Untouched(rs, range);
    assert (u + [Hull(rs, range)])[..|u|] == u;
  }

  lemma {:induction false} HullCount(rs: seq<Range>, range: Range)
    ensures CountAll(Untouched(rs, range)) + CountOf(Hull(rs, range)) <= CountAll(rs) + CountOf(range)
  {
    if rs == [] {
    } else {
      var n := |rs| - 1;
      HullCount(rs[..n], range);
      HullContains(rs[..n], range);
      if Touches(rs[n], range) {
        FuseCount(rs[n], range, Hull(rs[..n], range));
      } else {
        var v := Untouched(rs[..n], range);
        assert (v + [rs[n]])[..|v|] == v;
      }
    }
  }

  lemma FuseCount(r: Range, range: Range, h: Range)
    requires Touches(r, range) && h.min <= range.min && range.max <= h.max
    ensures CountOf(Fuse(r, h)) <= CountOf(r) + CountOf(h)
  {
  }

  lemma {:induction false} TotalUpdate(rows: seq<Row>, n: nat, row: Row)
    requires n < |rows|
    ensures Total(rows[n := row]) == Total(rows) - CountAll(rows[n].ports) + CountAll(row.ports)
    decreases |rows|
  {
    var last := |rows| - 1;
    if n < last {
      TotalUpdate(rows[..last], n, row);
      assert rows[n := row][..last] == rows[..last][n := row];
    } else {
      assert rows[n := row][..last] == rows[..last];
    }
  }

  lemma TotalAppend(rows: seq<Row>, row: Row)
    ensures Total(rows + [row]) == Total(rows) + CountAll(row.ports)
  {
    assert (rows + [row])[..|rows|] == rows;
  }

  lemma AddSampleCount(rows: seq<Row>, addr: nat, range: Range)
    ensures Total(AddSample(rows, addr, range)) <= Total(rows) + CountOf(range)
  {
    var n := FindRow(rows, addr);
    if n == |rows| {
      AddPortsCount([], range);
      TotalAppend(rows, Row(addr, AddPorts([], range)));
    } else {
      AddPortsCount(rows[n].ports, range);
      TotalUpdate(rows, n, Row(addr, AddPorts(rows[n].ports, range)));
    }
  }

  /** n times c, by addition. */
  ghost function Times(n: nat, c: nat): nat {
    if n == 0 then 0 else Times(n - 1, c) + c
  }

  lemma {:induction false} TimesIsProduct(n: nat, c: nat)
    ensures Times(n, c) == n * c
  {
    if n == 0 {
    } else {
      TimesIsProduct(n - 1, c);
      OneMore(n - 1, c);
    }
  }

  lemma {:induction false} AddEachCount(rows: seq<Row>, addrs: seq<nat>, range: Range)
    ensures Total(AddEach(rows, addrs, range)) <= Total(rows) + Times(|addrs|, CountOf(range))
    decreases |addrs|
  {
    if addrs == [] {
    } else {
      var n := |addrs| - 1;
      AddEachCount(rows, addrs[..n], range);
      AddSampleCount(AddEach(rows, addrs[..n], range), addrs[n], range);
    }
  }

  lemma OneMore(n: nat, c: nat)
    ensures (n + 1) * c == n * c + c
  {
  }

  lemma AtLeastTwice(n: nat, c: nat, d: nat)
    requires d <= c
    ensures n * d <= n * c
    ensures n >= 2 ==> n * c >= 2 * c
    ensures n == 1 ==> n * c == c
  {
    assert n * c == n * d + n * (c - d);
    if n >= 2 {
      assert n * c == 2 * c + (n - 2) * c;
    }
  }

  lemma {:induction false} DistinctSize<T(!new)>(s: seq<T>)
    requires Distinct(s)
    ensures |set t | t in s| == |s|
  {
    if s != [] {
      var n := |s| - 1;
      DistinctSize(s[..n]);
      assert (set t | t in s) == (set t | t in s[..n]) + {s[n]};
    } else {
      assert (set t | t in s) == {};
    }
  }

  /** The requested transport addresses that the table does not list yet. */
  ghost function Fresh(rows: seq<Row>, addrs: seq<nat>, range: Range): set<Taddr4> {
    set a: nat, p: nat | a in addrs && range.min <= p <= range.max && Taddr4(a, p) !in Flat(rows) :: Taddr4(a, p)
  }

  ghost function Listing(rows: seq<Row>): set<Taddr4> {
    set t | t in Flat(rows)
  }

  /** In a valid table no transport address is counted twice. */
  lemma TotalIsSize(rows: seq<Row>)
    requires Valid(rows)
    ensures Total(rows) == |Listing(rows)|
    ensures forall t: Taddr4 :: t in Listing(rows) <==> Has(rows, t)
  {
    FlatDistinct(rows);
    DistinctSize(Flat(rows));
    FlatCount(rows);
    forall t: Taddr4 ensures t in Listing(rows) <==> Has(rows, t) {
      FlatMembers(rows, t);
    }
  }

  /** The exact count of a valid table after an addition: what it listed, and what is fresh of what was requested. */
  lemma AddEachTotal(rows: seq<Row>, addrs: seq<nat>, range: Range)
    requires Valid(rows) && range.min <= range.max
    ensures Total(AddEach(rows, addrs, range)) == Total(rows) + |Fresh(rows, addrs, range)|
  {
    hide Flat, Has, AddEach, Valid, Total, Counted;
    var rows', more := AddEach(rows, addrs, range), Fresh(rows, addrs, range);
    AddEachMeaning(rows, addrs, range);
    TotalIsSize(rows);
    TotalIsSize(rows');
    var listed, listed' := Listing(rows), Listing(rows');
    forall t: Taddr4 ensures t in listed' <==> t in listed || t in more {
      assert t in more <==> t.l3 in addrs && Contains(range, t.l4) && t !in Flat(rows) by {
        assert t == Taddr4(t.l3, t.l4);
      }
    }
    assert listed' == listed + more && listed !! more;
  }

  /**
   An accepted addition takes the table beyond UINT_MAX transport addresses only if the requested bounds are k+1 and k,
   for which the check counts no ports, and there are more fresh ones than room.
   */
  lemma AddKeepsCountIff(rows: seq<Row>, proto: Proto, prefix: Prefix4, ports: Range)
    requires prefix.len <= 32 && Valid(rows) && Total(rows) <= UINT_MAX
    ensures var addrs := Addresses(prefix)[..GoodScope(Addresses(prefix))];
            Total(Add(rows, proto, prefix, ports).0) <= UINT_MAX <==>
            || ports.min != ports.max + 1
            || Total(rows) + |Fresh(rows, addrs, Normalise(proto, ports))| <= UINT_MAX
  {
    if ports.min != ports.max + 1 {
      AddKeepsCount(rows, proto, prefix, ports);
    } else {
      assert CountOf(ports) == 0 && Total(rows) % 0x1_0000_0000 == Total(rows);
      assert AddrCount(prefix) * CountOf(ports) == 0;
      AddEachTotal(rows, Addresses(prefix)[..GoodScope(Addresses(prefix))], Normalise(proto, ports));
    }
  }

  lemma AddKeepsCount(rows: seq<Row>, proto: Proto, prefix: Prefix4, ports: Range)
    requires prefix.len <= 32
    requires Total(rows) <= UINT_MAX
    requires ports.min != ports.max + 1
    ensures Total(Add(rows, proto, prefix, ports).0) <= UINT_MAX
  {
    var range, n := Normalise(proto, ports), AddrCount(prefix);
    if Fits(rows, prefix, ports) {
      assert Total(rows) + n * CountOf(range) <= UINT_MAX by {
        assert Total(rows) % 0x1_0000_0000 == Total(rows);
        AddedCountFits(n, CountOf(ports), CountOf(range), Total(rows), ports.min <= ports.max);
      }
      var m := GoodScope(Addresses(prefix));
      AddEachCount(rows, Addresses(prefix)[..m], range);
      TimesIsProduct(m, CountOf(range));
      AtLeastTwice(CountOf(range), n, m);
    }
  }

  /** The arithmetic: `c` was checked, `d` is added to each of `n` addresses. */
  lemma AddedCountFits(n: nat, c: nat, d: nat, taken: nat, inOrder: bool)
    requires n > 0 && taken <= UINT_MAX
    requires n * c <= UINT_MAX && n * c + taken <= UINT_MAX
    requires inOrder ==> d <= c
    requires !inOrder ==> c >= 0x1_0000_0000 - 0x1_0000 && d <= 0x1_0000
    ensures taken + n * d <= UINT_MAX
  {
    AtLeastTwice(n, c, if d <= c then d else c);
    AtLeastTwice(n, d, d);
  }

  function FullRow(i: nat): Row {
    Row(0x100_0000 + i, [Range(1, 0xFFFF)])
  }

  function FullRows(n: nat): (rows: seq<Row>)
    ensures |rows| == n && forall i :: 0 <= i < n ==> rows[i] == FullRow(i)
  {
    if n == 0 then [] else FullRows(n - 1) + [FullRow(n - 1)]
  }

  lemma SingleCount(range: Range)
    ensures CountAll([range]) == CountOf(range)
  {
    assert [range][..0] == [];
    assert CountAll([range][..0]) == 0;
  }

  lemma {:induction false} FullRowsCount(n: nat)
    ensures Total(FullRows(n)) == n * 0xFFFF
  {
    if n == 0 {
    } else {
      assert FullRows(n)[..n - 1] == FullRows(n - 1);
      FullRowsCount(n - 1);
      SingleCount(Range(1, 0xFFFF));
    }
  }

  /**
   Such a table, for every pair of such bounds: for bounds k+1 and k the check
   counts no ports at all, and a full table accepts them.
   */
  lemma AddOverflows(proto: Proto, ports: Range) returns (rows: seq<Row>, prefix: Prefix4)
    requires ports.min == ports.max + 1
    ensures prefix.len <= 32
    ensures Valid(rows) && Total(rows) == UINT_MAX
    ensures Total(Add(rows, proto, prefix, ports).0) > UINT_MAX
  {
    prefix := Prefix4(0x200_0000, 32);
    rows := FullTable(0x1_0001);
    var range := Normalise(proto, ports);
    var added := rows + [Row(0x200_0000, [range])];
    assert Total(added) > UINT_MAX by {
      TotalAppend(rows, Row(0x200_0000, [range]));
      SingleCount(range);
    }
    assert AddrCount(prefix) == 1 && CountOf(ports) == 0;
    assert Addresses(prefix) == [0x200_0000];
    assert GoodScope([0x200_0000]) == 1 && [0x200_0000][..1] == [0x200_0000];
    assert AddEach(rows, [0x200_0000], range) == added by {
      assert AddPorts([], range) == [range];
      assert [0x200_0000][..0] == [];
    }
    assert Fits(rows, prefix, ports);
  }

  lemma FullTable(n: nat) returns (rows: seq<Row>)
    requires n <= 0x100_0000
    ensures Valid(rows) && Total(rows) == n * 0xFFFF
    ensures forall i :: 0 <= i < |rows| ==> rows[i].addr < 0x200_0000
  {
    rows := FullRows(n);
    assert Total(rows) == n * 0xFFFF by { FullRowsCount(n); }
    assert Canonical([Range(1, 0xFFFF)]);
  }
}
